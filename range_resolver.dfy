/// The range resolver of the simple prover (`find_ranges`): every occurrence of
/// every private pattern in a transcript becomes a private range, and the gaps
/// between the private ranges, found by one sweep over them sorted by start,
/// become the public ranges that the prover later commits to and discloses.
module RangeResolver {

  /// A transcript byte (`u8`).
  newtype byte = x: int | 0 <= x < 256

  /// A half-open range `[start, end)` of transcript indices (`Range<usize>`).
  datatype Range = Range(start: nat, end: nat)

  // ---------------------------------------------------------------------------
  // Vocabulary
  // ---------------------------------------------------------------------------

  /// Pattern `p` occurs in `t` at index `i`: the window of `|p|` bytes that
  /// starts at `i` fits in `t` and equals `p`.
  predicate Occurs(t: seq<byte>, p: seq<byte>, i: nat)
  {
    i + |p| <= |t| && t[i..i + |p|] == p
  }

  /// `seq.windows(0)` panics, so every pattern handed to the resolver must be
  /// non-empty.
  predicate NonEmptyPatterns(pats: seq<seq<byte>>)
  {
    forall k :: 0 <= k < |pats| ==> |pats[k]| > 0
  }

  /// Position `x` lies inside some range of `rs`.
  ghost predicate Covered(rs: seq<Range>, x: nat)
  {
    exists k :: 0 <= k < |rs| && rs[k].start <= x < rs[k].end
  }

  /// Every range of `rs` is non-empty and ends at or before `n`.
  ghost predicate WithinBounds(rs: seq<Range>, n: nat)
  {
    forall k :: 0 <= k < |rs| ==> rs[k].start < rs[k].end <= n
  }

  ghost predicate SortedByStart(rs: seq<Range>)
  {
    forall i, j :: 0 <= i < j < |rs| ==> rs[i].start <= rs[j].start
  }

  /// The ranges appear in ascending order and every two of them are separated
  /// by a gap of at least one index: disjoint, and never merely adjacent.
  ghost predicate Separated(rs: seq<Range>)
  {
    forall i, j :: 0 <= i < j < |rs| ==> rs[i].end < rs[j].start
  }

  /// `p` occurs somewhere in `d`.
  ghost predicate Contains(d: seq<byte>, p: seq<byte>)
  {
    exists i: nat :: Occurs(d, p, i)
  }

  // ---------------------------------------------------------------------------
  // Matching (prover/simple_prover.rs:122-129)
  // ---------------------------------------------------------------------------

  /// The private ranges that the window scan for `p` pushes for the window
  /// indices below `hi`, in the order it pushes them.
  function MatchesBelow(t: seq<byte>, p: seq<byte>, hi: nat): seq<Range>
    requires hi + |p| <= |t| + 1
  {
    if hi == 0 then []
    else MatchesBelow(t, p, hi - 1)
         + (if Occurs(t, p, hi - 1) then [Range(hi - 1, hi - 1 + |p|)] else [])
  }

  /// The private ranges pushed for one pattern: `t.windows(|p|)` yields the
  /// windows at `0 ..= |t| - |p|`, and nothing when `p` is longer than `t`.
  function PatternMatches(t: seq<byte>, p: seq<byte>): seq<Range>
    requires |p| > 0
  {
    if |p| <= |t| then MatchesBelow(t, p, |t| - |p| + 1) else []
  }

  /// The whole `private_ranges` vector: the matches of each pattern in turn.
  function AllMatches(t: seq<byte>, pats: seq<seq<byte>>): seq<Range>
    requires NonEmptyPatterns(pats)
  {
    if pats == [] then []
    else AllMatches(t, pats[..|pats| - 1]) + PatternMatches(t, pats[|pats| - 1])
  }

  /// Every range the scan below `hi` pushes is an occurrence starting below `hi`.
  lemma {:induction false} MatchesBelowSound(t: seq<byte>, p: seq<byte>, hi: nat)
    requires hi + |p| <= |t| + 1
    ensures forall k :: 0 <= k < |MatchesBelow(t, p, hi)| ==>
              var r := MatchesBelow(t, p, hi)[k];
              r.start < hi && r.end == r.start + |p| && Occurs(t, p, r.start)
  {
    if hi > 0 {
      MatchesBelowSound(t, p, hi - 1);
    }
  }

  /// The scan pushes its ranges by strictly ascending start.
  lemma {:induction false} MatchesBelowAscending(t: seq<byte>, p: seq<byte>, hi: nat)
    requires hi + |p| <= |t| + 1
    ensures forall i, j :: 0 <= i < j < |MatchesBelow(t, p, hi)| ==>
              MatchesBelow(t, p, hi)[i].start < MatchesBelow(t, p, hi)[j].start
  {
    if hi > 0 {
      MatchesBelowSound(t, p, hi - 1);
      MatchesBelowAscending(t, p, hi - 1);
    }
  }

  /// Every occurrence starting below `hi` is pushed.
  lemma {:induction false} MatchesBelowComplete(t: seq<byte>, p: seq<byte>, hi: nat)
    requires hi + |p| <= |t| + 1
    ensures forall i: nat :: i < hi && Occurs(t, p, i) ==> Range(i, i + |p|) in MatchesBelow(t, p, hi)
  {
    if hi > 0 {
      MatchesBelowComplete(t, p, hi - 1);
    }
  }

  /// `r` is the range `[i, i + |p|)` of an occurrence of `p` in `t` at `i`.
  predicate IsMatch(t: seq<byte>, p: seq<byte>, r: Range)
  {
    r.end == r.start + |p| && Occurs(t, p, r.start)
  }

  /// Every range pushed for `p` is an occurrence of `p`.
  lemma PatternMatchesSound(t: seq<byte>, p: seq<byte>)
    requires |p| > 0
    ensures forall r :: r in PatternMatches(t, p) ==> IsMatch(t, p, r)
  {
    if |p| <= |t| {
      var ms := PatternMatches(t, p);
      MatchesBelowSound(t, p, |t| - |p| + 1);
      forall r | r in ms ensures IsMatch(t, p, r) {
        var k :| 0 <= k < |ms| && ms[k] == r;
      }
    }
  }

  /// Every occurrence of `p` is pushed.
  lemma PatternMatchesComplete(t: seq<byte>, p: seq<byte>)
    requires |p| > 0
    ensures forall r :: IsMatch(t, p, r) ==> r in PatternMatches(t, p)
  {
    if |p| <= |t| {
      MatchesBelowComplete(t, p, |t| - |p| + 1);
      forall r | IsMatch(t, p, r) ensures r in PatternMatches(t, p) {
        assert r == Range(r.start, r.start + |p|);
      }
    }
  }

  /// The private ranges pushed for `p` are exactly the occurrences of `p`, and
  /// they are pushed by ascending index.
  lemma PatternMatchesShape(t: seq<byte>, p: seq<byte>)
    requires |p| > 0
    ensures forall r :: r in PatternMatches(t, p) <==> IsMatch(t, p, r)
    ensures forall i, j :: 0 <= i < j < |PatternMatches(t, p)| ==>
              PatternMatches(t, p)[i].start < PatternMatches(t, p)[j].start
  {
    PatternMatchesSound(t, p);
    PatternMatchesComplete(t, p);
    if |p| <= |t| {
      MatchesBelowAscending(t, p, |t| - |p| + 1);
    }
  }

  /// A range is private exactly when it is an occurrence of one of the patterns.
  lemma {:induction false} AllMatchesMembers(t: seq<byte>, pats: seq<seq<byte>>)
    requires NonEmptyPatterns(pats)
    ensures forall r :: r in AllMatches(t, pats) <==>
              exists k :: 0 <= k < |pats| && IsMatch(t, pats[k], r)
  {
    if pats != [] {
      var init, last := pats[..|pats| - 1], pats[|pats| - 1];
      AllMatchesMembers(t, init);
      PatternMatchesSound(t, last);
      PatternMatchesComplete(t, last);
      var head, tail := AllMatches(t, init), PatternMatches(t, last);
      assert AllMatches(t, pats) == head + tail;
      forall r
        ensures r in head + tail <==> exists k :: 0 <= k < |pats| && IsMatch(t, pats[k], r)
      {
        if r in head {
          var k :| 0 <= k < |init| && IsMatch(t, init[k], r);
          assert pats[k] == init[k];
          assert IsMatch(t, pats[k], r);
        } else if r in tail {
          assert IsMatch(t, pats[|pats| - 1], r);
        }
        if exists k :: 0 <= k < |pats| && IsMatch(t, pats[k], r) {
          var k :| 0 <= k < |pats| && IsMatch(t, pats[k], r);
          if k < |pats| - 1 {
            assert init[k] == pats[k];
            assert r in head;
          } else {
            assert r in tail;
          }
        }
      }
    }
  }

  /// Every private range is non-empty and inside the transcript.
  lemma AllMatchesWithinBounds(t: seq<byte>, pats: seq<seq<byte>>)
    requires NonEmptyPatterns(pats)
    ensures WithinBounds(AllMatches(t, pats), |t|)
  {
    AllMatchesMembers(t, pats);
    forall k | 0 <= k < |AllMatches(t, pats)|
      ensures AllMatches(t, pats)[k].start < AllMatches(t, pats)[k].end <= |t|
    {
      var r := AllMatches(t, pats)[k];
      assert r in AllMatches(t, pats);
      var j :| 0 <= j < |pats| && IsMatch(t, pats[j], r);
    }
  }

  // ---------------------------------------------------------------------------
  // Sorting (prover/simple_prover.rs:131-132)
  // ---------------------------------------------------------------------------

  /// Inserts `r` in front of the first range whose start is not smaller: a
  /// range goes before the ranges with an equal start that were inserted
  /// before it (which came later in the input), so the sort below is stable.
  function Insert(r: Range, rs: seq<Range>): seq<Range>
  {
    if rs == [] || r.start <= rs[0].start then [r] + rs
    else [rs[0]] + Insert(r, rs[1..])
  }

  /// `sort_by_key(|r| r.start)`: the standard library's stable sort, given
  /// here as a stable insertion sort.
  function SortByStart(rs: seq<Range>): seq<Range>
  {
    if rs == [] then [] else Insert(rs[0], SortByStart(rs[1..]))
  }

  /// The ranges of `rs` whose start is `key`, in their order in `rs`.
  function WithStart(rs: seq<Range>, key: nat): seq<Range>
  {
    if rs == [] then []
    else (if rs[0].start == key then [rs[0]] else []) + WithStart(rs[1..], key)
  }

  /// Prepending a range that starts no later than any range of a sorted list
  /// keeps it sorted.
  lemma PrependSorted(x: Range, rs: seq<Range>)
    requires SortedByStart(rs)
    requires forall k :: 0 <= k < |rs| ==> x.start <= rs[k].start
    ensures SortedByStart([x] + rs)
  {
    forall i, j | 0 <= i < j < |[x] + rs| ensures ([x] + rs)[i].start <= ([x] + rs)[j].start {
      assert ([x] + rs)[j] == rs[j - 1];
      if i > 0 {
        assert ([x] + rs)[i] == rs[i - 1];
      }
    }
  }

  lemma {:induction false} InsertKeepsSorted(r: Range, rs: seq<Range>)
    requires SortedByStart(rs)
    ensures SortedByStart(Insert(r, rs))
    ensures multiset(Insert(r, rs)) == multiset(rs) + multiset{r}
  {
    if rs == [] || r.start <= rs[0].start {
      PrependSorted(r, rs);
    } else {
      InsertKeepsSorted(r, rs[1..]);
      var tail := Insert(r, rs[1..]);
      assert rs == [rs[0]] + rs[1..];
      assert multiset(tail) == multiset(rs[1..]) + multiset{r};
      forall k | 0 <= k < |tail| ensures rs[0].start <= tail[k].start {
        assert tail[k] in multiset(tail);
        if tail[k] != r {
          assert tail[k] in multiset(rs[1..]);
          var m :| 0 <= m < |rs[1..]| && rs[1..][m] == tail[k];
          assert rs[1..][m] == rs[m + 1];
        }
      }
      PrependSorted(rs[0], tail);
      assert Insert(r, rs) == [rs[0]] + tail;
    }
  }

  /// `WithStart` of a list with a head range.
  lemma WithStartCons(x: Range, rs: seq<Range>, key: nat)
    ensures WithStart([x] + rs, key) == (if x.start == key then [x] else []) + WithStart(rs, key)
  {
    assert ([x] + rs)[0] == x && ([x] + rs)[1..] == rs;
  }

  lemma {:induction false} InsertWithStart(r: Range, rs: seq<Range>, key: nat)
    ensures WithStart(Insert(r, rs), key) == (if r.start == key then [r] else []) + WithStart(rs, key)
  {
    if rs == [] || r.start <= rs[0].start {
      WithStartCons(r, rs, key);
    } else {
      InsertWithStart(r, rs[1..], key);
      WithStartCons(rs[0], Insert(r, rs[1..]), key);
      WithStartCons(rs[0], rs[1..], key);
      assert rs == [rs[0]] + rs[1..];
    }
  }

  /// The sort yields a permutation of its input, ordered by start, that keeps
  /// the input order among ranges with the same start.
  lemma {:induction false} SortByStartCorrect(rs: seq<Range>)
    ensures SortedByStart(SortByStart(rs))
    ensures multiset(SortByStart(rs)) == multiset(rs)
    ensures forall key :: WithStart(SortByStart(rs), key) == WithStart(rs, key)
  {
    if rs != [] {
      SortByStartCorrect(rs[1..]);
      InsertKeepsSorted(rs[0], SortByStart(rs[1..]));
      forall key ensures WithStart(SortByStart(rs), key) == WithStart(rs, key) {
        InsertWithStart(rs[0], SortByStart(rs[1..]), key);
      }
      assert rs == [rs[0]] + rs[1..];
    }
  }

  /// Input already ordered by start comes out of the sort unchanged.
  lemma {:induction false} SortByStartOfSorted(rs: seq<Range>)
    requires SortedByStart(rs)
    ensures SortByStart(rs) == rs
  {
    if rs != [] {
      SortByStartOfSorted(rs[1..]);
      assert rs == [rs[0]] + rs[1..];
    }
  }

  // ---------------------------------------------------------------------------
  // The sweep (prover/simple_prover.rs:134-145)
  // ---------------------------------------------------------------------------

  /// The sweep as written: a public range `[last_end, r.start)` for every strict
  /// gap, then `last_end` takes `r.end` (not `max(last_end, r.end)`), and a
  /// trailing `[last_end, n)` when anything is left.
  function Sweep(rs: seq<Range>, lastEnd: nat, n: nat): seq<Range>
  {
    if rs == [] then (if lastEnd < n then [Range(lastEnd, n)] else [])
    else (if rs[0].start > lastEnd then [Range(lastEnd, rs[0].start)] else [])
         + Sweep(rs[1..], rs[0].end, n)
  }

  function Max(a: nat, b: nat): nat
  {
    if a < b then b else a
  }

  /// The sweep with a monotone `last_end := max(last_end, r.end)`.
  function SweepMerged(rs: seq<Range>, lastEnd: nat, n: nat): seq<Range>
  {
    if rs == [] then (if lastEnd < n then [Range(lastEnd, n)] else [])
    else (if rs[0].start > lastEnd then [Range(lastEnd, rs[0].start)] else [])
         + SweepMerged(rs[1..], Max(lastEnd, rs[0].end), n)
  }

  /// The public ranges `find_ranges` returns, as written.
  function PublicRanges(t: seq<byte>, pats: seq<seq<byte>>): seq<Range>
    requires NonEmptyPatterns(pats)
  {
    Sweep(SortByStart(AllMatches(t, pats)), 0, |t|)
  }

  /// The public ranges with the monotone sweep.
  function PublicRangesMerged(t: seq<byte>, pats: seq<seq<byte>>): seq<Range>
    requires NonEmptyPatterns(pats)
  {
    SweepMerged(SortByStart(AllMatches(t, pats)), 0, |t|)
  }

  lemma CoveredConcat(a: seq<Range>, b: seq<Range>, x: nat)
    ensures Covered(a + b, x) <==> Covered(a, x) || Covered(b, x)
  {
    if Covered(a + b, x) {
      var k :| 0 <= k < |a + b| && (a + b)[k].start <= x < (a + b)[k].end;
      if k >= |a| {
        assert b[k - |a|] == (a + b)[k];
      }
    }
    if Covered(a, x) {
      var k :| 0 <= k < |a| && a[k].start <= x < a[k].end;
      assert (a + b)[k] == a[k];
    }
    if Covered(b, x) {
      var k :| 0 <= k < |b| && b[k].start <= x < b[k].end;
      assert (a + b)[|a| + k] == b[k];
    }
  }

  /// Whatever the private ranges, every public range of the sweep as written
  /// is non-empty and ends within the transcript.
  lemma {:induction false} SweepWithinBounds(rs: seq<Range>, lastEnd: nat, n: nat)
    requires forall k :: 0 <= k < |rs| ==> rs[k].start <= rs[k].end <= n
    ensures WithinBounds(Sweep(rs, lastEnd, n), n)
  {
    if rs != [] {
      SweepWithinBounds(rs[1..], rs[0].end, n);
    }
  }

  /// The tail of a list sorted by start, of non-empty ranges within `n`, is
  /// again such a list, and its ranges start no earlier than the head.
  lemma TailSortedWithin(rs: seq<Range>, n: nat)
    requires rs != [] && SortedByStart(rs) && WithinBounds(rs, n)
    ensures SortedByStart(rs[1..]) && WithinBounds(rs[1..], n)
    ensures forall k :: 0 <= k < |rs[1..]| ==> rs[0].start <= rs[1..][k].start
  {
    forall k | 0 <= k < |rs[1..]| ensures rs[1..][k] == rs[k + 1] {
    }
  }

  /// A range ending before every range of a separated list can head it.
  lemma SeparatedCons(h: Range, rs: seq<Range>)
    requires Separated(rs)
    requires forall k :: 0 <= k < |rs| ==> h.end < rs[k].start
    ensures Separated([h] + rs)
  {
    var hrs := [h] + rs;
    forall i, j | 0 <= i < j < |hrs| ensures hrs[i].end < hrs[j].start {
      assert hrs[j] == rs[j - 1];
      if i > 0 {
        assert hrs[i] == rs[i - 1];
      }
    }
  }

  /// Every public range of the sweep as written starts at `lastEnd` or at the
  /// end of a private range, so above any `m` below all of those.
  lemma {:induction false} SweepStartsAbove(rs: seq<Range>, lastEnd: nat, n: nat, m: nat)
    requires m < lastEnd
    requires forall k :: 0 <= k < |rs| ==> m < rs[k].end
    ensures forall k :: 0 <= k < |Sweep(rs, lastEnd, n)| ==> m < Sweep(rs, lastEnd, n)[k].start
  {
    if rs != [] {
      var head := if rs[0].start > lastEnd then [Range(lastEnd, rs[0].start)] else [];
      assert Sweep(rs, lastEnd, n) == head + Sweep(rs[1..], rs[0].end, n);
      forall k | 0 <= k < |rs[1..]| ensures m < rs[1..][k].end {
        assert rs[1..][k] == rs[k + 1];
      }
      SweepStartsAbove(rs[1..], rs[0].end, n, m);
    }
  }

  /// Over private ranges sorted by start, the sweep as written yields public
  /// ranges that ascend with a gap of at least one byte between neighbours,
  /// even when `last_end` moves backwards.
  lemma {:induction false} SweepSeparatedAsWritten(rs: seq<Range>, lastEnd: nat, n: nat)
    requires SortedByStart(rs) && WithinBounds(rs, n)
    ensures Separated(Sweep(rs, lastEnd, n))
  {
    if rs != [] {
      var pub := Sweep(rs, lastEnd, n);
      var r := rs[0];
      var head := if r.start > lastEnd then [Range(lastEnd, r.start)] else [];
      var rest := Sweep(rs[1..], r.end, n);
      assert pub == head + rest;
      TailSortedWithin(rs, n);
      SweepSeparatedAsWritten(rs[1..], r.end, n);
      if head != [] {
        SweepStartsAbove(rs[1..], r.end, n, r.start);
        SeparatedCons(Range(lastEnd, r.start), rest);
      }
    }
  }

  /// Over private ranges sorted by start, no public range of the sweep as
  /// written holds a whole private range.
  lemma {:induction false} SweepHoldsNoWholeRange(rs: seq<Range>, lastEnd: nat, n: nat)
    requires SortedByStart(rs) && WithinBounds(rs, n)
    ensures forall q, r :: q in Sweep(rs, lastEnd, n) && r in rs ==> !(q.start <= r.start && r.end <= q.end)
  {
    if rs != [] {
      var pub := Sweep(rs, lastEnd, n);
      var r0, tl := rs[0], rs[1..];
      var head := if r0.start > lastEnd then [Range(lastEnd, r0.start)] else [];
      var rest := Sweep(tl, r0.end, n);
      assert pub == head + rest;
      TailSortedWithin(rs, n);
      SweepHoldsNoWholeRange(tl, r0.end, n);
      SweepStartsAbove(tl, r0.end, n, r0.start);
      forall q, r | q in pub && r in rs ensures !(q.start <= r.start && r.end <= q.end) {
        var k :| 0 <= k < |rs| && rs[k] == r;
        if q in head {
          assert r0.start <= r.start < r.end;
        } else if k == 0 {
          var j :| 0 <= j < |rest| && rest[j] == q;
        } else {
          assert tl[k - 1] == r;
        }
      }
    }
  }

  /// Every public range of the monotone sweep is non-empty, starts at or
  /// after `lastEnd` and ends within the transcript.
  lemma {:induction false} SweepMergedBounds(rs: seq<Range>, lastEnd: nat, n: nat)
    requires WithinBounds(rs, n)
    ensures forall k :: 0 <= k < |SweepMerged(rs, lastEnd, n)| ==>
              lastEnd <= SweepMerged(rs, lastEnd, n)[k].start
    ensures WithinBounds(SweepMerged(rs, lastEnd, n), n)
  {
    if rs != [] {
      var r := rs[0];
      var next := Max(lastEnd, r.end);
      var head := if r.start > lastEnd then [Range(lastEnd, r.start)] else [];
      var rest := SweepMerged(rs[1..], next, n);
      assert SweepMerged(rs, lastEnd, n) == head + rest;
      assert r.start < r.end <= n;
      SweepMergedBounds(rs[1..], next, n);
    }
  }

  /// Consecutive public ranges of the monotone sweep leave a non-empty gap.
  lemma {:induction false} SweepMergedSeparated(rs: seq<Range>, lastEnd: nat, n: nat)
    requires WithinBounds(rs, n)
    ensures Separated(SweepMerged(rs, lastEnd, n))
  {
    if rs != [] {
      var pub := SweepMerged(rs, lastEnd, n);
      var r := rs[0];
      var next := Max(lastEnd, r.end);
      var head := if r.start > lastEnd then [Range(lastEnd, r.start)] else [];
      var rest := SweepMerged(rs[1..], next, n);
      assert pub == head + rest;
      assert r.start < r.end;
      SweepMergedSeparated(rs[1..], next, n);
      if head != [] {
        SweepMergedBounds(rs[1..], next, n);
        SeparatedCons(Range(lastEnd, r.start), rest);
      }
    }
  }

  /// Over private ranges sorted by start, the monotone sweep covers exactly
  /// the positions of `[lastEnd, n)` that no private range covers.
  lemma {:induction false} SweepMergedComplement(rs: seq<Range>, lastEnd: nat, n: nat)
    requires SortedByStart(rs)
    requires WithinBounds(rs, n)
    ensures forall x: nat :: Covered(SweepMerged(rs, lastEnd, n), x) <==>
              lastEnd <= x < n && !Covered(rs, x)
  {
    var pub := SweepMerged(rs, lastEnd, n);
    if rs == [] {
      forall x: nat ensures Covered(pub, x) <==> lastEnd <= x < n && !Covered(rs, x) {
        if lastEnd <= x < n {
          assert pub[0].start <= x < pub[0].end;
        }
      }
    } else {
      var r, tl := rs[0], rs[1..];
      var next := Max(lastEnd, r.end);
      var head := if r.start > lastEnd then [Range(lastEnd, r.start)] else [];
      var rest := SweepMerged(tl, next, n);
      assert pub == head + rest;
      assert rs == [r] + tl;
      SweepMergedComplement(tl, next, n);
      forall x: nat ensures Covered(pub, x) <==> lastEnd <= x < n && !Covered(rs, x) {
        CoveredConcat(head, rest, x);
        CoveredConcat([r], tl, x);
        assert Covered([r], x) <==> r.start <= x < r.end;
        if x < r.start {
          // No range of `tl` starts before `r` does.
          forall k | 0 <= k < |tl| ensures x < tl[k].start {
            assert tl[k] == rs[k + 1];
          }
          if lastEnd <= x {
            assert head[0].start <= x < head[0].end;
          }
        }
      }
    }
  }

  /// When each private range ends no earlier than the ones before it, the
  /// sweep as written and the monotone sweep agree.
  lemma {:induction false} SweepAgreesWithMerged(rs: seq<Range>, lastEnd: nat, n: nat)
    requires forall i, j :: 0 <= i < j < |rs| ==> rs[i].end <= rs[j].end
    requires forall k :: 0 <= k < |rs| ==> lastEnd <= rs[k].end
    ensures Sweep(rs, lastEnd, n) == SweepMerged(rs, lastEnd, n)
  {
    if rs != [] {
      SweepAgreesWithMerged(rs[1..], rs[0].end, n);
    }
  }

  lemma CoveredPermutation(a: seq<Range>, b: seq<Range>, x: nat)
    requires multiset(a) == multiset(b)
    ensures Covered(a, x) <==> Covered(b, x)
  {
    if Covered(a, x) {
      var k :| 0 <= k < |a| && a[k].start <= x < a[k].end;
      assert a[k] in multiset(b);
      var m :| 0 <= m < |b| && b[m] == a[k];
    }
    if Covered(b, x) {
      var k :| 0 <= k < |b| && b[k].start <= x < b[k].end;
      assert b[k] in multiset(a);
      var m :| 0 <= m < |a| && a[m] == b[k];
    }
  }

  lemma PermutationWithinBounds(a: seq<Range>, b: seq<Range>, n: nat)
    requires multiset(a) == multiset(b)
    requires WithinBounds(a, n)
    ensures WithinBounds(b, n)
  {
    forall k | 0 <= k < |b| ensures b[k].start < b[k].end <= n {
      assert b[k] in multiset(a);
      var m :| 0 <= m < |a| && a[m] == b[k];
    }
  }

  // ---------------------------------------------------------------------------
  // Properties of the public ranges
  // ---------------------------------------------------------------------------

  /// With the monotone sweep and any list of patterns, the public ranges are
  /// separated, inside the transcript, and cover exactly the positions that no
  /// private range covers.
  lemma PublicRangesMergedComplement(t: seq<byte>, pats: seq<seq<byte>>)
    requires NonEmptyPatterns(pats)
    ensures WithinBounds(PublicRangesMerged(t, pats), |t|)
    ensures Separated(PublicRangesMerged(t, pats))
    ensures forall x: nat :: Covered(PublicRangesMerged(t, pats), x) <==>
              x < |t| && !Covered(AllMatches(t, pats), x)
  {
    var priv := AllMatches(t, pats);
    var sorted := SortByStart(priv);
    AllMatchesWithinBounds(t, pats);
    SortByStartCorrect(priv);
    PermutationWithinBounds(priv, sorted, |t|);
    SweepMergedBounds(sorted, 0, |t|);
    SweepMergedSeparated(sorted, 0, |t|);
    SweepMergedComplement(sorted, 0, |t|);
    forall x: nat ensures Covered(sorted, x) <==> Covered(priv, x) {
      CoveredPermutation(sorted, priv, x);
    }
  }

  /// With the monotone sweep, no public range holds an occurrence of any pattern.
  lemma PublicRangesMergedNoLeak(t: seq<byte>, pats: seq<seq<byte>>)
    requires NonEmptyPatterns(pats)
    ensures forall q, k, i ::
              (q in PublicRangesMerged(t, pats) && 0 <= k < |pats| && q.start <= i && i + |pats[k]| <= q.end)
              ==> !Occurs(t, pats[k], i)
  {
    var pub, priv := PublicRangesMerged(t, pats), AllMatches(t, pats);
    PublicRangesMergedComplement(t, pats);
    AllMatchesMembers(t, pats);
    forall q, k, i | q in pub && 0 <= k < |pats| && q.start <= i && i + |pats[k]| <= q.end
      ensures !Occurs(t, pats[k], i)
    {
      var n :| 0 <= n < |pub| && pub[n] == q;
      assert Covered(pub, i);
      var r := Range(i, i + |pats[k]|);
      forall m | 0 <= m < |priv| ensures priv[m] != r {
        assert !(priv[m].start <= i < priv[m].end);
      }
      assert r !in priv;
      assert !IsMatch(t, pats[k], r);
    }
  }

  /// With a single pattern (the only way the prover calls the resolver) the
  /// private ranges are that pattern's occurrences by ascending index, and the
  /// sweep as written computes the same public ranges as the monotone sweep.
  lemma SinglePatternAgrees(t: seq<byte>, p: seq<byte>)
    requires |p| > 0
    ensures AllMatches(t, [p]) == PatternMatches(t, p)
    ensures PublicRanges(t, [p]) == PublicRangesMerged(t, [p])
  {
    assert [p][..0] == [];
    var ms := PatternMatches(t, p);
    PatternMatchesShape(t, p);
    forall k | 0 <= k < |ms| ensures ms[k].end == ms[k].start + |p| {
      assert ms[k] in ms;
    }
    SortByStartOfSorted(ms);
    SweepAgreesWithMerged(ms, 0, |t|);
  }

  /// The public ranges as written, for a single pattern: non-empty, inside the
  /// transcript, ascending with non-empty gaps, the exact complement of the
  /// private ranges, and free of any occurrence of the pattern.
  lemma PublicRangesSinglePattern(t: seq<byte>, p: seq<byte>)
    requires |p| > 0
    ensures WithinBounds(PublicRanges(t, [p]), |t|)
    ensures Separated(PublicRanges(t, [p]))
    ensures forall x: nat :: Covered(PublicRanges(t, [p]), x) <==>
              x < |t| && !Covered(PatternMatches(t, p), x)
    ensures forall q, i :: (q in PublicRanges(t, [p]) && q.start <= i && i + |p| <= q.end) ==>
              !Occurs(t, p, i)
  {
    SinglePatternAgrees(t, p);
    PublicRangesMergedComplement(t, [p]);
    PublicRangesMergedNoLeak(t, [p]);
    assert [p][0] == p;
  }

  /// Whatever the patterns, each public range as written is non-empty and
  /// inside the transcript.
  lemma PublicRangesWithinBounds(t: seq<byte>, pats: seq<seq<byte>>)
    requires NonEmptyPatterns(pats)
    ensures WithinBounds(PublicRanges(t, pats), |t|)
  {
    var priv := AllMatches(t, pats);
    var sorted := SortByStart(priv);
    AllMatchesWithinBounds(t, pats);
    SortByStartCorrect(priv);
    PermutationWithinBounds(priv, sorted, |t|);
    SweepWithinBounds(sorted, 0, |t|);
  }

  /// Whatever the patterns, the public ranges as written ascend with a gap of
  /// at least one byte between neighbours.
  lemma PublicRangesSeparated(t: seq<byte>, pats: seq<seq<byte>>)
    requires NonEmptyPatterns(pats)
    ensures Separated(PublicRanges(t, pats))
  {
    var priv := AllMatches(t, pats);
    var sorted := SortByStart(priv);
    AllMatchesWithinBounds(t, pats);
    SortByStartCorrect(priv);
    PermutationWithinBounds(priv, sorted, |t|);
    SweepSeparatedAsWritten(sorted, 0, |t|);
  }

  /// Whatever the patterns, no public range as written holds an occurrence of
  /// any of them: such an occurrence would be a private range lying wholly
  /// inside a public one.
  lemma PublicRangesNoLeak(t: seq<byte>, pats: seq<seq<byte>>)
    requires NonEmptyPatterns(pats)
    ensures forall q, k, i ::
              (q in PublicRanges(t, pats) && 0 <= k < |pats| && q.start <= i && i + |pats[k]| <= q.end)
              ==> !Occurs(t, pats[k], i)
  {
    var priv := AllMatches(t, pats);
    var sorted := SortByStart(priv);
    AllMatchesWithinBounds(t, pats);
    AllMatchesMembers(t, pats);
    SortByStartCorrect(priv);
    PermutationWithinBounds(priv, sorted, |t|);
    SweepHoldsNoWholeRange(sorted, 0, |t|);
    forall q, k, i | q in PublicRanges(t, pats) && 0 <= k < |pats| && q.start <= i && i + |pats[k]| <= q.end
      ensures !Occurs(t, pats[k], i)
    {
      var r := Range(i, i + |pats[k]|);
      assert r !in sorted;
      assert r !in multiset(sorted);
      assert r !in priv;
      assert !IsMatch(t, pats[k], r);
    }
  }

  /// When no pattern occurs anywhere, nothing is private and the whole
  /// transcript is one public range (none when it is empty).
  lemma NoMatchesPublicIsWhole(t: seq<byte>, pats: seq<seq<byte>>)
    requires NonEmptyPatterns(pats)
    requires forall k, i: nat :: 0 <= k < |pats| ==> !Occurs(t, pats[k], i)
    ensures AllMatches(t, pats) == []
    ensures PublicRanges(t, pats) == if |t| > 0 then [Range(0, |t|)] else []
  {
    AllMatchesMembers(t, pats);
    assert AllMatches(t, pats) != [] ==> AllMatches(t, pats)[0] in AllMatches(t, pats);
  }

  /// In particular with no pattern, or only patterns longer than the
  /// transcript, since those have no window to match.
  lemma NoWindowPublicIsWhole(t: seq<byte>, pats: seq<seq<byte>>)
    requires NonEmptyPatterns(pats)
    requires forall k :: 0 <= k < |pats| ==> |pats[k]| > |t|
    ensures AllMatches(t, pats) == []
    ensures PublicRanges(t, pats) == if |t| > 0 then [Range(0, |t|)] else []
  {
    NoMatchesPublicIsWhole(t, pats);
  }

  /// When the occurrences of the single pattern cover the whole transcript,
  /// nothing is public.
  lemma FullyCoveredPublicIsEmpty(t: seq<byte>, p: seq<byte>)
    requires |p| > 0
    requires forall x: nat :: x < |t| ==> Covered(PatternMatches(t, p), x)
    ensures PublicRanges(t, [p]) == []
  {
    PublicRangesSinglePattern(t, p);
    FirstRangeCovered(PublicRanges(t, [p]), |t|);
  }

  /// A non-empty list of non-empty ranges covers the start of its first range.
  lemma FirstRangeCovered(rs: seq<Range>, n: nat)
    requires WithinBounds(rs, n)
    ensures rs != [] ==> Covered(rs, rs[0].start)
  {
    if rs != [] {
      assert rs[0].start < rs[0].end;
    }
  }

  /// A pattern equal to the whole (non-empty) transcript: one private range,
  /// nothing public.
  lemma PatternIsTranscript(t: seq<byte>)
    requires |t| > 0
    ensures AllMatches(t, [t]) == [Range(0, |t|)]
    ensures PublicRanges(t, [t]) == []
  {
    SinglePatternAgrees(t, t);
    assert PatternMatches(t, t) == MatchesBelow(t, t, 1);
    assert Occurs(t, t, 0);
    assert MatchesBelow(t, t, 1) == [Range(0, |t|)];
    forall x: nat | x < |t| ensures Covered(PatternMatches(t, t), x) {
      assert PatternMatches(t, t)[0] == Range(0, |t|);
    }
    FullyCoveredPublicIsEmpty(t, t);
  }

  /// Overlapping occurrences: "aa" in "aaaa" is private at [0,2), [1,3) and
  /// [2,4), all listed, and nothing is public.
  lemma OverlappingMatches()
    ensures AllMatches([97, 97, 97, 97], [[97, 97]]) == [Range(0, 2), Range(1, 3), Range(2, 4)]
    ensures PublicRanges([97, 97, 97, 97], [[97, 97]]) == []
  {
    var t: seq<byte>, p: seq<byte> := [97, 97, 97, 97], [97, 97];
    var ms := [Range(0, 2), Range(1, 3), Range(2, 4)];
    OverlappingOccurrences();
    SinglePatternAgrees(t, p);
    OverlappingSweep();
  }

  /// The sort and the sweep of the overlapping occurrences.
  lemma OverlappingSweep()
    ensures SortByStart([Range(0, 2), Range(1, 3), Range(2, 4)]) == [Range(0, 2), Range(1, 3), Range(2, 4)]
    ensures Sweep([Range(0, 2), Range(1, 3), Range(2, 4)], 0, 4) == []
  {
    SortByStartOfSorted([Range(0, 2), Range(1, 3), Range(2, 4)]);
  }

  /// The windows of "aaaa" equal to "aa": every index but the last.
  lemma OverlappingOccurrences()
    ensures PatternMatches([97, 97, 97, 97], [97, 97]) == [Range(0, 2), Range(1, 3), Range(2, 4)]
  {
    var t: seq<byte>, p: seq<byte> := [97, 97, 97, 97], [97, 97];
    OccursAt(t, p, 0);
    OccursAt(t, p, 1);
    OccursAt(t, p, 2);
    assert MatchesBelow(t, p, 1) == [Range(0, 2)];
    assert MatchesBelow(t, p, 2) == [Range(0, 2), Range(1, 3)];
  }

  /// The no-leak guarantee holds range by range, not for the disclosed bytes
  /// joined together: in "aabb" with pattern "ab" the public ranges [0,1) and
  /// [3,4) hold "a" and "b".
  lemma JoinedPublicBytesMayFormPattern()
    ensures PublicRanges([97, 97, 98, 98], [[97, 98]]) == [Range(0, 1), Range(3, 4)]
  {
    var t: seq<byte>, p: seq<byte> := [97, 97, 98, 98], [97, 98];
    MismatchAt(t, p, 0, 1);
    OccursAt(t, p, 1);
    MismatchAt(t, p, 2, 0);
    assert MatchesBelow(t, p, 1) == [];
    assert MatchesBelow(t, p, 2) == [Range(1, 3)];
    assert MatchesBelow(t, p, 3) == [Range(1, 3)];
    SinglePatternAgrees(t, p);
  }

  /// With two patterns, a later match nested inside an earlier one moves
  /// `last_end` backwards: in "abcdef" with patterns "abcd" and "b" the public
  /// range [2,6) overlaps the private range [0,4) and discloses "cd"; the
  /// monotone sweep gives [4,6).
  lemma NestedMatchLeaks()
    ensures AllMatches([97, 98, 99, 100, 101, 102], [[97, 98, 99, 100], [98]]) == [Range(0, 4), Range(1, 2)]
    ensures PublicRanges([97, 98, 99, 100, 101, 102], [[97, 98, 99, 100], [98]]) == [Range(2, 6)]
    ensures PublicRangesMerged([97, 98, 99, 100, 101, 102], [[97, 98, 99, 100], [98]]) == [Range(4, 6)]
  {
    var t: seq<byte> := [97, 98, 99, 100, 101, 102];
    var p1: seq<byte>, p2: seq<byte> := [97, 98, 99, 100], [98];
    var pats := [p1, p2];
    NestedOccurrences();
    assert pats[..1] == [p1] && [p1][..0] == [];
    assert AllMatches(t, [p1]) == [Range(0, 4)];
    assert AllMatches(t, pats) == [Range(0, 4), Range(1, 2)];
    NestedSweep();
  }

  /// The occurrences of "abcd" and of "b" in "abcdef".
  lemma NestedOccurrences()
    ensures PatternMatches([97, 98, 99, 100, 101, 102], [97, 98, 99, 100]) == [Range(0, 4)]
    ensures PatternMatches([97, 98, 99, 100, 101, 102], [98]) == [Range(1, 2)]
  {
    var t: seq<byte> := [97, 98, 99, 100, 101, 102];
    var p1: seq<byte> := [97, 98, 99, 100];
    OccursAt(t, p1, 0);
    MismatchAt(t, p1, 1, 0);
    MismatchAt(t, p1, 2, 0);
    assert MatchesBelow(t, p1, 3) == [Range(0, 4)];
    SingleByteOccurrences();
  }

  /// The one occurrence of "b" in "abcdef".
  lemma SingleByteOccurrences()
    ensures PatternMatches([97, 98, 99, 100, 101, 102], [98]) == [Range(1, 2)]
  {
    var t: seq<byte>, p: seq<byte> := [97, 98, 99, 100, 101, 102], [98];
    MismatchAt(t, p, 0, 0);
    OccursAt(t, p, 1);
    MismatchAt(t, p, 2, 0);
    MismatchAt(t, p, 3, 0);
    MismatchAt(t, p, 4, 0);
    MismatchAt(t, p, 5, 0);
    assert MatchesBelow(t, p, 2) == [Range(1, 2)];
    assert MatchesBelow(t, p, 3) == [Range(1, 2)];
    assert MatchesBelow(t, p, 4) == [Range(1, 2)];
    assert MatchesBelow(t, p, 5) == [Range(1, 2)];
  }

  /// The sort and both sweeps of the nested occurrences.
  lemma NestedSweep()
    ensures SortByStart([Range(0, 4), Range(1, 2)]) == [Range(0, 4), Range(1, 2)]
    ensures Sweep([Range(0, 4), Range(1, 2)], 0, 6) == [Range(2, 6)]
    ensures SweepMerged([Range(0, 4), Range(1, 2)], 0, 6) == [Range(4, 6)]
  {
    assert SortByStart([Range(1, 2)]) == [Range(1, 2)];
  }

  /// With several patterns, private ranges covering every byte can still
  /// leave a public range: on "abcd" with "abcd" and "b", the sweep as written
  /// returns `[2,4)`.
  lemma CoveredYetPublic()
    ensures forall i :: 0 <= i < 4 ==> Covered(AllMatches([97, 98, 99, 100], [[97, 98, 99, 100], [98]]), i)
    ensures PublicRanges([97, 98, 99, 100], [[97, 98, 99, 100], [98]]) == [Range(2, 4)]
  {
    var priv := [Range(0, 4), Range(1, 2)];
    CoveredYetPublicPrivate();
    forall i | 0 <= i < 4 ensures Covered(priv, i) {
      assert priv[0].start <= i < priv[0].end;
    }
    CoveredYetPublicSweep();
  }

  /// The private ranges of "abcd" with "abcd" and "b".
  lemma CoveredYetPublicPrivate()
    ensures AllMatches([97, 98, 99, 100], [[97, 98, 99, 100], [98]]) == [Range(0, 4), Range(1, 2)]
  {
    var t: seq<byte> := [97, 98, 99, 100];
    var p1: seq<byte>, p2: seq<byte> := [97, 98, 99, 100], [98];
    var pats := [p1, p2];
    CoveredYetPublicOccurrences();
    assert pats[..1] == [p1] && [p1][..0] == [];
    assert AllMatches(t, [p1]) == [Range(0, 4)];
  }

  /// The sort and the sweep as written of the private ranges of "abcd".
  lemma CoveredYetPublicSweep()
    ensures SortByStart([Range(0, 4), Range(1, 2)]) == [Range(0, 4), Range(1, 2)]
    ensures Sweep([Range(0, 4), Range(1, 2)], 0, 4) == [Range(2, 4)]
  {
    assert SortByStart([Range(1, 2)]) == [Range(1, 2)];
  }

  /// The occurrences of "abcd" and of "b" in "abcd".
  lemma CoveredYetPublicOccurrences()
    ensures PatternMatches([97, 98, 99, 100], [97, 98, 99, 100]) == [Range(0, 4)]
    ensures PatternMatches([97, 98, 99, 100], [98]) == [Range(1, 2)]
  {
    var t: seq<byte> := [97, 98, 99, 100];
    assert t[0..4] == t;
    assert MatchesBelow(t, t, 1) == [Range(0, 4)];
    CoveredYetPublicSingleByte();
  }

  /// The one occurrence of "b" in "abcd".
  lemma CoveredYetPublicSingleByte()
    ensures PatternMatches([97, 98, 99, 100], [98]) == [Range(1, 2)]
  {
    var t: seq<byte>, p: seq<byte> := [97, 98, 99, 100], [98];
    MismatchAt(t, p, 0, 0);
    OccursAt(t, p, 1);
    MismatchAt(t, p, 2, 0);
    MismatchAt(t, p, 3, 0);
    assert MatchesBelow(t, p, 2) == [Range(1, 2)];
    assert MatchesBelow(t, p, 3) == [Range(1, 2)];
  }

  /// `p` occurs at `i` when it agrees with `t` byte by byte there.
  lemma OccursAt(t: seq<byte>, p: seq<byte>, i: nat)
    requires i + |p| <= |t|
    requires forall j :: 0 <= j < |p| ==> t[i + j] == p[j]
    ensures Occurs(t, p, i)
  {
    assert t[i..i + |p|] == p;
  }

  /// One differing byte rules out an occurrence.
  lemma MismatchAt(t: seq<byte>, p: seq<byte>, i: nat, j: nat)
    requires j < |p| && i + j < |t|
    requires t[i + j] != p[j]
    ensures !Occurs(t, p, i)
  {
    if i + |p| <= |t| {
      assert t[i..i + |p|][j] != p[j];
    }
  }

  /// A sub-slice of a slice is a slice of the whole.
  lemma SliceOfSlice(t: seq<byte>, a: nat, b: nat, c: nat, e: nat)
    requires a <= b <= |t| && c <= e <= b - a
    ensures t[a..b][c..e] == t[a + c..a + e]
  {
    forall k | 0 <= k < e - c ensures t[a..b][c..e][k] == t[a + c..a + e][k] {
    }
  }

  /// The bytes of a range that holds no occurrence of `p` do not contain `p`.
  lemma SliceFreeOfPattern(t: seq<byte>, p: seq<byte>, q: Range)
    requires q.start <= q.end <= |t|
    requires forall i: nat :: (q.start <= i && i + |p| <= q.end) ==> !Occurs(t, p, i)
    ensures !Contains(t[q.start..q.end], p)
  {
    var d := t[q.start..q.end];
    forall i: nat ensures !Occurs(d, p, i) {
      if i + |p| <= |d| {
        var j: nat := q.start + i;
        assert q.start <= j && j + |p| <= q.end;
        SliceOfSlice(t, q.start, q.end, i, i + |p|);
        assert !Occurs(t, p, j);
      }
    }
  }

  // ---------------------------------------------------------------------------
  // The resolver (prover/simple_prover.rs:121-148)
  // ---------------------------------------------------------------------------

  /// The nested window scan of lines 122-129.
  method CollectMatches(t: seq<byte>, pats: seq<seq<byte>>) returns (private: seq<Range>)
    requires NonEmptyPatterns(pats)
    ensures private == AllMatches(t, pats)
  {
    private := [];
    for k := 0 to |pats|
      invariant private == AllMatches(t, pats[..k])
    {
      AllMatchesStep(t, pats, k);
      private := PushMatches(t, pats[k], private);
    }
    assert pats[..|pats|] == pats;
  }

  /// The inner loop of lines 124-128: slides a window of `|p|` bytes over `t`
  /// and pushes the range of every window equal to `p` onto `private`.
  method PushMatches(t: seq<byte>, p: seq<byte>, private: seq<Range>) returns (pushed: seq<Range>)
    requires |p| > 0
    ensures pushed == private + PatternMatches(t, p)
  {
    pushed := private;
    if |p| <= |t| {
      var idx := 0;
      while idx + |p| <= |t|
        invariant idx + |p| <= |t| + 1
        invariant pushed == private + MatchesBelow(t, p, idx)
      {
        MatchesBelowStep(t, p, idx);
        if t[idx..idx + |p|] == p {
          pushed := pushed + [Range(idx, idx + |p|)];
          assert pushed == private + (MatchesBelow(t, p, idx) + [Range(idx, idx + |p|)]);
        }
        idx := idx + 1;
      }
    }
  }

  /// One more window of the scan pushes its range exactly when it equals `p`.
  lemma MatchesBelowStep(t: seq<byte>, p: seq<byte>, idx: nat)
    requires idx + |p| <= |t|
    ensures MatchesBelow(t, p, idx + 1)
            == MatchesBelow(t, p, idx) + (if t[idx..idx + |p|] == p then [Range(idx, idx + |p|)] else [])
  {
  }

  /// The private ranges of the first `k + 1` patterns extend those of the
  /// first `k` by the matches of pattern `k`.
  lemma AllMatchesStep(t: seq<byte>, pats: seq<seq<byte>>, k: nat)
    requires NonEmptyPatterns(pats) && k < |pats|
    ensures AllMatches(t, pats[..k + 1]) == AllMatches(t, pats[..k]) + PatternMatches(t, pats[k])
  {
    assert pats[..k + 1][..k] == pats[..k];
  }

  /// One iteration of the sweep as written, from position `i`.
  lemma SweepStep(rs: seq<Range>, i: nat, lastEnd: nat, n: nat)
    requires i < |rs|
    ensures Sweep(rs[i..], lastEnd, n)
            == (if rs[i].start > lastEnd then [Range(lastEnd, rs[i].start)] else []) + Sweep(rs[i + 1..], rs[i].end, n)
  {
    assert rs[i..][0] == rs[i] && rs[i..][1..] == rs[i + 1..];
  }

  /// One iteration of the monotone sweep, from position `i`.
  lemma SweepMergedStep(rs: seq<Range>, i: nat, lastEnd: nat, next: nat, n: nat)
    requires i < |rs| && next == Max(lastEnd, rs[i].end)
    ensures SweepMerged(rs[i..], lastEnd, n)
            == (if rs[i].start > lastEnd then [Range(lastEnd, rs[i].start)] else []) + SweepMerged(rs[i + 1..], next, n)
  {
    assert rs[i..][0] == rs[i] && rs[i..][1..] == rs[i + 1..];
  }

  /// The sweep loop of lines 134-145, as written.
  method SweepRanges(sorted: seq<Range>, n: nat) returns (public: seq<Range>)
    ensures public == Sweep(sorted, 0, n)
  {
    public := [];
    var lastEnd: nat := 0;
    for i := 0 to |sorted|
      invariant public + Sweep(sorted[i..], lastEnd, n) == Sweep(sorted, 0, n)
    {
      var r := sorted[i];
      SweepStep(sorted, i, lastEnd, n);
      if r.start > lastEnd {
        public := public + [Range(lastEnd, r.start)];
      }
      lastEnd := r.end;
    }
    if lastEnd < n {
      public := public + [Range(lastEnd, n)];
    }
  }

  /// The sweep loop with `last_end := max(last_end, r.end)`.
  method SweepRangesMerged(sorted: seq<Range>, n: nat) returns (public: seq<Range>)
    ensures public == SweepMerged(sorted, 0, n)
  {
    public := [];
    var lastEnd: nat := 0;
    for i := 0 to |sorted|
      invariant public + SweepMerged(sorted[i..], lastEnd, n) == SweepMerged(sorted, 0, n)
    {
      var r := sorted[i];
      var next := Max(lastEnd, r.end);
      ghost var rest := SweepMerged(sorted[i + 1..], next, n);
      SweepMergedStep(sorted, i, lastEnd, next, n);
      if r.start > lastEnd {
        assert public + ([Range(lastEnd, r.start)] + rest) == (public + [Range(lastEnd, r.start)]) + rest;
        public := public + [Range(lastEnd, r.start)];
      } else {
        assert [] + rest == rest;
      }
      lastEnd := next;
    }
    if lastEnd < n {
      public := public + [Range(lastEnd, n)];
    }
  }

  /// `find_ranges` as written: the private ranges are every occurrence of every
  /// pattern, the public ranges are the sweep over them sorted by start. Each
  /// public range is non-empty and inside the transcript, neighbours leave a
  /// gap, and none holds an occurrence of any pattern. That they are also the
  /// exact complement of the private ranges holds for one pattern
  /// (`PublicRangesSinglePattern`) but not for several (`NestedMatchLeaks`).
  method FindRanges(t: seq<byte>, pats: seq<seq<byte>>) returns (public: seq<Range>, private: seq<Range>)
    requires NonEmptyPatterns(pats)
    ensures private == AllMatches(t, pats)
    ensures public == PublicRanges(t, pats)
    ensures WithinBounds(public, |t|) && Separated(public)
    ensures forall q, k, i ::
              (q in public && 0 <= k < |pats| && q.start <= i && i + |pats[k]| <= q.end) ==>
              !Occurs(t, pats[k], i)
  {
    private := CollectMatches(t, pats);
    public := SweepRanges(SortByStart(private), |t|);
    PublicRangesWithinBounds(t, pats);
    PublicRangesSeparated(t, pats);
    PublicRangesNoLeak(t, pats);
  }

  /// `find_ranges` with the monotone sweep: for any list of patterns the public
  /// ranges are separated, the exact complement of the private ranges, and hold
  /// no occurrence of any pattern.
  method FindRangesMerged(t: seq<byte>, pats: seq<seq<byte>>) returns (public: seq<Range>, private: seq<Range>)
    requires NonEmptyPatterns(pats)
    ensures private == AllMatches(t, pats)
    ensures public == PublicRangesMerged(t, pats)
    ensures WithinBounds(public, |t|) && Separated(public)
    ensures forall x: nat :: Covered(public, x) <==> x < |t| && !Covered(private, x)
    ensures forall q, k, i ::
              (q in public && 0 <= k < |pats| && q.start <= i && i + |pats[k]| <= q.end) ==>
              !Occurs(t, pats[k], i)
  {
    private := CollectMatches(t, pats);
    public := SweepRangesMerged(SortByStart(private), |t|);
    PublicRangesMergedComplement(t, pats);
    PublicRangesMergedNoLeak(t, pats);
  }
}
