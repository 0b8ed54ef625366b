/// The disclosure orchestration of the simple prover: commit to the ranges to
/// disclose, finalize the session once, reveal every commitment made, build
/// the substrings proof and pair it with the session attestation; and the
/// choice between the redacting and the non-redacting path.
module SimpleProver {
  import opened RangeResolver
  import opened Session

  /// The received-side pattern hard-coded in the redacting path: the bytes of
  /// "Example Domain".
  const ExampleDomain: seq<byte> := [69, 120, 97, 109, 112, 108, 101, 32, 68, 111, 109, 97, 105, 110]

  /// One commitment per range, in the order of the ranges.
  function CommitmentsTo(d: Direction, rs: seq<Range>): seq<Commitment>
  {
    seq(|rs|, k requires 0 <= k < |rs| => Commitment(d, rs[k]))
  }

  /// The ids `base, base + 1, ..., base + n - 1`.
  function IdsFrom(base: nat, n: nat): seq<CommitmentId>
  {
    seq(n, k => base + k)
  }

  /// `build_proof_without_redactions`: commits to the whole sent and the whole
  /// received transcript, finalizes, reveals both commitments and returns the
  /// proof, which discloses both transcripts verbatim. A commitment to an
  /// empty transcript is refused, and the proof is then never built.
  method BuildProofWithoutRedactions(s: NotarySession) returns (res: Result<TlsProof>)
    requires s.Valid() && s.phase == Open
    modifies s
    ensures s.Valid()
    ensures res.Ok? <==> |s.sent| > 0 && |s.recv| > 0
    ensures res.Err? ==> res.error == InvalidRange && s.phase == Open
    ensures res.Ok? ==>
              && s.phase == Finalized
              && s.commits == old(s.commits) + [Commitment(Sent, Range(0, |s.sent|)), Commitment(Recv, Range(0, |s.recv|))]
              && s.revealed == [|old(s.commits)|, |old(s.commits)| + 1]
              && res.value.session == s.SessionProofOf()
              && res.value.substrings.openings ==
                   [Opening(|old(s.commits)|, Sent, Range(0, |s.sent|), s.sent),
                    Opening(|old(s.commits)| + 1, Recv, Range(0, |s.recv|), s.recv)]
  {
    var sentLen := |s.sent|;
    var recvLen := |s.recv|;

    var sentCommitment := s.Commit(Sent, Range(0, sentLen));
    if sentCommitment.Err? {
      return Err(sentCommitment.error);
    }
    var recvCommitment := s.Commit(Recv, Range(0, recvLen));
    if recvCommitment.Err? {
      return Err(recvCommitment.error);
    }

    var finalized := s.Finalize();
    assert finalized.Ok?;

    var revealedSent := s.RevealById(sentCommitment.value);
    assert revealedSent.Ok?;
    var revealedRecv := s.RevealById(recvCommitment.value);
    assert revealedRecv.Ok?;

    var substrings := s.BuildSubstringsProof();
    WholeTranscriptOpenings(s, sentCommitment.value);
    assert substrings.value.openings == [s.OpeningOf(sentCommitment.value), s.OpeningOf(recvCommitment.value)];
    res := Ok(TlsProof(s.SessionProofOf(), substrings.value));
  }

  /// Opening a commitment to a whole transcript discloses that transcript.
  lemma WholeTranscriptOpenings(s: NotarySession, base: nat)
    requires s.Valid() && base + 1 < |s.commits|
    requires s.commits[base] == Commitment(Sent, Range(0, |s.sent|))
    requires s.commits[base + 1] == Commitment(Recv, Range(0, |s.recv|))
    ensures s.OpeningOf(base) == Opening(base, Sent, Range(0, |s.sent|), s.sent)
    ensures s.OpeningOf(base + 1) == Opening(base + 1, Recv, Range(0, |s.recv|), s.recv)
  {
    assert s.sent[0..|s.sent|] == s.sent && s.recv[0..|s.recv|] == s.recv;
  }

  /// The commit loop of the redacting path: commits to every range of `rs`
  /// in order and collects the ids, which are consecutive.
  method CommitAll(s: NotarySession, d: Direction, rs: seq<Range>) returns (ids: seq<CommitmentId>)
    requires s.Valid() && s.phase == Open
    requires forall k :: 0 <= k < |rs| ==> s.Fits(Commitment(d, rs[k]))
    modifies s
    ensures s.Valid() && s.phase == Open && s.revealed == old(s.revealed)
    ensures s.commits == old(s.commits) + CommitmentsTo(d, rs)
    ensures ids == IdsFrom(|old(s.commits)|, |rs|)
  {
    ids := [];
    for k := 0 to |rs|
      invariant s.Valid() && s.phase == Open && s.revealed == old(s.revealed)
      invariant s.commits == old(s.commits) + CommitmentsTo(d, rs[..k])
      invariant ids == IdsFrom(|old(s.commits)|, k)
    {
      var id := s.Commit(d, rs[k]);
      assert id.Ok?;
      ids := ids + [id.value];
      assert CommitmentsTo(d, rs[..k + 1]) == CommitmentsTo(d, rs[..k]) + [Commitment(d, rs[k])];
    }
    assert rs[..|rs|] == rs;
  }

  /// The reveal loop of the redacting path: reveals every id, in order.
  method RevealAll(s: NotarySession, ids: seq<CommitmentId>)
    requires s.Valid() && s.phase == Finalized
    requires forall k :: 0 <= k < |ids| ==> ids[k] < |s.commits|
    modifies s
    ensures s.Valid() && s.phase == Finalized && s.commits == old(s.commits)
    ensures s.revealed == old(s.revealed) + ids
  {
    for k := 0 to |ids|
      invariant s.Valid() && s.phase == Finalized && s.commits == old(s.commits)
      invariant s.revealed == old(s.revealed) + ids[..k]
    {
      var revealed := s.RevealById(ids[k]);
      assert revealed.Ok?;
      assert ids[..k + 1] == ids[..k] + [ids[k]];
    }
    assert ids[..|ids|] == ids;
  }

  /// No disclosed sent range contains `sentPattern` and no disclosed received
  /// range contains `recvPattern`.
  ghost predicate OpeningsAvoid(os: seq<Opening>, sentPattern: seq<byte>, recvPattern: seq<byte>)
  {
    forall k :: 0 <= k < |os| ==>
      && (os[k].direction == Sent ==> !Contains(os[k].data, sentPattern))
      && (os[k].direction == Recv ==> !Contains(os[k].data, recvPattern))
  }

  /// When the session's commitments are `prefix` followed by those of the
  /// public ranges of both transcripts and only ids past `prefix` are
  /// revealed, opening them discloses neither pattern.
  lemma RedactedOpeningsAvoidPatterns(s: NotarySession, prefix: seq<Commitment>, sentPublic: seq<Range>,
                                      recvPublic: seq<Range>, redactString: seq<byte>, os: seq<Opening>)
    requires s.Valid() && |redactString| > 0
    requires sentPublic == PublicRanges(s.sent, [redactString])
    requires recvPublic == PublicRanges(s.recv, [ExampleDomain])
    requires s.commits == prefix + CommitmentsTo(Sent, sentPublic) + CommitmentsTo(Recv, recvPublic)
    requires forall k :: 0 <= k < |s.revealed| ==> |prefix| <= s.revealed[k]
    requires |os| == |s.revealed| && forall k :: 0 <= k < |os| ==> os[k] == s.OpeningOf(s.revealed[k])
    ensures OpeningsAvoid(os, redactString, ExampleDomain)
  {
    var base, n := |prefix|, |sentPublic|;
    PublicRangesSinglePattern(s.sent, redactString);
    PublicRangesSinglePattern(s.recv, ExampleDomain);
    forall id | base <= id < |s.commits|
      ensures s.OpeningOf(id).direction == Sent ==> !Contains(s.OpeningOf(id).data, redactString)
      ensures s.OpeningOf(id).direction == Recv ==> !Contains(s.OpeningOf(id).data, ExampleDomain)
    {
      var c := s.commits[id];
      if id - base < n {
        var q := sentPublic[id - base];
        assert c == Commitment(Sent, q) && q in sentPublic;
        SliceFreeOfPattern(s.sent, redactString, q);
      } else {
        var q := recvPublic[id - base - n];
        assert c == Commitment(Recv, q) && q in recvPublic;
        SliceFreeOfPattern(s.recv, ExampleDomain, q);
      }
    }
  }

  /// `build_proof_with_redactions`: commits to every public range of the sent
  /// transcript (with `redactString` private) and then of the received one
  /// (with "Example Domain" private), finalizes, reveals exactly the ids just
  /// committed, sent ones first, and returns the proof. No disclosed sent
  /// range contains `redactString` and no disclosed received range contains
  /// "Example Domain". An empty `redactString` makes the sliding window of
  /// `find_ranges` panic before anything is committed.
  method BuildProofWithRedactions(s: NotarySession, redactString: seq<byte>) returns (res: Result<TlsProof>)
    requires s.Valid() && s.phase == Open
    modifies s
    ensures s.Valid()
    ensures |redactString| == 0 ==> res == Err(EmptyPattern) && unchanged(s)
    ensures |redactString| > 0 ==>
              var sentPublic := PublicRanges(s.sent, [redactString]);
              var recvPublic := PublicRanges(s.recv, [ExampleDomain]);
              && res.Ok?
              && s.phase == Finalized
              && s.commits == old(s.commits) + CommitmentsTo(Sent, sentPublic) + CommitmentsTo(Recv, recvPublic)
              && s.revealed == IdsFrom(|old(s.commits)|, |sentPublic| + |recvPublic|)
              && res.value.session == s.SessionProofOf()
              && |res.value.substrings.openings| == |s.revealed|
              && forall k :: 0 <= k < |s.revealed| ==> res.value.substrings.openings[k] == s.OpeningOf(s.revealed[k])
    ensures |redactString| > 0 ==> OpeningsAvoid(res.value.substrings.openings, redactString, ExampleDomain)
  {
    if |redactString| == 0 {
      return Err(EmptyPattern);
    }
    var sentPublic, _ := FindRanges(s.sent, [redactString]);
    var recvPublic, _ := FindRanges(s.recv, [ExampleDomain]);
    ghost var prefix := s.commits;
    res := DisclosePublicRanges(s, sentPublic, recvPublic);
    RedactedOpeningsAvoidPatterns(s, prefix, sentPublic, recvPublic, redactString, res.value.substrings.openings);
  }

  /// The part of `build_proof_with_redactions` after the ranges are found:
  /// commits to the given sent and then received ranges, finalizes, reveals
  /// every id just committed in the same order and builds the proof.
  method DisclosePublicRanges(s: NotarySession, sentPublic: seq<Range>, recvPublic: seq<Range>)
    returns (res: Result<TlsProof>)
    requires s.Valid() && s.phase == Open
    requires WithinBounds(sentPublic, |s.sent|) && WithinBounds(recvPublic, |s.recv|)
    modifies s
    ensures s.Valid() && s.phase == Finalized && res.Ok?
    ensures s.commits == old(s.commits) + CommitmentsTo(Sent, sentPublic) + CommitmentsTo(Recv, recvPublic)
    ensures s.revealed == IdsFrom(|old(s.commits)|, |sentPublic| + |recvPublic|)
    ensures res.value.session == s.SessionProofOf()
    ensures |res.value.substrings.openings| == |s.revealed|
    ensures forall k :: 0 <= k < |s.revealed| ==> res.value.substrings.openings[k] == s.OpeningOf(s.revealed[k])
  {
    var sentCommitments := CommitAll(s, Sent, sentPublic);
    var recvCommitments := CommitAll(s, Recv, recvPublic);

    var finalized := s.Finalize();
    assert finalized.Ok?;

    RevealAll(s, sentCommitments);
    RevealAll(s, recvCommitments);
    assert s.revealed == IdsFrom(|old(s.commits)|, |sentPublic| + |recvPublic|);

    var substrings := s.BuildSubstringsProof();
    res := Ok(TlsProof(s.SessionProofOf(), substrings.value));
  }

  /// Which proof builder the prover runs.
  datatype Mode = WithoutRedactions | WithRedactions

  /// The dispatch as written: `redact` holds when `redact_string` is EMPTY,
  /// and the redacting builder runs only when `redact` holds.
  function DispatchMode(redactString: seq<byte>): Mode
  {
    var redact := |redactString| == 0;
    if !redact then WithoutRedactions else WithRedactions
  }

  /// The dispatch as evidently intended: redact exactly when there is
  /// something to redact.
  function IntendedMode(redactString: seq<byte>): Mode
  {
    if |redactString| == 0 then WithoutRedactions else WithRedactions
  }

  /// The two dispatches disagree on every input.
  lemma DispatchIsInverted(redactString: seq<byte>)
    ensures DispatchMode(redactString) != IntendedMode(redactString)
    ensures |redactString| > 0 ==> DispatchMode(redactString) == WithoutRedactions
  {
  }

  /// The end of `main` as written: a non-empty `redactString` discloses the
  /// whole sent transcript, `redactString` included wherever it occurs, and an
  /// empty one aborts.
  method Notarize(s: NotarySession, redactString: seq<byte>) returns (res: Result<TlsProof>)
    requires s.Valid() && s.phase == Open
    modifies s
    ensures s.Valid()
    ensures |redactString| == 0 ==> res == Err(EmptyPattern) && unchanged(s)
    ensures |redactString| > 0 ==> (res.Ok? <==> |s.sent| > 0 && |s.recv| > 0)
    ensures |redactString| > 0 && res.Err? ==> res.error == InvalidRange && s.phase == Open
    ensures |redactString| > 0 && res.Ok? ==>
              && s.phase == Finalized
              && s.commits == old(s.commits) + [Commitment(Sent, Range(0, |s.sent|)), Commitment(Recv, Range(0, |s.recv|))]
              && s.revealed == [|old(s.commits)|, |old(s.commits)| + 1]
              && res.value.session == s.SessionProofOf()
              && res.value.substrings.openings ==
                   [Opening(|old(s.commits)|, Sent, Range(0, |s.sent|), s.sent),
                    Opening(|old(s.commits)| + 1, Recv, Range(0, |s.recv|), s.recv)]
              && (Contains(s.sent, redactString) ==> Contains(res.value.substrings.openings[0].data, redactString))
  {
    if DispatchMode(redactString) == WithoutRedactions {
      res := BuildProofWithoutRedactions(s);
    } else {
      res := BuildProofWithRedactions(s, redactString);
    }
  }

  /// The dispatch as intended: an empty `redactString` discloses both
  /// transcripts verbatim, a non-empty one is never disclosed.
  method NotarizeIntended(s: NotarySession, redactString: seq<byte>) returns (res: Result<TlsProof>)
    requires s.Valid() && s.phase == Open
    modifies s
    ensures s.Valid()
    ensures |redactString| == 0 ==> (res.Ok? <==> |s.sent| > 0 && |s.recv| > 0)
    ensures |redactString| == 0 && res.Err? ==> res.error == InvalidRange && s.phase == Open
    ensures |redactString| == 0 && res.Ok? ==>
              && s.phase == Finalized
              && s.commits == old(s.commits) + [Commitment(Sent, Range(0, |s.sent|)), Commitment(Recv, Range(0, |s.recv|))]
              && s.revealed == [|old(s.commits)|, |old(s.commits)| + 1]
              && res.value.session == s.SessionProofOf()
              && res.value.substrings.openings ==
                   [Opening(|old(s.commits)|, Sent, Range(0, |s.sent|), s.sent),
                    Opening(|old(s.commits)| + 1, Recv, Range(0, |s.recv|), s.recv)]
    ensures |redactString| > 0 ==>
              var sentPublic := PublicRanges(s.sent, [redactString]);
              var recvPublic := PublicRanges(s.recv, [ExampleDomain]);
              && res.Ok?
              && s.phase == Finalized
              && s.commits == old(s.commits) + CommitmentsTo(Sent, sentPublic) + CommitmentsTo(Recv, recvPublic)
              && s.revealed == IdsFrom(|old(s.commits)|, |sentPublic| + |recvPublic|)
              && res.value.session == s.SessionProofOf()
              && |res.value.substrings.openings| == |s.revealed|
              && forall k :: 0 <= k < |s.revealed| ==> res.value.substrings.openings[k] == s.OpeningOf(s.revealed[k])
    ensures |redactString| > 0 ==> OpeningsAvoid(res.value.substrings.openings, redactString, ExampleDomain)
  {
    if IntendedMode(redactString) == WithoutRedactions {
      res := BuildProofWithoutRedactions(s);
    } else {
      res := BuildProofWithRedactions(s, redactString);
    }
  }

  /// A concrete scenario for the dispatch as written: asked to redact "secret"
  /// from a request that contains it, the prover discloses "secret".
  method DispatchDisclosesRedactString() returns (proof: TlsProof)
    ensures |proof.substrings.openings| > 0
    ensures Occurs(proof.substrings.openings[0].data, [115, 101, 99, 114, 101, 116], 0)
  {
    var secret: seq<byte> := [115, 101, 99, 114, 101, 116];
    var s := new NotarySession(secret, [79, 75]);
    var res := Notarize(s, secret);
    assert res.Ok?;
    proof := res.value;
    assert proof.substrings.openings[0].data[0..6] == secret;
  }
}
