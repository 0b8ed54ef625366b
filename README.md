# Simple prover: range resolution and proof building

This project models the disclosure logic of the simple prover. After a TLS
exchange, the prover decides which bytes of the sent and received transcripts
to disclose. It then commits to those ranges, finalizes the notarization
session, reveals the commitments and pairs the substrings proof with the
session attestation into a `TlsProof`.

The model has three modules:

- `RangeResolver` (`range_resolver.dfy`) models `find_ranges`. Every window of
  a transcript that equals a private pattern becomes a private range. The
  private ranges are sorted by start with a stable sort. One sweep over them
  then emits the public gaps between them and a trailing public range. The
  loops are methods: the pattern loop `CollectMatches`, whose inner window
  scan is `PushMatches`, and the sweep `SweepRanges`. `FindRanges` is a method
  that composes them with the sort (`SortByStart`). Each method is proved
  equal to a specification function (`AllMatches`, `PatternMatches`, `Sweep`,
  `PublicRanges`), and lemmas prove what those functions guarantee.
- `Session` (`session.dfy`) models the notarization session that the prover
  drives. `NotarySession` is a class. Its fields are the session phase (open,
  then finalized), the commitments in id order, and the ids revealed so far.
  Its methods model `commit_sent`/`commit_recv`, `finalize`, `reveal_by_id`
  and `build`. Each one refuses a call made in the wrong phase, and a reveal
  refuses an id that was never issued. A reveal does not refuse an id
  revealed before; the two proof builders reveal each of their ids exactly
  once, as their `revealed` postconditions state.
- `SimpleProver` (`simple_prover.dfy`) models `build_proof_without_redactions`,
  `build_proof_with_redactions` and the dispatch between them at the end of
  `main`. Each is a method over a `NotarySession`, with the session's new
  state and the disclosed bytes stated in its contract.

The central property concerns the redacting path. No disclosed range of the
sent transcript contains the redaction string, and no disclosed range of the
received transcript contains "Example Domain"
(`SimpleProver.BuildProofWithRedactions`). This rests on
`RangeResolver.PublicRangesSinglePattern`. For a single pattern, which is the
only way the prover calls `find_ranges`, the public ranges are the exact
complement of the pattern's occurrences and hold no occurrence of it. For
several patterns, the public ranges still hold no occurrence of any pattern
and stay separated (`RangeResolver.PublicRangesNoLeak`,
`RangeResolver.PublicRangesSeparated`), but they need not be the complement.

A `.unwrap()` that cannot fail on the modelled path is a proved assertion.
The one that can fail, a commitment to an empty transcript, is an `Err`
result. Both panics of the Rust code become `Err` results: `windows(0)` on an
empty redaction string, and committing to an empty range.

## Model

| member | source | states |
|---|---|---|
| RangeResolver.MatchesBelowSound | prover/simple_prover.rs:124-127 | every range the window scan pushes is `[idx, idx + len)` for an index `idx` where the window equals the pattern |
| RangeResolver.MatchesBelowAscending | prover/simple_prover.rs:124-127 | the scan pushes ranges in strictly ascending order of start (the order of `enumerate`) |
| RangeResolver.MatchesBelowComplete | prover/simple_prover.rs:124-127 | every index where the pattern occurs is pushed |
| RangeResolver.PatternMatchesShape | prover/simple_prover.rs:124-128 | for one pattern, a range is pushed if and only if it is an occurrence of the pattern; pushed starts strictly ascend |
| RangeResolver.AllMatchesMembers | prover/simple_prover.rs:122-129 | a range is in `private_ranges` if and only if it is an occurrence of one of the patterns |
| RangeResolver.AllMatchesWithinBounds | prover/simple_prover.rs:122-129 | every private range is non-empty and ends within the transcript |
| RangeResolver.PushMatches | prover/simple_prover.rs:124-128 | the window scan for one pattern appends exactly `PatternMatches`: the pattern's occurrences by ascending index |
| RangeResolver.CollectMatches | prover/simple_prover.rs:122-129 | the loop over the patterns pushes exactly `AllMatches`: the occurrences of each pattern in turn, by ascending index |
| RangeResolver.InsertKeepsSorted | prover/simple_prover.rs:131-132 | inserting into a list ordered by start keeps it ordered and adds exactly that range |
| RangeResolver.InsertWithStart | prover/simple_prover.rs:131-132 | an insertion puts the inserted range before the earlier ranges with the same start |
| RangeResolver.SortByStartCorrect | prover/simple_prover.rs:131-132 | `sort_by_key(\|r\| r.start)` yields a permutation of its input ordered by start that keeps the input order among equal starts |
| RangeResolver.SortByStartOfSorted | prover/simple_prover.rs:131-132 | input already ordered by start is left unchanged |
| RangeResolver.SweepRanges | prover/simple_prover.rs:134-145 | the sweep loop with `last_end = r.end` computes `Sweep` over the sorted ranges |
| RangeResolver.SweepWithinBounds | prover/simple_prover.rs:134-145 | for any private ranges inside the transcript, every public range of the sweep is non-empty and ends within the transcript |
| RangeResolver.SweepAgreesWithMerged | prover/simple_prover.rs:134-145 | when the private ends never decrease, `last_end = r.end` and `last_end = max(last_end, r.end)` give the same public ranges |
| RangeResolver.SweepRangesMerged | prover/simple_prover.rs:134-145 | the sweep loop with `last_end = max(last_end, r.end)` computes `SweepMerged` over the sorted ranges |
| RangeResolver.SweepMergedBounds | prover/simple_prover.rs:134-145 | with the monotone sweep, every public range is non-empty, starts at or after `last_end` and ends within the transcript |
| RangeResolver.SweepMergedSeparated | prover/simple_prover.rs:134-145 | with the monotone sweep, the public ranges ascend with a gap of at least one byte between neighbours |
| RangeResolver.SweepMergedComplement | prover/simple_prover.rs:134-145 | with the monotone sweep over ranges sorted by start, a byte from `last_end` on is public if and only if no private range covers it |
| RangeResolver.FindRanges | prover/simple_prover.rs:121-148 | `find_ranges` as written returns the occurrences of every pattern as the private ranges and the sweep over them as the public ranges; for any patterns the public ranges are non-empty, within the transcript, ascending with gaps between them, and hold no occurrence of any pattern |
| RangeResolver.SweepStartsAbove | prover/simple_prover.rs:134-145 | when `last_end` is past a bound that every private end also passes, every public range the sweep as written emits starts past that bound |
| RangeResolver.SweepSeparatedAsWritten | prover/simple_prover.rs:134-145 | over ranges sorted by start, the sweep as written emits ascending public ranges with a gap between neighbours, even when `last_end` moves backwards |
| RangeResolver.SweepHoldsNoWholeRange | prover/simple_prover.rs:134-145 | no public range of the sweep as written contains a whole private range |
| RangeResolver.PublicRangesSeparated | prover/simple_prover.rs:121-148 | for any patterns, the public ranges of `find_ranges` as written ascend with a gap of at least one byte between neighbours |
| RangeResolver.PublicRangesNoLeak | prover/simple_prover.rs:121-148 | for any patterns, no public range of `find_ranges` as written holds an occurrence of any pattern |
| RangeResolver.PublicRangesWithinBounds | prover/simple_prover.rs:121-148 | for any list of patterns, every public range is non-empty and within the transcript |
| RangeResolver.SinglePatternAgrees | prover/simple_prover.rs:121-148 | for one pattern, the private ranges are its occurrences by ascending index, and `find_ranges` as written equals the monotone version |
| RangeResolver.PublicRangesSinglePattern | prover/simple_prover.rs:121-148 | for one pattern, the public ranges ascend with gaps between them, a byte is public if and only if no occurrence covers it, and no public range holds an occurrence |
| RangeResolver.NoMatchesPublicIsWhole | prover/simple_prover.rs:122-145 | when no pattern occurs anywhere in the transcript, nothing is private and the public ranges are the whole transcript (nothing when it is empty) |
| RangeResolver.NoWindowPublicIsWhole | prover/simple_prover.rs:124-128 | when every pattern is longer than the transcript, `windows` yields nothing, so nothing is private and the whole transcript is public |
| RangeResolver.FullyCoveredPublicIsEmpty | prover/simple_prover.rs:143-145 | for one pattern, when its occurrences cover every byte, nothing is public |
| RangeResolver.CoveredYetPublic | prover/simple_prover.rs:122-145 | with patterns "abcd" and "b" on "abcd", the private ranges cover every byte, yet the sweep as written leaves `[2,4)` public |
| RangeResolver.PatternIsTranscript | prover/simple_prover.rs:121-148 | a pattern equal to the transcript gives one private range `[0, len)` and no public range |
| RangeResolver.OverlappingMatches | prover/simple_prover.rs:124-127 | overlapping occurrences are all pushed: "aa" in "aaaa" gives `[0,2)`, `[1,3)`, `[2,4)` and no public range |
| RangeResolver.JoinedPublicBytesMayFormPattern | prover/simple_prover.rs:134-145 | the no-leak property holds per range only: in "aabb" with "ab" the public ranges `[0,1)` and `[3,4)` hold "a" and "b" |
| RangeResolver.NestedMatchLeaks | prover/simple_prover.rs:136-141 | with patterns "abcd" and "b" on "abcdef", the sweep as written returns the public range `[2,6)` inside the private `[0,4)`; the monotone sweep returns `[4,6)` |
| RangeResolver.PublicRangesMergedComplement | prover/simple_prover.rs:121-148 | with the monotone sweep and any patterns, the public ranges are separated and within the transcript, and a byte is public if and only if no private range covers it |
| RangeResolver.PublicRangesMergedNoLeak | prover/simple_prover.rs:121-148 | with the monotone sweep, no public range holds an occurrence of any pattern |
| RangeResolver.FindRangesMerged | prover/simple_prover.rs:121-148 | `find_ranges` with `max` in the sweep: separated public ranges that are the complement of the private ones and hold no occurrence of any pattern |
| Session.NotarySession.Commit | prover/simple_prover.rs:155-156 | an open session accepts a commitment to a non-empty range within its transcript and returns the next id; otherwise it errs and nothing changes |
| Session.NotarySession.Finalize | prover/simple_prover.rs:159 | finalizing succeeds once, on an open session, and keeps the commitments |
| Session.NotarySession.RevealById | prover/simple_prover.rs:165-166 | revealing succeeds only after finalizing and only for an issued id, and appends that id |
| Session.NotarySession.Opened | prover/simple_prover.rs:162-168 | the openings of a list of ids are, position by position, each commitment's range with its transcript bytes |
| Session.NotarySession.BuildSubstringsProof | prover/simple_prover.rs:168-171 | after finalizing, the substrings proof opens exactly the revealed ids in reveal order; before, it errs. The session attestation that `session_proof()` returns (line 171) is the helper `SessionProofOf`, which stands for the finalized commitments and is stated in the builders' contracts |
| SimpleProver.BuildProofWithoutRedactions | prover/simple_prover.rs:150-174 | the proof discloses the whole sent and the whole received transcript under two fresh consecutive ids; it is built exactly when both transcripts are non-empty |
| SimpleProver.CommitAll | prover/simple_prover.rs:200-209 | committing to each range in turn appends one commitment per range and returns consecutive ids |
| SimpleProver.RevealAll | prover/simple_prover.rs:217-223 | revealing each id in turn appends the ids in order |
| SimpleProver.DisclosePublicRanges | prover/simple_prover.rs:198-230 | commits to the sent ranges, then the received ones, finalizes, reveals every new id in that order, and the proof opens exactly those commitments |
| SimpleProver.RedactedOpeningsAvoidPatterns | prover/simple_prover.rs:176-231 | opening commitments to the public ranges of both transcripts discloses neither the redaction string (sent) nor "Example Domain" (received) |
| SimpleProver.BuildProofWithRedactions | prover/simple_prover.rs:176-231 | the proof opens the public ranges of both transcripts in order; no opened sent range contains the redaction string and no opened received range contains "Example Domain"; an empty redaction string is an error before anything is committed |
| SimpleProver.DispatchIsInverted | prover/simple_prover.rs:102-107 | the dispatch as written disagrees with the intended one on every input and picks the non-redacting builder for every non-empty redaction string |
| SimpleProver.Notarize | prover/simple_prover.rs:102-107 | as written: a non-empty redaction string commits to, reveals and opens the whole sent and the whole received transcript under two fresh ids, redaction string included, with the session's new state stated; an empty one is an error that leaves the session unchanged |
| SimpleProver.NotarizeIntended | prover/simple_prover.rs:102-107 | as intended: an empty redaction string commits to, reveals and opens both whole transcripts; a non-empty one commits to, reveals and opens exactly the public ranges of both transcripts, and no sent opening holds it and no received opening holds "Example Domain" |
| SimpleProver.DispatchDisclosesRedactString | prover/simple_prover.rs:102-107 | asked to redact "secret" from a request containing it, the prover as written discloses "secret" |

## Left out

- `main` apart from the dispatch (lines 102-107) is not modelled. That covers
  the TCP connection to the notary, the TLS and HTTP exchange with the
  server, parsing the `NotarizationRequest` (host, path, headers and
  `redact_string`) from the constant at prover/simple_prover.rs:27-43, the
  notary's address read by `read_env_vars` and the connection set up by
  `tls_prover` in `src/lib.rs`, and writing `simple_proof.json`. These are
  I/O or fixed configuration. The sent and received
  transcripts become the constructor arguments of `NotarySession`.
- The cryptography of the session is not modelled. That covers commitment
  hashes, the notary's signature in `session_proof`, and the inclusion proofs
  inside the substrings proof. A `SessionProof` stands for the committed
  ranges and an opening for the committed bytes.
- Failures of the notary, the network or the async runtime are not modelled.
  These are `finalize().await.unwrap()` failing, or any task erroring.
  `Finalize` always succeeds on an open session.
- Session.NotarySession.Commit: the session library's range checks are taken
  as refusing an empty range or one past the end of the transcript. The
  library itself is not part of this model.
- `finalize` consuming the prover is modelled by the phase field. A call in
  the wrong phase returns `ProtocolViolation` instead of failing to compile.
- `usize` overflow is not modelled. Indices are unbounded naturals, and no
  range end can exceed the transcript length anyway.
- `sort_by_key` is the standard library's stable sort. It is modelled by a
  stable insertion sort function, `SortByStart`. Only its observable
  contract is modelled: sorted, a permutation, stable.
- RangeResolver.FindRanges: the exact complement property (public and
  private ranges disjoint and together covering the transcript) is proved
  only for a single pattern (`PublicRangesSinglePattern`). `NestedMatchLeaks`
  shows that it fails for several patterns as written: the public `[2,6)`
  overlaps the private `[0,4)`. Likewise, full coverage leaving nothing
  public (`FullyCoveredPublicIsEmpty`) is stated for one pattern only: on
  "abcd" with patterns "abcd" and "b", the private ranges cover every byte
  but `[2,4)` is public (`CoveredYetPublic`).
- No-leak holds per disclosed range, not for the disclosed bytes joined
  together (`JoinedPublicBytesMayFormPattern`).

## Findings

| source | as written | input that shows it | evidently intended | confidence | as-written member | corrected member |
|---|---|---|---|---|---|---|
| prover/simple_prover.rs:140 | `last_end = r.end` can move `last_end` backwards when a later private range lies inside an earlier one | transcript "abcdef", patterns "abcd" and "b": the private ranges are `[0,4)` and `[1,2)`, and the public range `[2,6)` discloses "cd" of the private "abcd" | `last_end = max(last_end, r.end)`, giving public `[4,6)` | not executed; high (the prover itself only passes one pattern, where both agree, see `SinglePatternAgrees`) | RangeResolver.NestedMatchLeaks | RangeResolver.FindRangesMerged |
| prover/simple_prover.rs:102-107 | `redact` is true when `redact_string` is empty, so a non-empty string selects the builder that discloses everything; an empty string selects the redacting builder, whose `windows(0)` panics | `redact_string` = "secret" with a request containing "secret": the proof's first opening is the whole request | redact when the redaction string is non-empty, disclose everything when it is empty | not executed; high | SimpleProver.Notarize | SimpleProver.NotarizeIntended |
