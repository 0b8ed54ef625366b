/// The notarization session the prover drives once the TLS exchange is over:
/// a commitment builder while the session is open, then, after `finalize`, the
/// notarized session with its substrings-proof builder. The cryptography is
/// not modelled; the class keeps what the protocol order depends on: the
/// phase, the committed ranges with their ids, and the ids revealed so far.
module Session {
  import opened RangeResolver

  /// Which transcript a range belongs to.
  datatype Direction = Sent | Recv

  /// `Prover<Notarize>` before `finalize`, the notarized session after it.
  datatype Phase = Open | Finalized

  /// A commitment id: the position of the commitment in the order the
  /// session accepted them.
  type CommitmentId = nat

  datatype Commitment = Commitment(direction: Direction, range: Range)

  /// A disclosed commitment in the substrings proof: its range and the
  /// transcript bytes in that range.
  datatype Opening = Opening(id: CommitmentId, direction: Direction, range: Range, data: seq<byte>)

  /// The session attestation, standing for the notary-signed header that
  /// binds the committed ranges.
  datatype SessionProof = SessionProof(commitments: seq<Commitment>)

  datatype SubstringsProof = SubstringsProof(openings: seq<Opening>)

  /// The proof written out by the prover (`TlsProof`).
  datatype TlsProof = TlsProof(session: SessionProof, substrings: SubstringsProof)

  /// Why building a proof aborts: a range outside its transcript or empty, an
  /// empty redaction pattern, or a session call out of protocol order.
  datatype Error = InvalidRange | EmptyPattern | ProtocolViolation

  datatype Result<T> = Ok(value: T) | Err(error: Error)

  class NotarySession {
    /// The plaintext recorded in each direction.
    const sent: seq<byte>
    const recv: seq<byte>

    var phase: Phase
    /// The commitment with id `k` is `commits[k]`.
    var commits: seq<Commitment>
    /// The ids revealed so far, in the order they were revealed.
    var revealed: seq<CommitmentId>

    function Transcript(d: Direction): seq<byte>
    {
      if d == Sent then sent else recv
    }

    /// A commitment's range is non-empty and inside its transcript.
    predicate Fits(c: Commitment)
    {
      c.range.start < c.range.end <= |Transcript(c.direction)|
    }

    ghost predicate Valid()
      reads this
    {
      && (forall k :: 0 <= k < |commits| ==> Fits(commits[k]))
      && (forall k :: 0 <= k < |revealed| ==> revealed[k] < |commits|)
      && (phase == Open ==> revealed == [])
    }

    constructor (sent: seq<byte>, recv: seq<byte>)
      ensures Valid()
      ensures this.sent == sent && this.recv == recv
      ensures phase == Open && commits == [] && revealed == []
    {
      this.sent, this.recv := sent, recv;
      phase, commits, revealed := Open, [], [];
    }

    /// `commit_sent` / `commit_recv`: only an open session accepts a
    /// commitment, and only to a non-empty range inside the transcript; the
    /// new commitment's id is the number of commitments before it.
    method Commit(d: Direction, r: Range) returns (res: Result<CommitmentId>)
      requires Valid()
      modifies this
      ensures Valid()
      ensures old(phase) == Open && Fits(Commitment(d, r)) ==>
                && res == Ok(|old(commits)|)
                && commits == old(commits) + [Commitment(d, r)]
                && phase == Open && revealed == old(revealed)
      ensures old(phase) != Open ==> res == Err(ProtocolViolation) && unchanged(this)
      ensures old(phase) == Open && !Fits(Commitment(d, r)) ==> res == Err(InvalidRange) && unchanged(this)
    {
      if phase != Open {
        return Err(ProtocolViolation);
      }
      if !Fits(Commitment(d, r)) {
        return Err(InvalidRange);
      }
      res := Ok(|commits|);
      commits := commits + [Commitment(d, r)];
    }

    /// `finalize`: happens once, and fixes the set of commitments.
    method Finalize() returns (res: Result<()>)
      requires Valid()
      modifies this
      ensures Valid()
      ensures old(phase) == Open ==>
                res == Ok(()) && phase == Finalized && commits == old(commits) && revealed == old(revealed)
      ensures old(phase) != Open ==> res == Err(ProtocolViolation) && unchanged(this)
    {
      if phase != Open {
        return Err(ProtocolViolation);
      }
      phase := Finalized;
      res := Ok(());
    }

    /// `reveal_by_id`: only after `finalize`, and only for an id this session
    /// issued.
    method RevealById(id: CommitmentId) returns (res: Result<()>)
      requires Valid()
      modifies this
      ensures Valid()
      ensures old(phase) == Finalized && id < |old(commits)| ==>
                res == Ok(()) && revealed == old(revealed) + [id] && phase == Finalized && commits == old(commits)
      ensures !(old(phase) == Finalized && id < |old(commits)|) ==> res == Err(ProtocolViolation) && unchanged(this)
    {
      if phase != Finalized || id >= |commits| {
        return Err(ProtocolViolation);
      }
      revealed := revealed + [id];
      res := Ok(());
    }

    /// The opening of a committed range: its bytes in its transcript.
    function OpeningOf(id: CommitmentId): Opening
      reads this
      requires Valid() && id < |commits|
    {
      var c := commits[id];
      Opening(id, c.direction, c.range, Transcript(c.direction)[c.range.start..c.range.end])
    }

    /// The openings of the given ids, in the given order.
    function Opened(ids: seq<CommitmentId>): (os: seq<Opening>)
      reads this
      requires Valid()
      requires forall k :: 0 <= k < |ids| ==> ids[k] < |commits|
      ensures |os| == |ids|
      ensures forall k :: 0 <= k < |ids| ==> os[k] == OpeningOf(ids[k])
    {
      if ids == [] then [] else Opened(ids[..|ids| - 1]) + [OpeningOf(ids[|ids| - 1])]
    }

    /// `build`: the substrings proof opens exactly the revealed commitments,
    /// in the order they were revealed; it exists only after `finalize`.
    method BuildSubstringsProof() returns (res: Result<SubstringsProof>)
      requires Valid()
      ensures phase == Finalized ==> res.Ok? && |res.value.openings| == |revealed|
      ensures phase == Finalized ==>
                forall k :: 0 <= k < |revealed| ==> res.value.openings[k] == OpeningOf(revealed[k])
      ensures phase != Finalized ==> res == Err(ProtocolViolation)
    {
      if phase != Finalized {
        return Err(ProtocolViolation);
      }
      res := Ok(SubstringsProof(Opened(revealed)));
    }

    /// `session_proof`: the attestation of the notarized session, which binds
    /// every commitment made before `finalize`.
    function SessionProofOf(): SessionProof
      reads this
      requires phase == Finalized
    {
      SessionProof(commits)
    }
  }
}
