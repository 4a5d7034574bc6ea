/** Which blobs a run of the content store leaves recorded: those committed after their last delete. */
module ContentHistory {
  import opened ContentModel

  /** The bytes that the hasher of an upload has consumed: from the last seek point up to Offset. */
  function HashedBytes(h: Sha256, ops: seq<Op>, ref: string): seq<byte> {
    var s := Run(h, EMPTY, ops);
    if ref in s.uploads then Range(s.uploads[ref].data, SeekPoint(h, ops, ref), s.uploads[ref].offset) else []
  }

  predicate Succeeds(h: Sha256, ops: seq<Op>, i: nat)
    requires i < |ops|
  {
    Do(h, Run(h, EMPTY, ops[..i]), ops[i]).status == Ok
  }

  /** Operation i is a successful commit of bytes with this digest. */
  predicate Commits(h: Sha256, ops: seq<Op>, i: nat, d: string)
    requires i < |ops|
  {
    Succeeds(h, ops, i) && ops[i].CommitOp? && DigestOf(h, HashedBytes(h, ops[..i], ops[i].ref)) == d
  }

  /** Operation i is a successful delete of this digest. */
  predicate Deletes(h: Sha256, ops: seq<Op>, i: nat, d: string)
    requires i < |ops|
  {
    Succeeds(h, ops, i) && ops[i] == DeleteOp(d)
  }

  /** Some commit of the digest comes after every delete of it. */
  ghost predicate CommittedLast(h: Sha256, ops: seq<Op>, d: string) {
    exists i :: 0 <= i < |ops| && Commits(h, ops, i, d) && forall j :: i < j < |ops| ==> !Deletes(h, ops, j, d)
  }

  /** One more operation moves the digest in or out, or leaves it where it was. */
  lemma {:induction false} StepRecords(h: Sha256, ops: seq<Op>, op: Op, d: string)
    ensures var s, all := Run(h, EMPTY, ops), ops + [op];
            d in Run(h, EMPTY, all).blobs <==>
            Commits(h, all, |ops|, d) || (d in s.blobs && !Deletes(h, all, |ops|, d))
  {
    hide Run, SeekPoint, DigestOf, IsDigest, BlobPath, Extend;
    var s, all := Run(h, EMPTY, ops), ops + [op];
    assert all[..|ops|] == ops && all[|ops|] == op;
    RunNext(h, EMPTY, ops, op);
    if op.CommitOp? { RunKeepsSeekPoint(h, ops, op.ref); }
  }

  /** What an operation did does not depend on what came later. */
  lemma {:induction false} EarlierStays(h: Sha256, ops: seq<Op>, op: Op, i: nat, d: string)
    requires i < |ops|
    ensures Commits(h, ops + [op], i, d) == Commits(h, ops, i, d)
    ensures Deletes(h, ops + [op], i, d) == Deletes(h, ops, i, d)
  {
    hide Run, HashedBytes, Do, DigestOf;
    assert (ops + [op])[..i] == ops[..i];
  }

  lemma {:induction false} LastCommit(h: Sha256, ops: seq<Op>, op: Op, d: string)
    ensures var all := ops + [op];
            CommittedLast(h, all, d) <==>
            Commits(h, all, |ops|, d) || (CommittedLast(h, ops, d) && !Deletes(h, all, |ops|, d))
  {
    hide Commits, Deletes;
    var all, n := ops + [op], |ops|;
    forall i | 0 <= i < n
      ensures Commits(h, all, i, d) == Commits(h, ops, i, d) && Deletes(h, all, i, d) == Deletes(h, ops, i, d)
    {
      EarlierStays(h, ops, op, i, d);
    }
    if CommittedLast(h, all, d) && !Commits(h, all, n, d) {
      var i :| 0 <= i <= n && Commits(h, all, i, d) && forall j :: i < j <= n ==> !Deletes(h, all, j, d);
      assert Commits(h, ops, i, d) && !Deletes(h, all, n, d);
    }
    if CommittedLast(h, ops, d) && !Deletes(h, all, n, d) {
      var i :| 0 <= i < n && Commits(h, ops, i, d) && forall j :: i < j < n ==> !Deletes(h, ops, j, d);
      assert Commits(h, all, i, d);
    }
  }

  lemma {:induction false} NothingCommitted(h: Sha256, d: string)
    ensures !CommittedLast(h, [], d)
  {
  }

  /**
   * Over every run, whatever the offsets: a digest is recorded exactly when a successful commit of
   * bytes with that digest comes after the last successful delete of it.
   */
  lemma {:induction false} RecordedIff(h: Sha256, ops: seq<Op>, d: string)
    ensures d in Run(h, EMPTY, ops).blobs <==> CommittedLast(h, ops, d)
  {
    hide Commits, Deletes, CommittedLast, Do;
    if ops == [] {
      NothingCommitted(h, d);
    } else {
      var before, op := ops[..|ops| - 1], ops[|ops| - 1];
      assert ops == before + [op];
      RecordedIff(h, before, d);
      StepRecords(h, before, op, d);
      LastCommit(h, before, op, d);
    }
  }

  // ----- contiguous uploads

  /** All the bytes that the writes of a run sent to an upload and that got through. */
  function SentBytes(h: Sha256, ops: seq<Op>, ref: string): seq<byte> {
    if ops == [] then []
    else
      var before, op := ops[..|ops| - 1], ops[|ops| - 1];
      SentBytes(h, before, ref) + (if GetsThrough(Run(h, EMPTY, before), op, ref) then op.chunk else [])
  }

  lemma {:induction false} StepSends(h: Sha256, s: Store, op: Op, ref: string)
    requires Contiguous(s, op) && (ref in s.uploads ==> WholeHashed(s.uploads[ref]))
    ensures var t := Do(h, s, op).store; var sent := if GetsThrough(s, op, ref) then op.chunk else [];
            if ref in s.uploads then
              && ref in t.uploads && t.uploads[ref].data == s.uploads[ref].data + sent
              && (sent != [] ==> op.offset == s.uploads[ref].offset)
            else sent == [] && (ref in t.uploads ==> t.uploads[ref].data == [])
  {
    hide Extend, DigestOf, IsDigest, BlobPath;
    if GetsThrough(s, op, ref) { ExtendWhole(s.uploads[ref], op.chunk); }
  }

  /** Then the file holds what was sent, and all of it has been hashed. */
  lemma {:induction false} ContiguousSends(h: Sha256, ops: seq<Op>, ref: string)
    requires ContiguousRun(h, EMPTY, ops)
    ensures var s := Run(h, EMPTY, ops);
            if ref in s.uploads then
              s.uploads[ref].data == SentBytes(h, ops, ref) && WholeHashed(s.uploads[ref])
            else SentBytes(h, ops, ref) == []
  {
    hide Do, GetsThrough, WholeHashed, Contiguous;
    RunKeepsAddressed(h, ops);
    if ops != [] {
      var before, op := ops[..|ops| - 1], ops[|ops| - 1];
      ContiguousSends(h, before, ref);
      StepSends(h, Run(h, EMPTY, before), op, ref);
    }
  }

  /** Operation i is a successful commit of an upload to which bytes with this digest were sent. */
  predicate CommitsSent(h: Sha256, ops: seq<Op>, i: nat, d: string)
    requires i < |ops|
  {
    Succeeds(h, ops, i) && ops[i].CommitOp? && DigestOf(h, SentBytes(h, ops[..i], ops[i].ref)) == d
  }

  lemma {:induction false} ContiguousCommits(h: Sha256, ops: seq<Op>, i: nat, d: string)
    requires ContiguousRun(h, EMPTY, ops) && i < |ops|
    ensures Commits(h, ops, i, d) <==> CommitsSent(h, ops, i, d)
  {
    hide Run, Do, SentBytes, SeekPoint, DigestOf;
    PrefixContiguous(h, ops, i);
    if ops[i].CommitOp? {
      var ref := ops[i].ref;
      ContiguousSends(h, ops[..i], ref);
      RunKeepsSeekPoint(h, ops[..i], ref);
    }
  }

  /**
   * Over every run of contiguous uploads: a digest is recorded exactly when, after the last
   * successful delete of it, an upload was committed to which bytes with that digest were sent.
   */
  lemma {:induction false} SentRecordedIff(h: Sha256, ops: seq<Op>, d: string)
    requires ContiguousRun(h, EMPTY, ops)
    ensures d in Run(h, EMPTY, ops).blobs <==>
            exists i ::
              0 <= i < |ops| && CommitsSent(h, ops, i, d) && forall j :: i < j < |ops| ==> !Deletes(h, ops, j, d)
  {
    hide Commits, CommitsSent, Deletes, Run;
    RecordedIff(h, ops, d);
    forall i | 0 <= i < |ops| ensures Commits(h, ops, i, d) == CommitsSent(h, ops, i, d) {
      ContiguousCommits(h, ops, i, d);
    }
  }

  lemma {:induction false} PrefixContiguous(h: Sha256, ops: seq<Op>, i: nat)
    requires ContiguousRun(h, EMPTY, ops) && i <= |ops|
    ensures ContiguousRun(h, EMPTY, ops[..i])
  {
    hide Contiguous, Run;
    if i == |ops| {
      assert ops[..i] == ops;
    } else {
      var before := ops[..|ops| - 1];
      PrefixContiguous(h, before, i);
      assert before[..i] == ops[..i];
    }
  }
}
