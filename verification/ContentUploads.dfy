/**
 * The client's upload in full: over whatever an earlier attempt has left under its ref, and with the
 * operations of other callers in between its messages.
 */
module ContentUploads {
  import opened ContentModel
  import opened ContentService

  /** The upload the client finds or begins under its ref. */
  function LeftoverOf(s: Store, digest: string): Upload
    requires |digest| >= 32
  {
    if RefOf(digest) in s.uploads then s.uploads[RefOf(digest)] else NEW_UPLOAD.(expected := digest)
  }

  /** The leftover once the first n bytes of the data have been written over it. */
  function Over(u: Upload, data: seq<byte>, n: nat): Upload
    requires n <= |data|
  {
    if n == 0 then u
    else u.(offset := n, pos := n, hashed := data[..n], data := WriteAt(u.data, 0, data[..n]))
  }

  /** What the hasher has seen at the commit: for no data at all, what the leftover's has. */
  function Hashed(u: Upload, data: seq<byte>): seq<byte> {
    if data == [] then u.hashed else data
  }

  predicate Uploadable(h: Sha256, u: Upload, data: seq<byte>) {
    !u.committed && u.open && u.linked && (u.expected == "" || u.expected == DigestOf(h, Hashed(u, data)))
  }

  /**
   * How the upload of the data over u ends, from the blobs and files of r. With data the file is the
   * leftover written over from its start; without, no chunk is sent and the leftover is committed as
   * it stands, under the digest and the size that it has reached.
   */
  ghost predicate Outcome(h: Sha256, r: Store, u: Upload, data: seq<byte>, code: Code, t: Store) {
    var d := DigestOf(h, Hashed(u, data));
    && (code == Fine <==> Uploadable(h, u, data))
    && (code != Fine ==> t.blobs == r.blobs && t.disk == r.disk)
    && (code == Fine ==>
          && IsDigest(d)
          && t.blobs == r.blobs[d := BlobInfo(d, if data == [] then u.offset else |data|)]
          && t.disk == r.disk[BlobPath(d) := if data == [] then u.data else WriteAt(u.data, 0, data)])
  }

  /** The uploads of all other refs are the same. */
  predicate SameOthers(t: Store, r: Store, ref: string) {
    t.uploads - {ref} == r.uploads - {ref}
  }

  /** The stored file is the data exactly when no leftover reaches beyond it. */
  lemma {:induction false} OverwrittenIff(u: Upload, data: seq<byte>)
    requires data != []
    ensures WriteAt(u.data, 0, data) == data <==> |u.data| <= |data|
  {
    WriteAtLength(u.data, 0, data);
  }

  // ----- one message

  /** What is left of the data from a position on. */
  function Rest(data: seq<byte>, n: nat): seq<byte> {
    if n < |data| then data[n..] else []
  }

  /** Writing behind a prefix leaves the prefix. */
  lemma {:induction false} WriteBehind(a: seq<byte>, rest: seq<byte>, b: seq<byte>)
    requires b != []
    ensures WriteAt(a + rest, |a|, b) == a + b + Rest(rest, |b|)
  {
    var data := a + rest;
    assert data[..|a|] == a;
    if |b| < |rest| { assert data[|a| + |b|..] == rest[|b|..]; }
  }

  lemma {:induction false} WriteAtTwice(data: seq<byte>, a: seq<byte>, b: seq<byte>)
    requires a != [] && b != []
    ensures WriteAt(WriteAt(data, 0, a), |a|, b) == WriteAt(data, 0, a + b)
  {
    hide WriteAt;
    var rest := Rest(data, |a|);
    assert [] + data == data && [] + a == a && [] + (a + b) == a + b;
    WriteBehind([], data, a);
    WriteBehind(a, rest, b);
    WriteBehind([], data, a + b);
    assert Rest(rest, |b|) == Rest(data, |a + b|) by {
      if |a| + |b| < |data| { assert data[|a|..][|b|..] == data[|a| + |b|..]; }
    }
  }

  /** The next chunk continues the data, or begins it. */
  lemma {:induction false} WriteOver(s: Store, ref: string, u: Upload, data: seq<byte>, n: nat, m: nat)
    requires ref in s.uploads && n < m <= |data| && s.uploads[ref] == Over(u, data, n)
    requires HasherInvariant(u) && u.open
    ensures var w := Write(s, ref, n, data[n..m]);
            w.status == Ok && w.store == SetUpload(s, ref, Over(u, data, m))
  {
    hide WriteAt;
    assert data[..n] + data[n..m] == data[..m];
    if n == 0 {
      assert data[0..m] == data[..m];
      assert u.offset == 0 ==> u.hashed == [];
      assert [] + data[..m] == data[..m];
    } else {
      WriteAtTwice(u.data, data[..n], data[n..m]);
    }
  }

  lemma {:induction false} CommitOver(h: Sha256, s: Store, ref: string, u: Upload, data: seq<byte>)
    requires ref in s.uploads && s.uploads[ref] == Over(u, data, |data|) && !u.committed
    ensures var c := Commit(h, s, ref, |data|);
            && Outcome(h, s, u, data, if c.status == Ok then Fine else Internal(c.status), c.store)
            && SameOthers(c.store, s, ref)
  {
    hide DigestOf, WriteAt, BlobPath, IsDigest;
    assert data[..|data|] == data;
    DigestIsDigest(h, s.uploads[ref].hashed);
  }

  // ----- other callers

  /** What reaches the store during the call: a message of the client, or somebody else's operation. */
  datatype Item = Mine(m: Message) | Other(op: Op)

  function MineOf(items: seq<Item>): seq<Message> {
    if items == [] then []
    else (if items[0].Mine? then [items[0].m] else []) + MineOf(items[1..])
  }

  /** The operation is about another ref, or about a blob. */
  predicate Avoids(op: Op, ref: string) {
    match op
    case BeginOp(r, _, now) => RefOrNow(r, now) != ref
    case WriteOp(r, _, _) => r != ref
    case CommitOp(r, _) => r != ref
    case DeleteOp(_) => true
  }

  predicate AllAvoid(items: seq<Item>, ref: string) {
    forall k :: 0 <= k < |items| && items[k].Other? ==> Avoids(items[k].op, ref)
  }

  datatype Among = Among(turn: Turn, others: seq<Op>)

  /** The call, with the operations that others got in before it ended. */
  function ServeAmong(h: Sha256, ses: Session, s: Store, items: seq<Item>, now: string): Among
    decreases |items|
  {
    if items == [] then Among(Turn(ses, s, [], true, Fine), [])
    else
      match items[0]
      case Mine(m) =>
        var t := OnMessage(h, ses, s, m, now);
        if t.done then Among(t, []) else ServeAmong(h, t.session, t.store, items[1..], now)
      case Other(op) =>
        var rest := ServeAmong(h, ses, Do(h, s, op).store, items[1..], now);
        rest.(others := [op] + rest.others)
  }

  /** Two stores that differ in the upload of one ref at most. */
  predicate Alike(s: Store, r: Store, ref: string) {
    s.blobs == r.blobs && s.disk == r.disk && s.uploads - {ref} == r.uploads - {ref}
  }

  /** Somebody else's operation does not see this upload and does not touch it. */
  lemma {:induction false} OtherOp(h: Sha256, s: Store, r: Store, op: Op, ref: string)
    requires Avoids(op, ref) && Alike(s, r, ref)
    ensures Alike(Do(h, s, op).store, Do(h, r, op).store, ref)
  {
    hide Extend, DigestOf, IsDigest, BlobPath;
    match op
    case BeginOp(x, expected, now) =>
      var o := RefOrNow(x, now);
      SameElsewhere(s, r, ref, o, NEW_UPLOAD.(expected := expected));
    case WriteOp(o, offset, chunk) =>
      SameElsewhere(s, r, ref, o, NEW_UPLOAD);
      if Write(s, o, offset, chunk).status == Ok {
        SameElsewhere(s, r, ref, o, Extend(s.uploads[o], offset, chunk));
      }
    case CommitOp(o, total) =>
      SameElsewhere(s, r, ref, o, NEW_UPLOAD);
      if o in s.uploads { SameElsewhere(s, r, ref, o, Commit(h, s, o, total).store.uploads[o]); }
    case DeleteOp(_) =>
  }

  lemma {:induction false} SameElsewhere(s: Store, r: Store, ref: string, o: string, u: Upload)
    requires Alike(s, r, ref) && o != ref
    ensures (o in s.uploads <==> o in r.uploads) && (o in s.uploads ==> s.uploads[o] == r.uploads[o])
    ensures s.uploads[o := u] - {ref} == r.uploads[o := u] - {ref}
  {
    assert o in s.uploads <==> o in s.uploads - {ref};
    assert o in r.uploads <==> o in r.uploads - {ref};
    assert o in s.uploads ==> s.uploads[o] == (s.uploads - {ref})[o] == (r.uploads - {ref})[o];
    assert s.uploads[o := u] - {ref} == (s.uploads - {ref})[o := u];
    assert r.uploads[o := u] - {ref} == (r.uploads - {ref})[o := u];
  }

  lemma {:induction false} OtherKeeps(h: Sha256, s: Store, op: Op, ref: string)
    requires Avoids(op, ref)
    ensures var t := Do(h, s, op).store;
            (ref in t.uploads <==> ref in s.uploads) && (ref in s.uploads ==> t.uploads[ref] == s.uploads[ref])
  {
    hide Extend, DigestOf, IsDigest, BlobPath;
  }

  lemma {:induction false} RunFirst(h: Sha256, s: Store, op: Op, ops: seq<Op>)
    ensures Run(h, s, [op] + ops) == Run(h, Do(h, s, op).store, ops)
  {
    hide Do;
    if ops == [] {
      assert [op] + ops == [op] && [op][..0] == [];
    } else {
      var front, last := ops[..|ops| - 1], ops[|ops| - 1];
      RunFirst(h, s, op, front);
      assert ([op] + ops)[..|ops|] == [op] + front;
    }
  }

  /** The chunks and the COMMIT, from wherever the client stands. */
  lemma {:induction false} ChunksAmong(h: Sha256, ses: Session, s: Store, r: Store, u: Upload, digest: string,
                                       data: seq<byte>, offset: nat, items: seq<Item>, now: string)
    requires |digest| >= 32 && ses.ref == RefOf(digest) && offset <= |data|
    requires HasherInvariant(u) && !u.committed && (offset > 0 ==> u.open)
    requires ses.ref in s.uploads && s.uploads[ses.ref] == Over(u, data, offset) && Alike(s, r, ses.ref)
    requires AllAvoid(items, ses.ref) && MineOf(items) == Writes(ses.ref, data, offset) + [Last(digest, data)]
    ensures var a := ServeAmong(h, ses, s, items, now);
            && Outcome(h, Run(h, r, a.others), u, data, a.turn.code, a.turn.store)
            && SameOthers(a.turn.store, Run(h, r, a.others), ses.ref)
    decreases |items|
  {
    hide Outcome, SameOthers, Over, HasherInvariant, OnMessage, Do, Alike, Writes, Run;
    var ref := ses.ref;
    match items[0]
    case Other(op) =>
      var s', r' := Do(h, s, op).store, Do(h, r, op).store;
      OtherOp(h, s, r, op, ref);
      OtherKeeps(h, s, op, ref);
      ChunksAmong(h, ses, s', r', u, digest, data, offset, items[1..], now);
      RunFirst(h, r, op, ServeAmong(h, ses, s', items[1..], now).others);
    case Mine(m) =>
      FirstMessage(ref, data, offset, Last(digest, data));
      NoneRun(h, r);
      assert MineOf(items) == [m] + MineOf(items[1..]) && m == MineOf(items)[0];
      if offset == |data| {
        LastTurn(h, ses, s, r, u, digest, data, now);
      } else if !u.open {
        ClosedTurn(h, ses, s, r, u, data, now);
      } else {
        var e := End(data, offset);
        ChunkTurn(h, ses, s, r, u, data, offset, e, now);
        var s' := SetUpload(s, ref, Over(u, data, e));
        ChunksAmong(h, ses.(uploaded := true), s', r, u, digest, data, e, items[1..], now);
      }
  }

  function Last(digest: string, data: seq<byte>): Message
    requires |digest| >= 32
  {
    Message(CommitBlob, RefOf(digest), digest, |data|, |data|, [])
  }

  lemma {:induction false} NoneRun(h: Sha256, r: Store)
    ensures Run(h, r, []) == r
  {
  }

  lemma {:induction false} FirstMessage(ref: string, data: seq<byte>, offset: nat, last: Message)
    requires offset <= |data|
    ensures var stream := Writes(ref, data, offset) + [last];
            && stream != []
            && (offset == |data| ==> stream == [last])
            && (offset < |data| ==>
                  var e := End(data, offset);
                  && stream[0] == Message(WriteData, ref, "", offset, 0, data[offset..e])
                  && stream[1..] == Writes(ref, data, e) + [last])
  {
    if offset < |data| { NextWrites(ref, data, offset, [last]); }
  }

  lemma {:induction false} LastTurn(h: Sha256, ses: Session, s: Store, r: Store, u: Upload, digest: string,
                                    data: seq<byte>, now: string)
    requires |digest| >= 32 && ses.ref == RefOf(digest) && !u.committed
    requires ses.ref in s.uploads && s.uploads[ses.ref] == Over(u, data, |data|) && Alike(s, r, ses.ref)
    ensures var t := OnMessage(h, ses, s, Last(digest, data), now);
            t.done && Outcome(h, r, u, data, t.code, t.store) && SameOthers(t.store, r, ses.ref)
  {
    hide Over, Commit, DigestOf, WriteAt, BlobPath, IsDigest;
    CommitOver(h, s, ses.ref, u, data);
  }

  /** The first chunk on a closed upload. */
  lemma {:induction false} ClosedTurn(h: Sha256, ses: Session, s: Store, r: Store, u: Upload, data: seq<byte>,
                                      now: string)
    requires data != [] && ses.ref != "" && !u.open
    requires ses.ref in s.uploads && s.uploads[ses.ref] == Over(u, data, 0) && Alike(s, r, ses.ref)
    ensures var t := OnMessage(h, ses, s, Message(WriteData, ses.ref, "", 0, 0, data[0..End(data, 0)]), now);
            t.done && Outcome(h, r, u, data, t.code, t.store) && SameOthers(t.store, r, ses.ref)
  {
    hide Extend, DigestOf, WriteAt, BlobPath, IsDigest;
  }

  lemma {:induction false} ChunkTurn(h: Sha256, ses: Session, s: Store, r: Store, u: Upload, data: seq<byte>,
                                     n: nat, m: nat, now: string)
    requires ses.ref != "" && n < m <= |data| && HasherInvariant(u) && u.open
    requires ses.ref in s.uploads && s.uploads[ses.ref] == Over(u, data, n) && Alike(s, r, ses.ref)
    ensures var t := OnMessage(h, ses, s, Message(WriteData, ses.ref, "", n, 0, data[n..m]), now);
            && !t.done && t.session == ses.(uploaded := true)
            && t.store == SetUpload(s, ses.ref, Over(u, data, m)) && Alike(t.store, r, ses.ref)
  {
    hide Write, Over;
    WriteOver(s, ses.ref, u, data, n, m);
    assert SetUpload(s, ses.ref, Over(u, data, m)).uploads - {ses.ref} == s.uploads - {ses.ref};
  }

  // ----- the whole upload

  lemma {:induction false} StatTurn(h: Sha256, s: Store, digest: string, now: string)
    requires |digest| >= 32
    ensures var t := OnMessage(h, NEW_SESSION, s, Message(Stat, RefOf(digest), digest, 0, 0, []), now);
            var u := LeftoverOf(s, digest);
            if u.committed then t.done && t.code == Internal(AlreadyCommitted) && t.store == s
            else
              && !t.done && t.session == Session(RefOf(digest), digest, false)
              && t.store == SetUpload(s, RefOf(digest), u) && Alike(t.store, s, RefOf(digest))
  {
    var ref := RefOf(digest);
    assert s.uploads[ref := LeftoverOf(s, digest)] - {ref} == s.uploads - {ref};
    if ref in s.uploads { assert s.uploads[ref := s.uploads[ref]] == s.uploads; }
  }

  /**
   * The client's upload, with any operations of other callers in between that leave its ref alone:
   * it ends as it would after those operations, undisturbed, and they end as they would without it.
   */
  lemma {:induction false} UploadAmong(h: Sha256, s: Store, items: seq<Item>, digest: string, data: seq<byte>,
                                       now: string)
    requires |digest| >= 32 && HasherInvariant(LeftoverOf(s, digest))
    requires MineOf(items) == ClientStream(digest, data) && AllAvoid(items, RefOf(digest))
    ensures var a := ServeAmong(h, NEW_SESSION, s, items, now);
            var r := Run(h, s, a.others);
            && LeftoverOf(r, digest) == LeftoverOf(s, digest)
            && Outcome(h, r, LeftoverOf(s, digest), data, a.turn.code, a.turn.store)
            && SameOthers(a.turn.store, r, RefOf(digest))
    decreases |items|
  {
    hide Outcome, HasherInvariant, OnMessage, Do, Alike, Writes, Run;
    var ref, u := RefOf(digest), LeftoverOf(s, digest);
    var stat := Message(Stat, ref, digest, 0, 0, []);
    match items[0]
    case Other(op) =>
      var s' := Do(h, s, op).store;
      OtherKeeps(h, s, op, ref);
      UploadAmong(h, s', items[1..], digest, data, now);
      RunFirst(h, s, op, ServeAmong(h, NEW_SESSION, s', items[1..], now).others);
    case Mine(m) =>
      var stream := ClientStream(digest, data);
      assert stream == [stat] + (Writes(ref, data, 0) + [Last(digest, data)]);
      assert MineOf(items) == [m] + MineOf(items[1..]);
      assert m == stat && MineOf(items[1..]) == stream[1..] == Writes(ref, data, 0) + [Last(digest, data)];
      StatTurn(h, s, digest, now);
      NoneRun(h, s);
      var a := ServeAmong(h, NEW_SESSION, s, items, now);
      if u.committed {
        RefusedOutcome(h, s, u, data, Internal(AlreadyCommitted));
      } else {
        ChunksAmong(h, Session(ref, digest, false), SetUpload(s, ref, u), s, u, digest, data, 0, items[1..], now);
        OthersKeep(h, NEW_SESSION, s, items, ref, now, s);
      }
  }

  /**
   * The round trip of a fresh upload holds with other callers at work: the bytes end up under their
   * digest, on top of whatever blobs and files the others have left, or the call fails.
   */
  lemma {:induction false} RoundTripAmong(h: Sha256, s: Store, items: seq<Item>, digest: string, data: seq<byte>,
                                          now: string)
    requires |digest| >= 32 && RefOf(digest) !in s.uploads
    requires MineOf(items) == ClientStream(digest, data) && AllAvoid(items, RefOf(digest))
    ensures var a := ServeAmong(h, NEW_SESSION, s, items, now);
            var t, r := a.turn.store, Run(h, s, a.others);
            if digest == DigestOf(h, data) then
              && a.turn.code == Fine && IsDigest(digest)
              && t.blobs == r.blobs[digest := BlobInfo(digest, |data|)]
              && t.disk == r.disk[BlobPath(digest) := data]
            else a.turn.code != Fine && t.blobs == r.blobs && t.disk == r.disk
  {
    hide ServeAmong, Run, DigestOf, BlobPath, IsDigest, MineOf, ClientStream;
    UploadAmong(h, s, items, digest, data, now);
    if data != [] { OverwrittenIff(LeftoverOf(s, digest), data); }
  }

  lemma {:induction false} RefusedOutcome(h: Sha256, s: Store, u: Upload, data: seq<byte>, code: Code)
    requires !Uploadable(h, u, data) && code != Fine
    ensures Outcome(h, s, u, data, code, s)
  {
  }

  /** Run by themselves, the others' operations leave the upload of the ref as it is. */
  lemma {:induction false} OthersKeep(h: Sha256, ses: Session, s: Store, items: seq<Item>, ref: string, now: string,
                                      r: Store)
    requires AllAvoid(items, ref)
    ensures var t := Run(h, r, ServeAmong(h, ses, s, items, now).others);
            (ref in t.uploads <==> ref in r.uploads) && (ref in r.uploads ==> t.uploads[ref] == r.uploads[ref])
    decreases |items|
  {
    hide OnMessage, Do, Run, Avoids;
    NoneRun(h, r);
    if items != [] {
      match items[0]
      case Mine(m) =>
        var t := OnMessage(h, ses, s, m, now);
        if !t.done { OthersKeep(h, t.session, t.store, items[1..], ref, now, r); }
      case Other(op) =>
        var s' := Do(h, s, op).store;
        assert Avoids(items[0].op, ref);
        OtherKeeps(h, r, op, ref);
        OthersKeep(h, ses, s', items[1..], ref, now, Do(h, r, op).store);
        RunFirst(h, r, op, ServeAmong(h, ses, s', items[1..], now).others);
    }
  }

  function AllMine(stream: seq<Message>): (items: seq<Item>)
    ensures |items| == |stream| && forall k :: 0 <= k < |items| ==> items[k] == Mine(stream[k])
  {
    seq(|stream|, k requires 0 <= k < |stream| => Mine(stream[k]))
  }

  lemma {:induction false} Alone(h: Sha256, ses: Session, s: Store, stream: seq<Message>, now: string)
    ensures MineOf(AllMine(stream)) == stream
    ensures var a, t := ServeAmong(h, ses, s, AllMine(stream), now), Serve(h, ses, s, stream, now);
            a.others == [] && a.turn.store == t.store && a.turn.code == t.code
    decreases |stream|
  {
    hide OnMessage;
    if stream != [] {
      var t := OnMessage(h, ses, s, stream[0], now);
      assert AllMine(stream)[1..] == AllMine(stream[1..]);
      Alone(h, t.session, t.store, stream[1..], now);
      assert [stream[0]] + stream[1..] == stream;
    }
  }

  lemma {:induction false} LeftoverSound(s: Store, digest: string)
    requires |digest| >= 32 && HashersSound(s)
    ensures HasherInvariant(LeftoverOf(s, digest))
  {
  }

  /** The client's upload by itself, over any leftover of its ref. */
  lemma {:induction false} UploadIff(h: Sha256, s: Store, digest: string, data: seq<byte>, now: string)
    requires |digest| >= 32 && HasherInvariant(LeftoverOf(s, digest))
    ensures var t := Serve(h, NEW_SESSION, s, ClientStream(digest, data), now);
            Outcome(h, s, LeftoverOf(s, digest), data, t.code, t.store) && SameOthers(t.store, s, RefOf(digest))
  {
    hide Outcome, SameOthers, HasherInvariant, ServeAmong, Serve, ClientStream, MineOf;
    Alone(h, NEW_SESSION, s, ClientStream(digest, data), now);
    UploadAmong(h, s, AllMine(ClientStream(digest, data)), digest, data, now);
    NoneRun(h, s);
  }

  /** How the client's upload ends: over any leftover, and as a round trip under a fresh ref. */
  ghost predicate UploadEnds(h: Sha256, s: Store, digest: string, data: seq<byte>, code: Code, t: Store)
    requires |digest| >= 32
  {
    && Outcome(h, s, LeftoverOf(s, digest), data, code, t)
    && SameOthers(t, s, RefOf(digest))
    && (RefOf(digest) !in s.uploads ==>
          if digest == DigestOf(h, data) then
            && code == Fine && IsDigest(digest)
            && t.blobs == s.blobs[digest := BlobInfo(digest, |data|)]
            && t.disk == s.disk[BlobPath(digest) := data]
          else code == Internal(DigestMismatch) && t.blobs == s.blobs && t.disk == s.disk)
  }

  lemma {:induction false} ServeEnds(h: Sha256, s: Store, digest: string, data: seq<byte>, now: string)
    requires |digest| >= 32 && HashersSound(s)
    ensures var t := Serve(h, NEW_SESSION, s, ClientStream(digest, data), now);
            UploadEnds(h, s, digest, data, t.code, t.store)
  {
    hide Outcome, SameOthers, Serve, DigestOf, IsDigest, BlobPath;
    LeftoverSound(s, digest);
    UploadIff(h, s, digest, data, now);
    if RefOf(digest) !in s.uploads { UploadRoundTrip(h, s, digest, data, now); }
  }
}
