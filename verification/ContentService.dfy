/** The streaming Write and Read calls, the client that feeds them, and the puller's storeContent. */
module ContentService {
  import opened ContentModel

  datatype Action = Stat | WriteData | CommitBlob | Other

  datatype Message = Message(
    action: Action, ref: string, expected: string, offset: int, total: int, data: seq<byte>)

  datatype Response = Response(action: Action, offset: int, digest: string, total: int)

  /** The local variables of Service.Write. */
  datatype Session = Session(ref: string, expected: string, uploaded: bool)

  const NEW_SESSION := Session("", "", false)

  datatype Code = Fine | Internal(status: Status) | InvalidArgument

  /** done: the call returns, with this code. */
  datatype Turn = Turn(session: Session, store: Store, responses: seq<Response>, done: bool, code: Code)

  function Fail(ses: Session, s: Store, code: Code): Turn {
    Turn(ses, s, [], true, code)
  }

  function OnStat(ses: Session, s: Store, m: Message, now: string): Turn {
    var ses' := ses.(ref := m.ref, expected := m.expected);
    var b := Begin(s, m.ref, m.expected, now);
    if b.status != Ok then Fail(ses', b.store, Internal(b.status))
    else
      var name := RefOrNow(m.ref, now);
      Turn(ses', b.store, [Response(Stat, b.store.uploads[name].offset, "", 0)], false, Fine)
  }

  function OnWrite(ses: Session, s: Store, m: Message): Turn {
    if ses.ref == "" then Fail(ses, s, InvalidArgument)
    else
      var w := Write(s, ses.ref, m.offset, m.data);
      if w.status != Ok then Fail(ses, w.store, Internal(w.status))
      else
        var response := Response(WriteData, w.store.uploads[ses.ref].offset, "", 0);
        Turn(ses.(uploaded := true), w.store, [response], false, Fine)
  }

  function OnCommit(h: Sha256, ses: Session, s: Store, m: Message): Turn {
    if ses.ref == "" then Fail(ses, s, InvalidArgument)
    else
      var w := if !ses.uploaded && m.data != [] then Write(s, ses.ref, m.offset, m.data) else Result(s, Ok);
      if w.status != Ok then Fail(ses, w.store, Internal(w.status))
      else
        var c := Commit(h, w.store, ses.ref, m.total);
        if c.status != Ok then Fail(ses, c.store, Internal(c.status))
        else
          var u := c.store.uploads[ses.ref];
          Turn(ses, c.store, [Response(CommitBlob, u.offset, u.digest, u.size)], true, Fine)
  }

  function OnAction(h: Sha256, ses: Session, s: Store, m: Message, now: string): Turn {
    match m.action
    case Stat => OnStat(ses, s, m, now)
    case WriteData => OnWrite(ses, s, m)
    case CommitBlob => OnCommit(h, ses, s, m)
    case Other => Fail(ses, s, InvalidArgument)
  }

  /** One turn of the receive loop: the first ref seen begins the upload, then the action is carried out. */
  function OnMessage(h: Sha256, ses: Session, s: Store, m: Message, now: string): Turn {
    if ses.ref == "" && m.ref != "" then
      var ses' := ses.(ref := m.ref, expected := m.expected);
      var b := Begin(s, m.ref, m.expected, now);
      if b.status != Ok then Fail(ses', b.store, Internal(b.status)) else OnAction(h, ses', b.store, m, now)
    else OnAction(h, ses, s, m, now)
  }

  /** The whole call: messages are handled until one ends it or the stream is over. */
  function Serve(h: Sha256, ses: Session, s: Store, stream: seq<Message>, now: string): Turn
    decreases |stream|
  {
    if stream == [] then Turn(ses, s, [], true, Fine)
    else
      var t := OnMessage(h, ses, s, stream[0], now);
      if t.done then t
      else
        var rest := Serve(h, t.session, t.store, stream[1..], now);
        rest.(responses := t.responses + rest.responses)
  }

  // ----- the client

  const CHUNK_SIZE: nat := 1024 * 1024

  function RefOf(digest: string): string
    requires |digest| >= 32
  {
    "pull-" + digest[..32]
  }

  function End(data: seq<byte>, offset: nat): (e: nat)
    requires offset < |data|
    ensures offset < e <= |data| && e <= offset + CHUNK_SIZE
  {
    if offset + CHUNK_SIZE > |data| then |data| else offset + CHUNK_SIZE
  }

  function Writes(ref: string, data: seq<byte>, offset: nat): seq<Message>
    decreases |data| - offset
  {
    if offset >= |data| then []
    else
      [Message(WriteData, ref, "", offset, 0, data[offset..End(data, offset)])]
      + Writes(ref, data, offset + CHUNK_SIZE)
  }

  function ClientStream(digest: string, data: seq<byte>): seq<Message>
    requires |digest| >= 32
  {
    var ref := RefOf(digest);
    [Message(Stat, ref, digest, 0, 0, [])] + Writes(ref, data, 0)
    + [Message(CommitBlob, ref, digest, |data|, |data|, [])]
  }

  // ----- the round trip

  /** An upload that has received the first n bytes in one go. */
  function Received(expected: string, data: seq<byte>, n: nat): Upload
    requires n <= |data|
  {
    Upload(n, expected, false, "", 0, data[..n], n, true, true, data[..n])
  }

  lemma {:induction false} WriteContinues(s: Store, ref: string, expected: string, data: seq<byte>, n: nat, m: nat)
    requires ref in s.uploads && n <= m <= |data| && s.uploads[ref] == Received(expected, data, n)
    ensures var w := Write(s, ref, n, data[n..m]);
            w.status == Ok && w.store == SetUpload(s, ref, Received(expected, data, m))
  {
    var u := s.uploads[ref];
    assert data[..n] + data[n..m] == data[..m];
    assert u.data[..|u.data|] == u.data;
    assert WriteAt(u.data, n, data[n..m]) == data[..m];
  }

  /** One chunk, in a session that knows its ref. */
  lemma {:induction false} WriteTurn(h: Sha256, ses: Session, s: Store, data: seq<byte>, n: nat, m: nat, now: string)
    requires ses.ref != "" && ses.ref in s.uploads && n <= m <= |data|
    requires s.uploads[ses.ref] == Received(ses.expected, data, n)
    ensures var t := OnMessage(h, ses, s, Message(WriteData, ses.ref, "", n, 0, data[n..m]), now);
            && !t.done && t.session == ses.(uploaded := true)
            && t.store == SetUpload(s, ses.ref, Received(ses.expected, data, m))
            && t.responses == [Response(WriteData, m, "", 0)]
  {
    hide Write;
    WriteContinues(s, ses.ref, ses.expected, data, n, m);
  }

  /** A turn that does not end the call leaves the rest of the stream to the next one. */
  lemma {:induction false} ServeNext(h: Sha256, ses: Session, s: Store, stream: seq<Message>, now: string)
    requires stream != [] && !OnMessage(h, ses, s, stream[0], now).done
    ensures var t := OnMessage(h, ses, s, stream[0], now);
            var all, rest := Serve(h, ses, s, stream, now), Serve(h, t.session, t.store, stream[1..], now);
            && all.store == rest.store && all.code == rest.code && all.done == rest.done
            && all.responses == t.responses + rest.responses
  {
    hide OnMessage;
  }

  /** The answers to messages that are taken in: the action, and where the data ended. */
  function Acks(sent: seq<Message>): seq<Response> {
    seq(|sent|, i requires 0 <= i < |sent| => Response(sent[i].action, sent[i].offset + |sent[i].data|, "", 0))
  }

  lemma {:induction false} NextAck(m: Message, rest: seq<Message>)
    ensures Acks([]) == []
    ensures Acks([m] + rest) == [Response(m.action, m.offset + |m.data|, "", 0)] + Acks(rest)
  {
  }

  /** The server loop takes in the client's chunks one after the other, and answers each. */
  lemma {:induction false} ServeWrites(h: Sha256, ses: Session, s: Store, data: seq<byte>, offset: nat,
                                       tail: seq<Message>, now: string)
    requires ses.ref != "" && ses.ref in s.uploads && offset <= |data|
    requires s.uploads[ses.ref] == Received(ses.expected, data, offset)
    ensures var t := Serve(h, ses, s, Writes(ses.ref, data, offset) + tail, now);
            var done := ses.(uploaded := ses.uploaded || offset < |data|);
            var r := Serve(h, done, SetUpload(s, ses.ref, Received(ses.expected, data, |data|)), tail, now);
            && t.store == r.store && t.code == r.code && t.done == r.done
            && t.responses == Acks(Writes(ses.ref, data, offset)) + r.responses
    decreases |data| - offset
  {
    hide OnMessage, Serve, Writes, Received, Acks;
    var stream := Writes(ses.ref, data, offset) + tail;
    if offset == |data| {
      NoWrites(ses.ref, data, tail);
      assert SetUpload(s, ses.ref, s.uploads[ses.ref]) == s;
    } else {
      var e := End(data, offset);
      NextWrites(ses.ref, data, offset, tail);
      WriteTurn(h, ses, s, data, offset, e, now);
      ServeNext(h, ses, s, stream, now);
      var ses', s' := ses.(uploaded := true), SetUpload(s, ses.ref, Received(ses.expected, data, e));
      ServeWrites(h, ses', s', data, e, tail, now);
      assert SetUpload(s', ses.ref, Received(ses.expected, data, |data|))
          == SetUpload(s, ses.ref, Received(ses.expected, data, |data|));
    }
  }

  lemma {:induction false} NoWrites(ref: string, data: seq<byte>, tail: seq<Message>)
    ensures Writes(ref, data, |data|) + tail == tail && Acks(Writes(ref, data, |data|)) == []
  {
  }

  lemma {:induction false} NextWrites(ref: string, data: seq<byte>, offset: nat, tail: seq<Message>)
    requires offset < |data|
    ensures var stream := Writes(ref, data, offset) + tail; var e := End(data, offset);
            && stream != [] && stream[0] == Message(WriteData, ref, "", offset, 0, data[offset..e])
            && stream[1..] == Writes(ref, data, e) + tail
            && Acks(Writes(ref, data, offset)) == [Response(WriteData, e, "", 0)] + Acks(Writes(ref, data, e))
  {
    NextAck(Message(WriteData, ref, "", offset, 0, data[offset..End(data, offset)]),
            Writes(ref, data, offset + CHUNK_SIZE));
    hide Acks;
    if offset + CHUNK_SIZE > |data| {
      assert Writes(ref, data, offset + CHUNK_SIZE) == [] == Writes(ref, data, |data|);
    }
  }

  function CommitMessage(digest: string, data: seq<byte>): Message
    requires |digest| >= 32
  {
    Message(CommitBlob, RefOf(digest), digest, |data|, |data|, [])
  }

  /** Everything but the COMMIT is taken in and answered, under a fresh ref. */
  lemma {:induction false} ClientServed(h: Sha256, s: Store, digest: string, data: seq<byte>, now: string)
    requires |digest| >= 32 && RefOf(digest) !in s.uploads
    ensures var stream, commit := ClientStream(digest, data), CommitMessage(digest, data);
            var t := Serve(h, NEW_SESSION, s, stream, now);
            var received := SetUpload(s, RefOf(digest), Received(digest, data, |data|));
            var r := Serve(h, Session(RefOf(digest), digest, 0 < |data|), received, [commit], now);
            && stream == stream[..|stream| - 1] + [commit]
            && t.store == r.store && t.code == r.code
            && t.responses == Acks(stream[..|stream| - 1]) + r.responses
  {
    hide Serve, Writes, Acks, Received;
    var ref := RefOf(digest);
    var ses := Session(ref, digest, false);
    var stat := Message(Stat, ref, digest, 0, 0, []);
    var commit := CommitMessage(digest, data);
    var s1 := SetUpload(s, ref, NEW_UPLOAD.(expected := digest));
    var stream, writes := ClientStream(digest, data), Writes(ref, data, 0);
    assert stream[0] == stat && stream[1..] == writes + [commit] && stream[..|stream| - 1] == [stat] + writes;
    FirstTurn(h, s, digest, data, now);
    ServeNext(h, NEW_SESSION, s, stream, now);
    ServeWrites(h, ses, s1, data, 0, [commit], now);
    NextAck(stat, writes);
    assert SetUpload(s1, ref, Received(digest, data, |data|)) == SetUpload(s, ref, Received(digest, data, |data|));
  }

  lemma {:induction false} FirstTurn(h: Sha256, s: Store, digest: string, data: seq<byte>, now: string)
    requires |digest| >= 32 && RefOf(digest) !in s.uploads
    ensures var ref := RefOf(digest); var s1 := SetUpload(s, ref, NEW_UPLOAD.(expected := digest));
            && OnMessage(h, NEW_SESSION, s, Message(Stat, ref, digest, 0, 0, []), now)
               == Turn(Session(ref, digest, false), s1, [Response(Stat, 0, "", 0)], false, Fine)
            && s1.uploads[ref] == Received(digest, data, 0)
  {
  }

  /**
    * A client that uploads data under a fresh ref: when the digest is the data's own, exactly these
    * bytes end up under it, with their length as the size; otherwise the call fails and no blob or
    * file changes.
    */
  lemma {:induction false} UploadRoundTrip(h: Sha256, s: Store, digest: string, data: seq<byte>, now: string)
    requires |digest| >= 32 && RefOf(digest) !in s.uploads
    ensures var t := Serve(h, NEW_SESSION, s, ClientStream(digest, data), now);
            if digest == DigestOf(h, data) then
              && t.code == Fine && IsDigest(digest)
              && t.store.blobs == s.blobs[digest := BlobInfo(digest, |data|)]
              && t.store.disk == s.disk[BlobPath(digest) := data]
            else
              t.code == Internal(DigestMismatch) && t.store.blobs == s.blobs && t.store.disk == s.disk
  {
    hide Serve, ClientStream, Acks, DigestOf, IsDigest, BlobPath;
    var ref, received := RefOf(digest), Received(digest, data, |data|);
    var s2 := SetUpload(s, ref, received);
    ClientServed(h, s, digest, data, now);
    ServeOne(h, Session(ref, digest, 0 < |data|), s2, CommitMessage(digest, data), now);
    CommitReceived(h, s2, ref, digest, data);
    hide Commit;
  }

  /**
   * Each message of the upload is answered: by its own action and the offset that its data reaches;
   * the answer to the COMMIT also has the digest and the number of bytes.
   */
  lemma {:induction false} UploadAnswered(h: Sha256, s: Store, data: seq<byte>, now: string)
    requires RefOf(DigestOf(h, data)) !in s.uploads
    ensures var digest := DigestOf(h, data);
            var stream := ClientStream(digest, data);
            var responses := Serve(h, NEW_SESSION, s, stream, now).responses; var last := |stream| - 1;
            && |responses| == |stream|
            && (forall i :: 0 <= i < last ==>
                  responses[i] == Response(stream[i].action, stream[i].offset + |stream[i].data|, "", 0))
            && responses[last] == Response(CommitBlob, |data|, digest, |data|)
  {
    var digest := DigestOf(h, data);
    assert |digest| == 71;
    hide Serve, ClientStream, DigestOf, IsDigest, BlobPath;
    var ref, received := RefOf(digest), Received(digest, data, |data|);
    ClientServed(h, s, digest, data, now);
    assert data[..|data|] == data;
    ServeOne(h, Session(ref, digest, 0 < |data|), SetUpload(s, ref, received), CommitMessage(digest, data), now);
  }

  lemma {:induction false} ServeOne(h: Sha256, ses: Session, s: Store, m: Message, now: string)
    ensures var t, r := OnMessage(h, ses, s, m, now), Serve(h, ses, s, [m], now);
            && r.store == t.store && r.responses == t.responses
            && r.code == if t.done then t.code else Fine
  {
    hide OnMessage;
  }

  lemma {:induction false} CommitReceived(h: Sha256, s: Store, ref: string, digest: string, data: seq<byte>)
    requires ref in s.uploads && digest != "" && s.uploads[ref] == Received(digest, data, |data|)
    ensures var c := Commit(h, s, ref, |data|);
            if digest == DigestOf(h, data) then
              && c.status == Ok && IsDigest(digest)
              && c.store.blobs == s.blobs[digest := BlobInfo(digest, |data|)]
              && c.store.disk == s.disk[BlobPath(digest) := data]
            else c.status == DigestMismatch && c.store.blobs == s.blobs && c.store.disk == s.disk
  {
    assert data[..|data|] == data;
    DigestIsDigest(h, data);
  }

  // ----- the puller's storeContent

  function StoreRef(digest: string): string
    requires |digest| >= 19
  {
    "upload-" + digest[..19]
  }

  /** Begin, one write at 0, commit; the first error ends it. */
  function StoreContent(h: Sha256, s: Store, digest: string, data: seq<byte>, now: string): Result
    requires |digest| >= 19
  {
    var ref := StoreRef(digest);
    var b := Begin(s, ref, digest, now);
    if b.status != Ok then b
    else
      var w := Write(b.store, ref, 0, data);
      if w.status != Ok then w else Commit(h, w.store, ref, |data|)
  }

  /** Under a fresh ref it stores the data exactly when the digest is right. */
  lemma {:induction false} StoreContentFresh(h: Sha256, s: Store, digest: string, data: seq<byte>, now: string)
    requires |digest| >= 19 && StoreRef(digest) !in s.uploads
    ensures var r := StoreContent(h, s, digest, data, now);
            if digest == DigestOf(h, data) then
              && r.status == Ok && IsDigest(digest)
              && r.store.blobs == s.blobs[digest := BlobInfo(digest, |data|)]
              && r.store.disk == s.disk[BlobPath(digest) := data]
            else r.status == DigestMismatch && r.store.blobs == s.blobs && r.store.disk == s.disk
    ensures var t := StoreContent(h, s, digest, data, now).store;
            && StoreRef(digest) in t.uploads && t.uploads == s.uploads[StoreRef(digest) := t.uploads[StoreRef(digest)]]
            && (digest == DigestOf(h, data) ==> t.uploads[StoreRef(digest)].committed)
  {
    var ref := StoreRef(digest);
    var b := Begin(s, ref, digest, now);
    assert b.store.uploads[ref] == Received(digest, data, 0);
    WriteContinues(b.store, ref, digest, data, 0, |data|);
    assert data[0..|data|] == data;
    CommitReceived(h, Write(b.store, ref, 0, data).store, ref, digest, data);
  }

  /** No upload of the ref is known, or one that a write and a commit can still get through. */
  predicate Storable(h: Sha256, s: Store, digest: string, data: seq<byte>)
    requires |digest| >= 19
  {
    var ref := StoreRef(digest);
    if ref !in s.uploads then digest == DigestOf(h, data)
    else
      var u := s.uploads[ref];
      !u.committed && u.open && u.linked && (u.expected == "" || u.expected == DigestOf(h, data))
  }

  /** The file left under the ref, if there is one, does not reach beyond the data. */
  predicate NothingBeyond(s: Store, digest: string, data: seq<byte>)
    requires |digest| >= 19
  {
    StoreRef(digest) in s.uploads ==> |s.uploads[StoreRef(digest)].data| <= |data|
  }

  /** Over a leftover of the same ref, whatever has become of it: the write starts again at 0. */
  lemma {:induction false} StoreContentOverLeftover(h: Sha256, s: Store, digest: string, data: seq<byte>, now: string)
    requires |digest| >= 19 && StoreRef(digest) in s.uploads && HashersSound(s)
    ensures var r := StoreContent(h, s, digest, data, now); var d := DigestOf(h, data);
            && (r.status == Ok <==> Storable(h, s, digest, data))
            && (r.status != Ok ==> r.store.blobs == s.blobs && r.store.disk == s.disk)
            && (r.status == Ok ==>
                  && IsDigest(d) && BlobPath(d) in r.store.disk
                  && r.store.blobs == s.blobs[d := BlobInfo(d, |data|)]
                  && r.store.disk == s.disk[BlobPath(d) := r.store.disk[BlobPath(d)]]
                  && (r.store.disk[BlobPath(d)] == data <==> NothingBeyond(s, digest, data)))
  {
    var ref := StoreRef(digest);
    var u := s.uploads[ref];
    assert HasherInvariant(u);
    DigestIsDigest(h, data);
    if !u.committed && u.open {
      var u' := Extend(u, 0, data);
      Overwritten(u, data);
      assert Write(s, ref, 0, data).store == SetUpload(s, ref, u');
      hide Extend, DigestOf;
    }
  }

  lemma {:induction false} Overwritten(u: Upload, data: seq<byte>)
    requires HasherInvariant(u)
    ensures var v := Extend(u, 0, data);
            && v.hashed == data && v.offset == |data|
            && (v.data == data <==> |u.data| <= |data|)
            && v.expected == u.expected && v.open == u.open && v.linked == u.linked
  {
    assert u.offset == 0 ==> u.hashed == [];
    assert [] + data == data;
    assert u.data[..0] == [];
    if |u.data| > |data| { assert |Extend(u, 0, data).data| == |u.data|; }
  }

  /**
    * storeContent, in full: when it succeeds, what is recorded then, and when the stored file is the
    * data. What is recorded is the digest of the data, not the digest that was asked for.
    */
  lemma {:induction false} StoreContentIff(h: Sha256, s: Store, digest: string, data: seq<byte>, now: string)
    requires |digest| >= 19 && HashersSound(s)
    ensures var r := StoreContent(h, s, digest, data, now); var d := DigestOf(h, data);
            && (r.status == Ok <==> Storable(h, s, digest, data))
            && (r.status != Ok ==> r.store.blobs == s.blobs && r.store.disk == s.disk)
            && (r.status == Ok ==>
                  && IsDigest(d) && BlobPath(d) in r.store.disk
                  && r.store.blobs == s.blobs[d := BlobInfo(d, |data|)]
                  && r.store.disk == s.disk[BlobPath(d) := r.store.disk[BlobPath(d)]]
                  && (r.store.disk[BlobPath(d)] == data <==> NothingBeyond(s, digest, data)))
  {
    hide StoreContent, DigestOf, BlobPath, IsDigest;
    if StoreRef(digest) in s.uploads {
      StoreContentOverLeftover(h, s, digest, data, now);
    } else {
      StoreContentFresh(h, s, digest, data, now);
    }
  }

  /** Only the upload of this ref differs. */
  predicate OnlyUpload(s: Store, t: Store, ref: string) {
    ref in t.uploads && t.uploads == s.uploads[ref := t.uploads[ref]]
  }

  lemma {:induction false} StepsTouchOne(h: Sha256, s: Store, ref: string, digest: string, data: seq<byte>, now: string)
    requires ref != ""
    ensures OnlyUpload(s, Begin(s, ref, digest, now).store, ref)
    ensures ref in s.uploads ==> OnlyUpload(s, Write(s, ref, 0, data).store, ref)
    ensures ref in s.uploads ==> OnlyUpload(s, Commit(h, s, ref, |data|).store, ref)
  {
    hide Extend, DigestOf, IsDigest, BlobPath;
  }

  /** storeContent touches the upload of its own ref only. */
  lemma {:induction false} StoreContentFrame(h: Sha256, s: Store, digest: string, data: seq<byte>, now: string)
    requires |digest| >= 19
    ensures OnlyUpload(s, StoreContent(h, s, digest, data, now).store, StoreRef(digest))
  {
    hide Begin, Write, Commit;
    var ref := StoreRef(digest);
    var b := Begin(s, ref, digest, now).store;
    var w := Write(b, ref, 0, data).store;
    StepsTouchOne(h, s, ref, digest, data, now);
    StepsTouchOne(h, b, ref, digest, data, now);
    StepsTouchOne(h, w, ref, digest, data, now);
  }

  lemma {:induction false} StoreContentKeepsHashers(h: Sha256, s: Store, digest: string, data: seq<byte>, now: string)
    requires |digest| >= 19 && HashersSound(s)
    ensures HashersSound(StoreContent(h, s, digest, data, now).store)
  {
    hide Begin, Write, Commit, HashersSound;
    var ref := StoreRef(digest);
    var b := Begin(s, ref, digest, now).store;
    DoKeepsHashers(h, s, BeginOp(ref, digest, now));
    DoKeepsHashers(h, b, WriteOp(ref, 0, data));
    DoKeepsHashers(h, Write(b, ref, 0, data).store, CommitOp(ref, |data|));
  }

  /** Every attempt uses the ref up, whether it succeeds or fails. */
  lemma {:induction false} StoreContentDooms(h: Sha256, s: Store, digest: string, data: seq<byte>, now: string)
    requires |digest| >= 19 && HashersSound(s)
    ensures Doomed(StoreContent(h, s, digest, data, now).store, StoreRef(digest))
  {
    hide Extend, DigestOf, IsDigest, BlobPath;
    var ref := StoreRef(digest);
    var b := Begin(s, ref, digest, now);
    if b.status == Ok {
      var w := Write(b.store, ref, 0, data);
      if w.status == Ok { CommitDooms(h, w.store, ref, |data|); }
    } else {
      assert HasherInvariant(s.uploads[ref]);
    }
  }

  /** A ref that is used up stays so, and no data at all can be stored under it again. */
  lemma {:induction false} DoomedRefuses(h: Sha256, s: Store, digest: string, data: seq<byte>, ref: string, now: string)
    requires |digest| >= 19 && Doomed(s, ref)
    ensures Doomed(StoreContent(h, s, digest, data, now).store, ref)
    ensures ref == StoreRef(digest) ==> StoreContent(h, s, digest, data, now).status != Ok
  {
    hide Begin, Write, Commit;
    var own := StoreRef(digest);
    var b := Begin(s, own, digest, now);
    var w := Write(b.store, own, 0, data);
    DoKeepsDoomed(h, s, ref, BeginOp(own, digest, now));
    DoKeepsDoomed(h, b.store, ref, WriteOp(own, 0, data));
    DoKeepsDoomed(h, w.store, ref, CommitOp(own, |data|));
    CommitIff(h, w.store, own, |data|);
  }
}
