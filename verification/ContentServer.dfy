/** The content service and its client as running code, proved against the message model. */
module ContentServer {
  import opened ContentModel
  import opened ContentService
  import U = ContentUploads
  import S = ContentStore

  datatype Chunk = Chunk(offset: int, data: seq<byte>)

  function Bytes(chunks: seq<Chunk>): seq<byte> {
    if chunks == [] then [] else Bytes(chunks[..|chunks| - 1]) + chunks[|chunks| - 1].data
  }

  const BUFFER_SIZE := 32 * 1024

  /** Each chunk carries the offset at which the bytes before it end. */
  predicate Consecutive(chunks: seq<Chunk>, offset: int) {
    forall i :: 0 <= i < |chunks| ==>
      chunks[i].offset == offset + |Bytes(chunks[..i])| && 0 < |chunks[i].data| <= BUFFER_SIZE
  }

  /** What is left of the file after seeking to the offset; a negative offset does not seek. */
  function Rest(file: seq<byte>, offset: int): seq<byte> {
    if offset <= 0 then file else if offset >= |file| then [] else file[offset..]
  }

  /** The read loop. Every call of Read may return fewer bytes than the buffer holds. */
  method StreamChunks(file: seq<byte>, offset: int, size: int) returns (chunks: seq<Chunk>)
    ensures Consecutive(chunks, offset)
    ensures Bytes(chunks) <= Rest(file, offset)
    ensures size <= 0 ==> Bytes(chunks) == Rest(file, offset)
    ensures size > 0 ==>
      |Bytes(chunks)| < size + BUFFER_SIZE && (|Bytes(chunks)| >= size || Bytes(chunks) == Rest(file, offset))
  {
    var start := if offset > 0 then offset else 0;
    var sent := 0;
    chunks := [];
    hide Bytes;
    hide Consecutive;
    hide Rest;
    SentNothing(file, offset);
    hide Sent;
    var more := true;
    while more
      invariant sent >= 0 && Sent(file, offset, chunks, sent)
      invariant size > 0 ==> sent < size + (if more then 0 else BUFFER_SIZE)
      invariant more || sent == |Rest(file, offset)| || 0 < size <= sent
      decreases more, |file| - start - sent
    {
      if start + sent >= |file| {
        SentAll(file, offset, chunks, sent);
        more := false;
      } else {
        var data := ReadSome(file, start + sent);
        SentMore(file, offset, chunks, sent, data);
        chunks := chunks + [Chunk(offset + sent, data)];
        sent := sent + |data|;
        more := size <= 0 || sent < size;
      }
    }
    SentMeans(file, offset, chunks, sent);
  }

  /** Read with a buffer of 32 KiB: at least one byte before the end of the file, perhaps fewer than fit. */
  method ReadSome(file: seq<byte>, pos: nat) returns (data: seq<byte>)
    requires pos < |file|
    ensures 0 < |data| <= BUFFER_SIZE && pos + |data| <= |file| && data == file[pos..pos + |data|]
  {
    var n: nat :| 1 <= n <= BUFFER_SIZE && n <= |file| - pos;
    data := file[pos..pos + n];
  }

  /** The chunks sent so far are the first `sent` bytes of the range. */
  predicate Sent(file: seq<byte>, offset: int, chunks: seq<Chunk>, sent: int) {
    && 0 <= sent <= |Rest(file, offset)| && Bytes(chunks) == Rest(file, offset)[..sent]
    && Consecutive(chunks, offset)
  }

  lemma {:induction false} SentNothing(file: seq<byte>, offset: int)
    ensures Sent(file, offset, [], 0)
  {
  }

  lemma {:induction false} SentMeans(file: seq<byte>, offset: int, chunks: seq<Chunk>, sent: int)
    requires Sent(file, offset, chunks, sent)
    ensures |Bytes(chunks)| == sent <= |Rest(file, offset)|
    ensures Bytes(chunks) <= Rest(file, offset) && Consecutive(chunks, offset)
    ensures sent == |Rest(file, offset)| ==> Bytes(chunks) == Rest(file, offset)
  {
  }

  lemma {:induction false} SentAll(file: seq<byte>, offset: int, chunks: seq<Chunk>, sent: int)
    requires Sent(file, offset, chunks, sent) && (if offset > 0 then offset else 0) + sent >= |file|
    ensures sent == |Rest(file, offset)|
  {
  }

  lemma {:induction false} SentMore(file: seq<byte>, offset: int, chunks: seq<Chunk>, sent: int, data: seq<byte>)
    requires Sent(file, offset, chunks, sent) && 0 < |data| <= BUFFER_SIZE
    requires var pos := (if offset > 0 then offset else 0) + sent;
             pos + |data| <= |file| && data == file[pos..pos + |data|]
    ensures Sent(file, offset, chunks + [Chunk(offset + sent, data)], sent + |data|)
  {
    hide Bytes;
    hide Consecutive;
    var rest := Rest(file, offset);
    assert rest[..sent] + data == rest[..sent + |data|];
    assert |Bytes(chunks)| == sent;
    Appended(chunks, Chunk(offset + sent, data), offset);
  }

  lemma {:induction false} Appended(chunks: seq<Chunk>, next: Chunk, offset: int)
    requires Consecutive(chunks, offset)
    requires next.offset == offset + |Bytes(chunks)| && 0 < |next.data| <= BUFFER_SIZE
    ensures Consecutive(chunks + [next], offset)
    ensures Bytes(chunks + [next]) == Bytes(chunks) + next.data
  {
    var r := chunks + [next];
    assert r[..|chunks|] == chunks;
    forall i | 0 <= i < |chunks| ensures r[..i] == chunks[..i] && r[i] == chunks[i] {
    }
  }

  /** A turn without the store, which the service changes in place. */
  datatype Answer = Answer(session: Session, responses: seq<Response>, done: bool, code: Code) {
    function With(store: ContentModel.Store): Turn {
      Turn(session, store, responses, done, code)
    }
  }

  class Service {
    const store: S.Store

    constructor (store: S.Store)
      ensures this.store == store
    {
      this.store := store;
    }

    /** Read: an unknown digest is the error; otherwise the requested range is streamed. */
    method Read(digest: string, offset: int, size: int) returns (found: bool, chunks: seq<Chunk>)
      requires store.Valid()
      ensures found <==> digest in store.blobs && BlobPath(digest) in store.disk
      ensures found ==>
        var file := store.disk[BlobPath(digest)];
        var rest := if offset <= 0 then file else if offset >= |file| then [] else file[offset..];
        && Consecutive(chunks, offset) && Bytes(chunks) <= rest
        && (if size <= 0 then Bytes(chunks) == rest
            else (if size <= |rest| then size else |rest|) <= |Bytes(chunks)| < size + 32768)
      ensures forall i :: 0 <= i < |chunks| ==> 0 < |chunks[i].data| <= 32768
    {
      var f := store.Open(digest);
      if f.None? {
        return false, [];
      }
      found := true;
      chunks := StreamChunks(f.value, offset, size);
    }

    method Handle(ses: Session, m: Message, now: string) returns (t: Answer)
      requires store.Valid()
      modifies store, store.uploads.Values
      ensures store.Valid()
      ensures t.With(store.Value()) == OnAction(store.sha, ses, old(store.Value()), m, now)
      ensures forall u :: u in store.uploads.Values ==> u in old(store.uploads.Values) || fresh(u)
    {
      match m.action
      case Stat =>
        var status, us := store.BeginUpload(m.ref, m.expected, now);
        var ses' := ses.(ref := m.ref, expected := m.expected);
        if status != Ok {
          t := Answer(ses', [], true, Internal(status));
        } else {
          t := Answer(ses', [Response(Stat, us.Offset, "", 0)], false, Fine);
        }
      case WriteData =>
        if ses.ref == "" {
          return Answer(ses, [], true, InvalidArgument);
        }
        var status := store.WriteUpload(ses.ref, m.offset, m.data);
        if status != Ok {
          t := Answer(ses, [], true, Internal(status));
        } else {
          t := Answer(ses.(uploaded := true), [Response(WriteData, store.uploads[ses.ref].Offset, "", 0)], false, Fine);
        }
      case CommitBlob =>
        t := HandleCommit(ses, m);
      case Other =>
        t := Answer(ses, [], true, InvalidArgument);
    }

    method HandleCommit(ses: Session, m: Message) returns (t: Answer)
      requires store.Valid()
      modifies store, store.uploads.Values
      ensures store.Valid() && store.uploads == old(store.uploads)
      ensures t.With(store.Value()) == OnCommit(store.sha, ses, old(store.Value()), m)
    {
      if ses.ref == "" {
        return Answer(ses, [], true, InvalidArgument);
      }
      var status := Ok;
      if !ses.uploaded && |m.data| > 0 {
        status := store.WriteUpload(ses.ref, m.offset, m.data);
      }
      if status == Ok {
        status := store.CommitUpload(ses.ref, m.total);
      }
      if status != Ok {
        t := Answer(ses, [], true, Internal(status));
      } else {
        var us := store.uploads[ses.ref];
        t := Answer(ses, [Response(CommitBlob, us.Offset, us.Digest, us.Size)], true, Fine);
      }
    }

    /** One received message. */
    method Receive(ses: Session, m: Message, now: string) returns (t: Answer)
      requires store.Valid()
      modifies store, store.uploads.Values
      ensures store.Valid()
      ensures t.With(store.Value()) == OnMessage(store.sha, ses, old(store.Value()), m, now)
      ensures forall u :: u in store.uploads.Values ==> u in old(store.uploads.Values) || fresh(u)
    {
      hide OnAction;
      var ses' := ses;
      if ses.ref == "" && m.ref != "" {
        ses' := ses.(ref := m.ref, expected := m.expected);
        var status, _ := store.BeginUpload(m.ref, m.expected, now);
        if status != Ok {
          return Answer(ses', [], true, Internal(status));
        }
      }
      t := Handle(ses', m, now);
    }

    /** The receive loop of Write. */
    method Write(stream: seq<Message>, now: string) returns (responses: seq<Response>, code: Code)
      requires store.Valid()
      modifies store, store.uploads.Values
      ensures store.Valid()
      ensures var t := Serve(store.sha, NEW_SESSION, old(store.Value()), stream, now);
              store.Value() == t.store && responses == t.responses && code == t.code
    {
      hide OnMessage;
      ghost var full := Serve(store.sha, NEW_SESSION, store.Value(), stream, now);
      var ses, i := NEW_SESSION, 0;
      responses, code := [], Fine;
      var done := false;
      while i < |stream| && !done
        invariant 0 <= i <= |stream| && store.Valid()
        invariant !done ==> Continues(full, responses, Serve(store.sha, ses, store.Value(), stream[i..], now))
        invariant done ==> full.store == store.Value() && full.responses == responses && full.code == code
        invariant !done ==> code == Fine
        invariant forall u :: u in store.uploads.Values ==> u in old(store.uploads.Values) || fresh(u)
      {
        ghost var s := store.Value();
        assert stream[i..][0] == stream[i] && stream[i..][1..] == stream[i + 1..];
        var t := Receive(ses, stream[i], now);
        ContinuesOn(store.sha, full, responses, ses, s, stream[i..], now);
        responses := responses + t.responses;
        ses, done, code := t.session, t.done, t.code;
        if !done { code := Fine; }
        i := i + 1;
      }
    }
  }

  /** What is still to come completes what has been sent. */
  ghost predicate Continues(full: Turn, sent: seq<Response>, rest: Turn) {
    full.store == rest.store && full.code == rest.code && full.responses == sent + rest.responses
  }

  lemma {:induction false} ContinuesOn(h: Sha256, full: Turn, sent: seq<Response>, ses: Session, s: Store,
                                       stream: seq<Message>, now: string)
    requires stream != [] && Continues(full, sent, Serve(h, ses, s, stream, now))
    ensures var t := OnMessage(h, ses, s, stream[0], now);
            if t.done then full.store == t.store && full.code == t.code && full.responses == sent + t.responses
            else Continues(full, sent + t.responses, Serve(h, t.session, t.store, stream[1..], now))
  {
    hide OnMessage;
    var t := OnMessage(h, ses, s, stream[0], now);
    if !t.done {
      var rest := Serve(h, t.session, t.store, stream[1..], now);
      assert sent + (t.responses + rest.responses) == sent + t.responses + rest.responses;
    }
  }

  // ----- the client

  predicate SameEnd(t: Turn, r: Turn) {
    t.store == r.store && t.code == r.code
  }

  /** The messages sent so far have brought the call here, whatever comes next. */
  ghost predicate Reached(h: Sha256, s0: Store, sent: seq<Message>, ses: Session, s: Store, now: string) {
    forall rest {:trigger Serve(h, ses, s, rest, now)} ::
      SameEnd(Serve(h, NEW_SESSION, s0, sent + rest, now), Serve(h, ses, s, rest, now))
  }

  /** They have ended the call, whatever would have come next. */
  ghost predicate Ended(h: Sha256, s0: Store, sent: seq<Message>, s: Store, code: Code, now: string) {
    forall rest {:trigger sent + rest} ::
      var t := Serve(h, NEW_SESSION, s0, sent + rest, now); t.store == s && t.code == code
  }

  lemma {:induction false} NothingSent(h: Sha256, s0: Store, now: string)
    ensures Reached(h, s0, [], NEW_SESSION, s0, now)
  {
    hide Serve;
    forall rest: seq<Message>
      ensures SameEnd(Serve(h, NEW_SESSION, s0, [] + rest, now), Serve(h, NEW_SESSION, s0, rest, now))
    {
      assert [] + rest == rest;
    }
  }

  lemma {:induction false} SentOne(h: Sha256, s0: Store, sent: seq<Message>, ses: Session, s: Store, m: Message,
                                   now: string)
    requires Reached(h, s0, sent, ses, s, now)
    ensures var t := OnMessage(h, ses, s, m, now);
            if t.done then Ended(h, s0, sent + [m], t.store, t.code, now)
            else Reached(h, s0, sent + [m], t.session, t.store, now)
  {
    hide OnMessage;
    var t := OnMessage(h, ses, s, m, now);
    forall rest: seq<Message>
      ensures SameEnd(Serve(h, NEW_SESSION, s0, sent + [m] + rest, now),
                      if t.done then t else Serve(h, t.session, t.store, rest, now))
    {
      assert sent + [m] + rest == sent + ([m] + rest);
      assert ([m] + rest)[1..] == rest;
      assert SameEnd(Serve(h, NEW_SESSION, s0, sent + ([m] + rest), now), Serve(h, ses, s, [m] + rest, now));
    }
  }

  /** A COMMIT ends the call; another message ends it exactly when its answer is an error. */
  lemma {:induction false} DoneMeans(h: Sha256, ses: Session, s: Store, m: Message, now: string)
    ensures var t := OnMessage(h, ses, s, m, now);
            (m.action == CommitBlob ==> t.done) && (m.action != CommitBlob ==> (t.done <==> t.code != Fine))
  {
    hide Begin, Write, Commit;
  }

  /** The client sends one message and waits for the answer. */
  method Exchange(service: Service, ses: Session, m: Message, now: string, ghost s0: Store, ghost sent: seq<Message>)
    returns (next: Session, code: Code)
    requires service.store.Valid()
    requires Reached(service.store.sha, s0, sent, ses, service.store.Value(), now)
    modifies service.store, service.store.uploads.Values
    ensures service.store.Valid()
    ensures var s := service.store.Value();
            if code == Fine && m.action != CommitBlob
            then Reached(service.store.sha, s0, sent + [m], next, s, now)
            else Ended(service.store.sha, s0, sent + [m], s, code, now)
    ensures forall u :: u in service.store.uploads.Values ==> u in old(service.store.uploads.Values) || fresh(u)
  {
    hide OnMessage, Reached, Ended;
    DoneMeans(service.store.sha, ses, service.store.Value(), m, now);
    SentOne(service.store.sha, s0, sent, ses, service.store.Value(), m, now);
    var t := service.Receive(ses, m, now);
    next, code := t.session, t.code;
  }

  lemma {:induction false} EndedMeans(h: Sha256, s0: Store, sent: seq<Message>, rest: seq<Message>, s: Store,
                                      code: Code, now: string)
    requires Ended(h, s0, sent, s, code, now)
    ensures var t := Serve(h, NEW_SESSION, s0, sent + rest, now); t.store == s && t.code == code
    ensures var t := Serve(h, NEW_SESSION, s0, sent, now); t.store == s && t.code == code
  {
    assert sent + [] == sent;
  }

  lemma {:induction false} NextChunk(ref: string, data: seq<byte>, offset: nat, last: seq<Message>)
    ensures offset >= |data| ==> Writes(ref, data, offset) + last == last
    ensures offset < |data| ==>
            Writes(ref, data, offset) + last
            == [Message(WriteData, ref, "", offset, 0, data[offset..End(data, offset)])]
               + (Writes(ref, data, offset + CHUNK_SIZE) + last)
  {
  }

  /**
   * The client: STAT, the chunks and COMMIT, each after the answer to the one before; it stops at
   * the first error. What it has sent then has the same outcome as the whole stream would have.
   */
  method WriteContent(service: Service, digest: string, data: seq<byte>, now: string)
    returns (sent: seq<Message>, code: Code)
    requires service.store.Valid() && |digest| >= 32
    modifies service.store, service.store.uploads.Values
    ensures service.store.Valid()
    ensures sent <= ClientStream(digest, data) && (code == Fine ==> sent == ClientStream(digest, data))
    ensures var h, s0, s := service.store.sha, old(service.store.Value()), service.store.Value();
            var all := Serve(h, NEW_SESSION, s0, ClientStream(digest, data), now);
            var seen := Serve(h, NEW_SESSION, s0, sent, now);
            s == all.store == seen.store && code == all.code == seen.code
    ensures U.UploadEnds(service.store.sha, old(service.store.Value()), digest, data, code, service.store.Value())
  {
    hide Serve, Reached, Ended, Writes, U.UploadEnds, HashersSound;
    ghost var h, s0 := service.store.sha, service.store.Value();
    U.ServeEnds(h, s0, digest, data, now);
    hide S.Store.Valid;
    var ref := "pull-" + digest[..32];
    ghost var last := [Message(CommitBlob, ref, digest, |data|, |data|, [])];
    ghost var rest := Writes(ref, data, 0) + last;
    NothingSent(h, s0, now);
    sent := [Message(Stat, ref, digest, 0, 0, [])];
    assert [] + sent == sent && sent + rest == ClientStream(digest, data);
    var ses;
    ses, code := Exchange(service, NEW_SESSION, sent[0], now, s0, []);
    var offset := 0;
    while offset < |data| && code == Fine
      invariant 0 <= offset && service.store.Valid()
      invariant sent + rest == ClientStream(digest, data)
      invariant code == Fine ==> rest == Writes(ref, data, offset) + last
      invariant code == Fine ==> Reached(h, s0, sent, ses, service.store.Value(), now)
      invariant code != Fine ==> Ended(h, s0, sent, service.store.Value(), code, now)
      invariant forall u :: u in service.store.uploads.Values ==> u in old(service.store.uploads.Values) || fresh(u)
      decreases |data| - offset
    {
      var end := offset + CHUNK_SIZE;
      if end > |data| {
        end := |data|;
      }
      var m := Message(WriteData, ref, "", offset, 0, data[offset..end]);
      NextChunk(ref, data, offset, last);
      rest := Writes(ref, data, offset + CHUNK_SIZE) + last;
      assert sent + ([m] + rest) == sent + [m] + rest;
      ses, code := Exchange(service, ses, m, now, s0, sent);
      sent := sent + [m];
      offset := offset + CHUNK_SIZE;
    }
    if code == Fine {
      NextChunk(ref, data, offset, last);
      var m := Message(CommitBlob, ref, digest, |data|, |data|, []);
      ses, code := Exchange(service, ses, m, now, s0, sent);
      sent := sent + [m];
      rest := [];
      assert sent == ClientStream(digest, data);
    }
    EndedMeans(h, s0, sent, rest, service.store.Value(), code, now);
  }

  /** The puller's storeContent. */
  method StoreBlob(store: S.Store, digest: string, data: seq<byte>, now: string) returns (status: Status)
    requires store.Valid() && |digest| >= 19
    modifies store, store.uploads.Values
    ensures store.Valid()
    ensures Result(store.Value(), status) == StoreContent(store.sha, old(store.Value()), digest, data, now)
    ensures forall u :: u in store.uploads.Values ==> u in old(store.uploads.Values) || fresh(u)
  {
    var ref := StoreRef(digest);
    var us;
    status, us := store.BeginUpload(ref, digest, now);
    if status == Ok {
      status := store.WriteUpload(ref, 0, data);
    }
    if status == Ok {
      status := store.CommitUpload(ref, |data|);
    }
  }
}
