/** The client's messages one by one, and the streams that a client of another kind may send. */
module ContentProtocol {
  import opened ContentModel
  import opened ContentService

  /** As many chunks as mebibytes, the last one perhaps a part of one. */
  lemma {:induction false} WritesCount(ref: string, data: seq<byte>, offset: nat)
    ensures |Writes(ref, data, offset)| == if offset < |data| then (|data| - offset + 1048575) / 1048576 else 0
    decreases |data| - offset
  {
    if offset < |data| { WritesCount(ref, data, offset + CHUNK_SIZE); }
  }

  /** Chunk i of the upload: one mebibyte from i mebibytes on, and what is left at the end. */
  lemma {:induction false} WritesAt(ref: string, data: seq<byte>, offset: nat, i: nat)
    requires i < |Writes(ref, data, offset)|
    ensures var from := offset + i * 1048576; var to := from + 1048576;
            && from < |data|
            && Writes(ref, data, offset)[i]
               == Message(WriteData, ref, "", from, 0, if to < |data| then data[from..to] else data[from..])
    decreases i
  {
    var rest := Writes(ref, data, offset + CHUNK_SIZE);
    assert Writes(ref, data, offset)
        == [Message(WriteData, ref, "", offset, 0, data[offset..End(data, offset)])] + rest;
    hide Writes;
    if i > 0 {
      assert Writes(ref, data, offset)[i] == rest[i - 1];
      WritesAt(ref, data, offset + CHUNK_SIZE, i - 1);
    }
  }

  /** Uploads of two digests get in each other's way exactly when their first 32 characters agree. */
  lemma {:induction false} RefsCollideIff(d: string, e: string)
    requires |d| >= 32 && |e| >= 32
    ensures RefOf(d) == RefOf(e) <==> forall i :: 0 <= i < 32 ==> d[i] == e[i]
    ensures "pull-" <= RefOf(d) && RefOf(d)[5..] <= d
  {
    assert RefOf(d)[5..] == d[..32] && RefOf(e)[5..] == e[..32];
    assert forall i :: 0 <= i < 32 ==> d[i] == d[..32][i] && e[i] == e[..32][i];
  }

  // ----- streams without STAT

  /** The data ends up under its own digest if neither an expected digest nor a total speaks against it. */
  predicate StoredOrRefused(h: Sha256, s: Store, expected: string, total: int, data: seq<byte>,
                            code: Code, t: Store) {
    var d := DigestOf(h, data);
    if total > 0 && total != |data| then
      code == Internal(SizeMismatch) && t.blobs == s.blobs && t.disk == s.disk
    else if expected != "" && expected != d then
      code == Internal(DigestMismatch) && t.blobs == s.blobs && t.disk == s.disk
    else
      && code == Fine && IsDigest(d)
      && t.blobs == s.blobs[d := BlobInfo(d, |data|)] && t.disk == s.disk[BlobPath(d) := data]
  }

  lemma {:induction false} CommitOfReceived(h: Sha256, s: Store, ref: string, expected: string, total: int,
                                            data: seq<byte>)
    ensures var c := Commit(h, SetUpload(s, ref, Received(expected, data, |data|)), ref, total);
            StoredOrRefused(h, s, expected, total, data, if c.status == Ok then Fine else Internal(c.status), c.store)
  {
    DigestIsDigest(h, data);
    assert data[..|data|] == data;
    hide DigestOf, IsDigest, BlobPath;
  }

  lemma {:induction false} BeginAndWrite(s: Store, ref: string, expected: string, data: seq<byte>, now: string)
    requires ref != "" && ref !in s.uploads
    ensures var begun := SetUpload(s, ref, NEW_UPLOAD.(expected := expected));
            && Begin(s, ref, expected, now) == Result(begun, Ok)
            && begun.uploads[ref] == Received(expected, data, 0)
            && Write(begun, ref, 0, data) == Result(SetUpload(s, ref, Received(expected, data, |data|)), Ok)
  {
    var begun := SetUpload(s, ref, NEW_UPLOAD.(expected := expected));
    assert begun.uploads[ref] == Received(expected, data, 0);
    assert data[0..|data|] == data;
    WriteContinues(begun, ref, expected, data, 0, |data|);
  }

  /** A COMMIT may bring the whole blob with it; without an expected digest anything is stored. */
  lemma {:induction false} OneMessageUpload(h: Sha256, s: Store, ref: string, expected: string, total: int,
                                            data: seq<byte>, now: string)
    requires ref != "" && ref !in s.uploads
    ensures var t := Serve(h, NEW_SESSION, s, [Message(CommitBlob, ref, expected, 0, total, data)], now);
            StoredOrRefused(h, s, expected, total, data, t.code, t.store)
  {
    hide Begin, Write, Commit, StoredOrRefused, Received;
    var m := Message(CommitBlob, ref, expected, 0, total, data);
    BeginAndWrite(s, ref, expected, data, now);
    CommitOfReceived(h, s, ref, expected, total, data);
    ServeOne(h, NEW_SESSION, s, m, now);
  }

  /** After a WRITE the data of a COMMIT is ignored, wherever it asks to be written. */
  lemma {:induction false} CommitDataIgnored(h: Sha256, s: Store, ref: string, expected: string, data: seq<byte>,
                                             commit: Message, now: string)
    requires ref != "" && ref !in s.uploads && commit.action == CommitBlob
    ensures var write := Message(WriteData, ref, expected, 0, 0, data);
            var t := Serve(h, NEW_SESSION, s, [write, commit], now);
            StoredOrRefused(h, s, expected, commit.total, data, t.code, t.store)
  {
    hide Begin, Write, Commit, StoredOrRefused, Serve;
    var write := Message(WriteData, ref, expected, 0, 0, data);
    BeginAndWrite(s, ref, expected, data, now);
    var received := SetUpload(s, ref, Received(expected, data, |data|));
    CommitOfReceived(h, s, ref, expected, commit.total, data);
    ServeNext(h, NEW_SESSION, s, [write, commit], now);
    assert [write, commit][1..] == [commit];
    ServeOne(h, Session(ref, expected, true), received, commit, now);
  }

  /** STAT turns the call to another upload, whatever the call was about before. */
  lemma {:induction false} StatSwitches(h: Sha256, ses: Session, s: Store, m: Message, now: string)
    requires m.action == Stat && OnMessage(h, ses, s, m, now).code == Fine
    ensures OnMessage(h, ses, s, m, now).session == Session(m.ref, m.expected, ses.uploaded)
  {
  }

  /**
   * But a WRITE before the turn still counts: the data that comes with the COMMIT of the second upload
   * is dropped, and the empty blob is committed in its place.
   */
  lemma {:induction false} SwitchedUpload(h: Sha256, s: Store, ref: string, data: seq<byte>, other: string,
                                          expected: string, commit: Message, now: string)
    requires ref != "" && other != "" && ref != other && ref !in s.uploads && other !in s.uploads
    requires commit.action == CommitBlob
    ensures var write, stat := Message(WriteData, ref, "", 0, 0, data), Message(Stat, other, expected, 0, 0, []);
            var t := Serve(h, NEW_SESSION, s, [write, stat, commit], now);
            StoredOrRefused(h, s, expected, commit.total, [], t.code, t.store)
  {
    hide Write, Commit, Serve, DigestOf, IsDigest, BlobPath;
    var write, stat := Message(WriteData, ref, "", 0, 0, data), Message(Stat, other, expected, 0, 0, []);
    BeginAndWrite(s, ref, "", data, now);
    var s1 := SetUpload(s, ref, Received("", data, |data|));
    BeginAndWrite(s1, other, expected, [], now);
    hide Begin;
    ServeNext(h, NEW_SESSION, s, [write, stat, commit], now);
    assert [write, stat, commit][1..] == [stat, commit] && [stat, commit][1..] == [commit];
    ServeNext(h, Session(ref, "", true), s1, [stat, commit], now);
    var s2 := SetUpload(s1, other, NEW_UPLOAD.(expected := expected));
    ServeOne(h, Session(other, expected, true), s2, commit, now);
    CommitOfReceived(h, s1, other, expected, commit.total, []);
  }

  /** STAT tells a client where an unfinished upload stands, and changes nothing; a finished one is refused. */
  lemma {:induction false} StatOfKnown(h: Sha256, s: Store, ref: string, expected: string, now: string)
    requires ref != "" && ref in s.uploads
    ensures var u, t := s.uploads[ref], Serve(h, NEW_SESSION, s, [Message(Stat, ref, expected, 0, 0, [])], now);
            && t.store == s
            && (if u.committed then t.code == Internal(AlreadyCommitted) && t.responses == []
                else t.code == Fine && t.responses == [Response(Stat, u.offset, "", 0)])
  {
    ServeOne(h, NEW_SESSION, s, Message(Stat, ref, expected, 0, 0, []), now);
  }

  /** A message without a ref is refused if none came before, even after a STAT without one. */
  lemma {:induction false} NothingWithoutRef(h: Sha256, ses: Session, s: Store, m: Message, now: string)
    requires ses.ref == "" && m.ref == ""
    ensures var t := OnMessage(h, ses, s, m, now);
            if m.action == Stat then t.session.ref == ""
            else t.done && t.code == InvalidArgument && t.store == s && t.responses == []
  {
  }

  /** An unknown action ends the call with an error; no blob or file changes. */
  lemma {:induction false} UnknownAction(h: Sha256, ses: Session, s: Store, m: Message, now: string)
    requires m.action == Other
    ensures var t := OnMessage(h, ses, s, m, now);
            && t.done && t.code != Fine && t.store.blobs == s.blobs && t.store.disk == s.disk
            && (ses.ref != "" || m.ref == "" ==> t.code == InvalidArgument && t.store == s)
  {
  }
}
