/** The content store as a value: committed blobs, blob files on disk, and uploads in progress. */
module ContentModel {
  newtype byte = x: int | 0 <= x < 256

  /** SHA-256 in hexadecimal. Nothing is assumed of it but the length of its result. */
  type Sha256 = h: seq<byte> -> string | forall b :: |h(b)| == 64
    ghost witness (b: seq<byte>) => seq(64, (i: int) => '0')

  const ALGORITHM := "sha256:"

  function DigestOf(h: Sha256, b: seq<byte>): string {
    ALGORITHM + h(b)
  }

  predicate IsDigest(d: string) {
    |d| == 71 && d[..7] == ALGORITHM
  }

  /** Where a blob lives below the root: by algorithm, then by the first two digits. */
  function BlobPath(d: string): string
    requires IsDigest(d)
  {
    "blobs/sha256/" + d[7..9] + "/" + d[7..]
  }

  lemma {:induction false} PathsDiffer(d: string, e: string)
    requires IsDigest(d) && IsDigest(e) && BlobPath(d) == BlobPath(e)
    ensures d == e
  {
    assert d[7..] == BlobPath(d)[16..] && e[7..] == BlobPath(e)[16..];
    assert d == d[..7] + d[7..] && e == e[..7] + e[7..];
  }

  lemma {:induction false} DigestIsDigest(h: Sha256, b: seq<byte>)
    ensures IsDigest(DigestOf(h, b))
  {
    assert DigestOf(h, b)[..7] == ALGORITHM;
  }

  datatype BlobInfo = BlobInfo(digest: string, size: int)

  /**
    * An upload and its temporary file. `data` and `pos` belong to the open handle; `linked` says
    * whether the temporary path still names the file; `hashed` is what the hasher has consumed.
    */
  datatype Upload = Upload(
    offset: int, expected: string, committed: bool, digest: string, size: int,
    data: seq<byte>, pos: int, open: bool, linked: bool, hashed: seq<byte>)

  datatype Store = Store(
    blobs: map<string, BlobInfo>, disk: map<string, seq<byte>>, uploads: map<string, Upload>)

  datatype Status = Ok | AlreadyCommitted | NotFound | SeekFailed | WriteFailed
                  | SizeMismatch | DigestMismatch | CloseFailed | RenameFailed

  datatype Result = Result(store: Store, status: Status)

  const NEW_UPLOAD := Upload(0, "", false, "", 0, [], 0, true, true, [])

  // ----- files

  function Zeros(n: nat): (z: seq<byte>)
    ensures |z| == n
  {
    seq(n, (i: nat) => 0 as byte)
  }

  /** Writing at a position past the end leaves a hole of zeros; writing nothing changes nothing. */
  function WriteAt(data: seq<byte>, pos: nat, chunk: seq<byte>): seq<byte> {
    if chunk == [] then data
    else
      var front := if pos <= |data| then data[..pos] else data + Zeros(pos - |data|);
      front + chunk + (if pos + |chunk| < |data| then data[pos + |chunk|..] else [])
  }

  lemma {:induction false} WriteAtSlices(data: seq<byte>, pos: nat, chunk: seq<byte>, from: nat)
    requires chunk != [] && from <= pos
    ensures var r := WriteAt(data, pos, chunk);
            && pos + |chunk| <= |r| && r[pos..pos + |chunk|] == chunk
            && (pos <= |data| ==> r[from..pos + |chunk|] == data[from..pos] + chunk)
  {
  }

  lemma {:induction false} WriteAtLength(data: seq<byte>, pos: nat, chunk: seq<byte>)
    requires chunk != []
    ensures |WriteAt(data, pos, chunk)| == if pos + |chunk| > |data| then pos + |chunk| else |data|
  {
  }

  /** The file after a write, byte by byte: the chunk, around it what was there, and zeros in a hole. */
  lemma {:induction false} WriteAtBytes(data: seq<byte>, pos: nat, chunk: seq<byte>, i: nat)
    requires i < |WriteAt(data, pos, chunk)|
    ensures WriteAt(data, pos, chunk)[i] ==
            if pos <= i < pos + |chunk| then chunk[i - pos] else if i < |data| then data[i] else 0
  {
    if chunk != [] { WriteAtLength(data, pos, chunk); }
  }

  // ----- the operations

  /** `now` is the clock reading that names an upload without a ref. */
  function RefOrNow(ref: string, now: string): string {
    if ref == "" then "upload-" + now else ref
  }

  function Begin(s: Store, ref: string, expected: string, now: string): Result {
    var name := RefOrNow(ref, now);
    if name in s.uploads then
      Result(s, if s.uploads[name].committed then AlreadyCommitted else Ok)
    else
      Result(s.(uploads := s.uploads[name := NEW_UPLOAD.(expected := expected)]), Ok)
  }

  /** The upload after a write that got through. */
  function Extend(u: Upload, offset: nat, chunk: seq<byte>): Upload {
    var hashed := if u.offset == offset then u.hashed else [];
    var pos := if u.offset == offset then u.pos else offset;
    u.(data := if pos >= 0 then WriteAt(u.data, pos, chunk) else u.data,
       pos := pos + |chunk|, hashed := hashed + chunk, offset := offset + |chunk|)
  }

  function Write(s: Store, ref: string, offset: int, chunk: seq<byte>): Result {
    if ref !in s.uploads then Result(s, NotFound)
    else
      var u := s.uploads[ref];
      if u.offset != offset && (!u.open || offset < 0) then Result(s, SeekFailed)
      else if !u.open || offset < 0 then Result(s, WriteFailed)
      else Result(s.(uploads := s.uploads[ref := Extend(u, offset, chunk)]), Ok)
  }

  function SetUpload(s: Store, ref: string, u: Upload): Store {
    s.(uploads := s.uploads[ref := u])
  }

  function Commit(h: Sha256, s: Store, ref: string, total: int): Result {
    if ref !in s.uploads then Result(s, NotFound)
    else
      var u := s.uploads[ref];
      var digest := DigestOf(h, u.hashed);
      DigestIsDigest(h, u.hashed);
      if total > 0 && u.offset != total then Result(SetUpload(s, ref, u.(linked := false)), SizeMismatch)
      else if u.expected != "" && u.expected != digest then
        Result(SetUpload(s, ref, u.(linked := false)), DigestMismatch)
      else if !u.open then Result(s, CloseFailed)
      else if !u.linked then Result(SetUpload(s, ref, u.(open := false)), RenameFailed)
      else
        Result(
          Store(s.blobs[digest := BlobInfo(digest, u.offset)],
                s.disk[BlobPath(digest) := u.data],
                s.uploads[ref := u.(open := false, linked := false, committed := true,
                                    digest := digest, size := u.offset)]),
          Ok)
  }

  /** The checks before a commit and the closing of the file; a failed check unlinks it. */
  function Settle(u: Upload, total: int, digest: string): (Upload, Status) {
    if total > 0 && u.offset != total then (u.(linked := false), SizeMismatch)
    else if u.expected != "" && u.expected != digest then (u.(linked := false), DigestMismatch)
    else if !u.open then (u, CloseFailed)
    else (u.(open := false), if u.linked then Ok else RenameFailed)
  }

  /** The file is renamed to the blob's path, and the blob recorded. */
  function Publish(s: Store, ref: string, digest: string): Store
    requires ref in s.uploads && IsDigest(digest)
  {
    var u := s.uploads[ref];
    Store(s.blobs[digest := BlobInfo(digest, u.offset)],
          s.disk[BlobPath(digest) := u.data],
          s.uploads[ref := u.(linked := false, committed := true, digest := digest, size := u.offset)])
  }

  /** A commit is these two steps, the second only if the first succeeds. */
  lemma {:induction false} CommitParts(h: Sha256, s: Store, ref: string, total: int)
    requires ref in s.uploads
    ensures var digest := DigestOf(h, s.uploads[ref].hashed);
            var (u, status) := Settle(s.uploads[ref], total, digest);
            var settled := SetUpload(s, ref, u);
            && IsDigest(digest)
            && Commit(h, s, ref, total)
               == Result(if status == Ok then Publish(settled, ref, digest) else settled, status)
  {
    hide DigestOf, IsDigest, BlobPath;
    DigestIsDigest(h, s.uploads[ref].hashed);
    assert s.uploads[ref := s.uploads[ref]] == s.uploads;
  }

  /** Every recorded blob has a name that can be taken apart. */
  predicate BlobsNamed(s: Store) {
    forall d :: d in s.blobs ==> IsDigest(d)
  }

  lemma {:induction false} CommitKeepsNames(h: Sha256, s: Store, ref: string, total: int)
    requires BlobsNamed(s)
    ensures BlobsNamed(Commit(h, s, ref, total).store)
  {
    if ref in s.uploads { DigestIsDigest(h, s.uploads[ref].hashed); }
  }

  function Delete(s: Store, digest: string): Result {
    if digest !in s.blobs then Result(s, NotFound)
    else Result(s.(blobs := s.blobs - {digest},
                   disk := if IsDigest(digest) then s.disk - {BlobPath(digest)} else s.disk), Ok)
  }

  /** What a delete does: the blob and its file are gone, and every other blob and file stays. */
  lemma {:induction false} DeleteOutcome(s: Store, digest: string)
    ensures var r := Delete(s, digest);
            && (r.status == Ok <==> digest in s.blobs)
            && (r.status != Ok ==> r.status == NotFound && r.store == s)
            && digest !in r.store.blobs && r.store.uploads == s.uploads
            && (r.status == Ok && IsDigest(digest) ==> BlobPath(digest) !in r.store.disk)
    ensures var t := Delete(s, digest).store;
            forall e {:trigger e in t.blobs} :: e != digest ==>
              (e in t.blobs <==> e in s.blobs) && (e in t.blobs ==> t.blobs[e] == s.blobs[e])
    ensures var t := Delete(s, digest).store;
            forall e {:trigger BlobPath(e)} :: IsDigest(e) && e != digest ==>
              && (BlobPath(e) in t.disk <==> BlobPath(e) in s.disk)
              && (BlobPath(e) in t.disk ==> t.disk[BlobPath(e)] == s.disk[BlobPath(e)])
  {
    forall e | IsDigest(e) && IsDigest(digest) && e != digest ensures BlobPath(e) != BlobPath(digest) {
      if BlobPath(e) == BlobPath(digest) { PathsDiffer(e, digest); }
    }
    hide BlobPath, IsDigest;
  }

  // ----- the hasher, for arbitrary offsets

  /** The position is Offset, and the hasher has seen a range of the file that ends there. */
  predicate HasherInvariant(u: Upload) {
    && u.pos == u.offset && |u.hashed| <= u.offset
    && (u.hashed != [] ==> u.offset <= |u.data| && u.hashed == u.data[u.offset - |u.hashed|..u.offset])
    && (u.committed ==> !u.open && !u.linked)
  }

  /** Where the hashed range starts. */
  function HashStart(u: Upload): int {
    u.offset - |u.hashed|
  }

  predicate HashersSound(s: Store) {
    forall ref :: ref in s.uploads ==> HasherInvariant(s.uploads[ref])
  }

  lemma {:induction false} ExtendKeepsHasher(u: Upload, offset: nat, chunk: seq<byte>)
    requires HasherInvariant(u) && u.open
    ensures HasherInvariant(Extend(u, offset, chunk))
    ensures HashStart(Extend(u, offset, chunk)) == if u.offset == offset then HashStart(u) else offset
    ensures |Extend(u, offset, chunk).data| ==
            if chunk != [] && offset + |chunk| > |u.data| then offset + |chunk| else |u.data|
  {
    if chunk == [] {
      assert u.hashed + chunk == u.hashed;
    } else {
      hide WriteAt;
      var from := if u.offset == offset then offset - |u.hashed| else offset;
      WriteAtSlices(u.data, offset, chunk, from);
      WriteAtLength(u.data, offset, chunk);
      var r := WriteAt(u.data, offset, chunk);
      if u.offset == offset && u.hashed != [] {
        assert r[from..offset + |chunk|] == u.hashed + chunk;
      } else {
        assert [] + chunk == chunk;
      }
    }
  }

  datatype Op =
    | BeginOp(ref: string, expected: string, now: string)
    | WriteOp(ref: string, offset: int, chunk: seq<byte>)
    | CommitOp(ref: string, total: int)
    | DeleteOp(digest: string)

  function Do(h: Sha256, s: Store, op: Op): Result {
    match op
    case BeginOp(ref, expected, now) => Begin(s, ref, expected, now)
    case WriteOp(ref, offset, chunk) => Write(s, ref, offset, chunk)
    case CommitOp(ref, total) => Commit(h, s, ref, total)
    case DeleteOp(digest) => Delete(s, digest)
  }

  function Run(h: Sha256, s: Store, ops: seq<Op>): Store {
    if ops == [] then s else Do(h, Run(h, s, ops[..|ops| - 1]), ops[|ops| - 1]).store
  }

  const EMPTY := Store(map[], map[], map[])

  lemma {:induction false} OneHasher(s: Store, t: Store, ref: string)
    requires HashersSound(s) && ref in t.uploads && t.uploads == s.uploads[ref := t.uploads[ref]]
    requires HasherInvariant(t.uploads[ref])
    ensures HashersSound(t)
  {
    hide HasherInvariant;
  }

  lemma {:induction false} WriteKeepsHashers(s: Store, ref: string, offset: int, chunk: seq<byte>)
    requires HashersSound(s)
    ensures HashersSound(Write(s, ref, offset, chunk).store)
  {
    hide Extend, HasherInvariant;
    var w := Write(s, ref, offset, chunk);
    if w.status == Ok {
      ExtendKeepsHasher(s.uploads[ref], offset, chunk);
      OneHasher(s, w.store, ref);
    }
  }

  lemma {:induction false} CommitKeepsHashers(h: Sha256, s: Store, ref: string, total: int)
    requires HashersSound(s)
    ensures HashersSound(Commit(h, s, ref, total).store)
  {
    hide DigestOf, IsDigest, BlobPath;
    if ref in s.uploads {
      assert HasherInvariant(s.uploads[ref]);
      assert s.uploads[ref := s.uploads[ref]] == s.uploads;
      OneHasher(s, Commit(h, s, ref, total).store, ref);
    }
  }

  lemma {:induction false} DoKeepsHashers(h: Sha256, s: Store, op: Op)
    requires HashersSound(s)
    ensures HashersSound(Do(h, s, op).store)
  {
    hide Write, Commit;
    match op
    case BeginOp(_, _, _) =>
    case WriteOp(ref, offset, chunk) => WriteKeepsHashers(s, ref, offset, chunk);
    case CommitOp(ref, total) => CommitKeepsHashers(h, s, ref, total);
    case DeleteOp(_) =>
  }

  /** Over every run, whatever the offsets. */
  lemma {:induction false} RunKeepsHashers(h: Sha256, ops: seq<Op>)
    ensures HashersSound(Run(h, EMPTY, ops))
  {
    if ops != [] {
      RunKeepsHashers(h, ops[..|ops| - 1]);
      DoKeepsHashers(h, Run(h, EMPTY, ops[..|ops| - 1]), ops[|ops| - 1]);
    }
  }

  // ----- which bytes the hasher has seen

  /** Does the operation write to the upload and get through? */
  predicate GetsThrough(s: Store, op: Op, ref: string) {
    op.WriteOp? && op.ref == ref && Write(s, ref, op.offset, op.chunk).status == Ok
  }

  /** The last seek point of a run: where the last write began that did not go on at Offset, or 0. */
  function SeekPoint(h: Sha256, ops: seq<Op>, ref: string): int {
    if ops == [] then 0
    else
      var before, op := ops[..|ops| - 1], ops[|ops| - 1];
      var s := Run(h, EMPTY, before);
      if GetsThrough(s, op, ref) && op.offset != s.uploads[ref].offset then op.offset else SeekPoint(h, before, ref)
  }

  /** The end of the file after a run: the furthest byte that was written. */
  function FileEnd(h: Sha256, ops: seq<Op>, ref: string): int {
    if ops == [] then 0
    else
      var before, op := ops[..|ops| - 1], ops[|ops| - 1];
      var end := FileEnd(h, before, ref);
      if GetsThrough(Run(h, EMPTY, before), op, ref) && op.chunk != [] && op.offset + |op.chunk| > end
      then op.offset + |op.chunk| else end
  }

  /** The bytes from one position up to another; none beyond the end of the file. */
  function Range(data: seq<byte>, from: int, to: int): seq<byte> {
    if 0 <= from <= to <= |data| then data[from..to] else []
  }

  /** An operation moves the start of the hashed range only by a seek, and the end only by bytes. */
  lemma {:induction false} DoMovesSeekPoint(h: Sha256, s: Store, op: Op, ref: string)
    requires HashersSound(s) && ref in s.uploads
    ensures var t := Do(h, s, op).store; var u := s.uploads[ref];
            && ref in t.uploads
            && HashStart(t.uploads[ref]) ==
               (if GetsThrough(s, op, ref) && op.offset != u.offset then op.offset else HashStart(u))
            && |t.uploads[ref].data| ==
               (if GetsThrough(s, op, ref) && op.chunk != [] && op.offset + |op.chunk| > |u.data|
                then op.offset + |op.chunk| else |u.data|)
  {
    hide Extend, DigestOf, IsDigest, BlobPath;
    assert HasherInvariant(s.uploads[ref]);
    if GetsThrough(s, op, ref) { ExtendKeepsHasher(s.uploads[ref], op.offset, op.chunk); }
  }

  /**
   * Over every run, whatever the offsets: the hasher has consumed exactly the bytes from the last
   * seek point up to Offset, and the file ends at the furthest byte written.
   */
  lemma {:induction false} RunKeepsSeekPoint(h: Sha256, ops: seq<Op>, ref: string)
    ensures var s, from, end := Run(h, EMPTY, ops), SeekPoint(h, ops, ref), FileEnd(h, ops, ref);
            if ref in s.uploads then
              var u := s.uploads[ref];
              && u.pos == u.offset && |u.data| == end
              && |u.hashed| == u.offset - from && u.hashed == Range(u.data, from, u.offset)
            else from == 0 && end == 0
  {
    hide Do, GetsThrough;
    if ops != [] {
      var before, op := ops[..|ops| - 1], ops[|ops| - 1];
      var s := Run(h, EMPTY, before);
      RunKeepsSeekPoint(h, before, ref);
      RunKeepsHashers(h, before);
      DoKeepsHashers(h, s, op);
      if ref in s.uploads { DoMovesSeekPoint(h, s, op, ref); } else { FirstSeen(h, s, op, ref); }
      var t := Do(h, s, op).store;
      assert ref in t.uploads ==> HasherInvariant(t.uploads[ref]);
    }
  }

  lemma {:induction false} FirstSeen(h: Sha256, s: Store, op: Op, ref: string)
    requires ref !in s.uploads
    ensures !GetsThrough(s, op, ref)
    ensures var t := Do(h, s, op).store;
            ref in t.uploads ==> HashStart(t.uploads[ref]) == 0 && t.uploads[ref].data == []
  {
    hide DigestOf, IsDigest, BlobPath;
  }

  /**
   * What a successful commit records in any run: the digest of the bytes from the last seek point to
   * Offset, with Offset as the size. That is the digest and the size of the stored file exactly when
   * the last seek point is 0 and the file ends at Offset, which the writer knows from its own calls.
   */
  lemma {:induction false} CommitFaithfulIff(h: Sha256, ops: seq<Op>, ref: string, total: int)
    requires Commit(h, Run(h, EMPTY, ops), ref, total).status == Ok
    ensures var s := Run(h, EMPTY, ops);
            var u, t := s.uploads[ref], Commit(h, s, ref, total).store;
            var from, end := SeekPoint(h, ops, ref), FileEnd(h, ops, ref);
            var hashed := Range(u.data, from, u.offset);
            var d := DigestOf(h, hashed);
            && IsDigest(d) && d in t.blobs && BlobPath(d) in t.disk
            && t.blobs[d] == BlobInfo(d, u.offset) && t.disk[BlobPath(d)] == u.data
            && (hashed == t.disk[BlobPath(d)] && t.blobs[d].size == |t.disk[BlobPath(d)]|
                <==> from == 0 && end == u.offset)
  {
    hide Run, SeekPoint, FileEnd, DigestOf;
    var s := Run(h, EMPTY, ops);
    RunKeepsSeekPoint(h, ops, ref);
    DigestIsDigest(h, s.uploads[ref].hashed);
    var u := s.uploads[ref];
    if SeekPoint(h, ops, ref) == 0 && FileEnd(h, ops, ref) == u.offset {
      assert u.data[0..|u.data|] == u.data;
    }
  }

  const TWO_BYTES := NEW_UPLOAD.(offset := 2, data := [1, 2], pos := 2, hashed := [1, 2])
  const REWOUND := NEW_UPLOAD.(offset := 1, data := [3, 2], pos := 1, hashed := [3])

  lemma {:induction false} RewindWrites()
    ensures Extend(NEW_UPLOAD, 0, [1, 2]) == TWO_BYTES
    ensures Extend(TWO_BYTES, 0, [3]) == REWOUND
  {
    assert WriteAt([], 0, [1, 2]) == [1, 2];
    assert WriteAt([1, 2], 0, [3]) == [3, 2];
  }

  /** Two bytes, then one byte over the first: the blob is recorded with size 1 but its file has 2 bytes. */
  lemma {:induction false} RewindLosesAddress(h: Sha256)
    ensures var ops := [BeginOp("r", "", "")] + [WriteOp("r", 0, [1, 2])] + [WriteOp("r", 0, [3])];
            var s, d := Run(h, EMPTY, ops + [CommitOp("r", 0)]), DigestOf(h, [3]);
            && IsDigest(d) && d in s.blobs && s.blobs[d].size == 1
            && BlobPath(d) in s.disk && s.disk[BlobPath(d)] == [3, 2]
  {
    hide Run, Extend, DigestOf, IsDigest, BlobPath;
    var o1, o2, o3, o4 := BeginOp("r", "", ""), WriteOp("r", 0, [1, 2]), WriteOp("r", 0, [3]), CommitOp("r", 0);
    RunNext(h, EMPTY, [], o1);
    RunNext(h, EMPTY, [o1], o2);
    RunNext(h, EMPTY, [o1] + [o2], o3);
    RunNext(h, EMPTY, [o1] + [o2] + [o3], o4);
    RewindWrites();
    assert [] + [o1] == [o1];
    var s1 := SetUpload(EMPTY, "r", NEW_UPLOAD);
    var s2, s3 := SetUpload(EMPTY, "r", TWO_BYTES), SetUpload(EMPTY, "r", REWOUND);
    assert Do(h, EMPTY, o1).store == s1;
    assert Do(h, s1, o2).store == s2;
    assert Do(h, s2, o3).store == s3;
    DigestIsDigest(h, [3]);
  }

  lemma {:induction false} RunNext(h: Sha256, s: Store, ops: seq<Op>, op: Op)
    ensures Run(h, s, []) == s
    ensures Run(h, s, ops + [op]) == Do(h, Run(h, s, ops), op).store
  {
    hide Do;
    assert (ops + [op])[..|ops|] == ops;
  }

  // ----- content addressing, for contiguous uploads

  /** Each upload is written on from where it stands, starting at 0. */
  predicate Contiguous(s: Store, op: Op) {
    op.WriteOp? && op.ref in s.uploads ==> op.offset == s.uploads[op.ref].offset
  }

  predicate ContiguousRun(h: Sha256, s: Store, ops: seq<Op>) {
    ops == [] || (ContiguousRun(h, s, ops[..|ops| - 1]) && Contiguous(Run(h, s, ops[..|ops| - 1]), ops[|ops| - 1]))
  }

  /** The whole file has been hashed. */
  predicate WholeHashed(u: Upload) {
    u.pos == u.offset == |u.data| && u.hashed == u.data
  }

  /** The entry of d in the blob map describes the file at d's path. */
  predicate BlobSound(h: Sha256, s: Store, d: string)
    requires d in s.blobs
  {
    && IsDigest(d) && BlobPath(d) in s.disk
    && DigestOf(h, s.disk[BlobPath(d)]) == d
    && s.blobs[d] == BlobInfo(d, |s.disk[BlobPath(d)]|)
  }

  ghost predicate Addressed(h: Sha256, s: Store) {
    && (forall d {:trigger d in s.blobs} :: d in s.blobs ==> BlobSound(h, s, d))
    && (forall p :: p in s.disk ==> exists d :: d in s.blobs && IsDigest(d) && BlobPath(d) == p)
    && (forall ref :: ref in s.uploads ==>
          WholeHashed(s.uploads[ref]) && (s.uploads[ref].committed ==> !s.uploads[ref].open && !s.uploads[ref].linked))
  }

  /** A file arrives under its own digest. */
  lemma {:induction false} BlobAdded(h: Sha256, s: Store, t: Store, data: seq<byte>)
    requires Addressed(h, s) && IsDigest(DigestOf(h, data))
    requires t.disk == s.disk[BlobPath(DigestOf(h, data)) := data]
    requires t.blobs == s.blobs[DigestOf(h, data) := BlobInfo(DigestOf(h, data), |data|)]
    ensures forall e {:trigger e in t.blobs} :: e in t.blobs ==> BlobSound(h, t, e)
    ensures forall p :: p in t.disk ==> exists e :: e in t.blobs && IsDigest(e) && BlobPath(e) == p
  {
    var d := DigestOf(h, data);
    forall e | e in t.blobs ensures BlobSound(h, t, e) {
      if e != d {
        assert BlobSound(h, s, e);
        if BlobPath(e) == BlobPath(d) { PathsDiffer(d, e); }
      }
    }
    forall p | p in t.disk ensures exists e :: e in t.blobs && IsDigest(e) && BlobPath(e) == p {
      if p != BlobPath(d) {
        var e :| e in s.blobs && IsDigest(e) && BlobPath(e) == p;
        assert e in t.blobs;
      } else {
        assert d in t.blobs;
      }
    }
  }

  lemma {:induction false} CommitAddressed(h: Sha256, s: Store, ref: string, total: int)
    requires Addressed(h, s)
    ensures Addressed(h, Commit(h, s, ref, total).store)
  {
    hide BlobSound;
    hide BlobPath;
    var r := Commit(h, s, ref, total);
    if r.status == Ok {
      var u := s.uploads[ref];
      DigestIsDigest(h, u.hashed);
      BlobAdded(h, s, r.store, u.data);
    } else {
      UploadsOnly(h, s, r.store);
    }
  }

  lemma {:induction false} DeleteAddressed(h: Sha256, s: Store, digest: string)
    requires Addressed(h, s)
    ensures Addressed(h, Delete(s, digest).store)
  {
    var r := Delete(s, digest);
    if r.status == Ok {
      assert BlobSound(h, s, digest);
      forall e | e in r.store.blobs ensures BlobSound(h, r.store, e) {
        assert BlobSound(h, s, e);
        if BlobPath(e) == BlobPath(digest) { PathsDiffer(digest, e); }
      }
      forall p | p in r.store.disk ensures exists e :: e in r.store.blobs && IsDigest(e) && BlobPath(e) == p {
        var e :| e in s.blobs && IsDigest(e) && BlobPath(e) == p;
        assert e in r.store.blobs;
      }
    }
  }

  lemma {:induction false} ExtendWhole(u: Upload, chunk: seq<byte>)
    requires WholeHashed(u)
    ensures WholeHashed(Extend(u, u.offset, chunk)) && Extend(u, u.offset, chunk).data == u.data + chunk
  {
    assert u.data[..|u.data|] == u.data;
    assert u.data + [] == u.data;
  }

  lemma {:induction false} DoKeepsAddressed(h: Sha256, s: Store, op: Op)
    requires Addressed(h, s) && Contiguous(s, op)
    ensures Addressed(h, Do(h, s, op).store)
  {
    match op
    case BeginOp(ref, expected, now) => UploadsOnly(h, s, Do(h, s, op).store);
    case WriteOp(ref, offset, chunk) =>
      if Do(h, s, op).status == Ok { ExtendWhole(s.uploads[ref], chunk); }
      UploadsOnly(h, s, Do(h, s, op).store);
    case CommitOp(ref, total) => CommitAddressed(h, s, ref, total);
    case DeleteOp(digest) => DeleteAddressed(h, s, digest);
  }

  lemma {:induction false} UploadsOnly(h: Sha256, s: Store, t: Store)
    requires Addressed(h, s) && t.blobs == s.blobs && t.disk == s.disk
    requires forall ref :: ref in t.uploads ==>
      WholeHashed(t.uploads[ref]) && (t.uploads[ref].committed ==> !t.uploads[ref].open && !t.uploads[ref].linked)
    ensures Addressed(h, t)
  {
    forall d | d in t.blobs ensures BlobSound(h, t, d) {
      assert BlobSound(h, s, d);
    }
  }

  /** Over every run of contiguous uploads, the blob map and the files agree. */
  lemma {:induction false} RunKeepsAddressed(h: Sha256, ops: seq<Op>)
    requires ContiguousRun(h, EMPTY, ops)
    ensures Addressed(h, Run(h, EMPTY, ops))
  {
    if ops != [] {
      RunKeepsAddressed(h, ops[..|ops| - 1]);
      DoKeepsAddressed(h, Run(h, EMPTY, ops[..|ops| - 1]), ops[|ops| - 1]);
    }
  }

  /** The same for one digest: recorded exactly when its file exists, which then hashes to it. */
  lemma {:induction false} BlobIffFile(h: Sha256, ops: seq<Op>, d: string)
    requires ContiguousRun(h, EMPTY, ops) && IsDigest(d)
    ensures var s := Run(h, EMPTY, ops);
            && (d in s.blobs <==> BlobPath(d) in s.disk)
            && (d in s.blobs ==> DigestOf(h, s.disk[BlobPath(d)]) == d && s.blobs[d].size == |s.disk[BlobPath(d)]|)
  {
    RunKeepsAddressed(h, ops);
    var s := Run(h, EMPTY, ops);
    if BlobPath(d) in s.disk {
      var e :| e in s.blobs && IsDigest(e) && BlobPath(e) == BlobPath(d);
      PathsDiffer(d, e);
    }
    if d in s.blobs { assert BlobSound(h, s, d); }
  }

  // ----- what a commit decides for good

  /** A commit goes through exactly under these conditions; otherwise blobs and files stay as they are. */
  lemma {:induction false} CommitIff(h: Sha256, s: Store, ref: string, total: int)
    ensures ref in s.uploads ==>
            var u, r := s.uploads[ref], Commit(h, s, ref, total);
            && (r.status == Ok <==>
                  u.open && u.linked && (total <= 0 || u.offset == total)
                  && (u.expected == "" || u.expected == DigestOf(h, u.hashed)))
            && (r.status != Ok ==> r.store.blobs == s.blobs && r.store.disk == s.disk)
  {
  }

  /** The upload can no longer be committed. */
  predicate Doomed(s: Store, ref: string) {
    ref in s.uploads && !(s.uploads[ref].open && s.uploads[ref].linked)
  }

  /** Once rejected, or once committed, a ref is never committed again, whatever calls follow. */
  lemma {:induction false} DoomedForever(h: Sha256, s: Store, ref: string, ops: seq<Op>, total: int)
    requires Doomed(s, ref)
    ensures Doomed(Run(h, s, ops), ref) && Commit(h, Run(h, s, ops), ref, total).status != Ok
  {
    CommitIff(h, Run(h, s, ops), ref, total);
    hide Commit;
    if ops != [] {
      DoomedForever(h, s, ref, ops[..|ops| - 1], total);
      DoKeepsDoomed(h, Run(h, s, ops[..|ops| - 1]), ref, ops[|ops| - 1]);
      hide Do;
    }
  }

  lemma {:induction false} DoKeepsDoomed(h: Sha256, s: Store, ref: string, op: Op)
    requires Doomed(s, ref)
    ensures Doomed(Do(h, s, op).store, ref)
  {
    hide DigestOf;
    hide WriteAt;
  }

  lemma {:induction false} CommitDooms(h: Sha256, s: Store, ref: string, total: int)
    requires ref in s.uploads
    ensures Doomed(Commit(h, s, ref, total).store, ref)
  {
  }

  /** A commit that fails its checks leaves the upload open: writes still get through, in vain. */
  lemma {:induction false} RejectedTakesWrites(h: Sha256, s: Store, ref: string, total: int, offset: nat,
                                               chunk: seq<byte>)
    requires ref in s.uploads && s.uploads[ref].open
    requires Commit(h, s, ref, total).status in {SizeMismatch, DigestMismatch}
    ensures var u, w := s.uploads[ref], Write(Commit(h, s, ref, total).store, ref, offset, chunk);
            && w.status == Ok && w.store.uploads[ref] == Extend(u, offset, chunk).(linked := false)
            && Commit(h, w.store, ref, offset + |chunk|).status != Ok
  {
    hide DigestOf, IsDigest, BlobPath, WriteAt;
  }

  /** A committed upload is frozen: every write is refused and the upload stays as it is. */
  lemma {:induction false} CommittedFrozen(h: Sha256, s: Store, ref: string, op: Op)
    requires HashersSound(s) && ref in s.uploads && s.uploads[ref].committed
    ensures var r := Do(h, s, op);
            && ref in r.store.uploads && r.store.uploads[ref] == s.uploads[ref]
            && (op.WriteOp? && op.ref == ref ==> r.status != Ok && r.store == s)
            && (op.BeginOp? && op.ref == ref && ref != "" ==> r.status == AlreadyCommitted)
  {
    assert HasherInvariant(s.uploads[ref]);
  }
}
