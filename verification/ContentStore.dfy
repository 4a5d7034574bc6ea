/** The Store object: uploads are records that its methods change in place. */
module ContentStore {
  import opened ContentModel
  import opened Wrappers

  /** uploadState, with its temporary file: bytes, position, whether the handle is open, whether the
      temporary path still names it. hasher is what the running hash has consumed. */
  class UploadState {
    const Expected: string
    var Offset: int
    var Committed: bool
    var Digest: string
    var Size: int
    var fileData: seq<byte>
    var filePos: int
    var fileOpen: bool
    var fileLinked: bool
    var hasher: seq<byte>

    constructor (expected: string)
      ensures Value() == NEW_UPLOAD.(expected := expected)
    {
      Expected, Offset, Committed, Digest, Size := expected, 0, false, "", 0;
      fileData, filePos, fileOpen, fileLinked, hasher := [], 0, true, true, [];
    }

    ghost function Value(): Upload
      reads this
    {
      Upload(Offset, Expected, Committed, Digest, Size, fileData, filePos, fileOpen, fileLinked, hasher)
    }
  }

  class Store {
    const sha: Sha256
    var blobs: map<string, BlobInfo>
    /** The blob files, by path below the root. */
    var disk: map<string, seq<byte>>
    var uploads: map<string, UploadState>

    ghost function Value(): ContentModel.Store
      reads this, uploads.Values
    {
      ContentModel.Store(blobs, disk, map ref | ref in uploads :: uploads[ref].Value())
    }

    /** No two refs share an upload record. */
    ghost predicate Distinct()
      reads this`uploads
    {
      forall a, b :: a in uploads && b in uploads && a != b ==> uploads[a] != uploads[b]
    }

    ghost predicate Valid()
      reads this, uploads.Values
    {
      Distinct() && HashersSound(Value()) && BlobsNamed(Value())
    }

    constructor (sha: Sha256)
      ensures Valid() && this.sha == sha && Value() == EMPTY
    {
      this.sha := sha;
      blobs, disk, uploads := map[], map[], map[];
    }

    method BeginUpload(ref: string, expected: string, now: string) returns (status: Status, us: UploadState?)
      requires Valid()
      modifies this`uploads
      ensures Valid()
      ensures Result(Value(), status) == Begin(old(Value()), ref, expected, now)
      ensures status == Ok ==> RefOrNow(ref, now) in uploads && us == uploads[RefOrNow(ref, now)]
      ensures status == Ok && ref == "" ==> "upload-" + now in uploads && us == uploads["upload-" + now]
      ensures forall u :: u in uploads.Values ==> u in old(uploads.Values) || fresh(u)
    {
      var name := RefOrNow(ref, now);
      if name in uploads {
        if uploads[name].Committed {
          return AlreadyCommitted, null;
        }
        return Ok, uploads[name];
      }
      DoKeepsHashers(sha, Value(), BeginOp(ref, expected, now));
      hide HashersSound;
      us := Register(name, expected);
      status := Ok;
    }

    /** A fresh record enters the map. */
    method Register(name: string, expected: string) returns (u: UploadState)
      requires Distinct()
      modifies this`uploads
      ensures Distinct()
      ensures name in uploads && uploads[name] == u && fresh(u)
      ensures forall v :: v in uploads.Values ==> v in old(uploads.Values) || v == u
      ensures Value() == old(Value()).(uploads := old(Value()).uploads[name := NEW_UPLOAD.(expected := expected)])
    {
      u := new UploadState(expected);
      uploads := uploads[name := u];
      UploadAdded(name, u);
    }

    twostate lemma {:induction false} UploadAdded(name: string, new u: UploadState)
      requires uploads == old(uploads)[name := u]
      requires forall r :: r in old(uploads) ==> unchanged(old(uploads[r]))
      ensures Value().uploads == old(Value()).uploads[name := u.Value()]
    {
    }

    /** The upload that changed is the only one. */
    twostate lemma {:induction false} OneUpload(ref: string, new v: Upload)
      requires ref in uploads && uploads == old(uploads) && uploads[ref].Value() == v
      requires Distinct()
      requires forall r :: r in uploads && uploads[r] != uploads[ref] ==> unchanged(uploads[r])
      ensures Value().uploads == old(Value()).uploads[ref := v]
    {
    }

    method WriteUpload(ref: string, offset: int, data: seq<byte>) returns (status: Status)
      requires Valid()
      modifies uploads.Values
      ensures Valid()
      ensures Result(Value(), status) == Write(old(Value()), ref, offset, data)
      ensures status == Ok <==> old(ref in uploads && uploads[ref].fileOpen) && offset >= 0
      ensures status == Ok ==> uploads[ref].Offset == offset + |data|
    {
      status := ContentModel.NotFound;
      if ref in uploads {
        var us := uploads[ref];
        assert HasherInvariant(Value().uploads[ref]);
        DoKeepsHashers(sha, Value(), WriteOp(ref, offset, data));
        assert us.filePos == us.Offset && us.Offset >= 0;
        hide HashersSound, HasherInvariant, IsDigest, Extend;
        status := Put(us, offset, data);
        OneUpload(ref, us.Value());
        assert Result(Value(), status) == Write(old(Value()), ref, offset, data);
      }
    }

    /** Seek if the offset is not where the file stands, then write and hash. */
    static method Put(us: UploadState, offset: int, data: seq<byte>) returns (status: Status)
      requires us.filePos == us.Offset && us.Offset >= 0
      modifies us
      ensures status != Ok ==> us.Value() == old(us.Value())
      ensures status == if old(us.Offset) != offset && (!old(us.fileOpen) || offset < 0) then SeekFailed
                        else if !old(us.fileOpen) then WriteFailed else Ok
      ensures status == Ok ==> offset >= 0 && us.Value() == Extend(old(us.Value()), offset, data)
    {
      if us.Offset != offset {
        if !us.fileOpen || offset < 0 {
          return SeekFailed;
        }
        us.filePos := offset;
        us.hasher := [];
      }
      if !us.fileOpen {
        return WriteFailed;
      }
      us.fileData := WriteAt(us.fileData, us.filePos, data);
      us.filePos := us.filePos + |data|;
      us.hasher := us.hasher + data;
      us.Offset := offset + |data|;
      return Ok;
    }

    method CommitUpload(ref: string, total: int) returns (status: Status)
      requires Valid()
      modifies this`blobs, this`disk, uploads.Values
      ensures Valid() && uploads == old(uploads)
      ensures Result(Value(), status) == Commit(sha, old(Value()), ref, total)
    {
      status := ContentModel.NotFound;
      if ref in uploads {
        DoKeepsHashers(sha, Value(), CommitOp(ref, total));
        CommitParts(sha, Value(), ref, total);
        CommitKeepsNames(sha, Value(), ref, total);
        hide HashersSound, BlobsNamed, Commit, DigestOf, IsDigest, BlobPath, ContentModel.Settle, ContentModel.Publish;
        hide Distinct;
        var digest := DigestOf(sha, uploads[ref].hasher);
        status := Settle(ref, total, digest);
        if status == Ok {
          Publish(ref, digest);
        }
      }
    }

    /** The checks before a commit, and the closing of the file; a failed check deletes it. */
    method Settle(ref: string, total: int, digest: string) returns (status: Status)
      requires Distinct()
      requires ref in uploads
      modifies uploads[ref]
      ensures var (u, result) := ContentModel.Settle(old(Value()).uploads[ref], total, digest);
              Value() == SetUpload(old(Value()), ref, u) && status == result
    {
      var us := uploads[ref];
      var actualSize := us.Offset;
      if total > 0 && actualSize != total {
        us.fileLinked := false;
        status := SizeMismatch;
      } else if us.Expected != "" && us.Expected != digest {
        us.fileLinked := false;
        status := DigestMismatch;
      } else if !us.fileOpen {
        status := CloseFailed;
      } else {
        us.fileOpen := false;
        status := if us.fileLinked then Ok else RenameFailed;
      }
      OneUpload(ref, us.Value());
    }

    /** The temporary file is renamed to the blob's path, and the blob recorded. */
    method Publish(ref: string, digest: string)
      requires Distinct()
      requires ref in uploads && IsDigest(digest)
      modifies this`blobs, this`disk, uploads[ref]
      ensures Value() == ContentModel.Publish(old(Value()), ref, digest)
    {
      var us := uploads[ref];
      disk := disk[BlobPath(digest) := us.fileData];
      us.fileLinked := false;
      blobs := blobs[digest := BlobInfo(digest, us.Offset)];
      us.Committed := true;
      us.Digest := digest;
      us.Size := us.Offset;
      OneUpload(ref, us.Value());
    }

    method Delete(digest: string) returns (status: Status)
      requires Valid()
      modifies this`blobs, this`disk
      ensures Valid()
      ensures Result(Value(), status) == ContentModel.Delete(old(Value()), digest)
      ensures status == Ok <==> digest in old(blobs)
      ensures blobs == old(blobs) - {digest}
      ensures disk == if status == Ok && IsDigest(digest) then old(disk) - {BlobPath(digest)} else old(disk)
    {
      if digest !in blobs {
        return ContentModel.NotFound;
      }
      disk := disk - {BlobPath(digest)};
      blobs := blobs - {digest};
      return Ok;
    }

    /** The bytes behind a digest, if it is recorded and its file is there. */
    method Open(digest: string) returns (r: Option<seq<byte>>)
      requires Valid()
      ensures r.Some? <==> digest in blobs && BlobPath(digest) in disk
      ensures r.Some? ==> r.value == disk[BlobPath(digest)]
    {
      if digest !in blobs || BlobPath(digest) !in disk {
        return None;
      }
      return Some(disk[BlobPath(digest)]);
    }
  }
}
