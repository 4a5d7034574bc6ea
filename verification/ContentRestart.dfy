/** What a content store finds again after a restart, when it scans its blob directory. */
module ContentRestart {
  import opened ContentModel
  import opened Strings

  /** The scan looks at files two directories below blobs only. */
  predicate Visible(path: string) {
    var parts := Split(path, '/');
    |parts| == 4 && parts[0] == "blobs"
  }

  /** The digest that the scan makes of a file: algorithm, directory and file name. */
  function ScannedDigest(path: string): string
    requires Visible(path)
  {
    var parts := Split(path, '/');
    parts[1] + ":" + parts[2] + parts[3]
  }

  /** Where the store looks for a digest with a colon and at least two characters behind it. */
  function PathOf(digest: string): string
    requires 0 <= Index(digest, ':') <= |digest| - 3
  {
    var i := Index(digest, ':');
    "blobs/" + digest[..i] + "/" + digest[i + 1..i + 3] + "/" + digest[i + 1..]
  }

  /** The map has an entry for each visible file, and each entry comes from one and has its size. */
  ghost predicate Scanned(disk: map<string, seq<byte>>, blobs: map<string, BlobInfo>) {
    && (forall p :: p in disk && Visible(p) ==> ScannedDigest(p) in blobs)
    && forall d :: d in blobs ==>
         exists p :: p in disk && Visible(p) && ScannedDigest(p) == d && blobs[d] == BlobInfo(d, |disk[p]|)
  }

  /** The scan when a store is created over an existing directory. */
  method Scan(disk: map<string, seq<byte>>) returns (blobs: map<string, BlobInfo>)
    ensures Scanned(disk, blobs)
  {
    hide ScannedDigest, Split, Visible;
    blobs := map[];
    var rest := disk.Keys;
    while rest != {}
      invariant rest <= disk.Keys
      invariant forall p :: p in disk && p !in rest && Visible(p) ==> ScannedDigest(p) in blobs
      invariant forall d :: d in blobs ==>
                  exists p :: p in disk && Visible(p) && ScannedDigest(p) == d && blobs[d] == BlobInfo(d, |disk[p]|)
    {
      var p :| p in rest;
      if Visible(p) {
        var digest := ScannedDigest(p);
        blobs := blobs[digest := BlobInfo(digest, |disk[p]|)];
      }
      rest := rest - {p};
    }
  }

  /** Hexadecimal digits hold no slash. */
  ghost predicate Hexadecimal(h: Sha256) {
    forall b :: '/' !in h(b)
  }

  lemma {:induction false} PathOfDigest(d: string)
    requires |d| >= 9 && d[..7] == ALGORITHM
    ensures Index(d, ':') == 6 && |PathOf(d)| == |d| + 9
    ensures IsDigest(d) ==> PathOf(d) == BlobPath(d)
  {
    assert d == "sha256" + ":" + d[7..];
    IndexOfFirst("sha256", d[7..], ':');
    hide Index;
    assert d[..6] == "sha256";
  }

  /** The name under which the file of a digest is scanned: its first two digits come twice. */
  function Doubled(d: string): (e: string)
    requires IsDigest(d)
    ensures |e| == 73 && e[..7] == ALGORITHM
  {
    ALGORITHM + d[7..9] + d[7..]
  }

  lemma {:induction false} DoubledOnce(c: string, d: string)
    requires IsDigest(c) && IsDigest(d) && Doubled(c) == Doubled(d)
    ensures c == d
  {
    assert c == c[..7] + c[7..] && d == d[..7] + d[7..];
    assert Doubled(c)[9..] == c[7..] && Doubled(d)[9..] == d[7..];
  }

  lemma {:induction false} SplitFour(a: string, b: string, c: string, d: string)
    requires '/' !in a && '/' !in b && '/' !in c && '/' !in d
    ensures Split(a + "/" + b + "/" + c + "/" + d, '/') == [a, b, c, d]
  {
    hide Split;
    SplitOfJoin([a, b, c, d], '/');
    assert Join([d], '/') == d;
    assert Join([c, d], '/') == c + "/" + d by { assert [c, d][1..] == [d]; }
    assert Join([b, c, d], '/') == b + "/" + c + "/" + d by { assert [b, c, d][1..] == [c, d]; }
    assert Join([a, b, c, d], '/') == a + "/" + b + "/" + c + "/" + d by { assert [a, b, c, d][1..] == [b, c, d]; }
  }

  lemma {:induction false} ScannedName(d: string)
    requires IsDigest(d) && '/' !in d
    ensures Visible(BlobPath(d)) && ScannedDigest(BlobPath(d)) == Doubled(d)
  {
    hide Split;
    var prefix, hash := d[7..9], d[7..];
    SplitFour("blobs", "sha256", prefix, hash);
    assert "blobs/sha256/" + prefix + "/" + hash == "blobs" + "/" + "sha256" + "/" + prefix + "/" + hash;
    assert ALGORITHM == "sha256" + ":";
  }

  lemma {:induction false} NoSlash(h: Sha256, b: seq<byte>)
    requires Hexadecimal(h)
    ensures '/' !in DigestOf(h, b)
  {
  }

  /** After any run of contiguous uploads every file is that of a recorded blob, where the scan sees it. */
  lemma {:induction false} FileOfBlob(h: Sha256, ops: seq<Op>, p: string) returns (d: string)
    requires ContiguousRun(h, EMPTY, ops) && Hexadecimal(h) && p in Run(h, EMPTY, ops).disk
    ensures var s := Run(h, EMPTY, ops);
            && d in s.blobs && IsDigest(d) && BlobPath(d) == p && s.blobs[d].size == |s.disk[p]|
            && Visible(p) && ScannedDigest(p) == Doubled(d)
  {
    hide Split, Visible, ScannedDigest, Doubled;
    RunKeepsAddressed(h, ops);
    var s := Run(h, EMPTY, ops);
    hide Run, ContiguousRun;
    d :| d in s.blobs && IsDigest(d) && BlobPath(d) == p;
    assert BlobSound(h, s, d);
    NoSlash(h, s.disk[p]);
    ScannedName(d);
  }

  /** Whatever the scan finds was recorded under another name, and no file is at the path of the new one. */
  lemma {:induction false} FoundElsewhere(h: Sha256, ops: seq<Op>, blobs: map<string, BlobInfo>, e: string)
    requires ContiguousRun(h, EMPTY, ops) && Hexadecimal(h)
    requires Scanned(Run(h, EMPTY, ops).disk, blobs) && e in blobs
    ensures var s := Run(h, EMPTY, ops);
            && e !in s.blobs && 0 <= Index(e, ':') <= |e| - 3 && PathOf(e) !in s.disk
            && |e| == 73 && exists d :: d in s.blobs && IsDigest(d) && e == Doubled(d)
  {
    hide Run, ContiguousRun, Visible, Hexadecimal, Index, PathOf, ScannedDigest, Doubled;
    var s := Run(h, EMPTY, ops);
    var p :| p in s.disk && Visible(p) && ScannedDigest(p) == e && blobs[e] == BlobInfo(e, |s.disk[p]|);
    var d := FileOfBlob(h, ops, p);
    PathOfDigest(e);
    if PathOf(e) in s.disk { var c := FileOfBlob(h, ops, PathOf(e)); }
    if e in s.blobs { RecordedDigest(h, ops, e); }
  }

  lemma {:induction false} RecordedDigest(h: Sha256, ops: seq<Op>, d: string)
    requires ContiguousRun(h, EMPTY, ops) && d in Run(h, EMPTY, ops).blobs
    ensures var s := Run(h, EMPTY, ops);
            IsDigest(d) && BlobPath(d) in s.disk && s.blobs[d].size == |s.disk[BlobPath(d)]|
  {
    RunKeepsAddressed(h, ops);
    var s := Run(h, EMPTY, ops);
    hide Run, ContiguousRun;
    assert BlobSound(h, s, d);
  }

  /** A recorded blob is not found under its digest, but with its size under the doubled name. */
  lemma {:induction false} LostBlob(h: Sha256, ops: seq<Op>, blobs: map<string, BlobInfo>, d: string)
    requires ContiguousRun(h, EMPTY, ops) && Hexadecimal(h)
    requires Scanned(Run(h, EMPTY, ops).disk, blobs) && d in Run(h, EMPTY, ops).blobs
    ensures IsDigest(d) && d !in blobs && Doubled(d) in blobs
    ensures blobs[Doubled(d)] == BlobInfo(Doubled(d), Run(h, EMPTY, ops).blobs[d].size)
  {
    hide Run, ContiguousRun, Visible, Hexadecimal, Index, PathOf, ScannedDigest, Doubled;
    RecordedDigest(h, ops, d);
    var c := FileOfBlob(h, ops, BlobPath(d));
    PathsDiffer(c, d);
    if d in blobs { FoundElsewhere(h, ops, blobs, d); }
    var s, e := Run(h, EMPTY, ops), Doubled(d);
    var p :| p in s.disk && Visible(p) && ScannedDigest(p) == e && blobs[e] == BlobInfo(e, |s.disk[p]|);
    c := FileOfBlob(h, ops, p);
    DoubledOnce(c, d);
  }

  /**
   * A restart loses every blob: the scan finds each file, with its size, but under a digest that was
   * never recorded and at whose path there is no file. The map comes back exactly if it was empty.
   */
  lemma {:induction false} RestartForgets(h: Sha256, ops: seq<Op>, blobs: map<string, BlobInfo>)
    requires ContiguousRun(h, EMPTY, ops) && Hexadecimal(h)
    requires Scanned(Run(h, EMPTY, ops).disk, blobs)
    ensures var s := Run(h, EMPTY, ops);
            && (forall d :: d in s.blobs ==>
                  && |d| == 71 && d !in blobs
                  && var found := "sha256:" + d[7..9] + d[7..];
                     found in blobs && blobs[found] == BlobInfo(found, s.blobs[d].size))
            && (forall e :: e in blobs ==>
                  e !in s.blobs && 0 <= Index(e, ':') <= |e| - 3 && PathOf(e) !in s.disk)
            && (blobs == s.blobs <==> s.blobs == map[])
  {
    hide Run, ContiguousRun, Visible, Hexadecimal, Index, PathOf, ScannedDigest, Scanned;
    var s := Run(h, EMPTY, ops);
    forall d | d in s.blobs
      ensures |d| == 71 && d !in blobs
      ensures var found := "sha256:" + d[7..9] + d[7..];
              found in blobs && blobs[found] == BlobInfo(found, s.blobs[d].size)
    {
      LostBlob(h, ops, blobs, d);
    }
    forall e | e in blobs ensures e !in s.blobs && 0 <= Index(e, ':') <= |e| - 3 && PathOf(e) !in s.disk {
      FoundElsewhere(h, ops, blobs, e);
    }
    if s.blobs == map[] && blobs != map[] {
      var e :| e in blobs;
      FoundElsewhere(h, ops, blobs, e);
    }
  }
}
