/** The layer loop of an image pull: each layer goes into the content store and onto the snapshots. */
module LayerPull {
  import C = ContentModel
  import CS = ContentService
  import L = LayerUnpack
  import S = SnapshotModel
  import ContentServer
  import ContentStore
  import Snapshots
  import Wrappers

  /** A layer as the manifest names it, with the bytes that were fetched for it. */
  datatype Layer = Layer(encoded: string, data: seq<C.byte>)

  predicate Named(layers: seq<Layer>) {
    forall i :: 0 <= i < |layers| ==> |layers[i].encoded| >= 12
  }

  function DigestOf(l: Layer): string {
    C.ALGORITHM + l.encoded
  }

  function RefOf(l: Layer): string
    requires |l.encoded| >= 12
  {
    CS.StoreRef(DigestOf(l))
  }

  function Keys(layers: seq<Layer>): (keys: seq<string>)
    requires Named(layers)
    ensures |keys| == |layers| && forall i :: 0 <= i < |keys| ==> keys[i] == L.LayerKey(layers[i].encoded)
  {
    seq(|layers|, i requires 0 <= i < |layers| => L.LayerKey(layers[i].encoded))
  }

  datatype Pulled = Pulled(content: C.Store, snaps: S.Store, ok: bool)

  /** One turn of the loop: store the bytes, then unpack onto the layer before. */
  ghost function PullLayer(h: C.Sha256, c: C.Store, s: S.Store, l: Layer, parent: string, now: string): Pulled
    requires |l.encoded| >= 12
  {
    var r := CS.StoreContent(h, c, DigestOf(l), l.data, now);
    if r.status != C.Ok then Pulled(r.store, s, false)
    else
      var u := L.UnpackLayer(s, L.LayerKey(l.encoded), parent);
      Pulled(r.store, u.store, u.ok)
  }

  /** The first n turns; the first error ends the loop. */
  ghost function Pull(h: C.Sha256, c: C.Store, s: S.Store, layers: seq<Layer>, n: nat, now: string): Pulled
    requires Named(layers) && n <= |layers|
    decreases n
  {
    if n == 0 then Pulled(c, s, true)
    else
      var p := Pull(h, c, s, layers, n - 1, now);
      if p.ok then PullLayer(h, p.content, p.snaps, layers[n - 1], L.ParentOf(Keys(layers), n - 1), now) else p
  }

  /** The bytes fetched for the first n layers are the ones their digests name. */
  predicate Genuine(h: C.Sha256, layers: seq<Layer>, n: nat)
    requires n <= |layers|
  {
    forall i :: 0 <= i < n ==> DigestOf(layers[i]) == C.DigestOf(h, layers[i].data)
  }

  predicate Storable(h: C.Sha256, c: C.Store, l: Layer)
    requires |l.encoded| >= 12
  {
    CS.Storable(h, c, DigestOf(l), l.data)
  }

  /** Each layer by itself can be stored: see Storable for leftovers of an earlier attempt. */
  predicate AllStorable(h: C.Sha256, c: C.Store, layers: seq<Layer>, n: nat)
    requires Named(layers) && n <= |layers|
  {
    forall i {:trigger layers[i]} :: 0 <= i < n ==> Storable(h, c, layers[i])
  }

  predicate FreshRefs(c: C.Store, layers: seq<Layer>, n: nat)
    requires Named(layers) && n <= |layers|
  {
    forall i {:trigger layers[i]} :: 0 <= i < n ==> RefOf(layers[i]) !in c.uploads
  }

  predicate IsRef(layers: seq<Layer>, n: nat, ref: string)
    requires Named(layers) && n <= |layers|
  {
    exists i {:trigger layers[i]} :: 0 <= i < n && ref == RefOf(layers[i])
  }

  /** The digest of the fetched bytes is recorded, with a file. */
  predicate HasEntry(h: C.Sha256, t: C.Store, l: Layer) {
    var d := C.DigestOf(h, l.data);
    C.IsDigest(d) && d in t.blobs && C.BlobPath(d) in t.disk
  }

  predicate NothingBeyond(c: C.Store, l: Layer)
    requires |l.encoded| >= 12
  {
    CS.NothingBeyond(c, DigestOf(l), l.data)
  }

  /** What the content store holds after n layers. */
  ghost predicate Stored(h: C.Sha256, c: C.Store, layers: seq<Layer>, n: nat, t: C.Store)
    requires Named(layers) && n <= |layers|
  {
    && C.HashersSound(t)
    && (forall ref :: ref in t.uploads <==> ref in c.uploads || IsRef(layers, n, ref))
    && (forall ref :: ref in c.uploads && !IsRef(layers, n, ref) ==> t.uploads[ref] == c.uploads[ref])
    && (forall i {:trigger layers[i]} :: 0 <= i < n ==> HasEntry(h, t, layers[i]))
    && (Genuine(h, layers, n) ==>
          forall i {:trigger layers[i]} :: 0 <= i < n ==>
            (HasBlob(t, layers[i]) <==> NothingBeyond(c, layers[i])))
  }

  /** The layer's bytes are in the store, under its digest and with their length. */
  predicate HasBlob(t: C.Store, l: Layer) {
    var d := DigestOf(l);
    && C.IsDigest(d) && d in t.blobs && C.BlobPath(d) in t.disk
    && t.blobs[d] == C.BlobInfo(d, |l.data|) && t.disk[C.BlobPath(d)] == l.data
  }

  /** Upload refs and snapshot keys are made of the same twelve digits. */
  lemma {:induction false} RefsFollowKeys(a: Layer, b: Layer)
    requires |a.encoded| >= 12 && |b.encoded| >= 12
    ensures RefOf(a) == RefOf(b) <==> L.LayerKey(a.encoded) == L.LayerKey(b.encoded)
  {
    assert DigestOf(a)[..19] == C.ALGORITHM + a.encoded[..12];
    assert DigestOf(b)[..19] == C.ALGORITHM + b.encoded[..12];
    assert RefOf(a)[14..] == a.encoded[..12] && RefOf(b)[14..] == b.encoded[..12];
    assert L.LayerKey(a.encoded)[6..] == a.encoded[..12] && L.LayerKey(b.encoded)[6..] == b.encoded[..12];
  }

  /** Storing one layer: when it works, and what it leaves. */
  lemma {:induction false} StoreStep(h: C.Sha256, c: C.Store, l: Layer, now: string)
    requires |l.encoded| >= 12 && C.HashersSound(c)
    ensures var r := CS.StoreContent(h, c, DigestOf(l), l.data, now); var d := C.DigestOf(h, l.data);
            && C.HashersSound(r.store) && CS.OnlyUpload(c, r.store, RefOf(l))
            && (r.status == C.Ok <==> Storable(h, c, l))
            && (r.status == C.Ok ==>
                  && HasEntry(h, r.store, l)
                  && r.store.blobs == c.blobs[d := C.BlobInfo(d, |l.data|)]
                  && r.store.disk == c.disk[C.BlobPath(d) := r.store.disk[C.BlobPath(d)]]
                  && (DigestOf(l) == d ==> (HasBlob(r.store, l) <==> NothingBeyond(c, l))))
  {
    hide CS.StoreContent, CS.Storable, CS.NothingBeyond, C.HashersSound, C.BlobPath, C.IsDigest, C.DigestOf;
    CS.StoreContentIff(h, c, DigestOf(l), l.data, now);
    CS.StoreContentFrame(h, c, DigestOf(l), l.data, now);
    CS.StoreContentKeepsHashers(h, c, DigestOf(l), l.data, now);
  }

  /** A blob under one digest is as it was when a layer with another digest is stored. */
  lemma {:induction false} BlobKept(c: C.Store, t: C.Store, k: Layer, d: string)
    requires C.IsDigest(d) && DigestOf(k) != d && C.BlobPath(d) in t.disk && d in t.blobs
    requires t.blobs == c.blobs[d := t.blobs[d]] && t.disk == c.disk[C.BlobPath(d) := t.disk[C.BlobPath(d)]]
    ensures HasBlob(t, k) <==> HasBlob(c, k)
  {
    if C.IsDigest(DigestOf(k)) && C.BlobPath(DigestOf(k)) == C.BlobPath(d) { C.PathsDiffer(DigestOf(k), d); }
  }

  lemma {:induction false} EntryKept(h: C.Sha256, c: C.Store, t: C.Store, k: Layer, d: string)
    requires C.IsDigest(d) && C.BlobPath(d) in t.disk && d in t.blobs && HasEntry(h, c, k)
    requires t.blobs == c.blobs[d := t.blobs[d]] && t.disk == c.disk[C.BlobPath(d) := t.disk[C.BlobPath(d)]]
    ensures HasEntry(h, t, k)
  {
  }

  /** The n-th layer joins what is stored. Its ref is not one of the layers before. */
  lemma {:induction false} StoredStep(h: C.Sha256, c: C.Store, layers: seq<Layer>, n: nat, t: C.Store, now: string)
    requires Named(layers) && 0 < n <= |layers| && Stored(h, c, layers, n - 1, t)
    requires !IsRef(layers, n - 1, RefOf(layers[n - 1])) && Storable(h, t, layers[n - 1])
    ensures Stored(h, c, layers, n, CS.StoreContent(h, t, DigestOf(layers[n - 1]), layers[n - 1].data, now).store)
  {
    hide C.BlobPath, CS.StoreContent, HasBlob, C.IsDigest, CS.StoreRef, C.HashersSound, Storable, C.DigestOf;
    var l := layers[n - 1];
    var d := C.DigestOf(h, l.data);
    var u := CS.StoreContent(h, t, DigestOf(l), l.data, now).store;
    StoreStep(h, t, l, now);
    RefsGrow(layers, n);
    forall i | 0 <= i < n ensures HasEntry(h, u, layers[i]) {
      if i < n - 1 { EntryKept(h, t, u, layers[i], d); }
    }
    if Genuine(h, layers, n) {
      forall i | 0 <= i < n ensures HasBlob(u, layers[i]) <==> NothingBeyond(c, layers[i]) {
        StoredBlobs(h, c, layers, n, t, u, i);
      }
    }
  }

  lemma {:induction false} StoredBlobs(h: C.Sha256, c: C.Store, layers: seq<Layer>, n: nat, t: C.Store, u: C.Store,
                                       i: nat)
    requires Named(layers) && 0 < n <= |layers| && i < n && Stored(h, c, layers, n - 1, t) && Genuine(h, layers, n)
    requires !IsRef(layers, n - 1, RefOf(layers[n - 1]))
    requires HasEntry(h, u, layers[n - 1])
    requires var d := DigestOf(layers[n - 1]);
             && (HasBlob(u, layers[n - 1]) <==> NothingBeyond(t, layers[n - 1]))
             && u.blobs == t.blobs[d := u.blobs[d]] && u.disk == t.disk[C.BlobPath(d) := u.disk[C.BlobPath(d)]]
    ensures HasBlob(u, layers[i]) <==> NothingBeyond(c, layers[i])
  {
    hide C.BlobPath, HasBlob, C.IsDigest, CS.StoreRef, C.HashersSound, C.DigestOf;
    var l := layers[n - 1];
    if i < n - 1 {
      assert RefOf(layers[i]) != RefOf(l);
      BlobKept(t, u, layers[i], DigestOf(l));
    }
  }

  /** The refs of n layers are those of the first n - 1 and the last one's. */
  lemma {:induction false} RefsGrow(layers: seq<Layer>, n: nat)
    requires Named(layers) && 0 < n <= |layers|
    ensures forall ref :: IsRef(layers, n, ref) <==> IsRef(layers, n - 1, ref) || ref == RefOf(layers[n - 1])
  {
    hide RefOf;
  }

  /** Uploads under a ref that no earlier layer has are as they were before the pull. */
  lemma {:induction false} NotYetTouched(h: C.Sha256, c: C.Store, layers: seq<Layer>, n: nat, t: C.Store, l: Layer)
    requires Named(layers) && n <= |layers| && Stored(h, c, layers, n, t)
    requires |l.encoded| >= 12 && !IsRef(layers, n, RefOf(l))
    ensures Storable(h, t, l) <==> Storable(h, c, l)
    ensures NothingBeyond(t, l) <==> NothingBeyond(c, l)
  {
    hide C.HashersSound, HasEntry, HasBlob, Genuine;
  }

  /** An earlier layer has the ref of the n-th exactly when it has its key. */
  lemma {:induction false} RefsAndKeys(layers: seq<Layer>, n: nat)
    requires Named(layers) && 0 < n <= |layers|
    ensures var keys := Keys(layers);
            IsRef(layers, n - 1, RefOf(layers[n - 1])) <==> exists i :: 0 <= i < n - 1 && keys[i] == keys[n - 1]
  {
    hide RefOf, L.LayerKey;
    var ref, keys := RefOf(layers[n - 1]), Keys(layers);
    if IsRef(layers, n - 1, ref) {
      var i :| 0 <= i < n - 1 && ref == RefOf(layers[i]);
      RefsFollowKeys(layers[i], layers[n - 1]);
      assert keys[i] == keys[n - 1];
    }
    if i :| 0 <= i < n - 1 && keys[i] == keys[n - 1] {
      RefsFollowKeys(layers[i], layers[n - 1]);
      assert ref == RefOf(layers[i]);
    }
  }

  /**
   * The loop succeeds exactly when every layer can be stored and their keys are new to the
   * snapshotter and distinct, whatever earlier attempts have left in the content store. It then
   * leaves the layers stacked in order, each with its entry in the store; if the bytes are genuine,
   * a layer's file holds them exactly when no leftover of it reached beyond them.
   */
  lemma {:induction false} PullIff(h: C.Sha256, c: C.Store, s: S.Store, layers: seq<Layer>, n: nat, now: string)
    requires Named(layers) && n <= |layers| && S.Forest(s) && C.HashersSound(c)
    ensures var p := Pull(h, c, s, layers, n, now);
            && (p.ok <==> AllStorable(h, c, layers, n) && L.FreshKeys(s, Keys(layers), n))
            && (p.ok ==> L.Stacked(s, Keys(layers), n, p.snaps) && Stored(h, c, layers, n, p.content))
    decreases n
  {
    hide S.Forest, RefOf, DigestOf, C.DigestOf, CS.StoreContent, L.UnpackLayer, L.Stacked, L.FreshKeys, Stored;
    hide Storable, C.HashersSound;
    if n == 0 {
      NothingPulled(h, c, s, layers);
    } else {
      PullIff(h, c, s, layers, n - 1, now);
      var p := Pull(h, c, s, layers, n - 1, now);
      if p.ok {
        PullStep(h, c, s, layers, n, p, now);
        L.FreshStep(s, Keys(layers), n, p.snaps);
      } else {
        L.FreshShorter(s, Keys(layers), n);
      }
    }
  }

  lemma {:induction false} NothingPulled(h: C.Sha256, c: C.Store, s: S.Store, layers: seq<Layer>)
    requires Named(layers) && S.Forest(s) && C.HashersSound(c)
    ensures L.Stacked(s, Keys(layers), 0, s) && Stored(h, c, layers, 0, c) && L.FreshKeys(s, Keys(layers), 0)
  {
  }

  lemma {:induction false} EarlierKeys(s: S.Store, keys: seq<string>, n: nat, t: S.Store)
    requires 0 < n <= |keys| && L.Stacked(s, keys, n - 1, t)
    ensures (exists i :: 0 <= i < n - 1 && keys[i] == keys[n - 1]) ==> keys[n - 1] in t.infos
  {
    hide S.Forest;
    if i :| 0 <= i < n - 1 && keys[i] == keys[n - 1] {
      assert keys[i] in keys[..n - 1];
    }
  }

  /** The n-th layer, on what the turns before have left: can it be stored, and is its key new? */
  lemma {:induction false} TurnIff(h: C.Sha256, c: C.Store, s: S.Store, layers: seq<Layer>, n: nat, p: Pulled)
    requires Named(layers) && 0 < n <= |layers|
    requires L.Stacked(s, Keys(layers), n - 1, p.snaps) && Stored(h, c, layers, n - 1, p.content)
    ensures C.HashersSound(p.content)
    ensures Keys(layers)[n - 1] !in p.snaps.infos ==>
            && !IsRef(layers, n - 1, RefOf(layers[n - 1]))
            && (Storable(h, p.content, layers[n - 1]) <==> Storable(h, c, layers[n - 1]))
  {
    hide S.Forest, RefOf, Keys, L.Stacked, HasEntry, HasBlob, Storable, NothingBeyond, IsRef, Genuine, C.HashersSound;
    RefsAndKeys(layers, n);
    EarlierKeys(s, Keys(layers), n, p.snaps);
    if Keys(layers)[n - 1] !in p.snaps.infos {
      NotYetTouched(h, c, layers, n - 1, p.content, layers[n - 1]);
    }
  }

  /** One turn, on what the turns before have left. */
  lemma {:induction false} PullStep(h: C.Sha256, c: C.Store, s: S.Store, layers: seq<Layer>, n: nat, p: Pulled,
                                    now: string)
    requires Named(layers) && 0 < n <= |layers|
    requires L.Stacked(s, Keys(layers), n - 1, p.snaps) && Stored(h, c, layers, n - 1, p.content)
    ensures var l, key := layers[n - 1], Keys(layers)[n - 1];
            var q := PullLayer(h, p.content, p.snaps, l, L.ParentOf(Keys(layers), n - 1), now);
            && (q.ok <==> Storable(h, c, l) && key !in p.snaps.infos)
            && (q.ok ==> L.Stacked(s, Keys(layers), n, q.snaps) && Stored(h, c, layers, n, q.content))
  {
    hide S.Forest, RefOf, CS.StoreContent, L.UnpackLayer, L.LayerKey, Storable, IsRef, Keys, L.Stacked, Stored;
    hide C.HashersSound, HasEntry, NothingBeyond, HasBlob, C.DigestOf, CS.OnlyUpload;
    var key, parent, l := Keys(layers)[n - 1], L.ParentOf(Keys(layers), n - 1), layers[n - 1];
    KeyOfLayer(layers, n - 1);
    TurnIff(h, c, s, layers, n, p);
    StoreStep(h, p.content, l, now);
    L.StackTop(s, Keys(layers), n - 1, p.snaps);
    L.LayerStep(p.snaps, key, parent);
    var q := PullLayer(h, p.content, p.snaps, l, parent, now);
    if q.ok {
      StoredStep(h, c, layers, n, p.content, now);
      L.StackStep(s, Keys(layers), n, p.snaps, q.snaps);
    }
  }

  lemma {:induction false} KeyOfLayer(layers: seq<Layer>, i: nat)
    requires Named(layers) && i < |layers|
    ensures Keys(layers)[i] == L.LayerKey(layers[i].encoded)
  {
  }

  /** Layers that were never attempted: the pull works exactly for genuine bytes, and stores them all. */
  lemma {:induction false} PullOfNewLayers(h: C.Sha256, c: C.Store, s: S.Store, layers: seq<Layer>, now: string)
    requires Named(layers) && S.Forest(s) && C.HashersSound(c) && FreshRefs(c, layers, |layers|)
    ensures var n := |layers|; var p := Pull(h, c, s, layers, n, now);
            && (p.ok <==> Genuine(h, layers, n) && L.FreshKeys(s, Keys(layers), n))
            && (p.ok ==> forall i {:trigger layers[i]} :: 0 <= i < n ==> HasBlob(p.content, layers[i]))
  {
    hide S.Forest, Pull, HasBlob, HasEntry, L.Stacked, L.FreshKeys, C.HashersSound, C.DigestOf, DigestOf;
    PullIff(h, c, s, layers, |layers|, now);
    forall i | 0 <= i < |layers|
      ensures Storable(h, c, layers[i]) <==> DigestOf(layers[i]) == C.DigestOf(h, layers[i].data)
      ensures NothingBeyond(c, layers[i])
    {
      assert RefOf(layers[i]) !in c.uploads;
    }
  }

  /** An upload that was begun under a layer's ref without a digest lets any bytes through. */
  lemma {:induction false} LeftoverWithoutDigest(h: C.Sha256, c: C.Store, s: S.Store, l: Layer, now: string)
    requires |l.encoded| >= 12 && RefOf(l) !in c.uploads && C.HashersSound(c)
    requires S.Forest(s) && L.LayerKey(l.encoded) !in s.infos
    ensures Pull(h, C.Begin(c, RefOf(l), "", now).store, s, [l], 1, now).ok
  {
    hide Pull, S.Forest, C.DigestOf;
    var b := C.Begin(c, RefOf(l), "", now).store;
    C.DoKeepsHashers(h, c, C.BeginOp(RefOf(l), "", now));
    PullIff(h, b, s, [l], 1, now);
    assert Storable(h, b, l);
  }

  // ----- a layer is attempted once

  lemma {:induction false} PullKeepsHashers(h: C.Sha256, c: C.Store, s: S.Store, layers: seq<Layer>, n: nat,
                                            now: string)
    requires Named(layers) && n <= |layers| && C.HashersSound(c)
    ensures C.HashersSound(Pull(h, c, s, layers, n, now).content)
    decreases n
  {
    hide CS.StoreContent, L.UnpackLayer, L.ParentOf, L.LayerKey, C.HashersSound;
    if n > 0 {
      PullKeepsHashers(h, c, s, layers, n - 1, now);
      CS.StoreContentKeepsHashers(h, Pull(h, c, s, layers, n - 1, now).content, DigestOf(layers[n - 1]),
                                  layers[n - 1].data, now);
    }
  }

  /** A ref that is used up stays so through any pull, and makes every pull of its layer fail. */
  lemma {:induction false} DoomedBlocks(h: C.Sha256, c: C.Store, s: S.Store, layers: seq<Layer>, n: nat, ref: string,
                                        now: string)
    requires Named(layers) && n <= |layers| && C.Doomed(c, ref)
    ensures var p := Pull(h, c, s, layers, n, now);
            C.Doomed(p.content, ref) && (IsRef(layers, n, ref) ==> !p.ok)
    decreases n
  {
    hide CS.StoreContent, L.UnpackLayer, L.ParentOf, L.LayerKey, C.Doomed, CS.StoreRef;
    if n > 0 {
      DoomedBlocks(h, c, s, layers, n - 1, ref, now);
      var p, l := Pull(h, c, s, layers, n - 1, now), layers[n - 1];
      RefsGrow(layers, n);
      CS.DoomedRefuses(h, p.content, DigestOf(l), l.data, ref, now);
    }
  }

  /** A pull that reaches a layer uses its ref up, whether it stores the layer or not. */
  lemma {:induction false} AttemptDooms(h: C.Sha256, c: C.Store, s: S.Store, layers: seq<Layer>, n: nat, i: nat,
                                        now: string)
    requires Named(layers) && i < n <= |layers| && C.HashersSound(c) && Pull(h, c, s, layers, i, now).ok
    ensures C.Doomed(Pull(h, c, s, layers, n, now).content, RefOf(layers[i]))
    decreases n
  {
    hide CS.StoreContent, L.UnpackLayer, L.ParentOf, L.LayerKey, C.Doomed, CS.StoreRef, C.HashersSound;
    var p, l := Pull(h, c, s, layers, n - 1, now), layers[n - 1];
    if i == n - 1 {
      PullKeepsHashers(h, c, s, layers, i, now);
      CS.StoreContentDooms(h, p.content, DigestOf(l), l.data, now);
    } else {
      AttemptDooms(h, c, s, layers, n - 1, i, now);
      CS.DoomedRefuses(h, p.content, DigestOf(l), l.data, RefOf(layers[i]), now);
    }
  }

  /**
   * A layer is attempted once. When a pull has come to a layer, whether it then stored it, or
   * rejected it for wrong bytes, or failed later, no later pull of that layer succeeds: whatever
   * bytes are fetched, whatever else happens to the content store, whatever the snapshots.
   */
  lemma {:induction false} OneAttempt(
    h: C.Sha256, c: C.Store, s: S.Store, layers: seq<Layer>, n: nat, i: nat, now: string,
    ops: seq<C.Op>, t: S.Store, again: seq<Layer>, j: nat, later: string)
    requires Named(layers) && i < n <= |layers| && C.HashersSound(c) && Pull(h, c, s, layers, i, now).ok
    requires Named(again) && j < |again| && RefOf(again[j]) == RefOf(layers[i])
    ensures var between := C.Run(h, Pull(h, c, s, layers, n, now).content, ops);
            !Pull(h, between, t, again, |again|, later).ok
  {
    hide Pull, RefOf, C.Run, C.Doomed;
    var after := Pull(h, c, s, layers, n, now).content;
    var ref := RefOf(layers[i]);
    AttemptDooms(h, c, s, layers, n, i, now);
    C.DoomedForever(h, after, ref, ops, 0);
    assert IsRef(again, |again|, RefOf(again[j]));
    DoomedBlocks(h, C.Run(h, after, ops), t, again, |again|, ref, later);
  }

  /** Wrong bytes are rejected, and fetching the right ones afterwards does not help. */
  lemma {:induction false} RetryFails(h: C.Sha256, c: C.Store, s: S.Store, bad: Layer, good: Layer, now: string)
    requires |bad.encoded| >= 12 && good.encoded == bad.encoded && C.HashersSound(c)
    requires RefOf(bad) !in c.uploads && DigestOf(bad) != C.DigestOf(h, bad.data)
    ensures var p := Pull(h, c, s, [bad], 1, now);
            && !p.ok && p.content.blobs == c.blobs && p.content.disk == c.disk && p.snaps == s
            && !Pull(h, p.content, s, [good], 1, now).ok
  {
    hide C.HashersSound, C.DigestOf;
    assert Pull(h, c, s, [bad], 0, now) == Pulled(c, s, true);
    CS.StoreContentFresh(h, c, DigestOf(bad), bad.data, now);
    hide CS.StoreContent;
    var p := Pull(h, c, s, [bad], 1, now);
    OneAttempt(h, c, s, [bad], 1, 0, now, [], s, [good], 0, now);
    assert C.Run(h, p.content, []) == p.content;
  }

  /**
   * A snapshot prepared on the last layer of a pulled image can be made, and through its mount,
   * looked up as the lowerdir option says, one sees the layers applied from the first to the last.
   */
  lemma {:induction false} PulledImageShowsLayers<F>(
    h: C.Sha256, c: C.Store, s: S.Store, layers: seq<Layer>, now: string,
    root: string, x: string, chain: seq<string>, trees: map<string, map<string, F>>, path: string)
    requires Named(layers) && layers != [] && S.Forest(s) && C.HashersSound(c)
    requires var p := Pull(h, c, s, layers, |layers|, now);
             && p.ok && x !in p.snaps.infos
             && S.IsChain(S.Step(p.snaps, S.Prepare(x, Keys(layers)[|layers| - 1])).infos, x, chain)
    requires L.NoColons(root, Keys(layers))
    requires forall d :: d in Snapshots.Paths(root, Keys(layers)) ==> d in trees
    ensures S.CheckOp(Pull(h, c, s, layers, |layers|, now).snaps, S.Prepare(x, Keys(layers)[|layers| - 1])) == S.Ok
    ensures |Snapshots.MountFor(root, x, S.Active, chain).options| > 0
    ensures var lower := Snapshots.ReadLower(Snapshots.MountFor(root, x, S.Active, chain).options[0]);
            && (forall d :: d in lower ==> d in trees)
            && var files := L.Layered(L.ContentsOf(trees, Snapshots.Paths(root, Keys(layers))), |layers|);
               L.Lookup(L.ContentsOf(trees, lower), path)
               == if path in files then Wrappers.Some(files[path]) else Wrappers.None
  {
    hide S.Forest, Pull, L.Stacked, Stored, AllStorable, L.FreshKeys, Snapshots.MountFor, Snapshots.ReadLower;
    var keys, t := Keys(layers), Pull(h, c, s, layers, |layers|, now).snaps;
    PullIff(h, c, s, layers, |layers|, now);
    L.LowerdirIsReversed(s, keys, t, root, x, chain);
    L.OverlayRefinesLayering(s, keys, t, root, x, chain, trees, path);
  }

  // ----- the loop

  method PullAll(store: ContentStore.Store, sn: Snapshots.Snapshotter, layers: seq<Layer>, now: string)
    returns (ok: bool, chainID: string)
    requires store.Valid() && sn.Valid() && Named(layers)
    modifies store, store.uploads.Values, sn`snapshots, sn`dirs, sn.snapshots.Values
    ensures store.Valid() && sn.Valid()
    ensures Pulled(store.Value(), sn.Value(), ok)
            == Pull(store.sha, old(store.Value()), old(sn.Value()), layers, |layers|, now)
    ensures ok ==> chainID == if layers == [] then "" else L.LayerKey(layers[|layers| - 1].encoded)
  {
    hide S.Forest, Pull, PullLayer, CS.StoreContent, L.UnpackLayer, L.LayerKey, C.HashersSound, Turned;
    hide ContentStore.Store.Valid, Snapshots.Snapshotter.Valid;
    ghost var h, c, s := store.sha, store.Value(), sn.Value();
    ok, chainID := true, "";
    var i := 0;
    TurnedNone(h, c, s, layers, now);
    while i < |layers| && ok
      invariant 0 <= i <= |layers| && store.Valid() && sn.Valid()
      invariant Turned(h, c, s, layers, i, now, Pulled(store.Value(), sn.Value(), ok), chainID)
      invariant forall u :: u in store.uploads.Values ==> u in old(store.uploads.Values) || fresh(u)
      invariant forall u :: u in sn.snapshots.Values ==> u in old(sn.snapshots.Values) || fresh(u)
    {
      TurnedNext(h, c, s, layers, i, now, Pulled(store.Value(), sn.Value(), ok), chainID);
      ok := PullOne(store, sn, layers[i], chainID, now);
      chainID := L.LayerKey(layers[i].encoded);
      i := i + 1;
    }
    TurnedAll(h, c, s, layers, i, now, Pulled(store.Value(), sn.Value(), ok), chainID);
  }

  /** What the loop knows after i turns. */
  ghost predicate Turned(h: C.Sha256, c: C.Store, s: S.Store, layers: seq<Layer>, i: nat, now: string,
                         p: Pulled, chainID: string)
    requires Named(layers) && i <= |layers|
  {
    && Pull(h, c, s, layers, i, now) == p
    && (p.ok ==> chainID == if i == 0 then "" else L.LayerKey(layers[i - 1].encoded))
  }

  lemma {:induction false} TurnedNone(h: C.Sha256, c: C.Store, s: S.Store, layers: seq<Layer>, now: string)
    requires Named(layers)
    ensures Turned(h, c, s, layers, 0, now, Pulled(c, s, true), "")
  {
  }

  lemma {:induction false} TurnedNext(h: C.Sha256, c: C.Store, s: S.Store, layers: seq<Layer>, i: nat, now: string,
                                      p: Pulled, chainID: string)
    requires Named(layers) && i < |layers| && p.ok && Turned(h, c, s, layers, i, now, p, chainID)
    ensures Turned(h, c, s, layers, i + 1, now, PullLayer(h, p.content, p.snaps, layers[i], chainID, now),
                   L.LayerKey(layers[i].encoded))
  {
    hide PullLayer, L.LayerKey;
  }

  lemma {:induction false} TurnedAll(h: C.Sha256, c: C.Store, s: S.Store, layers: seq<Layer>, i: nat, now: string,
                                     p: Pulled, chainID: string)
    requires Named(layers) && i <= |layers| && Turned(h, c, s, layers, i, now, p, chainID)
    requires i == |layers| || !p.ok
    ensures Turned(h, c, s, layers, |layers|, now, p, chainID)
    ensures p == Pull(h, c, s, layers, |layers|, now)
    ensures p.ok ==> chainID == if layers == [] then "" else L.LayerKey(layers[|layers| - 1].encoded)
  {
    if !p.ok { StopsAt(h, c, s, layers, i, |layers|, now); }
  }

  /** The body of the loop. */
  method PullOne(store: ContentStore.Store, sn: Snapshots.Snapshotter, l: Layer, parent: string, now: string)
    returns (ok: bool)
    requires store.Valid() && sn.Valid() && |l.encoded| >= 12
    modifies store, store.uploads.Values, sn`snapshots, sn`dirs, sn.snapshots.Values
    ensures store.Valid() && sn.Valid()
    ensures Pulled(store.Value(), sn.Value(), ok)
            == PullLayer(store.sha, old(store.Value()), old(sn.Value()), l, parent, now)
    ensures forall u :: u in store.uploads.Values ==> u in old(store.uploads.Values) || fresh(u)
    ensures forall u :: u in sn.snapshots.Values ==> u in old(sn.snapshots.Values) || fresh(u)
  {
    hide S.Forest, CS.StoreContent, L.UnpackLayer;
    ghost var h, c, s := store.sha, store.Value(), sn.Value();
    var status := ContentServer.StoreBlob(store, C.ALGORITHM + l.encoded, l.data, now);
    ghost var t := store.Value();
    assert sn.Value() == s;
    ok := false;
    if status == C.Ok {
      ok := L.UnpackOne(sn, L.LayerKey(l.encoded), parent);
      assert store.Value() == t;
    }
    assert PullLayer(h, c, s, l, parent, now) == Pulled(t, sn.Value(), ok);
  }

  lemma {:induction false} StopsAt(h: C.Sha256, c: C.Store, s: S.Store, layers: seq<Layer>, i: nat, n: nat, now: string)
    requires Named(layers) && i <= n <= |layers| && !Pull(h, c, s, layers, i, now).ok
    ensures Pull(h, c, s, layers, n, now) == Pull(h, c, s, layers, i, now)
    decreases n
  {
    if i < n { StopsAt(h, c, s, layers, i, n - 1, now); }
  }
}
