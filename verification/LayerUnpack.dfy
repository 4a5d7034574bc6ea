/** The layer loop of an image pull, and what the resulting overlay mount shows. */
module LayerUnpack {
  import opened SnapshotModel
  import opened Snapshots
  import opened Strings
  import opened Wrappers

  /** The snapshot key of a layer: twelve digits of its digest. */
  function LayerKey(encoded: string): string
    requires |encoded| >= 12
  {
    "layer-" + encoded[..12]
  }

  datatype Unpacked = Unpacked(store: Store, ok: bool)

  function ParentOf(keys: seq<string>, i: nat): string
    requires i < |keys|
  {
    if i == 0 then "" else keys[i - 1]
  }

  /** unpackLayer: Prepare on the parent, then Commit under the same key. */
  ghost function UnpackLayer(s: Store, key: string, parent: string): Unpacked {
    var t := Step(s, Op.Prepare(key, parent));
    if CheckOp(s, Op.Prepare(key, parent)) != Ok then Unpacked(s, false)
    else Unpacked(Step(t, Op.Commit(key, key)), CheckOp(t, Op.Commit(key, key)) == Ok)
  }

  /** The first n turns of the loop; it stops at the first error. */
  ghost function Unpack(s: Store, keys: seq<string>, n: nat): Unpacked
    requires n <= |keys|
    decreases n
  {
    if n == 0 then Unpacked(s, true)
    else
      var u := Unpack(s, keys, n - 1);
      if u.ok then UnpackLayer(u.store, keys[n - 1], ParentOf(keys, n - 1)) else u
  }

  /** The keys are new to the snapshotter and pairwise distinct. */
  predicate FreshKeys(s: Store, keys: seq<string>, n: nat)
    requires n <= |keys|
  {
    && (forall i :: 0 <= i < n ==> keys[i] !in s.infos)
    && forall i, j :: 0 <= i < j < n ==> keys[i] != keys[j]
  }

  /** What the snapshotter holds after n layers. */
  ghost predicate Stacked(s: Store, keys: seq<string>, n: nat, t: Store)
    requires n <= |keys|
  {
    && Forest(t)
    && (forall k :: k in t.infos <==> k in s.infos || k in keys[..n])
    && (forall k :: k in s.infos ==> k in t.infos && t.infos[k] == s.infos[k])
    && forall i {:trigger ParentOf(keys, i)} :: 0 <= i < n ==>
         keys[i] in t.infos && t.infos[keys[i]] == Info(keys[i], ParentOf(keys, i), Committed)
  }

  lemma {:induction false} LayerStep(s: Store, key: string, parent: string)
    requires Forest(s) && (parent != "" ==> parent in s.infos && s.infos[parent].kind == Committed)
    ensures UnpackLayer(s, key, parent).ok <==> key !in s.infos
    ensures var u := UnpackLayer(s, key, parent);
            u.ok ==> Forest(u.store) && u.store.infos == s.infos[key := Info(key, parent, Committed)]
  {
    if key !in s.infos {
      EffectKeepsForest(s, Op.Prepare(key, parent));
      var t := Effect(s, Op.Prepare(key, parent));
      EffectKeepsForest(t, Op.Commit(key, key));
    }
  }

  lemma {:induction false} FreshStep(s: Store, keys: seq<string>, n: nat, t: Store)
    requires 0 < n <= |keys| && Stacked(s, keys, n - 1, t)
    ensures FreshKeys(s, keys, n) <==> FreshKeys(s, keys, n - 1) && keys[n - 1] !in t.infos
  {
    hide Forest;
    if FreshKeys(s, keys, n) {
      assert keys[n - 1] !in keys[..n - 1];
    } else if keys[n - 1] !in t.infos {
      forall i | 0 <= i < n - 1 ensures keys[i] != keys[n - 1] {
        assert keys[i] == keys[..n - 1][i];
      }
    }
  }

  lemma {:induction false} StackStep(s: Store, keys: seq<string>, n: nat, t: Store, t': Store)
    requires 0 < n <= |keys| && Stacked(s, keys, n - 1, t) && keys[n - 1] !in t.infos
    requires Forest(t') && t'.infos == t.infos[keys[n - 1] := Info(keys[n - 1], ParentOf(keys, n - 1), Committed)]
    ensures Stacked(s, keys, n, t')
  {
    hide Forest;
    assert keys[..n] == keys[..n - 1] + [keys[n - 1]];
  }

  lemma {:induction false} StackTop(s: Store, keys: seq<string>, n: nat, t: Store)
    requires n <= |keys| && Stacked(s, keys, n, t)
    ensures Forest(t)
    ensures n > 0 ==> keys[n - 1] in t.infos && t.infos[keys[n - 1]].kind == Committed
  {
    if n > 0 { assert t.infos[keys[n - 1]].parent == ParentOf(keys, n - 1); }
  }

  /** The loop succeeds exactly for layers that are new and distinct, and stacks them in order. */
  lemma {:induction false} UnpackIff(s: Store, keys: seq<string>, n: nat)
    requires Forest(s) && n <= |keys|
    ensures Unpack(s, keys, n).ok <==> FreshKeys(s, keys, n)
    ensures Unpack(s, keys, n).ok ==> Stacked(s, keys, n, Unpack(s, keys, n).store)
    decreases n
  {
    hide Forest, UnpackLayer, Stacked, FreshKeys;
    if n == 0 {
      NothingUnpacked(s, keys);
    } else {
      UnpackIff(s, keys, n - 1);
      var u := Unpack(s, keys, n - 1);
      if u.ok {
        StackTop(s, keys, n - 1, u.store);
        LayerStep(u.store, keys[n - 1], ParentOf(keys, n - 1));
        FreshStep(s, keys, n, u.store);
        if keys[n - 1] !in u.store.infos {
          StackStep(s, keys, n, u.store, Unpack(s, keys, n).store);
        }
      } else {
        FreshShorter(s, keys, n);
      }
    }
  }

  lemma {:induction false} NothingUnpacked(s: Store, keys: seq<string>)
    requires Forest(s)
    ensures FreshKeys(s, keys, 0) && Stacked(s, keys, 0, s)
  {
  }

  lemma {:induction false} FreshShorter(s: Store, keys: seq<string>, n: nat)
    requires 0 < n <= |keys|
    ensures FreshKeys(s, keys, n) ==> FreshKeys(s, keys, n - 1)
  {
  }

  /** The first i layers, topmost first. */
  function Below(keys: seq<string>, i: nat): (r: seq<string>)
    requires i <= |keys|
    ensures |r| == i
    ensures forall j :: 0 <= j < i ==> r[j] == keys[i - 1 - j]
    decreases i
  {
    if i == 0 then [] else [keys[i - 1]] + Below(keys, i - 1)
  }

  /** The ancestors of a layer are the layers before it, in reverse order. */
  lemma {:induction false} StackedChain(s: Store, keys: seq<string>, n: nat, t: Store, i: nat)
    requires n <= |keys| && Stacked(s, keys, n, t) && i < n
    requires forall j :: 0 <= j < |keys| ==> keys[j] != ""
    ensures IsChain(t.infos, keys[i], Below(keys, i))
    decreases i
  {
    hide Forest;
    var p := ParentOf(keys, i);
    assert t.infos[keys[i]].parent == p;
    if i > 0 {
      StackedChain(s, keys, n, t, i - 1);
      ChainOnTop(t.infos, keys[i], Below(keys, i), Below(keys, i - 1));
    }
  }

  lemma {:induction false} ChainOnTop(infos: map<string, Info>, key: string, c: seq<string>, d: seq<string>)
    requires key in infos && infos[key].parent != "" && c == [infos[key].parent] + d
    requires IsChain(infos, infos[key].parent, d)
    ensures IsChain(infos, key, c)
  {
    assert c[1..] == d;
  }

  lemma {:induction false} ChainIsReversed(s: Store, keys: seq<string>, t: Store, x: string)
    requires keys != [] && Stacked(s, keys, |keys|, t) && forall j :: 0 <= j < |keys| ==> keys[j] != ""
    requires x !in t.infos
    ensures var op := Op.Prepare(x, keys[|keys| - 1]);
            CheckOp(t, op) == Ok && IsChain(Step(t, op).infos, x, Below(keys, |keys|))
  {
    var n := |keys|;
    var op := Op.Prepare(x, keys[n - 1]);
    StackTop(s, keys, n, t);
    StackedChain(s, keys, n, t, n - 1);
    hide Forest;
    hide Stacked;
    assert CheckOp(t, op) == Ok;
    ChainStable(t, op, keys[n - 1], Below(keys, n - 1));
    ChainOnTop(Step(t, op).infos, x, Below(keys, n), Below(keys, n - 1));
  }

  predicate NoColons(root: string, keys: seq<string>) {
    ':' !in root && forall j :: 0 <= j < |keys| ==> ':' !in keys[j]
  }

  /**
   * The mount of a snapshot prepared on the last layer: its lowerdir option, read at the colons,
   * lists the directories of the layers in exact reverse order, provided that neither the root nor
   * a key holds a colon; otherwise it does not.
   */
  lemma {:induction false} LowerdirIsReversed(s: Store, keys: seq<string>, t: Store, root: string, x: string,
                                              c: seq<string>)
    requires keys != [] && Stacked(s, keys, |keys|, t) && forall j :: 0 <= j < |keys| ==> keys[j] != ""
    requires x !in t.infos && IsChain(Step(t, Op.Prepare(x, keys[|keys| - 1])).infos, x, c)
    ensures CheckOp(t, Op.Prepare(x, keys[|keys| - 1])) == Ok
    ensures var m := MountFor(root, x, Active, c);
            && m.mountType == "overlay" && |m.options| > 0
            && (ReadLower(m.options[0]) == Paths(root, Below(keys, |keys|)) <==> NoColons(root, keys))
  {
    hide Stacked, Split, Join;
    var n := |keys|;
    ChainIsReversed(s, keys, t, x);
    ChainUnique(Step(t, Op.Prepare(x, keys[n - 1])).infos, x, c, Below(keys, n));
    LowerdirReadBackIff(root, x, Active, c);
    if forall i :: 0 <= i < |c| ==> ':' !in c[i] {
      forall j | 0 <= j < n ensures ':' !in keys[j] {
        assert c[n - 1 - j] == keys[j];
      }
    }
  }

  // ----- the files

  /** overlayfs: the leftmost lower directory that has the path wins. */
  function Lookup<F>(lower: seq<map<string, F>>, path: string): Option<F> {
    if lower == [] then None
    else if path in lower[0] then Some(lower[0][path])
    else Lookup(lower[1..], path)
  }

  /** Layer after layer, each on top of what is there. */
  function Layered<F>(layers: seq<map<string, F>>, n: nat): map<string, F>
    requires n <= |layers|
  {
    if n == 0 then map[] else Layered(layers, n - 1) + layers[n - 1]
  }

  function ContentsOf<F>(contents: map<string, map<string, F>>, keys: seq<string>): (r: seq<map<string, F>>)
    requires forall k :: k in keys ==> k in contents
    ensures |r| == |keys| && forall i :: 0 <= i < |keys| ==> r[i] == contents[keys[i]]
  {
    seq(|keys|, i requires 0 <= i < |keys| => contents[keys[i]])
  }

  lemma {:induction false} LookupReversed<F>(layers: seq<map<string, F>>, n: nat, lower: seq<map<string, F>>,
                                             path: string)
    requires n == |lower| <= |layers|
    requires forall j :: 0 <= j < n ==> lower[j] == layers[n - 1 - j]
    ensures Lookup(lower, path) ==
            if path in Layered(layers, n) then Some(Layered(layers, n)[path]) else None
    decreases n
  {
    if n > 0 {
      LookupReversed(layers, n - 1, lower[1..], path);
    }
  }

  /**
   * Through the mount of a snapshot on top of the stacked layers, looked up directory by directory
   * as its lowerdir option lists them, one sees the layers applied in order. `trees` is what the
   * directories on disk hold.
   */
  lemma {:induction false} OverlayRefinesLayering<F>(
    s: Store, keys: seq<string>, t: Store, root: string, x: string, c: seq<string>,
    trees: map<string, map<string, F>>, path: string)
    requires keys != [] && Stacked(s, keys, |keys|, t) && x !in t.infos && NoColons(root, keys)
    requires forall j :: 0 <= j < |keys| ==> keys[j] != ""
    requires forall d :: d in Paths(root, keys) ==> d in trees
    requires IsChain(Step(t, Op.Prepare(x, keys[|keys| - 1])).infos, x, c)
    ensures |MountFor(root, x, Active, c).options| > 0
    ensures forall d :: d in ReadLower(MountFor(root, x, Active, c).options[0]) ==> d in trees
    ensures var lower := ReadLower(MountFor(root, x, Active, c).options[0]);
            var files := Layered(ContentsOf(trees, Paths(root, keys)), |keys|);
            Lookup(ContentsOf(trees, lower), path) == if path in files then Some(files[path]) else None
  {
    hide Stacked;
    var n := |keys|;
    LowerdirIsReversed(s, keys, t, root, x, c);
    hide MountFor, ReadLower;
    var dirs, lower := Paths(root, keys), Paths(root, Below(keys, n));
    forall j | 0 <= j < n ensures lower[j] == dirs[n - 1 - j] && lower[j] in trees {
      assert dirs[n - 1 - j] in dirs;
    }
    LookupReversed(ContentsOf(trees, dirs), n, ContentsOf(trees, lower), path);
  }

  // ----- one layer, in place

  method UnpackOne(sn: Snapshotter, key: string, parent: string) returns (ok: bool)
    requires sn.Valid()
    modifies sn`snapshots, sn`dirs, sn.snapshots.Values
    ensures sn.Valid()
    ensures Unpacked(sn.Value(), ok) == UnpackLayer(old(sn.Value()), key, parent)
    ensures forall info :: info in sn.snapshots.Values ==> info in old(sn.snapshots.Values) || fresh(info)
  {
    hide Forest;
    var r, _ := sn.Prepare(key, parent);
    if r != Ok {
      return false;
    }
    r := sn.Commit(key, key);
    ok := r == Ok;
  }
}
