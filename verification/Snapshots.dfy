/** The Snapshotter object and the overlayfs mounts it hands out. */
module Snapshots {
  import opened Strings
  import opened SnapshotModel
  import opened Wrappers

  datatype Mount = Mount(mountType: string, source: string, options: seq<string>)

  function FsPath(root: string, key: string): string {
    root + "/" + key + "/fs"
  }

  function Paths(root: string, c: seq<string>): (r: seq<string>)
    ensures |r| == |c| && forall i :: 0 <= i < |c| ==> r[i] == FsPath(root, c[i])
  {
    seq(|c|, i requires 0 <= i < |c| => FsPath(root, c[i]))
  }

  const LOWER_OPTION := "lowerdir="

  /** The mount of a snapshot of the given kind whose ancestors are c. */
  function MountFor(root: string, key: string, kind: Kind, c: seq<string>): Mount {
    if kind == Committed || c == [] then
      Mount("bind", FsPath(root, key), ["rbind", "rprivate"])
    else if kind == View then
      Mount("overlay", "overlay", [LOWER_OPTION + Join(Paths(root, c), ':'), "index=off"])
    else
      Mount("overlay", "overlay",
            [LOWER_OPTION + Join(Paths(root, c), ':'), "upperdir=" + FsPath(root, key),
             "workdir=" + root + "/" + key + "/work", "index=off"])
  }

  /** The list of directories in a lowerdir option, read back at the colons. */
  function ReadLower(option: string): seq<string> {
    if LOWER_OPTION <= option then Split(option[|LOWER_OPTION|..], ':') else []
  }

  /** The option names the ancestors, nearest first, exactly when no path contains a colon. */
  lemma {:induction false} LowerdirReadBackIff(root: string, key: string, kind: Kind, c: seq<string>)
    requires kind != Committed && c != []
    ensures ReadLower(MountFor(root, key, kind, c).options[0]) == Paths(root, c) <==>
            ':' !in root && forall i :: 0 <= i < |c| ==> ':' !in c[i]
  {
    var p := Paths(root, c);
    var option := LOWER_OPTION + Join(p, ':');
    assert option[|LOWER_OPTION|..] == Join(p, ':');
    SplitJoinIff(p, ':');
    forall i | 0 <= i < |c| ensures ':' in p[i] <==> ':' in root || ':' in c[i] {
      ColonInPath(root, c[i]);
    }
    if (forall k :: 0 <= k < |p| ==> ':' !in p[k]) {
      assert ':' !in p[0];
      forall i | 0 <= i < |c| ensures ':' !in c[i] { assert ':' !in p[i]; }
    }
  }

  lemma {:induction false} ColonInPath(root: string, key: string)
    ensures ':' in FsPath(root, key) <==> ':' in root || ':' in key
  {
    var a, b := root + "/", "/fs";
    assert FsPath(root, key) == a + key + b;
    assert ':' in a + key + b <==> ':' in a || ':' in key || ':' in b;
    assert ':' in a <==> ':' in root || ':' in "/";
  }

  // ----- what a mount lets be written

  /** The rest of the first option that begins with the name, if there is one. */
  function OptionValue(options: seq<string>, name: string): Option<string> {
    if options == [] then None
    else if name <= options[0] then Some(options[0][|name|..])
    else OptionValue(options[1..], name)
  }

  /** The directory that writes through the mount go to: the bind source, or the upperdir if there is one. */
  function WrittenTo(m: Mount): Option<string> {
    if m.mountType == "bind" then Some(m.source) else OptionValue(m.options, "upperdir=")
  }

  /** The directories below it that the mount shows, as its lowerdir option lists them. */
  function ShownBelow(m: Mount): seq<string> {
    match OptionValue(m.options, "lowerdir=")
    case None => []
    case Some(dirs) => Split(dirs, ':')
  }

  lemma {:induction false} FsPathInjective(root: string, a: string, b: string)
    ensures FsPath(root, a) == FsPath(root, b) <==> a == b
  {
    if FsPath(root, a) == FsPath(root, b) {
      var n := |root| + 1;
      assert |a| == |b|;
      assert a == FsPath(root, a)[n..n + |a|] && b == FsPath(root, b)[n..n + |b|];
    }
  }

  lemma {:induction false} OptionHere(name: string, value: string, rest: seq<string>)
    ensures OptionValue([name + value] + rest, name) == Some(value)
  {
    assert (name + value)[|name|..] == value;
  }

  lemma {:induction false} OptionElsewhere(option: string, rest: seq<string>, name: string)
    requires option != "" && name != "" && option[0] != name[0]
    ensures OptionValue([option] + rest, name) == OptionValue(rest, name)
  {
    assert ([option] + rest)[1..] == rest;
  }

  lemma {:induction false} NoOption(name: string)
    requires name != "" && name[0] != 'i'
    ensures OptionValue(["index=off"], name) == None
  {
    OptionElsewhere("index=off", [], name);
    assert ["index=off"] + [] == ["index=off"];
  }

  /** The three options of an overlay that can be written to. */
  lemma {:induction false} ActiveOptions(lower: string, upper: string, work: string)
    ensures var options := ["lowerdir=" + lower, "upperdir=" + upper, "workdir=" + work, "index=off"];
            && OptionValue(options, "lowerdir=") == Some(lower)
            && OptionValue(options, "upperdir=") == Some(upper)
            && OptionValue(options, "workdir=") == Some(work)
  {
    hide OptionValue;
    var last := ["index=off"];
    var a, b, c := "lowerdir=" + lower, "upperdir=" + upper, "workdir=" + work;
    assert [a, b, c, "index=off"] == [a] + ([b] + ([c] + last));
    assert a[0] == 'l' && b[0] == 'u';
    OptionHere("lowerdir=", lower, [b] + ([c] + last));
    OptionElsewhere(a, [b] + ([c] + last), "upperdir=");
    OptionElsewhere(a, [b] + ([c] + last), "workdir=");
    OptionHere("upperdir=", upper, [c] + last);
    OptionElsewhere(b, [c] + last, "workdir=");
    OptionHere("workdir=", work, last);
  }

  lemma {:induction false} ViewOptions(lower: string)
    ensures var options := ["lowerdir=" + lower, "index=off"];
            && OptionValue(options, "lowerdir=") == Some(lower)
            && OptionValue(options, "upperdir=") == None && OptionValue(options, "workdir=") == None
  {
    hide OptionValue;
    var a := "lowerdir=" + lower;
    assert [a, "index=off"] == [a] + ["index=off"];
    assert a[0] == 'l';
    OptionHere("lowerdir=", lower, ["index=off"]);
    OptionElsewhere(a, ["index=off"], "upperdir=");
    OptionElsewhere(a, ["index=off"], "workdir=");
    NoOption("upperdir=");
    NoOption("workdir=");
  }

  lemma {:induction false} BindOptions()
    ensures OptionValue(["rbind", "rprivate"], "lowerdir=") == None
  {
    hide OptionValue;
    assert ["rbind", "rprivate"] == ["rbind"] + (["rprivate"] + []);
    OptionElsewhere("rbind", ["rprivate"] + [], "lowerdir=");
    OptionElsewhere("rprivate", [], "lowerdir=");
    assert OptionValue([], "lowerdir=") == None by { NoOptions("lowerdir="); }
  }

  lemma {:induction false} NoOptions(name: string)
    ensures OptionValue([], name) == None
  {
  }

  /** The options of each kind of mount. */
  lemma {:induction false} MountOptions(root: string, key: string, kind: Kind, c: seq<string>)
    ensures var m := MountFor(root, key, kind, c);
            if kind == Committed || c == [] then
              && m.mountType == "bind" && m.source == root + "/" + key + "/fs"
              && OptionValue(m.options, "lowerdir=") == None
            else
              && m.mountType == "overlay"
              && OptionValue(m.options, "lowerdir=") == Some(Join(Paths(root, c), ':'))
              && OptionValue(m.options, "upperdir=") ==
                 (if kind == View then None else Some(root + "/" + key + "/fs"))
              && OptionValue(m.options, "workdir=") ==
                 (if kind == View then None else Some(root + "/" + key + "/work"))
  {
    hide Join, Paths, OptionValue;
    var lower := Join(Paths(root, c), ':');
    var upper, work := root + "/" + key + "/fs", root + "/" + key + "/work";
    assert "workdir=" + root + "/" + key + "/work" == "workdir=" + work;
    BindOptions();
    ViewOptions(lower);
    ActiveOptions(lower, upper, work);
  }

  /** A View can not be written through. */
  lemma {:induction false} ViewIsReadOnly(s: Store, root: string, key: string, c: seq<string>)
    requires Forest(s) && key in s.infos && s.infos[key].kind == View && IsChain(s.infos, key, c)
    ensures var m := MountFor(root, key, View, c);
            && m.mountType == "overlay" && WrittenTo(m) == None
            && OptionValue(m.options, "upperdir=") == None && OptionValue(m.options, "workdir=") == None
  {
    assert c != [];
    hide Forest, MountFor;
    MountOptions(root, key, View, c);
  }

  /** Writes through the mount of an Active snapshot go to its own directory. */
  lemma {:induction false} ActiveWritesToItself(root: string, key: string, c: seq<string>)
    ensures WrittenTo(MountFor(root, key, Active, c)) == Some(root + "/" + key + "/fs")
  {
    MountOptions(root, key, Active, c);
  }

  /**
   * Isolation: what one Active snapshot writes is written by no other, and shown below no snapshot
   * at all. Root and keys hold no colon, so that lowerdir options can be read.
   */
  lemma {:induction false} Isolation(s: Store, root: string, a: string, ca: seq<string>, b: string, cb: seq<string>)
    requires Forest(s) && a in s.infos && s.infos[a].kind == Active && IsChain(s.infos, a, ca)
    requires b in s.infos && IsChain(s.infos, b, cb)
    requires ':' !in root && forall k :: k in s.infos ==> ':' !in k
    ensures var m, n := MountFor(root, a, Active, ca), MountFor(root, b, s.infos[b].kind, cb);
            && WrittenTo(m).Some?
            && WrittenTo(m).value !in ShownBelow(n)
            && (a != b ==> WrittenTo(n) != WrittenTo(m))
  {
    hide MountFor, Split, Join, Acyclic;
    var path := FsPath(root, a);
    ActiveWritesToItself(root, a, ca);
    MountOptions(root, b, s.infos[b].kind, cb);
    FsPathInjective(root, a, b);
    forall i | 0 <= i < |cb| ensures cb[i] in s.infos && FsPath(root, cb[i]) != path && ':' !in Paths(root, cb)[i] {
      ChainCommitted(s.infos, b, cb, i);
      FsPathInjective(root, a, cb[i]);
      ColonInPath(root, cb[i]);
    }
    if cb != [] { SplitOfJoin(Paths(root, cb), ':'); }
  }

  /**
   * Exactly which mounts write what another one shows: those of a Committed snapshot, which Mounts
   * hands out as a plain bind, write what every snapshot above it shows.
   */
  lemma {:induction false} WritesShownIff(s: Store, root: string, a: string, ca: seq<string>,
                                          b: string, cb: seq<string>)
    requires Forest(s) && a in s.infos && IsChain(s.infos, a, ca) && b in s.infos && IsChain(s.infos, b, cb)
    requires ':' !in root && forall k :: k in s.infos ==> ':' !in k
    ensures var m, n := MountFor(root, a, s.infos[a].kind, ca), MountFor(root, b, s.infos[b].kind, cb);
            WrittenTo(m).Some? && WrittenTo(m).value in ShownBelow(n) <==>
            s.infos[b].kind != Committed && a in cb
  {
    hide MountFor, Split, Join, Acyclic;
    var dirs := Paths(root, cb);
    MountOptions(root, a, s.infos[a].kind, ca);
    MountOptions(root, b, s.infos[b].kind, cb);
    forall i | 0 <= i < |cb|
      ensures cb[i] in s.infos && s.infos[cb[i]].kind == Committed && ':' !in dirs[i]
      ensures FsPath(root, a) == dirs[i] <==> a == cb[i]
    {
      ChainCommitted(s.infos, b, cb, i);
      FsPathInjective(root, a, cb[i]);
      ColonInPath(root, cb[i]);
    }
    if cb != [] { SplitOfJoin(dirs, ':'); }
    if s.infos[a].kind == View { ViewIsReadOnly(s, root, a, ca); }
    if a in cb {
      var i :| 0 <= i < |cb| && cb[i] == a;
      assert dirs[i] == FsPath(root, a);
    }
    assert s.infos[a].kind == Active && ca != [] ==>
      WrittenTo(MountFor(root, a, Active, ca)) == Some(FsPath(root, a));
  }

  /** Every directory a mount names is there, so that the mount can be made. */
  lemma {:induction false} MountedDirsExist(s: Store, root: string, key: string, c: seq<string>, d: string)
    requires Forest(s) && key in s.infos && IsChain(s.infos, key, c)
    requires ':' !in root && forall k :: k in s.infos ==> ':' !in k
    requires var m := MountFor(root, key, s.infos[key].kind, c); d in ShownBelow(m) || WrittenTo(m) == Some(d)
    ensures exists k :: k in s.dirs && d == FsPath(root, k)
  {
    hide MountFor, Split, Join, Acyclic;
    var kind := s.infos[key].kind;
    MountOptions(root, key, kind, c);
    forall i | 0 <= i < |c| ensures c[i] in s.dirs && ':' !in Paths(root, c)[i] {
      ChainCommitted(s.infos, key, c, i);
      ColonInPath(root, c[i]);
    }
    if c != [] { SplitOfJoin(Paths(root, c), ':'); }
    if WrittenTo(MountFor(root, key, kind, c)) == Some(d) {
      if kind == View { ViewIsReadOnly(s, root, key, c); }
      assert key in s.dirs && d == FsPath(root, key);
    } else {
      var i :| 0 <= i < |c| && Paths(root, c)[i] == d;
      assert c[i] in s.dirs;
    }
  }

  /** The metadata record; the map holds a reference to it. */
  class SnapshotInfo {
    var Name: string
    var Parent: string
    var Kind: Kind

    constructor (name: string, parent: string, kind: Kind)
      ensures Name == name && Parent == parent && Kind == kind
    {
      Name, Parent, Kind := name, parent, kind;
    }
  }

  class Snapshotter {
    const root: string
    var snapshots: map<string, SnapshotInfo>
    /** The directories under root. */
    var dirs: set<string>

    ghost function Value(): Store
      reads this, snapshots.Values
    {
      Store(map k | k in snapshots :: Info(snapshots[k].Name, snapshots[k].Parent, snapshots[k].Kind), dirs)
    }

    /** No two keys share a metadata record. */
    ghost predicate Distinct()
      reads this`snapshots
    {
      forall k, l :: k in snapshots && l in snapshots && k != l ==> snapshots[k] != snapshots[l]
    }

    ghost predicate Valid()
      reads this, snapshots.Values
    {
      Distinct() && Forest(Value())
    }

    constructor (root: string)
      ensures Valid() && this.root == root && Value() == Store(map[], {})
    {
      this.root := root;
      snapshots, dirs := map[], {};
      new;
      RunKeepsForest(Value(), []);
    }

    lemma {:induction false} SameSize()
      ensures |Value().infos| == |snapshots|
    {
      assert Value().infos.Keys == snapshots.Keys;
      assert |Value().infos| == |Value().infos.Keys| && |snapshots| == |snapshots.Keys|;
    }

    /** The ancestor walk. It has no bound of its own: it ends because the snapshots form a forest. */
    method ParentChain(key: string) returns (chain: seq<string>)
      requires Valid()
      ensures IsChain(Value().infos, key, chain)
      ensures forall i :: 0 <= i < |chain| ==>
        chain[i] in snapshots && snapshots[chain[i]].Kind == Committed && chain[i] != key
      ensures forall i, j :: 0 <= i < j < |chain| ==> chain[i] != chain[j]
      ensures key in snapshots ==> |chain| < |snapshots|
    {
      ghost var c := WalkEnds(Value(), key);
      SameSize();
      hide Forest;
      chain := [];
      var current := key;
      while true
        invariant |chain| <= |c| && chain == c[..|chain|]
        invariant IsChain(Value().infos, current, c[|chain|..])
        decreases |c| - |chain|
      {
        if current !in snapshots || snapshots[current].Parent == "" {
          break;
        }
        var parent := snapshots[current].Parent;
        assert c[|chain|..][0] == parent && c[|chain|..][1..] == c[|chain| + 1..];
        chain := chain + [parent];
        current := parent;
      }
      assert c[|chain|..] == [] && chain == c;
    }

    method MountsWithoutLock(key: string) returns (found: bool, mounts: seq<Mount>)
      requires Valid()
      ensures found <==> key in snapshots
      ensures found ==> forall c :: IsChain(Value().infos, key, c) ==>
        mounts == [MountFor(root, key, snapshots[key].Kind, c)]
    {
      if key !in snapshots {
        return false, [];
      }
      var info := snapshots[key];
      found := true;
      var parents := ParentChain(key);
      forall c | IsChain(Value().infos, key, c) ensures c == parents {
        ChainUnique(Value().infos, key, c, parents);
      }
      if info.Kind == Committed {
        mounts := [Mount("bind", FsPath(root, key), ["rbind", "rprivate"])];
      } else {
        var lowerDirs := [];
        var i := 0;
        while i < |parents|
          invariant 0 <= i <= |parents|
          invariant lowerDirs == Paths(root, parents)[..i]
        {
          lowerDirs := lowerDirs + [FsPath(root, parents[i])];
          i := i + 1;
        }
        assert lowerDirs == Paths(root, parents);
        if |lowerDirs| == 0 {
          mounts := [Mount("bind", FsPath(root, key), ["rbind", "rprivate"])];
        } else if info.Kind == View {
          mounts := [Mount("overlay", "overlay", [LOWER_OPTION + Join(lowerDirs, ':'), "index=off"])];
        } else {
          mounts := [Mount("overlay", "overlay",
                           [LOWER_OPTION + Join(lowerDirs, ':'), "upperdir=" + FsPath(root, key),
                            "workdir=" + root + "/" + key + "/work", "index=off"])];
        }
      }
    }

    method FindParent(parent: string) returns (r: Check)
      ensures r == CheckParent(Value(), parent)
    {
      if parent !in snapshots {
        return ParentNotFound;
      }
      r := if snapshots[parent].Kind != Committed then ParentNotCommitted else Ok;
    }

    method Prepare(key: string, parent: string) returns (r: Check, mounts: seq<Mount>)
      requires Valid()
      modifies this`snapshots, this`dirs
      ensures Valid()
      ensures r == CheckOp(old(Value()), Op.Prepare(key, parent))
      ensures Value() == Step(old(Value()), Op.Prepare(key, parent))
      ensures r == Ok ==> forall c :: IsChain(Value().infos, key, c) ==> mounts == [MountFor(root, key, Active, c)]
      ensures forall info :: info in snapshots.Values ==> info in old(snapshots.Values) || fresh(info)
    {
      hide CheckParent, IsChain, MountFor;
      mounts := [];
      r := Ok;
      if parent != "" {
        r := FindParent(parent);
      }
      if r == Ok && key in snapshots {
        r := AlreadyExists;
      }
      if r == Ok {
        hide Effect, Forest;
        mounts := AddActive(key, parent);
      }
    }

    /** Prepare, once its checks have passed. */
    method AddActive(key: string, parent: string) returns (mounts: seq<Mount>)
      requires Valid() && CheckOp(Value(), Op.Prepare(key, parent)) == Ok
      modifies this`snapshots, this`dirs
      ensures Valid() && Value() == Effect(old(Value()), Op.Prepare(key, parent))
      ensures forall c :: IsChain(Value().infos, key, c) ==> mounts == [MountFor(root, key, Active, c)]
      ensures forall info :: info in snapshots.Values ==> info in old(snapshots.Values) || fresh(info)
    {
      EffectKeepsForest(Value(), Op.Prepare(key, parent));
      hide Forest, IsChain, MountFor, CheckOp;
      MakeDir(key);
      Record(key, parent, Active);
      assert Value() == Effect(old(Value()), Op.Prepare(key, parent));
      var _, m := MountsWithoutLock(key);
      mounts := m;
    }

    /** MkdirAll of the fs and work directories under the key. */
    method MakeDir(key: string)
      modifies this`dirs
      ensures Value() == old(Value()).(dirs := old(Value()).dirs + {key})
    {
      dirs := dirs + {key};
    }

    /** A fresh metadata record enters the map. */
    method Record(key: string, parent: string, kind: Kind)
      requires Distinct()
      modifies this`snapshots
      ensures key in snapshots && snapshots[key].Kind == kind
      ensures forall info :: info in snapshots.Values ==> info in old(snapshots.Values) || fresh(info)
      ensures Distinct()
      ensures Value() == old(Value()).(infos := old(Value()).infos[key := Info(key, parent, kind)])
    {
      var info := new SnapshotInfo(key, parent, kind);
      snapshots := snapshots[key := info];
    }

    method MakeView(key: string, parent: string) returns (r: Check, mounts: seq<Mount>)
      requires Valid()
      modifies this`snapshots
      ensures Valid()
      ensures r == CheckOp(old(Value()), Op.MakeView(key, parent))
      ensures Value() == Step(old(Value()), Op.MakeView(key, parent))
      ensures r == Ok ==> forall c :: IsChain(Value().infos, key, c) ==> mounts == [MountFor(root, key, View, c)]
    {
      hide CheckParent, IsChain, MountFor;
      mounts := [];
      r := ParentRequired;
      if parent != "" {
        r := FindParent(parent);
        if r == Ok && key in snapshots {
          r := AlreadyExists;
        }
      }
      if r == Ok {
        hide Effect, Forest;
        mounts := AddView(key, parent);
      }
    }

    /** View, once its checks have passed. */
    method AddView(key: string, parent: string) returns (mounts: seq<Mount>)
      requires Valid() && CheckOp(Value(), Op.MakeView(key, parent)) == Ok
      modifies this`snapshots
      ensures Valid() && Value() == Effect(old(Value()), Op.MakeView(key, parent))
      ensures forall c :: IsChain(Value().infos, key, c) ==> mounts == [MountFor(root, key, View, c)]
    {
      EffectKeepsForest(Value(), Op.MakeView(key, parent));
      hide Forest, IsChain, MountFor, CheckOp;
      Record(key, parent, View);
      assert Value() == Effect(old(Value()), Op.MakeView(key, parent));
      var _, m := MountsWithoutLock(key);
      mounts := m;
    }

    method Commit(key: string, name: string) returns (r: Check)
      requires Valid()
      modifies this`snapshots, this`dirs, snapshots.Values
      ensures Valid()
      ensures r == CheckOp(old(Value()), Op.Commit(key, name))
      ensures Value() == Step(old(Value()), Op.Commit(key, name))
      ensures snapshots.Values <= old(snapshots.Values)
    {
      if key !in snapshots {
        return NotFound;
      }
      var info := snapshots[key];
      if info.Kind != Active {
        return NotActive;
      }
      if name != key && (key !in dirs || name in dirs) {
        return RenameFailed;
      }
      EffectKeepsForest(Value(), Op.Commit(key, name));
      hide Forest;
      Freeze(key, name);
      return Ok;
    }

    /** The part of Commit that follows its checks. */
    method Freeze(key: string, name: string)
      requires key in snapshots
      requires Distinct()
      modifies this`snapshots, this`dirs, snapshots[key]
      ensures Distinct()
      ensures Value() == Effect(old(Value()), Op.Commit(key, name))
      ensures snapshots.Values <= old(snapshots.Values)
    {
      var info := snapshots[key];
      if name != key {
        dirs := dirs - {key} + {name};
        snapshots := (snapshots - {key})[name := info];
      }
      info.Name := name;
      info.Kind := Committed;
      assert Value().infos == Effect(old(Value()), Op.Commit(key, name)).infos;
    }

    method FindChild(key: string) returns (found: bool)
      ensures found <==> HasChildren(Value().infos, key)
    {
      var rest := snapshots.Keys;
      while rest != {}
        invariant rest <= snapshots.Keys
        invariant forall k :: k in snapshots && k !in rest ==> snapshots[k].Parent != key
      {
        var k :| k in rest;
        if snapshots[k].Parent == key {
          assert Value().infos[k].parent == key;
          return true;
        }
        rest := rest - {k};
      }
      return false;
    }

    method Remove(key: string) returns (r: Check)
      requires Valid()
      modifies this`snapshots, this`dirs
      ensures Valid()
      ensures r == CheckOp(old(Value()), Op.Remove(key))
      ensures Value() == Step(old(Value()), Op.Remove(key))
    {
      hide HasChildren, Effect, Forest, Distinct;
      r := NotFound;
      if key in snapshots {
        var found := FindChild(key);
        r := HasChild;
        if !found {
          Discard(key);
          r := Ok;
        }
      }
    }

    /** Remove, once its checks have passed. */
    method Discard(key: string)
      requires Valid() && CheckOp(Value(), Op.Remove(key)) == Ok
      modifies this`snapshots, this`dirs
      ensures Valid() && Value() == Effect(old(Value()), Op.Remove(key))
    {
      EffectKeepsForest(Value(), Op.Remove(key));
      hide Forest, Effect, Distinct, CheckOp;
      Erase(key);
    }

    /** RemoveAll of the directory, and the map entry. */
    method Erase(key: string)
      requires Distinct()
      modifies this`snapshots, this`dirs
      ensures Distinct()
      ensures Value() == Effect(old(Value()), Op.Remove(key))
    {
      dirs := dirs - {key};
      snapshots := snapshots - {key};
      assert Value().infos == old(Value()).infos - {key};
    }
  }
}
