/** The snapshotter as a value: metadata by key, and the names of the directories on disk. */
module SnapshotModel {

  datatype Kind = View | Active | Committed

  /** parent is "" for a snapshot without one. */
  datatype Info = Info(name: string, parent: string, kind: Kind)

  datatype Store = Store(infos: map<string, Info>, dirs: set<string>)

  datatype Op =
    | Prepare(key: string, parent: string)
    | MakeView(key: string, parent: string)
    | Commit(key: string, name: string)
    | Remove(key: string)

  datatype Check = Ok | ParentRequired | ParentNotFound | ParentNotCommitted | AlreadyExists
                 | NotFound | NotActive | RenameFailed | HasChild

  function CheckParent(s: Store, parent: string): Check {
    if parent !in s.infos then ParentNotFound
    else if s.infos[parent].kind != Committed then ParentNotCommitted
    else Ok
  }

  predicate HasChildren(infos: map<string, Info>, key: string) {
    exists k :: k in infos && infos[k].parent == key
  }

  /** The checks of each operation, in the order of the code. */
  ghost function CheckOp(s: Store, op: Op): Check {
    match op
    case Prepare(key, parent) =>
      var c := if parent == "" then Ok else CheckParent(s, parent);
      if c != Ok then c else if key in s.infos then AlreadyExists else Ok
    case MakeView(key, parent) =>
      if parent == "" then ParentRequired
      else
        var c := CheckParent(s, parent);
        if c != Ok then c else if key in s.infos then AlreadyExists else Ok
    case Commit(key, name) =>
      if key !in s.infos then NotFound
      else if s.infos[key].kind != Active then NotActive
      else if name != key && (key !in s.dirs || name in s.dirs) then RenameFailed
      else Ok
    case Remove(key) =>
      if key !in s.infos then NotFound
      else if HasChildren(s.infos, key) then HasChild
      else Ok
  }

  /** What the operation does once its checks pass. */
  function Effect(s: Store, op: Op): Store
    requires op.Commit? ==> op.key in s.infos
  {
    match op
    case Prepare(key, parent) => Store(s.infos[key := Info(key, parent, Active)], s.dirs + {key})
    case MakeView(key, parent) => s.(infos := s.infos[key := Info(key, parent, View)])
    case Commit(key, name) =>
      var info := s.infos[key].(name := name, kind := Committed);
      Store((s.infos - {key})[name := info], if name == key then s.dirs else s.dirs - {key} + {name})
    case Remove(key) => Store(s.infos - {key}, s.dirs - {key})
  }

  ghost function Step(s: Store, op: Op): Store {
    if CheckOp(s, op) == Ok then Effect(s, op) else s
  }

  ghost function Run(s: Store, ops: seq<Op>): Store {
    if ops == [] then s else Step(Run(s, ops[..|ops| - 1]), ops[|ops| - 1])
  }

  // ----- chains

  /** c is what the walk from key along the parents collects, nearest first. */
  predicate IsChain(infos: map<string, Info>, key: string, c: seq<string>)
    decreases |c|
  {
    if key !in infos || infos[key].parent == "" then c == []
    else c != [] && c[0] == infos[key].parent && IsChain(infos, c[0], c[1..])
  }

  lemma {:induction false} ChainUnique(infos: map<string, Info>, key: string, c: seq<string>, d: seq<string>)
    requires IsChain(infos, key, c) && IsChain(infos, key, d)
    ensures c == d
    decreases |c|
  {
    if c != [] {
      ChainUnique(infos, c[0], c[1..], d[1..]);
      assert c == [c[0]] + c[1..] && d == [d[0]] + d[1..];
    }
  }

  /** The rest of the walk, seen from a snapshot on the way. */
  lemma {:induction false} ChainSuffix(infos: map<string, Info>, key: string, c: seq<string>, i: nat)
    requires IsChain(infos, key, c) && i < |c|
    ensures IsChain(infos, c[i], c[i + 1..])
    decreases |c|
  {
    if i > 0 {
      ChainSuffix(infos, c[0], c[1..], i - 1);
      assert c[1..][i - 1 + 1..] == c[i + 1..];
    }
  }

  /** Ranks that fall along every parent link rule out cycles. */
  ghost predicate Ranked(infos: map<string, Info>, rank: map<string, nat>) {
    forall k :: k in infos ==>
      k in rank && (infos[k].parent in infos && infos[k].parent != "" ==>
                      infos[k].parent in rank && rank[infos[k].parent] < rank[k])
  }

  ghost predicate Acyclic(infos: map<string, Info>) {
    exists rank: map<string, nat> :: Ranked(infos, rank)
  }

  lemma {:induction false} ChainFromRank(infos: map<string, Info>, rank: map<string, nat>, key: string)
    returns (c: seq<string>)
    requires Ranked(infos, rank)
    ensures IsChain(infos, key, c)
    decreases if key in rank then rank[key] + 1 else 0
  {
    if key !in infos || infos[key].parent == "" {
      c := [];
    } else {
      var p := infos[key].parent;
      var d := [];
      if p in infos { d := ChainFromRank(infos, rank, p); }
      c := [p] + d;
    }
  }

  ghost predicate WalkEndsFrom(infos: map<string, Info>, key: string) {
    exists c :: IsChain(infos, key, c)
  }

  /** The walk from every snapshot ends exactly when the parent relation is acyclic. */
  lemma {:induction false} WalksEndIffAcyclic(infos: map<string, Info>)
    ensures Acyclic(infos) <==> forall k :: k in infos ==> WalkEndsFrom(infos, k)
  {
    if Acyclic(infos) {
      var rank: map<string, nat> :| Ranked(infos, rank);
      forall k | k in infos ensures WalkEndsFrom(infos, k) {
        var c := ChainFromRank(infos, rank, k);
      }
    }
    if forall k :: k in infos ==> WalkEndsFrom(infos, k) {
      var rank: map<string, nat> := map k | k in infos :: var c :| IsChain(infos, k, c); |c|;
      forall k | k in infos && infos[k].parent in infos && infos[k].parent != ""
        ensures rank[infos[k].parent] < rank[k]
      {
        LengthFalls(infos, rank, k);
      }
      assert Ranked(infos, rank);
    }
  }

  lemma {:induction false} LengthFalls(infos: map<string, Info>, rank: map<string, nat>, k: string)
    requires forall x :: x in infos ==> x in rank && exists c :: IsChain(infos, x, c) && rank[x] == |c|
    requires k in infos && infos[k].parent in infos && infos[k].parent != ""
    ensures rank[infos[k].parent] < rank[k]
  {
    var c :| IsChain(infos, k, c) && rank[k] == |c|;
    var d :| IsChain(infos, infos[k].parent, d) && rank[infos[k].parent] == |d|;
    ChainUnique(infos, infos[k].parent, c[1..], d);
  }

  // ----- the invariant

  predicate ParentsCommitted(infos: map<string, Info>) {
    forall k :: k in infos && infos[k].parent != "" ==>
      infos[k].parent in infos && infos[infos[k].parent].kind == Committed
  }

  /** Active and Committed snapshots own a directory, Views do not. */
  ghost predicate DirsMatch(s: Store) {
    forall k :: k in s.dirs <==> k in s.infos && s.infos[k].kind != View
  }

  /** A View stands on a parent; without one there would be nothing to mount. */
  predicate ViewsHaveParents(infos: map<string, Info>) {
    forall k :: k in infos && infos[k].kind == View ==> infos[k].parent != ""
  }

  ghost predicate Forest(s: Store) {
    && (forall k :: k in s.infos ==> s.infos[k].name == k)
    && DirsMatch(s)
    && ParentsCommitted(s.infos)
    && ViewsHaveParents(s.infos)
    && Acyclic(s.infos)
  }

  /** Every member of a chain is there and Committed; no snapshot is its own ancestor. */
  lemma {:induction false} ChainCommitted(infos: map<string, Info>, key: string, c: seq<string>, i: nat)
    requires ParentsCommitted(infos) && IsChain(infos, key, c) && i < |c|
    ensures c[i] in infos && infos[c[i]].kind == Committed
    decreases |c|
  {
    if i > 0 { ChainCommitted(infos, c[0], c[1..], i - 1); }
  }

  lemma {:induction false} ChainRanksFall(infos: map<string, Info>, rank: map<string, nat>, key: string,
                                          c: seq<string>, i: nat)
    requires ParentsCommitted(infos) && Ranked(infos, rank)
    requires key in infos && IsChain(infos, key, c) && i < |c|
    ensures c[i] in rank && rank[c[i]] < rank[key]
    decreases |c|
  {
    if i > 0 {
      ChainCommitted(infos, key, c, 0);
      ChainRanksFall(infos, rank, c[0], c[1..], i - 1);
    }
  }

  lemma {:induction false} ChainNoRepeats(s: Store, key: string, c: seq<string>, i: nat, j: nat)
    requires Forest(s) && key in s.infos && IsChain(s.infos, key, c) && i < j < |c|
    ensures c[i] != c[j]
  {
    var rank: map<string, nat> :| Ranked(s.infos, rank);
    ChainCommitted(s.infos, key, c, i);
    ChainSuffix(s.infos, key, c, i);
    ChainRanksFall(s.infos, rank, c[i], c[i + 1..], j - i - 1);
  }

  lemma {:induction false} DistinctBounded(c: seq<string>, keys: set<string>)
    requires forall i, j :: 0 <= i < j < |c| ==> c[i] != c[j]
    requires forall i :: 0 <= i < |c| ==> c[i] in keys
    ensures |c| <= |keys|
  {
    if c != [] {
      var n := |c| - 1;
      DistinctBounded(c[..n], keys - {c[n]});
    }
  }

  /** parentChain ends, with a duplicate-free list of Committed snapshots that leaves the key out. */
  lemma {:induction false} WalkEnds(s: Store, key: string) returns (c: seq<string>)
    requires Forest(s)
    ensures IsChain(s.infos, key, c)
    ensures forall i :: 0 <= i < |c| ==> c[i] in s.infos && s.infos[c[i]].kind == Committed && c[i] != key
    ensures forall i, j :: 0 <= i < j < |c| ==> c[i] != c[j]
    ensures key in s.infos ==> |c| < |s.infos|
  {
    var rank: map<string, nat> :| Ranked(s.infos, rank);
    c := ChainFromRank(s.infos, rank, key);
    if key in s.infos {
      forall i | 0 <= i < |c| ensures c[i] in s.infos && s.infos[c[i]].kind == Committed && c[i] != key {
        ChainCommitted(s.infos, key, c, i);
        ChainRanksFall(s.infos, rank, key, c, i);
      }
      forall i, j | 0 <= i < j < |c| ensures c[i] != c[j] {
        ChainNoRepeats(s, key, c, i, j);
      }
      DistinctBounded(c, s.infos.Keys - {key});
    }
  }

  // ----- every operation keeps the forest

  lemma {:induction false} AddKeepsRanks(infos: map<string, Info>, info: Info, key: string)
    requires Acyclic(infos) && ParentsCommitted(infos) && key !in infos
    requires forall k :: k in infos ==> infos[k].parent != key || key == ""
    requires info.parent != "" ==> info.parent in infos
    ensures Acyclic(infos[key := info])
  {
    var rank: map<string, nat> :| Ranked(infos, rank);
    var r := if info.parent in rank then rank[info.parent] + 1 else 0;
    assert Ranked(infos[key := info], rank[key := r]);
  }

  lemma {:induction false} RenameKeepsRanks(infos: map<string, Info>, info: Info, key: string, name: string)
    requires Acyclic(infos) && key in infos && info.parent == infos[key].parent
    requires forall k :: k in infos && infos[k].parent != "" ==> infos[k].parent !in {key, name}
    ensures Acyclic((infos - {key})[name := info])
  {
    var rank: map<string, nat> :| Ranked(infos, rank);
    var infos', rank' := (infos - {key})[name := info], rank[name := rank[key]];
    forall k | k in infos'
      ensures k in rank' && (infos'[k].parent in infos' && infos'[k].parent != "" ==>
                               infos'[k].parent in rank' && rank'[infos'[k].parent] < rank'[k])
    {
      var was := if k == name then key else k;
      assert was in infos && infos'[k].parent == infos[was].parent;
    }
    assert Ranked(infos', rank');
  }

  /** Nobody descends from the key of an Active snapshot, nor from a free or directory-less name. */
  lemma {:induction false} CommitHasNoChildren(s: Store, key: string, name: string, k: string)
    requires Forest(s) && CheckOp(s, Commit(key, name)) == Ok
    requires k in s.infos && s.infos[k].parent != ""
    ensures s.infos[k].parent !in {key, name}
  {
    hide Acyclic;
    var p := s.infos[k].parent;
    assert p in s.infos && s.infos[p].kind == Committed && p in s.dirs;
  }

  lemma {:induction false} EffectKeepsRanks(s: Store, op: Op)
    requires Forest(s) && CheckOp(s, op) == Ok
    ensures Acyclic(Effect(s, op).infos)
  {
    hide Acyclic;
    match op
    case Prepare(key, parent) => AddKeepsRanks(s.infos, Info(key, parent, Active), key);
    case MakeView(key, parent) => AddKeepsRanks(s.infos, Info(key, parent, View), key);
    case Commit(key, name) =>
      forall k | k in s.infos && s.infos[k].parent != "" ensures s.infos[k].parent !in {key, name} {
        CommitHasNoChildren(s, key, name, k);
      }
      RenameKeepsRanks(s.infos, s.infos[key].(name := name, kind := Committed), key, name);
    case Remove(key) => FewerKeepsRanks(s.infos, key);
  }

  lemma {:induction false} FewerKeepsRanks(infos: map<string, Info>, key: string)
    requires Acyclic(infos)
    ensures Acyclic(infos - {key})
  {
    var rank: map<string, nat> :| Ranked(infos, rank);
    assert Ranked(infos - {key}, rank);
  }

  lemma {:induction false} EffectKeepsParents(s: Store, op: Op)
    requires Forest(s) && CheckOp(s, op) == Ok
    ensures ParentsCommitted(Effect(s, op).infos)
  {
    hide Acyclic;
    if op.Commit? {
      forall k | k in s.infos && s.infos[k].parent != "" ensures s.infos[k].parent !in {op.key, op.name} {
        CommitHasNoChildren(s, op.key, op.name, k);
      }
    }
  }

  lemma {:induction false} EffectKeepsForest(s: Store, op: Op)
    requires Forest(s) && CheckOp(s, op) == Ok
    ensures Forest(Effect(s, op))
  {
    EffectKeepsRanks(s, op);
    EffectKeepsParents(s, op);
    hide Acyclic, ParentsCommitted;
  }

  /** From any forest every run leaves a forest. */
  lemma {:induction false} ForestRuns(s: Store, ops: seq<Op>)
    requires Forest(s)
    ensures Forest(Run(s, ops))
  {
    hide Forest, CheckOp, Effect;
    if ops != [] {
      var t := Run(s, ops[..|ops| - 1]);
      ForestRuns(s, ops[..|ops| - 1]);
      if CheckOp(t, ops[|ops| - 1]) == Ok { EffectKeepsForest(t, ops[|ops| - 1]); }
    }
  }

  /** From an empty snapshotter, every run of operations leaves a forest. */
  lemma {:induction false} RunKeepsForest(s: Store, ops: seq<Op>)
    requires s == Store(map[], {})
    ensures Forest(Run(s, ops))
  {
    assert Ranked(s.infos, map[]);
    ForestRuns(s, ops);
  }

  // ----- chains are stable

  /** A walk that meets only unchanged entries is unchanged. */
  lemma {:induction false} ChainFrame(infos: map<string, Info>, infos': map<string, Info>, key: string, c: seq<string>)
    requires IsChain(infos, key, c)
    requires key in infos && key in infos' && infos'[key].parent == infos[key].parent
    requires forall i :: 0 <= i < |c| ==> c[i] in infos && c[i] in infos' && infos'[c[i]].parent == infos[c[i]].parent
    ensures IsChain(infos', key, c)
    decreases |c|
  {
    if c != [] { ChainFrame(infos, infos', c[0], c[1..]); }
  }

  /** An operation touches no Committed entry that somebody descends from. */
  lemma {:induction false} CommittedUntouched(s: Store, op: Op, k: string)
    requires Forest(s) && k in s.infos && s.infos[k].kind == Committed
    requires HasChildren(s.infos, k) || k in Step(s, op).infos
    ensures k in Step(s, op).infos && Step(s, op).infos[k] == s.infos[k]
  {
    assert k in s.dirs;
  }

  /** The whole ancestor chain of a surviving Committed snapshot stays as it is. */
  lemma {:induction false} ChainStable(s: Store, op: Op, k: string, c: seq<string>)
    requires Forest(s) && k in s.infos && s.infos[k].kind == Committed && IsChain(s.infos, k, c)
    requires k in Step(s, op).infos
    ensures Step(s, op).infos[k] == s.infos[k] && IsChain(Step(s, op).infos, k, c)
  {
    CommittedUntouched(s, op, k);
    forall i | 0 <= i < |c|
      ensures c[i] in s.infos && c[i] in Step(s, op).infos && Step(s, op).infos[c[i]] == s.infos[c[i]]
    {
      ChainCommitted(s.infos, k, c, i);
      ChainParents(s.infos, k, c, i);
      CommittedUntouched(s, op, c[i]);
    }
    ChainFrame(s.infos, Step(s, op).infos, k, c);
  }

  lemma {:induction false} OnlyRemoveTakes(s: Store, op: Op, k: string)
    requires Forest(s) && k in s.infos && s.infos[k].kind == Committed && op != Remove(k)
    ensures k in Step(s, op).infos
  {
    hide Acyclic;
  }

  /**
   * Over every run that does not remove it, a Committed snapshot keeps its entry and its whole
   * ancestor chain: whatever is prepared, committed, renamed or removed meanwhile.
   */
  lemma {:induction false} RunKeepsChain(s: Store, ops: seq<Op>, k: string, c: seq<string>)
    requires Forest(s) && k in s.infos && s.infos[k].kind == Committed && IsChain(s.infos, k, c)
    requires Remove(k) !in ops
    ensures k in Run(s, ops).infos && Run(s, ops).infos[k] == s.infos[k] && IsChain(Run(s, ops).infos, k, c)
  {
    hide Forest, Step, IsChain;
    if ops != [] {
      var before, op := ops[..|ops| - 1], ops[|ops| - 1];
      assert ops == before + [op];
      RunKeepsChain(s, before, k, c);
      ForestRuns(s, before);
      OnlyRemoveTakes(Run(s, before), op, k);
      ChainStable(Run(s, before), op, k, c);
    }
  }

  /** So does the chain of every snapshot, Active and View ones too, whose own entry stays. */
  lemma {:induction false} EveryChainStable(s: Store, op: Op, k: string, c: seq<string>)
    requires Forest(s) && k in s.infos && IsChain(s.infos, k, c)
    requires k in Step(s, op).infos && Step(s, op).infos[k] == s.infos[k]
    ensures IsChain(Step(s, op).infos, k, c)
  {
    if c != [] {
      ChainCommitted(s.infos, k, c, 0);
      ChainParents(s.infos, k, c, 0);
      CommittedUntouched(s, op, c[0]);
      ChainStable(s, op, c[0], c[1..]);
    }
  }

  lemma {:induction false} ChainParents(infos: map<string, Info>, key: string, c: seq<string>, i: nat)
    requires key in infos && IsChain(infos, key, c) && i < |c| && ParentsCommitted(infos)
    ensures HasChildren(infos, c[i])
  {
    if i > 0 {
      ChainCommitted(infos, key, c, i - 1);
      ChainSuffix(infos, key, c, i - 1);
      assert infos[c[i - 1]].parent == c[i];
    }
  }

  /** A successful Commit hands the chain of the key to the name. */
  lemma {:induction false} CommitKeepsChain(s: Store, key: string, name: string, c: seq<string>)
    requires Forest(s) && CheckOp(s, Commit(key, name)) == Ok && IsChain(s.infos, key, c)
    ensures var t := Step(s, Commit(key, name));
            && IsChain(t.infos, name, c)
            && t.infos[name] == Info(name, s.infos[key].parent, Committed)
            && (name != key ==> key !in t.infos)
  {
    var t := Step(s, Commit(key, name));
    if c != [] {
      var op := Commit(key, name);
      ChainCommitted(s.infos, key, c, 0);
      ChainParents(s.infos, key, c, 0);
      CommittedUntouched(s, op, c[0]);
      ChainStable(s, op, c[0], c[1..]);
    }
  }

  lemma {:induction false} ChainHead(infos: map<string, Info>, k: string, c: seq<string>)
    requires k in infos && IsChain(infos, k, c) && infos[k].parent != ""
    ensures c != [] && c[0] == infos[k].parent
  {
  }

  /** Remove takes a snapshot away exactly when no other snapshot descends from it, however far. */
  lemma {:induction false} RemoveIff(s: Store, key: string)
    requires Forest(s) && key in s.infos
    ensures key !in Step(s, Remove(key)).infos <==> forall k :: k in s.infos ==> s.infos[k].parent != key
    ensures key != "" ==>
            (key !in Step(s, Remove(key)).infos <==>
             forall k, c :: k in s.infos && IsChain(s.infos, k, c) ==> key !in c)
  {
    hide Acyclic, DirsMatch, IsChain;
    if k :| k in s.infos && s.infos[k].parent == key && key != "" {
      var c := WalkEnds(s, k);
      ChainHead(s.infos, k, c);
      assert key in c;
    }
    forall k, c | k in s.infos && IsChain(s.infos, k, c) && key in c ensures HasChildren(s.infos, key) {
      var i :| 0 <= i < |c| && c[i] == key;
      ChainParents(s.infos, k, c, i);
    }
  }

  // ----- what the calls do, entry by entry

  /** Is there a Committed snapshot of this name? */
  predicate CommittedAt(s: Store, key: string) {
    key in s.infos && s.infos[key].kind == Committed
  }

  /**
   * Prepare and View: they succeed exactly for a new key on a Committed parent, or, for Prepare only,
   * on none. The new entry is Active or a View on that parent, and only Prepare makes a directory.
   */
  lemma {:induction false} NewEntry(s: Store, key: string, parent: string, view: bool)
    ensures var op := if view then MakeView(key, parent) else Prepare(key, parent); var t := Step(s, op);
            if key !in s.infos && (if parent == "" then !view else CommittedAt(s, parent)) then
              && CheckOp(s, op) == Ok
              && t.infos == s.infos[key := Info(key, parent, if view then View else Active)]
              && t.dirs == if view then s.dirs else s.dirs + {key}
            else CheckOp(s, op) != Ok && t == s
  {
  }

  /** The ancestors of the new entry are its parent and the parent's ancestors. */
  lemma {:induction false} NewChain(s: Store, key: string, parent: string, view: bool, c: seq<string>)
    requires Forest(s) && IsChain(s.infos, parent, c) && (parent == "" ==> c == [])
    requires var op := if view then MakeView(key, parent) else Prepare(key, parent); CheckOp(s, op) == Ok
    ensures var op := if view then MakeView(key, parent) else Prepare(key, parent);
            IsChain(Step(s, op).infos, key, if parent == "" then [] else [parent] + c)
  {
    hide Forest;
    var op := if view then MakeView(key, parent) else Prepare(key, parent);
    NewEntry(s, key, parent, view);
    if parent != "" {
      ChainStable(s, op, parent, c);
      assert ([parent] + c)[1..] == c;
    }
  }

  /** Why Prepare and View are refused; trouble with the parent is reported first. */
  lemma {:induction false} Refusals(s: Store, key: string, parent: string, view: bool)
    ensures var c := CheckOp(s, if view then MakeView(key, parent) else Prepare(key, parent));
            var good := parent != "" && parent in s.infos && s.infos[parent].kind == Committed;
            && (c == ParentRequired <==> view && parent == "")
            && (c == ParentNotFound <==> parent != "" && parent !in s.infos)
            && (c == ParentNotCommitted <==> parent != "" && parent in s.infos && !good)
            && (c == AlreadyExists <==> key in s.infos && (good || (parent == "" && !view)))
            && c in {Ok, ParentRequired, ParentNotFound, ParentNotCommitted, AlreadyExists}
  {
  }

  /** Commit: it succeeds exactly for an Active key under a name with no directory, and renames the entry. */
  lemma {:induction false} CommitEntry(s: Store, key: string, name: string)
    requires Forest(s)
    ensures var t := Step(s, Commit(key, name));
            if key in s.infos && s.infos[key].kind == Active
               && (name == key || name !in s.infos || s.infos[name].kind == View)
            then
              && t.infos == (s.infos - {key})[name := Info(name, s.infos[key].parent, Committed)]
              && t.dirs == s.dirs - {key} + {name}
            else t == s
  {
    hide Acyclic, ParentsCommitted, ViewsHaveParents;
    assert key in s.infos && s.infos[key].kind == Active ==> key in s.dirs;
    assert name in s.dirs <==> name in s.infos && s.infos[name].kind != View;
  }
}
