/** The stable sort that keeps a pending queue in order. */
module KueueOrder {
  import opened KueueTypes

  /** Where w goes: behind the last workload that it does not precede. */
  function Position(q: seq<Workload>, w: Workload): (i: nat)
    ensures i <= |q|
    ensures forall j :: i <= j < |q| ==> Before(w, q[j])
    ensures i > 0 ==> !Before(w, q[i - 1])
  {
    if q == [] || !Before(w, q[|q| - 1]) then |q| else Position(q[..|q| - 1], w)
  }

  function Insert(q: seq<Workload>, w: Workload): (r: seq<Workload>)
    ensures |r| == |q| + 1
  {
    q[..Position(q, w)] + [w] + q[Position(q, w)..]
  }

  function StableSort(q: seq<Workload>): (r: seq<Workload>)
    ensures |r| == |q|
  {
    if q == [] then [] else Insert(StableSort(q[..|q| - 1]), q[|q| - 1])
  }

  /** What the comparison looks at. */
  datatype Rank = Rank(priority: int, createdAt: int)

  function RankOf(w: Workload): Rank {
    Rank(w.Priority, w.CreatedAt)
  }

  /** The workloads of one rank, in the order of q. */
  function OfRank(q: seq<Workload>, r: Rank): seq<Workload> {
    if q == [] then []
    else OfRank(q[..|q| - 1], r) + (if RankOf(q[|q| - 1]) == r then [q[|q| - 1]] else [])
  }

  /** The definition of a stable sort: sorted, and equal elements keep their relative order. */
  ghost predicate IsStableSortOf(s: seq<Workload>, q: seq<Workload>) {
    Sorted(s) && forall r: Rank :: OfRank(s, r) == OfRank(q, r)
  }

  /** In a sorted queue the position separates the two sides completely. */
  lemma {:induction false} PositionSplits(q: seq<Workload>, w: Workload, j: nat)
    requires Sorted(q) && j < |q|
    ensures Before(w, q[j]) <==> Position(q, w) <= j
  {
    var i: int := Position(q, w);
    if j < i - 1 { assert !Before(q[i - 1], q[j]); }
  }

  lemma {:induction false} OfRankConcat(a: seq<Workload>, b: seq<Workload>, r: Rank)
    ensures OfRank(a + b, r) == OfRank(a, r) + OfRank(b, r)
    decreases |b|
  {
    if b == [] {
      assert a + b == a;
    } else {
      var n := |b| - 1;
      OfRankConcat(a, b[..n], r);
      assert (a + b)[..|a + b| - 1] == a + b[..n];
    }
  }

  lemma {:induction false} OfRankNone(q: seq<Workload>, r: Rank)
    requires forall w :: w in q ==> RankOf(w) != r
    ensures OfRank(q, r) == []
  {
    if q != [] { OfRankNone(q[..|q| - 1], r); }
  }

  /** Placing w before a block of other ranks is the same, rank by rank, as placing it last. */
  lemma {:induction false} OfRankMoved(a: seq<Workload>, b: seq<Workload>, w: Workload, r: Rank)
    requires forall v :: v in b ==> RankOf(v) != RankOf(w)
    ensures OfRank(a + [w] + b, r) == OfRank(a + b + [w], r)
  {
    OfRankConcat(a + [w], b, r);
    OfRankConcat(a, [w], r);
    OfRankConcat(a + b, [w], r);
    OfRankConcat(a, b, r);
    if r == RankOf(w) {
      OfRankNone(b, r);
    } else {
      OfRankNone([w], r);
    }
  }

  lemma {:induction false} SortedAround(a: seq<Workload>, b: seq<Workload>, w: Workload)
    requires Sorted(a + b)
    requires forall j :: 0 <= j < |a| ==> !Before(w, a[j])
    requires forall j :: 0 <= j < |b| ==> Before(w, b[j])
    ensures Sorted(a + [w] + b)
  {
    var q, s := a + b, a + [w] + b;
    forall i, j | 0 <= i < j < |s| ensures !Before(s[j], s[i]) {
      var i', j' := if i <= |a| then i else i - 1, if j <= |a| then j else j - 1;
      assert i != |a| ==> s[i] == q[i'];
      assert j != |a| ==> s[j] == q[j'];
      assert i == |a| ==> s[j] == b[j - |a| - 1];
      assert j == |a| ==> s[i] == a[i];
    }
  }

  lemma {:induction false} InsertAdds(q: seq<Workload>, w: Workload)
    ensures multiset(Insert(q, w)) == multiset(q) + multiset{w}
  {
    assert q == q[..Position(q, w)] + q[Position(q, w)..];
  }

  /** Insertion keeps a sorted queue sorted and puts w last among its equals. */
  lemma {:induction false} InsertIsStable(q: seq<Workload>, w: Workload)
    requires Sorted(q)
    ensures IsStableSortOf(Insert(q, w), q + [w])
  {
    var a, b := q[..Position(q, w)], q[Position(q, w)..];
    assert q == a + b;
    forall j | 0 <= j < |q| ensures Before(w, q[j]) <==> |a| <= j {
      PositionSplits(q, w, j);
    }
    SortedAround(a, b, w);
    forall r: Rank ensures OfRank(Insert(q, w), r) == OfRank(q + [w], r) {
      OfRankMoved(a, b, w, r);
    }
  }

  /** The sort used by the queues is a stable sort ... */
  lemma {:induction false} StableSortCorrect(q: seq<Workload>)
    ensures IsStableSortOf(StableSort(q), q)
    ensures multiset(StableSort(q)) == multiset(q)
  {
    if q != [] {
      var n := |q| - 1;
      var s := StableSort(q[..n]);
      StableSortCorrect(q[..n]);
      InsertIsStable(s, q[n]);
      InsertAdds(s, q[n]);
      assert q == q[..n] + [q[n]];
      forall r: Rank ensures OfRank(StableSort(q), r) == OfRank(q, r) {
        OfRankConcat(s, [q[n]], r);
        OfRankConcat(q[..n], [q[n]], r);
      }
    }
  }

  lemma {:induction false} OfRankMember(q: seq<Workload>, w: Workload)
    ensures w in OfRank(q, RankOf(w)) <==> w in q
  {
    if q != [] {
      var n := |q| - 1;
      OfRankMember(q[..n], w);
      assert q == q[..n] + [q[n]];
    }
  }

  /** ... and there is only one: any stable sorting routine returns this very sequence. */
  lemma {:induction false} StableSortUnique(s: seq<Workload>, q: seq<Workload>)
    requires IsStableSortOf(s, q)
    ensures s == StableSort(q)
  {
    StableSortCorrect(q);
    SameRanksSameOrder(s, StableSort(q));
  }

  lemma {:induction false} SameMembers(s: seq<Workload>, t: seq<Workload>, w: Workload)
    requires forall r: Rank :: OfRank(s, r) == OfRank(t, r)
    requires w in s
    ensures w in t
  {
    OfRankMember(s, w);
    OfRankMember(t, w);
  }

  lemma {:induction false} LastOfRank(s: seq<Workload>, r: Rank)
    requires s != [] && r == RankOf(s[|s| - 1])
    ensures var x := OfRank(s, r); x != [] && x[|x| - 1] == s[|s| - 1]
  {
  }

  lemma {:induction false} SameRankAtEnd(s: seq<Workload>, t: seq<Workload>)
    requires Sorted(s) && Sorted(t) && s != [] && t != []
    requires s[|s| - 1] in t && t[|t| - 1] in s
    ensures RankOf(s[|s| - 1]) == RankOf(t[|t| - 1])
  {
    LastIsGreatest(s, t[|t| - 1]);
    LastIsGreatest(t, s[|s| - 1]);
  }

  /** Two sorted sequences with the same workloads per rank end in the same workload. */
  lemma {:induction false} SameLast(s: seq<Workload>, t: seq<Workload>)
    requires Sorted(s) && Sorted(t) && s != []
    requires forall r: Rank :: OfRank(s, r) == OfRank(t, r)
    ensures t != [] && s[|s| - 1] == t[|t| - 1]
  {
    SameMembers(s, t, s[|s| - 1]);
    SameMembers(t, s, t[|t| - 1]);
    SameRankAtEnd(s, t);
    LastOfRank(s, RankOf(s[|s| - 1]));
    LastOfRank(t, RankOf(s[|s| - 1]));
  }

  lemma {:induction false} SameRanksDropLast(s: seq<Workload>, t: seq<Workload>, r: Rank)
    requires s != [] && t != [] && s[|s| - 1] == t[|t| - 1]
    requires OfRank(s, r) == OfRank(t, r)
    ensures OfRank(s[..|s| - 1], r) == OfRank(t[..|t| - 1], r)
  {
    var x, y, a := OfRank(s[..|s| - 1], r), OfRank(t[..|t| - 1], r), s[|s| - 1];
    if r == RankOf(a) {
      assert x == (x + [a])[..|x|] && y == (y + [a])[..|y|];
    } else {
      assert x + [] == x && y + [] == y;
    }
  }

  lemma {:induction false} SameRanksSameOrder(s: seq<Workload>, t: seq<Workload>)
    requires Sorted(s) && Sorted(t)
    requires forall r: Rank :: OfRank(s, r) == OfRank(t, r)
    ensures s == t
    decreases |s|
  {
    if s == [] {
      if t != [] { SameLast(t, s); }
    } else {
      SameLast(s, t);
      var s', t' := s[..|s| - 1], t[..|t| - 1];
      forall r: Rank ensures OfRank(s', r) == OfRank(t', r) {
        SameRanksDropLast(s, t, r);
      }
      SameRanksSameOrder(s', t');
      assert s == s' + [s[|s| - 1]] && t == t' + [t[|t| - 1]];
    }
  }

  lemma {:induction false} LastIsGreatest(s: seq<Workload>, w: Workload)
    requires Sorted(s) && w in s
    ensures !Before(s[|s| - 1], w)
  {
    var i :| 0 <= i < |s| && s[i] == w;
    if i < |s| - 1 { assert !Before(s[|s| - 1], s[i]); }
  }

  /** Sorting a sorted queue changes nothing. */
  lemma {:induction false} SortOfSorted(q: seq<Workload>)
    requires Sorted(q)
    ensures StableSort(q) == q
  {
    assert IsStableSortOf(q, q);
    StableSortUnique(q, q);
  }

  /** What the order means: a higher priority comes first, and of equal ones the older. */
  lemma {:induction false} OrderMeans(q: seq<Workload>, i: nat, j: nat)
    requires Sorted(q) && i < j < |q|
    ensures q[i].Priority >= q[j].Priority
    ensures q[i].Priority == q[j].Priority ==> q[i].CreatedAt <= q[j].CreatedAt
  {
    assert !Before(q[j], q[i]);
  }

  /** The sorted queue, by priority from the highest and then by age from the oldest. */
  lemma {:induction false} SortByPriorityAndAge(q: seq<Workload>, i: nat, j: nat)
    requires i < j < |q|
    ensures var s := StableSort(q);
            && s[i].Priority >= s[j].Priority
            && (s[i].Priority == s[j].Priority ==> s[i].CreatedAt <= s[j].CreatedAt)
  {
    StableSortCorrect(q);
    OrderMeans(StableSort(q), i, j);
  }
}
