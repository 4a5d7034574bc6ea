/** One ClusterQueue as a value: admission as a left fold of first-fit over the pending queue. */
module KueueAdmission {
  import opened KueueResources
  import opened KueueTypes
  import opened KueueOrder

  /** The two fields of a workload that scheduling changes. */
  datatype Mark = Mark(status: Status, flavor: string)

  /** used[i] belongs to the i-th flavor of the queue. */
  datatype QueueState = QueueState(
    used: seq<ResourceList>, workloads: seq<Workload>, queue: seq<Workload>, marks: map<Workload, Mark>)

  function FlavorOf(s: QueueState, w: Workload): string {
    if w in s.marks then s.marks[w].flavor else ""
  }

  /** The first flavor that takes the request, or |fl|. */
  function FirstFit(fl: seq<FlavorQuota>, used: seq<ResourceList>, req: ResourceList): (i: nat)
    requires |fl| == |used|
    ensures i <= |fl|
    ensures i < |fl| ==> Accepts(fl[i], used[i], req)
    ensures forall j :: 0 <= j < i ==> !Accepts(fl[j], used[j], req)
  {
    if fl == [] then 0
    else if Accepts(fl[0], used[0], req) then 0
    else 1 + FirstFit(fl[1..], used[1..], req)
  }

  /** AssignFlavor: reserve in the first fitting flavor, or leave everything alone. */
  function Assign(fl: seq<FlavorQuota>, s: QueueState, w: Workload): (r: QueueState)
    requires |fl| == |s.used|
    ensures |fl| == |r.used| && r.queue == s.queue
  {
    var i := FirstFit(fl, s.used, Total(w));
    if i == |fl| then s
    else s.(used := s.used[i := Plus(s.used[i], Total(w))],
            workloads := s.workloads + [w],
            marks := s.marks[w := Mark(Admitted, fl[i].Name)])
  }

  function Enqueue(s: QueueState, w: Workload, flavor: string): QueueState {
    s.(queue := StableSort(s.queue + [w]), marks := s.marks[w := Mark(Pending, flavor)])
  }

  /** The left fold of Assign over the first n workloads of q. */
  function Drain(fl: seq<FlavorQuota>, s: QueueState, q: seq<Workload>, n: nat): (r: QueueState)
    requires |fl| == |s.used| && n <= |q|
    ensures |fl| == |r.used| && r.queue == s.queue
    decreases n
  {
    if n == 0 then s else Assign(fl, Drain(fl, s, q, n - 1), q[n - 1])
  }

  /** The flavor index chosen for q[j], or |fl| when it is turned away. */
  function Choice(fl: seq<FlavorQuota>, s: QueueState, q: seq<Workload>, j: nat): (i: nat)
    requires |fl| == |s.used| && j < |q|
    ensures i <= |fl|
  {
    FirstFit(fl, Drain(fl, s, q, j).used, Total(q[j]))
  }

  /** Of the first n workloads, those admitted (`taken`) or turned away, in queue order. */
  function Select(fl: seq<FlavorQuota>, s: QueueState, q: seq<Workload>, n: nat, taken: bool): seq<Workload>
    requires |fl| == |s.used| && n <= |q|
    decreases n
  {
    if n == 0 then []
    else if (Choice(fl, s, q, n - 1) < |fl|) == taken then Select(fl, s, q, n - 1, taken) + [q[n - 1]]
    else Select(fl, s, q, n - 1, taken)
  }

  function Requeue(s: QueueState, r: seq<Workload>): QueueState {
    if r == [] then s
    else
      var t := Requeue(s, r[..|r| - 1]);
      Enqueue(t, r[|r| - 1], FlavorOf(t, r[|r| - 1]))
  }

  /** One scheduling pass: empty the queue through Assign, then enqueue again what was turned away. */
  function Pass(fl: seq<FlavorQuota>, s: QueueState): (r: QueueState)
    requires |fl| == |s.used|
    ensures |fl| == |r.used|
  {
    var s0 := s.(queue := []);
    var r := Requeue(Drain(fl, s0, s.queue, |s.queue|), Select(fl, s0, s.queue, |s.queue|, false));
    RequeueFrame(Drain(fl, s0, s.queue, |s.queue|), Select(fl, s0, s.queue, |s.queue|, false));
    r
  }

  function Admissions(fl: seq<FlavorQuota>, s: QueueState): seq<Workload>
    requires |fl| == |s.used|
  {
    Select(fl, s.(queue := []), s.queue, |s.queue|, true)
  }

  /** ReleaseWorkload frees the first flavor that carries the workload's flavor name. */
  function FindFlavor(fl: seq<FlavorQuota>, name: string): (i: nat)
    ensures i <= |fl|
    ensures i < |fl| ==> fl[i].Name == name
    ensures forall j :: 0 <= j < i ==> fl[j].Name != name
  {
    if fl == [] || fl[0].Name == name then 0 else 1 + FindFlavor(fl[1..], name)
  }

  function ReleaseIn(fl: seq<FlavorQuota>, s: QueueState, w: Workload, flavor: string): (r: QueueState)
    requires |fl| == |s.used|
    ensures |fl| == |r.used|
  {
    var i := FindFlavor(fl, flavor);
    s.(used := if i < |fl| then s.used[i := Minus(s.used[i], Total(w))] else s.used,
       marks := s.marks[w := Mark(Finished, flavor)])
  }

  // ----- what re-enqueueing does

  lemma {:induction false} RequeueFrame(s: QueueState, r: seq<Workload>)
    ensures var t := Requeue(s, r); t.used == s.used && t.workloads == s.workloads
  {
    if r != [] { RequeueFrame(s, r[..|r| - 1]); }
  }

  /** Enqueueing one by one amounts to one stable sort. */
  lemma {:induction false} RequeueSorts(s: QueueState, r: seq<Workload>)
    requires s.queue == []
    ensures Requeue(s, r).queue == StableSort(r)
  {
    if r != [] {
      var n := |r| - 1;
      RequeueSorts(s, r[..n]);
      var q := StableSort(r[..n]);
      assert (q + [r[n]])[..n] == q;
      StableSortCorrect(r[..n]);
      SortOfSorted(q);
    }
  }

  lemma {:induction false} RequeueMarks(s: QueueState, r: seq<Workload>, w: Workload)
    ensures var t := Requeue(s, r);
            if w in r then w in t.marks && t.marks[w] == Mark(Pending, FlavorOf(s, w))
            else (w in t.marks <==> w in s.marks) && (w in s.marks ==> t.marks[w] == s.marks[w])
  {
    if r != [] {
      RequeueMarks(s, r[..|r| - 1], w);
      assert r == r[..|r| - 1] + [r[|r| - 1]];
    }
  }

  // ----- the fold, position by position

  lemma {:induction false} PrefixDrains(fl: seq<FlavorQuota>, s: QueueState, p: seq<Workload>, q: seq<Workload>, n: nat)
    requires |fl| == |s.used|
    requires n <= |p| && n <= |q| && forall j :: 0 <= j < n ==> p[j] == q[j]
    ensures Drain(fl, s, p, n) == Drain(fl, s, q, n)
    decreases n
  {
    hide Accepts;
    hide FirstFit;
    if n > 0 { PrefixDrains(fl, s, p, q, n - 1); }
  }

  /** Any two queues that agree on a prefix are decided alike on that prefix. */
  lemma {:induction false} PrefixDecides(fl: seq<FlavorQuota>, s: QueueState, p: seq<Workload>, q: seq<Workload>,
                                         n: nat, j: nat)
    requires |fl| == |s.used|
    requires j < n <= |p| && n <= |q| && p[..n] == q[..n]
    ensures p[j] == q[j] && Choice(fl, s, p, j) == Choice(fl, s, q, j)
  {
    forall i | 0 <= i <= j ensures p[i] == q[i] {
      assert p[i] == p[..n][i] == q[..n][i];
    }
    PrefixDrains(fl, s, p, q, j);
  }

  lemma {:induction false} SelectGrows(fl: seq<FlavorQuota>, s: QueueState, q: seq<Workload>, taken: bool,
                                       j: nat, n: nat)
    requires |fl| == |s.used| && j <= n <= |q|
    ensures Select(fl, s, q, j, taken) <= Select(fl, s, q, n, taken)
    decreases n
  {
    hide Accepts;
    hide FirstFit;
    hide Assign;
    if j < n { SelectGrows(fl, s, q, taken, j, n - 1); }
  }

  lemma {:induction false} SelectHas(fl: seq<FlavorQuota>, s: QueueState, q: seq<Workload>, taken: bool, j: nat)
    requires |fl| == |s.used| && j < |q|
    requires (Choice(fl, s, q, j) < |fl|) == taken
    ensures q[j] in Select(fl, s, q, |q|, taken)
  {
    hide Accepts;
    hide FirstFit;
    hide Assign;
    SelectGrows(fl, s, q, taken, j + 1, |q|);
    var t := Select(fl, s, q, j + 1, taken);
    assert t[|t| - 1] == q[j];
  }

  lemma {:induction false} SelectFrom(fl: seq<FlavorQuota>, s: QueueState, q: seq<Workload>, n: nat, taken: bool,
                                      w: Workload)
    returns (j: nat)
    requires |fl| == |s.used| && n <= |q|
    requires w in Select(fl, s, q, n, taken)
    ensures j < n && q[j] == w && (Choice(fl, s, q, j) < |fl|) == taken
    decreases n
  {
    hide Accepts;
    hide FirstFit;
    hide Assign;
    if w in Select(fl, s, q, n - 1, taken) {
      j := SelectFrom(fl, s, q, n - 1, taken, w);
    } else {
      j := n - 1;
    }
  }

  lemma {:induction false} SelectSorted(fl: seq<FlavorQuota>, s: QueueState, q: seq<Workload>, n: nat, taken: bool)
    requires |fl| == |s.used| && n <= |q| && Sorted(q)
    ensures Sorted(Select(fl, s, q, n, taken))
    decreases n
  {
    hide Accepts;
    hide FirstFit;
    hide Assign;
    if n > 0 {
      SelectSorted(fl, s, q, n - 1, taken);
      var t := Select(fl, s, q, n - 1, taken);
      forall i | 0 <= i < |t| ensures !Before(q[n - 1], t[i]) {
        var _ := SelectFrom(fl, s, q, n - 1, taken, t[i]);
      }
    }
  }

  lemma {:induction false} DrainRecords(fl: seq<FlavorQuota>, s: QueueState, q: seq<Workload>, n: nat)
    requires |fl| == |s.used| && n <= |q|
    ensures Drain(fl, s, q, n).workloads == s.workloads + Select(fl, s, q, n, true)
    decreases n
  {
    hide Accepts;
    hide FirstFit;
    if n > 0 { DrainRecords(fl, s, q, n - 1); }
  }

  lemma {:induction false} SelectOne(fl: seq<FlavorQuota>, s: QueueState, q: seq<Workload>, n: nat, taken: bool)
    requires |fl| == |s.used| && n <= |q|
    ensures n == 0 ==> Select(fl, s, q, n, taken) == []
    ensures n > 0 ==>
      Select(fl, s, q, n, taken) ==
        if (Choice(fl, s, q, n - 1) < |fl|) == taken then Select(fl, s, q, n - 1, taken) + [q[n - 1]]
        else Select(fl, s, q, n - 1, taken)
  {
    hide Choice;
  }

  lemma {:induction false} SplitOne(p: seq<Workload>, a: seq<Workload>, b: seq<Workload>, w: Workload, taken: bool)
    requires multiset(a) + multiset(b) == multiset(p)
    ensures multiset(if taken then a + [w] else a) + multiset(if taken then b else b + [w]) == multiset(p + [w])
  {
  }

  /** The admitted and the rejected workloads are the queue, split in two. */
  lemma {:induction false} SelectPartition(fl: seq<FlavorQuota>, s: QueueState, q: seq<Workload>, n: nat)
    requires |fl| == |s.used| && n <= |q|
    ensures multiset(Select(fl, s, q, n, true)) + multiset(Select(fl, s, q, n, false)) == multiset(q[..n])
    decreases n
  {
    hide Choice;
    hide Select;
    SelectOne(fl, s, q, n, true);
    SelectOne(fl, s, q, n, false);
    if n > 0 {
      SelectPartition(fl, s, q, n - 1);
      SplitOne(q[..n - 1], Select(fl, s, q, n - 1, true), Select(fl, s, q, n - 1, false), q[n - 1],
               Choice(fl, s, q, n - 1) < |fl|);
      assert q[..n] == q[..n - 1] + [q[n - 1]];
    }
  }

  ghost predicate NoRepeats(q: seq<Workload>) {
    forall i, j :: 0 <= i < j < |q| ==> q[i] != q[j]
  }

  lemma {:induction false} DrainMarks(fl: seq<FlavorQuota>, s: QueueState, q: seq<Workload>, n: nat, w: Workload)
    requires |fl| == |s.used| && n <= |q|
    requires forall j :: 0 <= j < n ==> q[j] != w
    ensures var t := Drain(fl, s, q, n).marks;
            (w in t <==> w in s.marks) && (w in t ==> t[w] == s.marks[w])
    decreases n
  {
    hide Accepts;
    hide FirstFit;
    if n > 0 { DrainMarks(fl, s, q, n - 1, w); }
  }

  /** After n decisions, what the j-th of them did to its workload. */
  lemma {:induction false} DrainMarkOf(fl: seq<FlavorQuota>, s: QueueState, q: seq<Workload>, j: nat, n: nat)
    requires |fl| == |s.used| && NoRepeats(q) && j < n <= |q|
    ensures var t, i := Drain(fl, s, q, n).marks, Choice(fl, s, q, j);
            if i < |fl| then q[j] in t && t[q[j]] == Mark(Admitted, fl[i].Name)
            else (q[j] in t <==> q[j] in s.marks) && (q[j] in t ==> t[q[j]] == s.marks[q[j]])
    decreases n
  {
    hide Accepts;
    hide FirstFit;
    if j < n - 1 {
      DrainMarkOf(fl, s, q, j, n - 1);
    } else {
      DrainMarks(fl, s, q, j, q[j]);
    }
  }

  lemma {:induction false} OnlyPosition(fl: seq<FlavorQuota>, s: QueueState, q: seq<Workload>, taken: bool, j: nat)
    requires |fl| == |s.used| && NoRepeats(q) && j < |q|
    ensures q[j] in Select(fl, s, q, |q|, taken) <==> (Choice(fl, s, q, j) < |fl|) == taken
  {
    hide Accepts;
    hide FirstFit;
    hide Assign;
    if q[j] in Select(fl, s, q, |q|, taken) {
      var i := SelectFrom(fl, s, q, |q|, taken, q[j]);
      assert i == j;
    } else if (Choice(fl, s, q, j) < |fl|) == taken {
      SelectHas(fl, s, q, taken, j);
    }
  }

  /** What a pass does to each pending workload. */
  lemma {:induction false} PassMarkOf(fl: seq<FlavorQuota>, s: QueueState, j: nat)
    requires |fl| == |s.used| && NoRepeats(s.queue) && j < |s.queue|
    ensures var w := s.queue[j];
            var i := Choice(fl, s.(queue := []), s.queue, j);
            w in Pass(fl, s).marks && Pass(fl, s).marks[w]
              == if i < |fl| then Mark(Admitted, fl[i].Name) else Mark(Pending, FlavorOf(s, w))
  {
    hide Accepts;
    hide FirstFit;
    hide Assign;
    var s0, q, w := s.(queue := []), s.queue, s.queue[j];
    DrainMarkOf(fl, s0, q, j, |q|);
    if Choice(fl, s0, q, j) < |fl| {
      OnlyPosition(fl, s0, q, false, j);
    } else {
      SelectHas(fl, s0, q, false, j);
    }
    RequeueMarks(Drain(fl, s0, q, |q|), Select(fl, s0, q, |q|, false), w);
  }

  /** A pass over a sorted queue, in closed form. */
  lemma {:induction false} PassClosedForm(fl: seq<FlavorQuota>, s: QueueState)
    requires |fl| == |s.used| && Sorted(s.queue)
    ensures var s0, r := s.(queue := []), Pass(fl, s);
            && r.queue == Select(fl, s0, s.queue, |s.queue|, false)
            && r.workloads == s.workloads + Admissions(fl, s)
            && r.used == Drain(fl, s0, s.queue, |s.queue|).used
            && Sorted(r.queue)
            && multiset(r.queue) + multiset(r.workloads) == multiset(s.queue) + multiset(s.workloads)
  {
    hide Accepts;
    hide FirstFit;
    hide Assign;
    var s0 := s.(queue := []);
    var d, r := Drain(fl, s0, s.queue, |s.queue|), Select(fl, s0, s.queue, |s.queue|, false);
    RequeueFrame(d, r);
    RequeueSorts(d, r);
    SelectSorted(fl, s0, s.queue, |s.queue|, false);
    SortOfSorted(r);
    SelectPartition(fl, s0, s.queue, |s.queue|);
    DrainRecords(fl, s0, s.queue, |s.queue|);
    assert s.queue[..|s.queue|] == s.queue;
  }

  // ----- work conservation

  /** Usage only grows, resource by resource. */
  ghost predicate Grows(u: seq<ResourceList>, v: seq<ResourceList>) {
    |u| == |v| && forall i, k :: 0 <= i < |u| ==> Get(u[i], k) <= Get(v[i], k)
  }

  lemma {:induction false} RejectionStands(fl: seq<FlavorQuota>, u: seq<ResourceList>, v: seq<ResourceList>,
                                           req: ResourceList)
    requires |fl| == |u| && Grows(u, v)
    requires FirstFit(fl, u, req) == |fl|
    ensures FirstFit(fl, v, req) == |fl|
  {
    forall j | 0 <= j < |fl| ensures !Accepts(fl[j], v[j], req) {
      AcceptsMeaning(fl[j], u[j], req);
      AcceptsMeaning(fl[j], v[j], req);
      var k :| k in req && !(k in fl[j].Resources && Get(u[j], k) + req[k] <= fl[j].Resources[k]);
      assert Get(u[j], k) <= Get(v[j], k);
    }
  }

  lemma {:induction false} GrowsReflexive(a: seq<ResourceList>)
    ensures Grows(a, a)
  {
  }

  lemma {:induction false} GrowsTransitive(a: seq<ResourceList>, b: seq<ResourceList>, c: seq<ResourceList>)
    requires Grows(a, b) && Grows(b, c)
    ensures Grows(a, c)
  {
    forall i, k | 0 <= i < |a| ensures Get(a[i], k) <= Get(c[i], k) {
      assert Get(a[i], k) <= Get(b[i], k) <= Get(c[i], k);
    }
  }

  lemma {:induction false} AssignGrows(fl: seq<FlavorQuota>, s: QueueState, w: Workload)
    requires |fl| == |s.used| && NonNegative(Total(w))
    ensures Grows(s.used, Assign(fl, s, w).used)
  {
  }

  lemma {:induction false} DrainGrows(fl: seq<FlavorQuota>, s: QueueState, q: seq<Workload>, j: nat, n: nat)
    requires |fl| == |s.used| && j <= n <= |q|
    requires forall w :: w in q ==> NonNegative(Total(w))
    ensures Grows(Drain(fl, s, q, j).used, Drain(fl, s, q, n).used)
    decreases n
  {
    hide Assign;
    hide Grows;
    if j == n {
      GrowsReflexive(Drain(fl, s, q, j).used);
    } else {
      DrainGrows(fl, s, q, j, n - 1);
      assert q[n - 1] in q;
      AssignGrows(fl, Drain(fl, s, q, n - 1), q[n - 1]);
      GrowsTransitive(Drain(fl, s, q, j).used, Drain(fl, s, q, n - 1).used, Drain(fl, s, q, n).used);
    }
  }

  /** After a pass nothing that still waits fits any flavor of its queue. */
  lemma {:induction false} WorkConservation(fl: seq<FlavorQuota>, s: QueueState, w: Workload, i: nat)
    requires |fl| == |s.used| && Sorted(s.queue)
    requires forall v :: v in s.queue ==> NonNegative(Total(v))
    requires w in Pass(fl, s).queue && i < |fl|
    ensures !Accepts(fl[i], Pass(fl, s).used[i], Total(w))
  {
    var s0, q := s.(queue := []), s.queue;
    PassClosedForm(fl, s);
    var j := SelectFrom(fl, s0, q, |q|, false, w);
    DrainGrows(fl, s0, q, j, |q|);
    RejectionStands(fl, Drain(fl, s0, q, j).used, Drain(fl, s0, q, |q|).used, Total(w));
  }

  lemma {:induction false} NothingFits(fl: seq<FlavorQuota>, s: QueueState, q: seq<Workload>, n: nat)
    requires |fl| == |s.used| && n <= |q|
    requires forall j :: 0 <= j < |q| ==> FirstFit(fl, s.used, Total(q[j])) == |fl|
    ensures Drain(fl, s, q, n) == s
    ensures Select(fl, s, q, n, false) == q[..n] && Select(fl, s, q, n, true) == []
    decreases n
  {
    hide Accepts;
    hide FirstFit;
    if n > 0 {
      NothingFits(fl, s, q, n - 1);
      assert q[..n] == q[..n - 1] + [q[n - 1]];
    }
  }

  /** Enqueueing again what already waits, with nothing admitted, changes nothing. */
  lemma {:induction false} IdlePass(fl: seq<FlavorQuota>, t: QueueState)
    requires |fl| == |t.used| && Sorted(t.queue)
    requires forall w :: w in t.queue ==> FirstFit(fl, t.used, Total(w)) == |fl|
    requires forall w :: w in t.queue ==> w in t.marks && t.marks[w].status == Pending
    ensures Pass(fl, t) == t && Admissions(fl, t) == []
  {
    var t0, q := t.(queue := []), t.queue;
    forall j | 0 <= j < |q| ensures FirstFit(fl, t.used, Total(q[j])) == |fl| {
      assert q[j] in q;
    }
    NothingFits(fl, t0, q, |q|);
    assert q[..|q|] == q;
    PassClosedForm(fl, t);
    RequeueSameMarks(t0, q);
  }

  lemma {:induction false} RequeueSameMarks(s: QueueState, r: seq<Workload>)
    requires forall w :: w in r ==> w in s.marks && s.marks[w].status == Pending
    ensures Requeue(s, r).marks == s.marks
  {
    if r != [] {
      var n := |r| - 1;
      RequeueSameMarks(s, r[..n]);
      assert r[n] in r;
    }
  }

  /** A second pass admits nothing and changes nothing. */
  lemma {:induction false} SecondPassIdle(fl: seq<FlavorQuota>, s: QueueState)
    requires |fl| == |s.used| && Sorted(s.queue)
    requires forall v :: v in s.queue ==> NonNegative(Total(v))
    ensures var t := Pass(fl, s); Pass(fl, t) == t && Admissions(fl, t) == []
  {
    var s0, t := s.(queue := []), Pass(fl, s);
    PassClosedForm(fl, s);
    forall w | w in t.queue
      ensures FirstFit(fl, t.used, Total(w)) == |fl|
      ensures w in t.marks && t.marks[w].status == Pending
    {
      if FirstFit(fl, t.used, Total(w)) < |fl| {
        WorkConservation(fl, s, w, FirstFit(fl, t.used, Total(w)));
      }
      RequeueMarks(Drain(fl, s0, s.queue, |s.queue|), Select(fl, s0, s.queue, |s.queue|, false), w);
    }
    IdlePass(fl, t);
  }

  // ----- non-interference

  /** A workload that does not precede q[j] is inserted behind it. */
  lemma {:induction false} PositionKept(q: seq<Workload>, w: Workload, j: nat)
    requires Sorted(q) && j < |q| && !Before(w, q[j])
    ensures Insert(q, w)[..j + 1] == q[..j + 1]
  {
    PositionSplits(q, w, j);
  }

  lemma {:induction false} EnqueueInserts(s: QueueState, w: Workload, f: string)
    requires Sorted(s.queue)
    ensures Enqueue(s, w, f).queue == Insert(s.queue, w)
  {
    assert (s.queue + [w])[..|s.queue|] == s.queue;
    SortOfSorted(s.queue);
  }

  /** Submitting w does not touch the fate of a pending workload that w does not precede. */
  lemma {:induction false} LaterSubmissionHarmless(fl: seq<FlavorQuota>, s: QueueState, w: Workload, f: string, j: nat)
    requires |fl| == |s.used| && Sorted(s.queue) && NoRepeats(s.queue)
    requires j < |s.queue| && w !in s.queue && !Before(w, s.queue[j])
    ensures var e, a, b := s.queue[j], Pass(fl, s).marks, Pass(fl, Enqueue(s, w, f)).marks;
            e in a && e in b && a[e] == b[e]
    ensures s.queue[j] in Admissions(fl, Enqueue(s, w, f)) <==> s.queue[j] in Admissions(fl, s)
  {
    var q, t := s.queue, Enqueue(s, w, f);
    var s0, t0 := s.(queue := []), t.(queue := []);
    EnqueueInserts(s, w, f);
    PositionKept(q, w, j);
    SameUsedSameChoice(fl, s0, t0, t.queue, j);
    PrefixDecides(fl, s0, t.queue, q, j + 1, j);
    InsertNoRepeats(q, w);
    PassMarkOf(fl, s, j);
    PassMarkOf(fl, t, j);
    OnlyPosition(fl, s0, q, true, j);
    OnlyPosition(fl, t0, t.queue, true, j);
  }

  lemma {:induction false} InsertNoRepeats(q: seq<Workload>, w: Workload)
    requires Sorted(q) && NoRepeats(q) && w !in q
    ensures NoRepeats(Insert(q, w))
  {
  }

  /** Decisions depend on the usage only, not on marks or on what is recorded. */
  lemma {:induction false} SameUsedSameDrain(fl: seq<FlavorQuota>, s: QueueState, t: QueueState, q: seq<Workload>,
                                             n: nat)
    requires |fl| == |s.used| && s.used == t.used && n <= |q|
    ensures Drain(fl, s, q, n).used == Drain(fl, t, q, n).used
    decreases n
  {
    hide Accepts;
    hide FirstFit;
    if n > 0 { SameUsedSameDrain(fl, s, t, q, n - 1); }
  }

  lemma {:induction false} SameUsedSameChoice(fl: seq<FlavorQuota>, s: QueueState, t: QueueState, q: seq<Workload>,
                                              j: nat)
    requires |fl| == |s.used| && s.used == t.used && j < |q|
    ensures Choice(fl, s, q, j) == Choice(fl, t, q, j)
  {
    SameUsedSameDrain(fl, s, t, q, j);
  }

  // ----- priority

  /** Asks for no more of any resource. */
  predicate AsksNoMore(a: ResourceList, b: ResourceList) {
    forall k :: k in a ==> k in b && a[k] <= b[k]
  }

  /** Whatever takes a request takes a smaller one, and took it when less was used. */
  lemma {:induction false} SmallerFits(fl: seq<FlavorQuota>, u: seq<ResourceList>, v: seq<ResourceList>,
                                       a: ResourceList, b: ResourceList)
    requires |fl| == |u| && Grows(u, v) && AsksNoMore(a, b)
    requires FirstFit(fl, v, b) < |fl|
    ensures FirstFit(fl, u, a) < |fl|
  {
    var i := FirstFit(fl, v, b);
    AcceptsMeaning(fl[i], v[i], b);
    AcceptsMeaning(fl[i], u[i], a);
    assert forall k :: Get(u[i], k) <= Get(v[i], k);
  }

  /** In a pass, an earlier workload that asks for no more than an admitted one is admitted too. */
  lemma {:induction false} EarlierIsServed(fl: seq<FlavorQuota>, s: QueueState, i: nat, j: nat)
    requires |fl| == |s.used| && NoRepeats(s.queue) && i < j < |s.queue|
    requires forall w :: w in s.queue ==> NonNegative(Total(w))
    requires AsksNoMore(Total(s.queue[i]), Total(s.queue[j]))
    requires var m := Pass(fl, s).marks; s.queue[j] in m && m[s.queue[j]].status == Admitted
    ensures s.queue[i] in Pass(fl, s).marks && Pass(fl, s).marks[s.queue[i]].status == Admitted
  {
    hide Pass, FirstFit, Accepts, Assign, Drain, Grows, AsksNoMore;
    var s0, q := s.(queue := []), s.queue;
    PassMarkOf(fl, s, i);
    PassMarkOf(fl, s, j);
    DrainGrows(fl, s0, q, i, j);
    SmallerFits(fl, Drain(fl, s0, q, i).used, Drain(fl, s0, q, j).used, Total(q[i]), Total(q[j]));
  }

  /** In a pass over a sorted queue nobody is served before a more urgent workload that asks for no more. */
  lemma {:induction false} UrgentIsServed(fl: seq<FlavorQuota>, s: QueueState, v: Workload, w: Workload)
    requires |fl| == |s.used| && Sorted(s.queue) && NoRepeats(s.queue)
    requires forall x :: x in s.queue ==> NonNegative(Total(x))
    requires v in s.queue && w in s.queue && AsksNoMore(Total(v), Total(w))
    requires v.Priority > w.Priority || (v.Priority == w.Priority && v.CreatedAt < w.CreatedAt)
    ensures var m := Pass(fl, s).marks;
            v in m && w in m && (m[w].status == Admitted ==> m[v].status == Admitted)
  {
    var i, j :| 0 <= i < |s.queue| && 0 <= j < |s.queue| && s.queue[i] == v && s.queue[j] == w;
    assert i < j;
    hide Pass, Sorted, NoRepeats, AsksNoMore, NonNegative;
    PassMarkOf(fl, s, i);
    PassMarkOf(fl, s, j);
    if Pass(fl, s).marks[w].status == Admitted { EarlierIsServed(fl, s, i, j); }
  }
}
