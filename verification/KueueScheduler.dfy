/** The Scheduler object: routing, the scheduling pass and completion, in place. */
module KueueScheduler {
  import opened KueueTypes
  import opened KueueAdmission
  import opened KueueClusterQueue
  import opened KueueSystem
  import opened Wrappers

  class LocalQueue {
    const Name: string
    const Namespace: string
    const ClusterQueueName: string
    var Workloads: seq<Workload>

    constructor (name: string, ns: string, clusterQueueName: string)
      ensures Name == name && Namespace == ns && ClusterQueueName == clusterQueueName
      ensures Workloads == []
    {
      Name, Namespace, ClusterQueueName, Workloads := name, ns, clusterQueueName, [];
    }
  }

  /** What the drain loop knows when k workloads have left the queue q. */
  ghost predicate Drained(fl: seq<FlavorQuota>, s0: QueueState, q: seq<Workload>, k: nat,
                          s: QueueState, admitted: seq<Workload>, toRetry: seq<Workload>)
    requires |fl| == |s0.used| && k <= |q|
  {
    && s == Drain(fl, s0, q, k).(queue := q[k..])
    && admitted == Select(fl, s0, q, k, true)
    && toRetry == Select(fl, s0, q, k, false)
  }

  lemma {:induction false} DrainedNext(fl: seq<FlavorQuota>, s0: QueueState, q: seq<Workload>, k: nat,
                    s: QueueState, admitted: seq<Workload>, toRetry: seq<Workload>)
    requires |fl| == |s0.used| && k < |q| && Drained(fl, s0, q, k, s, admitted, toRetry)
    ensures s.queue != [] && s.queue[0] == q[k]
    ensures var ok, t := FirstFit(fl, s.used, Total(q[k])) < |fl|, Assign(fl, s.(queue := s.queue[1..]), q[k]);
            Drained(fl, s0, q, k + 1, t,
                    if ok then admitted + [q[k]] else admitted, if ok then toRetry else toRetry + [q[k]])
  {
    assert q[k..][1..] == q[k + 1..];
  }

  /** Take the head of the queue and try to admit it. */
  method TryHead(cq: ClusterQueue) returns (w: Workload?, ok: bool)
    requires cq.Valid()
    modifies cq, cq.Flavors, cq.Known
    ensures cq.Valid() && cq.Known == old(cq.Known)
    ensures w == null <==> old(cq.Queue) == []
    ensures w == null ==> cq.View() == old(cq.View())
    ensures w != null ==>
      && w == old(cq.Queue)[0]
      && (ok <==> FirstFit(cq.Flavors, old(cq.Usage()), Total(w)) < |cq.Flavors|)
      && cq.View() == Assign(cq.Flavors, old(cq.View()).(queue := old(cq.Queue)[1..]), w)
  {
    w := cq.Dequeue();
    ok := false;
    if w != null {
      assert cq.View() == old(cq.View()).(queue := old(cq.Queue)[1..]);
      ok := cq.AssignFlavor(w);
    } else {
      assert cq.View() == old(cq.View());
    }
  }

  /** The drain loop of a pass. */
  method DrainQueue(cq: ClusterQueue) returns (admitted: seq<Workload>, toRetry: seq<Workload>)
    requires cq.Valid()
    modifies cq, cq.Flavors, cq.Known
    ensures cq.Valid() && cq.Known == old(cq.Known)
    ensures var s0, q := old(cq.View()).(queue := []), old(cq.Queue);
            && cq.View() == Drain(cq.Flavors, s0, q, |q|)
            && admitted == Select(cq.Flavors, s0, q, |q|, true)
            && toRetry == Select(cq.Flavors, s0, q, |q|, false)
  {
    admitted, toRetry := [], [];
    ghost var s0, q, k := cq.View().(queue := []), cq.Queue, 0;
    while true
      invariant cq.Valid() && cq.Known == old(cq.Known)
      invariant 0 <= k <= |q| && Drained(cq.Flavors, s0, q, k, cq.View(), admitted, toRetry)
      decreases |q| - k
    {
      ghost var s := cq.View();
      var w, ok := TryHead(cq);
      if w == null {
        assert q[k..] == [];
        break;
      }
      DrainedNext(cq.Flavors, s0, q, k, s, admitted, toRetry);
      if ok {
        admitted := admitted + [w];
      } else {
        toRetry := toRetry + [w];
      }
      k := k + 1;
    }
  }

  method RetryQueue(cq: ClusterQueue, toRetry: seq<Workload>)
    requires cq.Valid() && forall w :: w in toRetry ==> w in cq.Known
    modifies cq, cq.Known
    ensures cq.Valid() && cq.Known == old(cq.Known)
    ensures cq.View() == Requeue(old(cq.View()), toRetry)
  {
    var j := 0;
    while j < |toRetry|
      invariant 0 <= j <= |toRetry|
      invariant cq.Valid() && cq.Known == old(cq.Known)
      invariant cq.View() == Requeue(old(cq.View()), toRetry[..j])
    {
      assert toRetry[..j + 1][..j] == toRetry[..j];
      var w := toRetry[j];
      assert w in toRetry && FlavorOf(cq.View(), w) == w.FlavorName;
      cq.Enqueue(w);
      j := j + 1;
    }
    assert toRetry[..j] == toRetry;
  }

  /** The body of Schedule's outer loop: one queue is emptied and refilled. */
  method SchedulePass(cq: ClusterQueue) returns (admitted: seq<Workload>)
    requires cq.Valid()
    modifies cq, cq.Flavors, cq.Known
    ensures cq.Valid() && cq.Known == old(cq.Known)
    ensures cq.View() == Pass(cq.Flavors, old(cq.View()))
    ensures admitted == Admissions(cq.Flavors, old(cq.View()))
  {
    ghost var s0, q := cq.View().(queue := []), cq.Queue;
    var toRetry;
    admitted, toRetry := DrainQueue(cq);
    forall w | w in toRetry ensures w in cq.Known {
      var j := SelectFrom(cq.Flavors, s0, q, |q|, false, w);
    }
    RetryQueue(cq, toRetry);
  }

  /** What Schedule's outer loop knows when the queues named in `rest` are still to be visited. */
  ghost predicate Visited(s: System, rest: set<string>, order: seq<string>, admitted: seq<Workload>, now: System)
    requires WellFormed(s)
  {
    && rest <= s.queues.Keys && IsOrderOf(order, s.queues.Keys - rest)
    && now == VisitAll(s, order)
    && admitted == AdmittedInOrder(s, order)
  }

  lemma {:induction false} VisitedNext(s: System, rest: set<string>, order: seq<string>, admitted: seq<Workload>,
                                       now: System, n: string)
    requires WellFormed(s) && Visited(s, rest, order, admitted, now) && n in rest
    ensures WellFormed(now) && n in now.queues
    ensures Visited(s, rest - {n}, order + [n], admitted + Admissions(now.flavors[n], now.queues[n]), Visit(now, n))
  {
    hide Pass;
    hide Admissions;
    assert (order + [n])[..|order|] == order;
    assert n !in order;
    VisitedSoFar(s, order, n);
  }

  lemma {:induction false} VisitedAll(s: System, order: seq<string>, admitted: seq<Workload>, now: System)
    requires WellFormed(s) && Visited(s, {}, order, admitted, now)
    ensures IsOrderOf(order, s.queues.Keys) && now == PassAll(s)
  {
    assert s.queues.Keys - {} == s.queues.Keys;
    OrderIrrelevant(s, order);
  }

  /** Two queues share neither a workload nor a flavor. */
  ghost predicate Apart(a: ClusterQueue, b: ClusterQueue)
    reads a, b
  {
    && a.Known !! b.Known
    && forall f :: f in a.Flavors ==> f !in b.Flavors
  }

  /** The queue, its flavors and its workloads are as they were. */
  twostate predicate Untouched(cq: ClusterQueue)
    reads cq, cq.Flavors, cq.Known
  {
    && unchanged(cq)
    && (forall f :: f in cq.Flavors ==> unchanged(f))
    && forall w :: w in cq.Known ==> unchanged(w)
  }

  twostate lemma {:induction false} UntouchedView(cq: ClusterQueue)
    requires Untouched(cq)
    ensures cq.View() == old(cq.View()) && (old(cq.Valid()) ==> cq.Valid())
  {
    forall i | 0 <= i < |cq.Flavors| ensures cq.Usage()[i] == old(cq.Usage()[i]) {
      assert cq.Flavors[i] in cq.Flavors;
    }
    assert cq.Usage() == old(cq.Usage());
    assert cq.Marks() == old(cq.Marks());
  }

  lemma {:induction false} VisitValue(s: System, r: System, n: string, q: QueueState)
    requires WellFormed(s) && n in s.queues && q == Pass(s.flavors[n], s.queues[n])
    requires r == s.(queues := s.queues[n := q])
    ensures r == Visit(s, n)
  {
  }

  lemma {:induction false} ReleaseValue(s: System, r: System, n: string, q: QueueState, w: Workload, flavor: string)
    requires WellFormed(s) && n in s.queues && q == ReleaseIn(s.flavors[n], s.queues[n], w, flavor)
    requires r == s.(queues := s.queues[n := q])
    ensures r == KueueSystem.ReleaseAt(s, n, w, flavor)
  {
  }

  lemma {:induction false} SubmitValue(s: System, r: System, n: string, key: string, q: QueueState, l: LocalState,
                                       w: Workload, flavor: string)
    requires WellFormed(s) && n in s.queues && q == KueueAdmission.Enqueue(s.queues[n], w, flavor)
    requires key in s.locals && l == LocalState(s.locals[key].clusterQueue, s.locals[key].workloads + [w])
    requires r == s.(locals := s.locals[key := l]).(queues := s.queues[n := q])
    ensures r == SubmitAt(s, n, key, w, flavor)
  {
  }

  class Scheduler {
    var clusterQueues: map<string, ClusterQueue>
    var localQueues: map<string, LocalQueue>
    /** The value that the registered objects make up; Tied says how. */
    ghost var state: System
    ghost var Repr: set<object>

    /** Names are the map keys; two queues share neither flavors nor workloads. */
    ghost predicate Structure()
      reads this`clusterQueues, this`localQueues, this`Repr, Repr
    {
      && this !in Repr
      && (forall n {:trigger clusterQueues[n] in Repr} {:trigger Owned(n)} ::
           n in clusterQueues ==> clusterQueues[n] in Repr && Owned(n))
      && (forall n, m {:trigger Apart(clusterQueues[n], clusterQueues[m])} ::
           n in clusterQueues && m in clusterQueues && n != m ==> Apart(clusterQueues[n], clusterQueues[m]))
      && (forall key :: key in localQueues ==>
           localQueues[key] in Repr && key == Key(localQueues[key].Namespace, localQueues[key].Name))
    }

    ghost predicate Owned(n: string)
      requires n in clusterQueues && clusterQueues[n] in Repr
      reads this`clusterQueues, this`Repr, Repr
    {
      var cq := clusterQueues[n];
      && cq.Known <= Repr && (forall f :: f in cq.Flavors ==> f in Repr)
      && cq.Name == n && cq.Valid()
    }

    ghost predicate Tied()
      requires Structure()
      reads this, Repr
    {
      && WellFormed(state)
      && state.queues.Keys == clusterQueues.Keys && state.locals.Keys == localQueues.Keys
      && (forall n {:trigger TiedQueue(n)} :: n in clusterQueues ==> TiedQueue(n))
      && (forall key {:trigger TiedLocal(key)} :: key in localQueues ==> TiedLocal(key))
    }

    ghost predicate TiedLocal(key: string)
      requires key in localQueues && key in state.locals
      reads this, localQueues[key]
    {
      state.locals[key] == LocalState(localQueues[key].ClusterQueueName, localQueues[key].Workloads)
    }

    ghost predicate TiedQueue(n: string)
      requires Structure() && n in clusterQueues && n in state.queues && n in state.flavors
      reads this, Repr
    {
      assert Owned(n);
      state.flavors[n] == clusterQueues[n].Flavors && state.queues[n] == clusterQueues[n].View()
    }

    ghost predicate Valid()
      reads this, Repr
    {
      Structure() && Tied()
    }

    constructor ()
      ensures Valid() && fresh(Repr)
      ensures state == System(map[], map[], map[])
    {
      clusterQueues, localQueues, Repr := map[], map[], {};
      state := System(map[], map[], map[]);
    }

    // ----- framing: a call works inside one queue

    /** Work on the queue n and on workloads that no other queue knows leaves the others alone. */
    twostate lemma {:induction false} OthersUntouched(n: string, new touched: set<Workload>)
      requires old(Structure()) && clusterQueues == old(clusterQueues) && n in clusterQueues
      requires forall m :: m in clusterQueues && m != n ==> touched !! old(clusterQueues[m].Known)
      requires forall m :: m in clusterQueues && clusterQueues[m] != clusterQueues[n] ==> unchanged(clusterQueues[m])
      requires forall o: FlavorQuota :: old(allocated(o)) && o !in clusterQueues[n].Flavors ==> unchanged(o)
      requires forall o: Workload :: old(allocated(o)) && o !in touched ==> unchanged(o)
      ensures forall m :: m in clusterQueues && m != n ==> Untouched(clusterQueues[m])
    {
      forall m | m in clusterQueues && m != n ensures Untouched(clusterQueues[m]) {
        assert old(Apart(clusterQueues[m], clusterQueues[n]));
        assert old(Owned(m)) && old(Owned(n));
        assert clusterQueues[m].Name != clusterQueues[n].Name;
      }
    }

    twostate lemma {:induction false} StructureKept(n: string, new touched: set<Workload>)
      requires old(Structure()) && clusterQueues == old(clusterQueues) && localQueues == old(localQueues)
      requires n in clusterQueues && clusterQueues[n].Valid() && Repr == old(Repr) + touched
      requires clusterQueues[n].Known <= old(clusterQueues[n].Known) + touched
      requires forall m :: m in clusterQueues && m != n ==>
        Untouched(clusterQueues[m]) && touched !! old(clusterQueues[m].Known)
      ensures Structure()
      ensures forall m :: m in clusterQueues && m != n ==> clusterQueues[m].View() == old(clusterQueues[m].View())
    {
      forall m | m in clusterQueues ensures clusterQueues[m] in Repr && Owned(m) {
        assert old(Owned(m));
        if m != n { UntouchedView(clusterQueues[m]); }
      }
      forall a, b | a in clusterQueues && b in clusterQueues && a != b
        ensures Apart(clusterQueues[a], clusterQueues[b])
      {
        assert old(Apart(clusterQueues[a], clusterQueues[b]));
      }
      forall m | m in clusterQueues && m != n ensures clusterQueues[m].View() == old(clusterQueues[m].View()) {
        UntouchedView(clusterQueues[m]);
      }
    }

    lemma {:induction false} StateAt(n: string)
      requires Valid() && n in clusterQueues
      ensures clusterQueues[n].Valid() && clusterQueues[n] in Repr
      ensures clusterQueues[n].Known <= Repr && forall f :: f in clusterQueues[n].Flavors ==> f in Repr
      ensures n in state.queues && state.queues[n] == clusterQueues[n].View()
      ensures n in state.flavors && state.flavors[n] == clusterQueues[n].Flavors
    {
      assert Owned(n) && TiedQueue(n);
    }

    /** Everything but the queue n, and the LocalQueues in `skip`, is as `state` says. */
    ghost predicate TiedBut(n: string, skip: set<string>)
      requires Structure()
      reads this, Repr
    {
      && WellFormed(state) && n in clusterQueues
      && state.queues.Keys == clusterQueues.Keys && state.locals.Keys == localQueues.Keys
      && state.flavors[n] == clusterQueues[n].Flavors
      && (forall m {:trigger TiedQueue(m)} :: m in clusterQueues && m != n ==> TiedQueue(m))
      && (forall key {:trigger TiedLocal(key)} :: key in localQueues && key !in skip ==> TiedLocal(key))
    }

    twostate lemma {:induction false} OthersStillTied(n: string, new skip: set<string>)
      requires old(Valid()) && Structure() && n in clusterQueues && state == old(state)
      requires clusterQueues == old(clusterQueues) && localQueues == old(localQueues)
      requires forall key :: key in localQueues && key !in skip ==> unchanged(localQueues[key])
      requires forall m :: m in clusterQueues && m != n ==> clusterQueues[m].View() == old(clusterQueues[m].View())
      ensures TiedBut(n, skip)
    {
      assert old(TiedQueue(n));
      forall m | m in clusterQueues && m != n ensures TiedQueue(m) {
        assert old(TiedQueue(m));
      }
      forall key | key in localQueues && key !in skip ensures TiedLocal(key) {
        assert old(TiedLocal(key));
      }
    }

    /** `state` catches up with the queue n. */
    ghost method Record(n: string)
      requires Structure() && TiedBut(n, {})
      modifies this`state
      ensures Valid() && n in clusterQueues && clusterQueues[n].View() == old(clusterQueues[n].View())
      ensures state == old(state).(queues := old(state).queues[n := clusterQueues[n].View()])
    {
      assert Owned(n);
      state := state.(queues := state.queues[n := clusterQueues[n].View()]);
      forall m | m in clusterQueues ensures TiedQueue(m) {
        assert m != n ==> old(TiedQueue(m));
      }
      forall key | key in localQueues ensures TiedLocal(key) {
        assert old(TiedLocal(key));
      }
    }

    /** `state` catches up with the LocalQueue `key`. */
    ghost method RecordLocal(n: string, key: string)
      requires Structure() && key in localQueues && TiedBut(n, {key})
      modifies this`state
      ensures TiedBut(n, {})
      ensures state == old(state).(locals := old(state).locals[key :=
                LocalState(localQueues[key].ClusterQueueName, localQueues[key].Workloads)])
    {
      var l := LocalState(localQueues[key].ClusterQueueName, localQueues[key].Workloads);
      state := state.(locals := state.locals[key := l]);
      forall m | m in clusterQueues && m != n ensures TiedQueue(m) {
        assert old(TiedQueue(m));
      }
      forall k | k in localQueues ensures TiedLocal(k) {
        assert k != key ==> old(TiedLocal(k));
      }
    }

    ghost method RecordBoth(n: string, key: string)
      requires Structure() && key in localQueues && TiedBut(n, {key})
      modifies this`state
      ensures Valid()
      ensures state == old(state).(locals := old(state).locals[key :=
                LocalState(localQueues[key].ClusterQueueName, localQueues[key].Workloads)])
                .(queues := old(state).queues[n := clusterQueues[n].View()])
    {
      RecordLocal(n, key);
      Record(n);
    }

    /** `state` gains a registered queue. */
    ghost method RecordQueue(cq: ClusterQueue)
      requires Structure() && WellFormed(state) && cq.Name in clusterQueues && clusterQueues[cq.Name] == cq
      requires state.queues.Keys + {cq.Name} == clusterQueues.Keys && state.locals.Keys == localQueues.Keys
      requires forall m {:trigger TiedQueue(m)} :: m in clusterQueues && m != cq.Name ==> TiedQueue(m)
      requires forall key {:trigger TiedLocal(key)} :: key in localQueues ==> TiedLocal(key)
      modifies this`state
      ensures Valid()
      ensures state == old(state).(flavors := old(state).flavors[cq.Name := cq.Flavors],
                                   queues := old(state).queues[cq.Name := cq.View()])
    {
      hide Structure, TiedBut, TiedLocal, TiedQueue, Tied, Owned, WellFormed;
      NameQueue(cq);
      Record(cq.Name);
      assert state.queues == old(state).queues[cq.Name := cq.View()];
    }

    /** The first half: the queue gets its entry. */
    ghost method NameQueue(cq: ClusterQueue)
      requires Structure() && WellFormed(state) && cq.Name in clusterQueues && clusterQueues[cq.Name] == cq
      requires state.queues.Keys + {cq.Name} == clusterQueues.Keys && state.locals.Keys == localQueues.Keys
      requires forall m {:trigger TiedQueue(m)} :: m in clusterQueues && m != cq.Name ==> TiedQueue(m)
      requires forall key {:trigger TiedLocal(key)} :: key in localQueues ==> TiedLocal(key)
      modifies this`state
      ensures Structure() && TiedBut(cq.Name, {}) && cq.View() == old(cq.View())
      ensures state == old(state).(flavors := old(state).flavors[cq.Name := cq.Flavors],
                                   queues := old(state).queues[cq.Name := cq.View()])
    {
      assert Owned(cq.Name);
      state := state.(flavors := state.flavors[cq.Name := cq.Flavors], queues := state.queues[cq.Name := cq.View()]);
      forall m | m in clusterQueues && m != cq.Name ensures TiedQueue(m) {
        assert old(TiedQueue(m));
      }
      forall key | key in localQueues ensures TiedLocal(key) {
        assert old(TiedLocal(key));
      }
    }

    // ----- registration

    method AddClusterQueue(cq: ClusterQueue)
      requires Valid() && cq.Valid()
      requires forall n :: n in clusterQueues && n != cq.Name ==>
        Apart(clusterQueues[n], cq) && Apart(cq, clusterQueues[n])
      modifies this
      ensures Valid()
      ensures clusterQueues == old(clusterQueues)[cq.Name := cq] && localQueues == old(localQueues)
      ensures state == old(state).(flavors := old(state).flavors[cq.Name := cq.Flavors],
                                   queues := old(state).queues[cq.Name := cq.View()])
    {
      PlaceClusterQueue(cq);
      UntouchedView(cq);
      forall n | n in clusterQueues && n != cq.Name ensures TiedQueue(n) {
        assert old(TiedQueue(n));
        UntouchedView(clusterQueues[n]);
      }
      forall k | k in localQueues ensures TiedLocal(k) {
        assert old(TiedLocal(k));
      }
      RecordQueue(cq);
    }

    method PlaceClusterQueue(cq: ClusterQueue)
      requires Structure() && cq.Valid()
      requires forall n :: n in clusterQueues && n != cq.Name ==>
        Apart(clusterQueues[n], cq) && Apart(cq, clusterQueues[n])
      modifies this`clusterQueues, this`Repr
      ensures Structure() && clusterQueues == old(clusterQueues)[cq.Name := cq]
    {
      hide ClusterQueue.Valid;
      clusterQueues := clusterQueues[cq.Name := cq];
      Repr := Repr + {cq} + cq.Known + (set f | f in cq.Flavors);
      forall n | n in clusterQueues ensures clusterQueues[n] in Repr && Owned(n) {
        if n != cq.Name { assert old(Owned(n)); }
      }
      forall a, b | a in clusterQueues && b in clusterQueues && a != b
        ensures Apart(clusterQueues[a], clusterQueues[b])
      {
        if a != cq.Name && b != cq.Name { assert old(Apart(clusterQueues[a], clusterQueues[b])); }
      }
    }

    method AddLocalQueue(lq: LocalQueue)
      requires Valid()
      modifies this
      ensures Valid()
      ensures clusterQueues == old(clusterQueues)
      ensures localQueues == old(localQueues)[Key(lq.Namespace, lq.Name) := lq]
      ensures state == old(state).(locals := old(state).locals[Key(lq.Namespace, lq.Name) :=
                                                               LocalState(lq.ClusterQueueName, lq.Workloads)])
    {
      PlaceLocalQueue(lq);
      var l := LocalState(lq.ClusterQueueName, lq.Workloads);
      state := state.(locals := state.locals[Key(lq.Namespace, lq.Name) := l]);
      forall n | n in clusterQueues ensures TiedQueue(n) {
        assert old(TiedQueue(n));
        UntouchedView(clusterQueues[n]);
      }
      forall k | k in localQueues ensures TiedLocal(k) {
        if k != Key(lq.Namespace, lq.Name) { assert old(TiedLocal(k)); }
      }
    }

    method PlaceLocalQueue(lq: LocalQueue)
      requires Structure()
      modifies this`localQueues, this`Repr
      ensures Structure() && localQueues == old(localQueues)[Key(lq.Namespace, lq.Name) := lq]
    {
      localQueues := localQueues[Key(lq.Namespace, lq.Name) := lq];
      Repr := Repr + {lq};
      forall n | n in clusterQueues ensures clusterQueues[n] in Repr && Owned(n) {
        assert old(Owned(n));
      }
      forall a, b | a in clusterQueues && b in clusterQueues && a != b
        ensures Apart(clusterQueues[a], clusterQueues[b])
      {
        assert old(Apart(clusterQueues[a], clusterQueues[b]));
      }
    }

    // ----- Submit and Finish

    /** The two map lookups that Submit, Finish and FinishByName start with. */
    method FindQueue(key: string) returns (r: Option<string>)
      requires Valid()
      ensures r == Route(state, key)
    {
      if key !in localQueues || localQueues[key].ClusterQueueName !in clusterQueues {
        assert key in localQueues ==> TiedLocal(key);
        return None;
      }
      assert TiedLocal(key);
      return Some(localQueues[key].ClusterQueueName);
    }

    /** The queue n may handle w: no other queue knows it. */
    ghost predicate OnlyKnownTo(w: Workload, n: string)
      reads this, clusterQueues.Values
    {
      forall m :: m in clusterQueues && m != n ==> w !in clusterQueues[m].Known
    }

    method EnqueueAt(n: string, key: string, w: Workload)
      requires Structure() && n in clusterQueues && key in localQueues && OnlyKnownTo(w, n)
      modifies this`Repr, clusterQueues[n], localQueues[key], w
      ensures Structure() && Repr == old(Repr) + {w}
      ensures clusterQueues[n].View() == Enqueue(old(clusterQueues[n].View()), w, old(w.FlavorName))
      ensures forall m :: m in clusterQueues && m != n ==> clusterQueues[m].View() == old(clusterQueues[m].View())
      ensures localQueues[key].Workloads == old(localQueues[key].Workloads) + [w]
      ensures forall k :: k in localQueues && k != key ==> unchanged(localQueues[k])
    {
      hide Enqueue;
      assert Owned(n);
      clusterQueues[n].Enqueue(w);
      var lq := localQueues[key];
      lq.Workloads := lq.Workloads + [w];
      Repr := Repr + {w};
      OthersUntouched(n, {w});
      StructureKept(n, {w});
    }

    method SubmitTo(n: string, key: string, w: Workload)
      requires Valid() && n in clusterQueues && key in localQueues && OnlyKnownTo(w, n)
      modifies this`state, this`Repr, Repr, w
      ensures Valid() && Repr == old(Repr) + {w}
      ensures state == SubmitAt(old(state), n, key, w, old(w.FlavorName))
    {
      hide Enqueue;
      assert TiedQueue(n) && TiedLocal(key);
      EnqueueAt(n, key, w);
      OthersStillTied(n, {key});
      RecordBoth(n, key);
      SubmitValue(old(state), state, n, key, clusterQueues[n].View(), state.locals[key], w, old(w.FlavorName));
    }

    method ReleaseQueue(n: string, w: Workload)
      requires Structure() && n in clusterQueues && OnlyKnownTo(w, n)
      modifies this`Repr, clusterQueues[n], clusterQueues[n].Flavors, w
      ensures Structure() && Repr == old(Repr) + {w}
      ensures clusterQueues[n].View() ==
        ReleaseIn(clusterQueues[n].Flavors, old(clusterQueues[n].View()), w, old(w.FlavorName))
      ensures forall key :: key in localQueues ==> unchanged(localQueues[key])
      ensures forall m :: m in clusterQueues && m != n ==> clusterQueues[m].View() == old(clusterQueues[m].View())
    {
      hide ReleaseIn;
      assert Owned(n);
      clusterQueues[n].ReleaseWorkload(w);
      Repr := Repr + {w};
      OthersUntouched(n, {w});
      StructureKept(n, {w});
    }

    method ReleaseAt(n: string, w: Workload)
      requires Valid() && n in clusterQueues && OnlyKnownTo(w, n)
      modifies this`state, this`Repr, Repr, w
      ensures Valid() && Repr == old(Repr) + {w}
      ensures state == KueueSystem.ReleaseAt(old(state), n, w, old(w.FlavorName))
    {
      hide ReleaseIn;
      StateAt(n);
      ReleaseQueue(n, w);
      OthersStillTied(n, {});
      Record(n);
      ReleaseValue(old(state), state, n, clusterQueues[n].View(), w, old(w.FlavorName));
    }

    method Submit(w: Workload) returns (ok: bool)
      requires Valid()
      requires forall n :: Route(state, Key(w.Namespace, w.QueueName)) == Some(n) ==> OnlyKnownTo(w, n)
      modifies this`state, this`Repr, Repr, w
      ensures Valid() && Repr == if ok then old(Repr) + {w} else old(Repr)
      ensures ok <==> Route(old(state), Key(w.Namespace, w.QueueName)).Some?
      ensures state == Step(old(state), KueueSystem.Submit(w, old(w.FlavorName)))
    {
      var key := Key(w.Namespace, w.QueueName);
      var n := FindQueue(key);
      ok := n.Some?;
      if ok {
        SubmitTo(n.value, key, w);
      }
    }

    method Finish(w: Workload) returns (ok: bool)
      requires Valid()
      requires forall n :: Route(state, Key(w.Namespace, w.QueueName)) == Some(n) ==> OnlyKnownTo(w, n)
      modifies this`state, this`Repr, Repr, w
      ensures Valid() && Repr == if ok then old(Repr) + {w} else old(Repr)
      ensures ok <==> Route(old(state), Key(w.Namespace, w.QueueName)).Some?
      ensures state == Step(old(state), KueueSystem.Finish(w, old(w.FlavorName)))
    {
      var n := FindQueue(Key(w.Namespace, w.QueueName));
      ok := n.Some?;
      if ok {
        ReleaseAt(n.value, w);
      }
    }

    /** The search loop of FinishByName. */
    static method FindByName(ws: seq<Workload>, ns: string, name: string) returns (i: nat)
      ensures i == IndexByName(ws, ns, name)
    {
      i := 0;
      while i < |ws|
        invariant 0 <= i <= |ws|
        invariant forall j :: 0 <= j < i ==> !(ws[j].Name == name && ws[j].Namespace == ns)
      {
        if ws[i].Name == name && ws[i].Namespace == ns {
          break;
        }
        i := i + 1;
      }
    }

    lemma {:induction false} RecordedHere(n: string, w: Workload)
      requires Valid() && n in clusterQueues && w in clusterQueues[n].Workloads
      ensures OnlyKnownTo(w, n) && w in Repr && FlavorOf(state.queues[n], w) == w.FlavorName
    {
      assert Owned(n) && TiedQueue(n) && w in clusterQueues[n].Known;
      forall m | m in clusterQueues && m != n ensures w !in clusterQueues[m].Known {
        assert Apart(clusterQueues[n], clusterQueues[m]);
      }
    }

    method FinishByName(ns: string, queueName: string, name: string) returns (ok: bool)
      requires Valid()
      modifies this`state, this`Repr, Repr
      ensures Valid() && Repr == old(Repr)
      ensures state == Step(old(state), KueueSystem.FinishByName(ns, queueName, name))
      ensures ok <==>
        var r := Route(old(state), Key(ns, queueName));
        r.Some? && var ws := old(state).queues[r.value].workloads; IndexByName(ws, ns, name) < |ws|
    {
      hide ReleaseIn;
      hide IndexByName;
      hide KueueSystem.ReleaseAt;
      var n := FindQueue(Key(ns, queueName));
      if n.None? {
        return false;
      }
      ok := FinishNamed(n.value, ns, name);
    }

    /** FinishByName, once the queue is found. */
    method FinishNamed(n: string, ns: string, name: string) returns (ok: bool)
      requires Valid() && n in clusterQueues
      modifies this`state, this`Repr, Repr
      ensures Valid() && Repr == old(Repr)
      ensures var q := old(state).queues[n];
              var i := IndexByName(q.workloads, ns, name);
              && ok == (i < |q.workloads|)
              && state == if ok then KueueSystem.ReleaseAt(old(state), n, q.workloads[i], FlavorOf(q, q.workloads[i]))
                          else old(state)
    {
      hide ReleaseIn;
      hide Structure;
      hide Tied;
      StateAt(n);
      var cq := clusterQueues[n];
      var i := FindByName(cq.Workloads, ns, name);
      ok := i < |cq.Workloads|;
      if ok {
        RecordedHere(n, cq.Workloads[i]);
        ReleaseAt(n, cq.Workloads[i]);
      }
    }

    // ----- scheduling

    lemma {:induction false} KnownApart(n: string)
      requires Structure() && n in clusterQueues
      ensures clusterQueues[n].Valid()
      ensures forall m :: m in clusterQueues && m != n ==> clusterQueues[n].Known !! clusterQueues[m].Known
    {
      assert Owned(n);
      forall m | m in clusterQueues && m != n ensures clusterQueues[n].Known !! clusterQueues[m].Known {
        assert Apart(clusterQueues[n], clusterQueues[m]);
      }
    }

    method PassQueue(n: string) returns (admitted: seq<Workload>)
      requires Structure() && n in clusterQueues
      modifies clusterQueues[n], clusterQueues[n].Flavors, clusterQueues[n].Known
      ensures Structure()
      ensures clusterQueues[n].View() == Pass(clusterQueues[n].Flavors, old(clusterQueues[n].View()))
      ensures forall m :: m in clusterQueues && m != n ==> clusterQueues[m].View() == old(clusterQueues[m].View())
      ensures forall key :: key in localQueues ==> unchanged(localQueues[key])
      ensures admitted == Admissions(clusterQueues[n].Flavors, old(clusterQueues[n].View()))
    {
      hide Pass;
      hide Admissions;
      KnownApart(n);
      admitted := SchedulePass(clusterQueues[n]);
      OthersUntouched(n, clusterQueues[n].Known);
      StructureKept(n, {});
    }

    /** One turn of Schedule's outer loop: nothing but the queue n changes. */
    method ScheduleQueue(n: string) returns (admitted: seq<Workload>)
      requires Valid() && n in clusterQueues
      modifies this`state, Repr
      ensures Valid()
      ensures state == Visit(old(state), n)
      ensures admitted == Admissions(old(state).flavors[n], old(state).queues[n])
    {
      hide Pass;
      hide Admissions;
      StateAt(n);
      admitted := PassQueue(n);
      OthersStillTied(n, {});
      Record(n);
      VisitValue(old(state), state, n, clusterQueues[n].View());
    }

    /** One pass over the registered queues, in whatever order the map is iterated. */
    method Schedule() returns (admitted: seq<Workload>, ghost order: seq<string>)
      requires Valid()
      modifies this`state, Repr
      ensures Valid()
      ensures state == PassAll(old(state))
      ensures IsOrderOf(order, clusterQueues.Keys)
      ensures admitted == AdmittedInOrder(old(state), order)
    {
      admitted, order := [], [];
      var rest := clusterQueues.Keys;
      while rest != {}
        invariant Valid()
        invariant Visited(old(state), rest, order, admitted, state)
      {
        var n :| n in rest;
        VisitedNext(old(state), rest, order, admitted, state, n);
        var more := ScheduleQueue(n);
        admitted := admitted + more;
        order := order + [n];
        rest := rest - {n};
      }
      VisitedAll(old(state), order, admitted, state);
    }
  }
}
