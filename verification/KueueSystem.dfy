/** The whole scheduler as a value, and what holds over its runs. */
module KueueSystem {
  import opened KueueResources
  import opened KueueTypes
  import opened KueueOrder
  import opened KueueAdmission
  import opened KueueLedger
  import opened Wrappers

  datatype LocalState = LocalState(clusterQueue: string, workloads: seq<Workload>)

  /** Flavors are fixed at registration; the states of the queues change. */
  datatype System = System(
    flavors: map<string, seq<FlavorQuota>>,
    queues: map<string, QueueState>,
    locals: map<string, LocalState>)

  /** `flavor` is the flavor name that the workload carries when the call is made. */
  datatype Event =
    | Submit(w: Workload, flavor: string)
    | Schedule
    | Finish(w: Workload, flavor: string)
    | FinishByName(ns: string, queueName: string, name: string)

  predicate WellFormed(s: System) {
    && s.flavors.Keys == s.queues.Keys
    && forall n :: n in s.queues ==> |s.flavors[n]| == |s.queues[n].used|
  }

  function Key(ns: string, queueName: string): string {
    ns + "/" + queueName
  }

  /** The ClusterQueue that a LocalQueue key leads to; None is the error return. */
  function Route(s: System, key: string): Option<string> {
    if key in s.locals && s.locals[key].clusterQueue in s.queues then Some(s.locals[key].clusterQueue) else None
  }

  /** The first recorded workload of that name and namespace, or |ws|. */
  function IndexByName(ws: seq<Workload>, ns: string, name: string): (i: nat)
    ensures i <= |ws|
    ensures i < |ws| ==> ws[i].Name == name && ws[i].Namespace == ns
    ensures forall j :: 0 <= j < i ==> !(ws[j].Name == name && ws[j].Namespace == ns)
  {
    if ws == [] || (ws[0].Name == name && ws[0].Namespace == ns) then 0
    else 1 + IndexByName(ws[1..], ns, name)
  }

  /** One pass over every queue. */
  function PassAll(s: System): (r: System)
    requires WellFormed(s)
    ensures WellFormed(r) && r.flavors == s.flavors && r.locals == s.locals
  {
    s.(queues := map n | n in s.queues :: Pass(s.flavors[n], s.queues[n]))
  }

  /** The workload joins the queue n and the record of the LocalQueue it came through. */
  function SubmitAt(s: System, n: string, key: string, w: Workload, flavor: string): (r: System)
    requires WellFormed(s) && n in s.queues && key in s.locals
    ensures WellFormed(r) && r.flavors == s.flavors && r.locals.Keys == s.locals.Keys
  {
    s.(queues := s.queues[n := Enqueue(s.queues[n], w, flavor)],
       locals := s.locals[key := s.locals[key].(workloads := s.locals[key].workloads + [w])])
  }

  function ReleaseAt(s: System, n: string, w: Workload, flavor: string): (r: System)
    requires WellFormed(s) && n in s.queues
    ensures WellFormed(r) && r.flavors == s.flavors && r.locals.Keys == s.locals.Keys
  {
    s.(queues := s.queues[n := ReleaseIn(s.flavors[n], s.queues[n], w, flavor)])
  }

  /** A call that finds no route, or no workload of the name, returns an error and changes nothing. */
  function Step(s: System, e: Event): (r: System)
    requires WellFormed(s)
    ensures WellFormed(r) && r.flavors == s.flavors && r.locals.Keys == s.locals.Keys
  {
    match e
    case Submit(w, flavor) =>
      var key := Key(w.Namespace, w.QueueName);
      (match Route(s, key)
       case None => s
       case Some(n) => SubmitAt(s, n, key, w, flavor))
    case Schedule => PassAll(s)
    case Finish(w, flavor) =>
      (match Route(s, Key(w.Namespace, w.QueueName))
       case None => s
       case Some(n) => ReleaseAt(s, n, w, flavor))
    case FinishByName(ns, queueName, name) =>
      (match Route(s, Key(ns, queueName))
       case None => s
       case Some(n) =>
         var q := s.queues[n];
         var i := IndexByName(q.workloads, ns, name);
         if i == |q.workloads| then s else ReleaseAt(s, n, q.workloads[i], FlavorOf(q, q.workloads[i])))
  }

  function Run(s: System, es: seq<Event>): (r: System)
    requires WellFormed(s)
    ensures WellFormed(r) && r.flavors == s.flavors
  {
    if es == [] then s else Step(Run(s, es[..|es| - 1]), es[|es| - 1])
  }

  // ----- the queues may be visited in any order

  function Visit(s: System, n: string): (r: System)
    requires WellFormed(s)
    ensures WellFormed(r) && r.flavors == s.flavors
  {
    if n in s.queues then s.(queues := s.queues[n := Pass(s.flavors[n], s.queues[n])]) else s
  }

  function VisitAll(s: System, order: seq<string>): (r: System)
    requires WellFormed(s)
    ensures WellFormed(r) && r.flavors == s.flavors
  {
    if order == [] then s else Visit(VisitAll(s, order[..|order| - 1]), order[|order| - 1])
  }

  /** The list that a pass in this order returns. */
  function AdmittedInOrder(s: System, order: seq<string>): seq<Workload>
    requires WellFormed(s)
  {
    if order == [] then []
    else
      var n := order[|order| - 1];
      AdmittedInOrder(s, order[..|order| - 1])
      + (if n in s.queues then Admissions(s.flavors[n], s.queues[n]) else [])
  }

  ghost predicate IsOrderOf(order: seq<string>, names: set<string>) {
    && (forall n :: n in order <==> n in names)
    && forall i, j :: 0 <= i < j < |order| ==> order[i] != order[j]
  }

  lemma {:induction false} VisitedSoFar(s: System, order: seq<string>, n: string)
    requires WellFormed(s) && n in s.queues
    requires forall i, j :: 0 <= i < j < |order| ==> order[i] != order[j]
    ensures var r := VisitAll(s, order);
            && r.locals == s.locals && r.queues.Keys == s.queues.Keys
            && r.queues[n] == if n in order then Pass(s.flavors[n], s.queues[n]) else s.queues[n]
  {
    hide Pass;
    if order != [] {
      var m := |order| - 1;
      VisitedSoFar(s, order[..m], n);
      assert order == order[..m] + [order[m]];
      assert order[m] !in order[..m];
    }
  }

  lemma {:induction false} VisitKeeps(s: System, order: seq<string>)
    requires WellFormed(s)
    ensures var r := VisitAll(s, order); r.locals == s.locals && r.queues.Keys == s.queues.Keys
  {
    if order != [] { VisitKeeps(s, order[..|order| - 1]); }
  }

  /** Whatever order the map iteration takes, the outcome is one pass over every queue. */
  lemma {:induction false} OrderIrrelevant(s: System, order: seq<string>)
    requires WellFormed(s) && IsOrderOf(order, s.queues.Keys)
    ensures VisitAll(s, order) == PassAll(s)
  {
    hide Pass;
    VisitKeeps(s, order);
    forall n | n in s.queues ensures VisitAll(s, order).queues[n] == Pass(s.flavors[n], s.queues[n]) {
      VisitedSoFar(s, order, n);
    }
    assert VisitAll(s, order).queues == PassAll(s).queues;
  }

  // ----- the submitted workloads, LocalQueue by LocalQueue

  function Part(locals: map<string, LocalState>, key: string, n: string): multiset<Workload>
    requires key in locals
  {
    if locals[key].clusterQueue == n then multiset(locals[key].workloads) else multiset{}
  }

  /** Everything submitted through the LocalQueues among `keys` that lead to n. */
  ghost function Routed(locals: map<string, LocalState>, keys: set<string>, n: string): multiset<Workload>
    requires keys <= locals.Keys
  {
    if keys == {} then multiset{}
    else
      var key :| key in keys;
      Part(locals, key, n) + Routed(locals, keys - {key}, n)
  }

  lemma {:induction false} RoutedSplit(locals: map<string, LocalState>, keys: set<string>, n: string, key: string)
    requires keys <= locals.Keys && key in keys
    ensures Routed(locals, keys, n) == Part(locals, key, n) + Routed(locals, keys - {key}, n)
    decreases |keys|
  {
    var pick :| pick in keys && Routed(locals, keys, n) == Part(locals, pick, n) + Routed(locals, keys - {pick}, n);
    if pick != key {
      RoutedSplit(locals, keys - {pick}, n, key);
      RoutedSplit(locals, keys - {key}, n, pick);
      assert keys - {pick} - {key} == keys - {key} - {pick};
    }
  }

  lemma {:induction false} RoutedSame(locals: map<string, LocalState>, locals': map<string, LocalState>,
                                      keys: set<string>, n: string)
    requires keys <= locals.Keys && keys <= locals'.Keys
    requires forall key :: key in keys ==> Part(locals, key, n) == Part(locals', key, n)
    ensures Routed(locals, keys, n) == Routed(locals', keys, n)
    decreases |keys|
  {
    if keys != {} {
      var key :| key in keys;
      RoutedSplit(locals, keys, n, key);
      RoutedSplit(locals', keys, n, key);
      RoutedSame(locals, locals', keys - {key}, n);
    }
  }

  /** Appending w to the LocalQueue `key` adds w to the queue it leads to, and to no other. */
  lemma {:induction false} RoutedAppend(locals: map<string, LocalState>, key: string, w: Workload, n: string)
    requires key in locals
    ensures var locals' := locals[key := locals[key].(workloads := locals[key].workloads + [w])];
            Routed(locals', locals.Keys, n)
              == Routed(locals, locals.Keys, n)
                 + (if locals[key].clusterQueue == n then multiset{w} else multiset{})
  {
    var locals' := locals[key := locals[key].(workloads := locals[key].workloads + [w])];
    RoutedSplit(locals, locals.Keys, n, key);
    RoutedSplit(locals', locals.Keys, n, key);
    RoutedSame(locals, locals', locals.Keys - {key}, n);
  }

  // ----- the invariant of every run

  /** Pending plus recorded is exactly what was submitted through the LocalQueues routed here. */
  ghost predicate Conserved(s: System) {
    forall n :: n in s.queues ==>
      Everyone(s.queues[n], s.queues[n].queue) == Routed(s.locals, s.locals.Keys, n)
  }

  ghost predicate SystemInvariant(s: System) {
    WellFormed(s) && Conserved(s) && AllSound(s)
  }

  ghost predicate AllSound(s: System)
    requires WellFormed(s)
  {
    forall n :: n in s.queues ==> Sound(s.flavors[n], s.queues[n])
  }

  ghost predicate Sound(fl: seq<FlavorQuota>, q: QueueState) {
    DistinctNames(fl) && QueueInvariant(fl, q)
  }

  /** Queues and flavors as they are registered, before any submission. */
  ghost predicate Registered(s: System) {
    && WellFormed(s)
    && (forall n :: n in s.queues ==>
         && DistinctNames(s.flavors[n])
         && s.queues[n].workloads == [] && s.queues[n].queue == []
         && forall i :: 0 <= i < |s.queues[n].used| ==> s.queues[n].used[i] == map[])
    && forall key :: key in s.locals ==> s.locals[key].workloads == []
  }

  /** A workload is submitted once and finished only while it is Admitted. */
  predicate Allowed(s: System, e: Event) {
    match e
    case Submit(w, _) =>
      && NonNegative(Total(w))
      && forall n :: n in s.queues ==> w !in s.queues[n].queue && w !in s.queues[n].workloads
    case Schedule => true
    case Finish(w, flavor) =>
      var r := Route(s, Key(w.Namespace, w.QueueName));
      r.Some? ==> w in s.queues[r.value].workloads && Holds(s.queues[r.value].marks, w, flavor)
    case FinishByName(ns, queueName, name) =>
      var r := Route(s, Key(ns, queueName));
      r.Some? ==>
        var q := s.queues[r.value];
        var i := IndexByName(q.workloads, ns, name);
        i < |q.workloads| ==> q.workloads[i] in q.marks && q.marks[q.workloads[i]].status == Admitted
  }

  predicate AllowedRun(s: System, es: seq<Event>)
    requires WellFormed(s)
  {
    es == [] || (AllowedRun(s, es[..|es| - 1]) && Allowed(Run(s, es[..|es| - 1]), es[|es| - 1]))
  }

  lemma {:induction false} RoutedOfEmpty(locals: map<string, LocalState>, keys: set<string>, n: string)
    requires keys <= locals.Keys
    requires forall key :: key in keys ==> locals[key].workloads == []
    ensures Routed(locals, keys, n) == multiset{}
    decreases |keys|
  {
    if keys != {} {
      var key :| key in keys;
      RoutedSplit(locals, keys, n, key);
      RoutedOfEmpty(locals, keys - {key}, n);
    }
  }

  lemma {:induction false} EmptySound(fl: seq<FlavorQuota>, q: QueueState)
    requires |fl| == |q.used| && DistinctNames(fl) && q.workloads == [] && q.queue == []
    requires forall i :: 0 <= i < |q.used| ==> q.used[i] == map[]
    ensures Sound(fl, q)
  {
  }

  lemma {:induction false} RegisteredInvariant(s: System)
    requires Registered(s)
    ensures SystemInvariant(s)
  {
    forall n | n in s.queues
      ensures Everyone(s.queues[n], s.queues[n].queue) == Routed(s.locals, s.locals.Keys, n)
      ensures Sound(s.flavors[n], s.queues[n])
    {
      RoutedOfEmpty(s.locals, s.locals.Keys, n);
      EmptySound(s.flavors[n], s.queues[n]);
    }
  }

  lemma {:induction false} EnqueueEveryone(q: QueueState, w: Workload, flavor: string)
    ensures var t := Enqueue(q, w, flavor); Everyone(t, t.queue) == Everyone(q, q.queue) + multiset{w}
  {
    StableSortCorrect(q.queue + [w]);
  }

  lemma {:induction false} SubmitConserves(s: System, w: Workload, flavor: string)
    requires WellFormed(s) && Conserved(s)
    ensures Conserved(Step(s, Submit(w, flavor)))
  {
    var key, t := Key(w.Namespace, w.QueueName), Step(s, Submit(w, flavor));
    var r := Route(s, key);
    if r.Some? {
      forall n | n in t.queues
        ensures Everyone(t.queues[n], t.queues[n].queue) == Routed(t.locals, t.locals.Keys, n)
      {
        EnqueueEveryone(s.queues[r.value], w, flavor);
        RoutedAppend(s.locals, key, w, n);
        assert t.locals.Keys == s.locals.Keys;
        assert Everyone(s.queues[n], s.queues[n].queue) == Routed(s.locals, s.locals.Keys, n);
      }
    }
  }

  lemma {:induction false} ReplaceSound(s: System, s': System, n: string)
    requires WellFormed(s) && WellFormed(s') && AllSound(s) && n in s.queues
    requires s'.flavors == s.flavors && s'.queues == s.queues[n := s'.queues[n]]
    requires Sound(s.flavors[n], s'.queues[n])
    ensures AllSound(s')
  {
    forall m | m in s'.queues ensures Sound(s'.flavors[m], s'.queues[m]) {
      assert m != n ==> s'.queues[m] == s.queues[m] && Sound(s.flavors[m], s.queues[m]);
    }
  }

  lemma {:induction false} SubmitStep(s: System, w: Workload, flavor: string)
    requires SystemInvariant(s) && Allowed(s, Submit(w, flavor))
    ensures SystemInvariant(Step(s, Submit(w, flavor)))
  {
    SubmitConserves(s, w, flavor);
    var r := Route(s, Key(w.Namespace, w.QueueName));
    if r.Some? {
      assert Sound(s.flavors[r.value], s.queues[r.value]);
      SubmitKeepsInvariant(s.flavors[r.value], s.queues[r.value], w, flavor);
      ReplaceSound(s, Step(s, Submit(w, flavor)), r.value);
    }
  }

  lemma {:induction false} ScheduleStep(s: System)
    requires SystemInvariant(s)
    ensures SystemInvariant(Step(s, Schedule))
  {
    forall n | n in s.queues
      ensures Sound(s.flavors[n], Pass(s.flavors[n], s.queues[n]))
      ensures var q, p := s.queues[n], Pass(s.flavors[n], s.queues[n]); Everyone(p, p.queue) == Everyone(q, q.queue)
    {
      assert Sound(s.flavors[n], s.queues[n]);
      PassKeepsInvariant(s.flavors[n], s.queues[n]);
      PassClosedForm(s.flavors[n], s.queues[n]);
    }
  }

  lemma {:induction false} ReplaceConserves(s: System, s': System, n: string)
    requires WellFormed(s) && Conserved(s) && n in s.queues
    requires WellFormed(s') && s'.locals == s.locals
    requires n in s'.queues && s'.queues == s.queues[n := s'.queues[n]]
    requires Everyone(s'.queues[n], s'.queues[n].queue) == Everyone(s.queues[n], s.queues[n].queue)
    ensures Conserved(s')
  {
    forall m | m in s'.queues
      ensures Everyone(s'.queues[m], s'.queues[m].queue) == Routed(s'.locals, s'.locals.Keys, m)
    {
      assert Everyone(s.queues[m], s.queues[m].queue) == Routed(s.locals, s.locals.Keys, m);
      assert m != n ==> s'.queues[m] == s.queues[m];
    }
  }

  /** Releasing an Admitted workload in its queue. */
  lemma {:induction false} ReleaseStep(s: System, n: string, w: Workload, s': System)
    requires SystemInvariant(s) && n in s.queues
    requires w in s.queues[n].workloads && w in s.queues[n].marks && s.queues[n].marks[w].status == Admitted
    requires s' == ReleaseAt(s, n, w, FlavorOf(s.queues[n], w))
    ensures SystemInvariant(s')
  {
    assert Sound(s.flavors[n], s.queues[n]);
    FinishKeepsInvariant(s.flavors[n], s.queues[n], w);
    ReplaceSound(s, s', n);
    ReplaceConserves(s, s', n);
  }

  lemma {:induction false} StepKeepsInvariant(s: System, e: Event)
    requires SystemInvariant(s) && Allowed(s, e)
    ensures SystemInvariant(Step(s, e))
  {
    match e
    case Submit(w, flavor) => SubmitStep(s, w, flavor);
    case Schedule => ScheduleStep(s);
    case Finish(w, flavor) =>
      var r := Route(s, Key(w.Namespace, w.QueueName));
      if r.Some? { ReleaseStep(s, r.value, w, Step(s, e)); }
    case FinishByName(ns, queueName, name) =>
      var r := Route(s, Key(ns, queueName));
      if r.Some? {
        var q := s.queues[r.value];
        var i := IndexByName(q.workloads, ns, name);
        if i < |q.workloads| { ReleaseStep(s, r.value, q.workloads[i], Step(s, e)); }
      }
  }

  /** Ledger, bounds, order and conservation hold in every state of every allowed run. */
  lemma {:induction false} RunKeepsInvariant(s: System, es: seq<Event>)
    requires Registered(s) && AllowedRun(s, es)
    ensures SystemInvariant(Run(s, es))
  {
    if es == [] {
      RegisteredInvariant(s);
    } else {
      RunKeepsInvariant(s, es[..|es| - 1]);
      StepKeepsInvariant(Run(s, es[..|es| - 1]), es[|es| - 1]);
    }
  }

  /** The same, spelled out for one resource of one flavor. */
  lemma {:induction false} LedgerOfRun(s: System, es: seq<Event>, n: string, i: nat, k: string)
    requires Registered(s) && AllowedRun(s, es)
    requires n in Run(s, es).queues && i < |s.flavors[n]|
    ensures var q, fq := Run(s, es).queues[n], s.flavors[n][i];
            && Get(q.used[i], k) == Charged(q.workloads, q.marks, fq.Name, k)
            && (k in q.used[i] ==> k in fq.Resources && 0.0 <= q.used[i][k] <= fq.Resources[k])
  {
    RunKeepsInvariant(s, es);
    assert Sound(s.flavors[n], Run(s, es).queues[n]);
  }

  /** After Schedule, in any run, no pending workload fits any flavor of its queue. */
  lemma {:induction false} NothingFitsAfterSchedule(s: System, es: seq<Event>, n: string, w: Workload, i: nat)
    requires Registered(s) && AllowedRun(s, es)
    requires n in Run(s, es).queues && i < |s.flavors[n]|
    requires w in Step(Run(s, es), Schedule).queues[n].queue
    ensures !Accepts(s.flavors[n][i], Step(Run(s, es), Schedule).queues[n].used[i], Total(w))
  {
    RunKeepsInvariant(s, es);
    assert Sound(s.flavors[n], Run(s, es).queues[n]);
    WorkConservation(s.flavors[n], Run(s, es).queues[n], w, i);
  }

  lemma {:induction false} IdleQueues(t: System)
    requires WellFormed(t)
    requires forall n :: n in t.queues ==> Pass(t.flavors[n], t.queues[n]) == t.queues[n]
    ensures PassAll(t) == t
  {
    hide Pass;
    assert PassAll(t).queues == t.queues;
  }

  /** A second Schedule admits nothing and changes nothing. */
  lemma {:induction false} ScheduleIdempotent(s: System, es: seq<Event>, order: seq<string>)
    requires Registered(s) && AllowedRun(s, es)
    ensures var t := Step(Run(s, es), Schedule);
            Step(t, Schedule) == t && AdmittedInOrder(t, order) == []
  {
    RunKeepsInvariant(s, es);
    var r := Run(s, es);
    var t := PassAll(r);
    forall n | n in t.queues
      ensures Pass(t.flavors[n], t.queues[n]) == t.queues[n] && Admissions(t.flavors[n], t.queues[n]) == []
    {
      assert Sound(r.flavors[n], r.queues[n]);
      SecondPassIdle(r.flavors[n], r.queues[n]);
    }
    IdleQueues(t);
    NoneAdmitted(t, order);
  }

  lemma {:induction false} NoneAdmitted(t: System, order: seq<string>)
    requires WellFormed(t)
    requires forall n :: n in t.queues ==> Admissions(t.flavors[n], t.queues[n]) == []
    ensures AdmittedInOrder(t, order) == []
  {
    if order != [] { NoneAdmitted(t, order[..|order| - 1]); }
  }

  // ----- non-interference between submissions

  lemma {:induction false} QueueNoRepeats(fl: seq<FlavorQuota>, q: QueueState)
    requires QueueInvariant(fl, q)
    ensures NoRepeats(q.queue) && Sorted(q.queue)
  {
    forall i, j | 0 <= i < j < |q.queue| ensures q.queue[i] != q.queue[j] {
      var v := q.queue[j];
      assert q.queue == q.queue[..j] + [v] + q.queue[j + 1..];
      assert v in Everyone(q, q.queue) && Everyone(q, q.queue)[v] == 1;
      assert v !in multiset(q.queue[..j]);
      assert q.queue[i] in multiset(q.queue[..j]) by { assert q.queue[..j][i] == q.queue[i]; }
    }
  }

  /**
   * In any run, a submission to another queue, or one that does not sort before a pending
   * workload, changes neither whether the next Schedule admits that workload nor to which flavor.
   */
  lemma {:induction false} SubmissionsDoNotInterfere(s: System, es: seq<Event>, w: Workload, flavor: string,
                                                     n: string, j: nat)
    requires Registered(s) && AllowedRun(s, es) && Allowed(Run(s, es), Submit(w, flavor))
    requires n in Run(s, es).queues && j < |Run(s, es).queues[n].queue|
    requires Route(Run(s, es), Key(w.Namespace, w.QueueName)) == Some(n) ==> !Before(w, Run(s, es).queues[n].queue[j])
    ensures var r := Run(s, es);
            var e := r.queues[n].queue[j];
            var a, b := Step(r, Schedule).queues[n].marks, Step(Step(r, Submit(w, flavor)), Schedule).queues[n].marks;
            e in a && e in b && a[e] == b[e]
  {
    hide Step, Run, Allowed;
    RunKeepsInvariant(s, es);
    SubmitSpares(Run(s, es), w, flavor, n, j);
  }

  lemma {:induction false} SubmitSpares(r: System, w: Workload, flavor: string, n: string, j: nat)
    requires SystemInvariant(r) && Allowed(r, Submit(w, flavor))
    requires n in r.queues && j < |r.queues[n].queue|
    requires Route(r, Key(w.Namespace, w.QueueName)) == Some(n) ==> !Before(w, r.queues[n].queue[j])
    ensures var e := r.queues[n].queue[j];
            var a, b := Step(r, Schedule).queues[n].marks, Step(Step(r, Submit(w, flavor)), Schedule).queues[n].marks;
            e in a && e in b && a[e] == b[e]
  {
    hide Pass, Enqueue, QueueInvariant, Conserved;
    var fl, q := r.flavors[n], r.queues[n];
    assert Sound(fl, q);
    QueueNoRepeats(fl, q);
    if Route(r, Key(w.Namespace, w.QueueName)) == Some(n) {
      LaterSubmissionHarmless(fl, q, w, flavor, j);
    } else {
      PassMarkOf(fl, q, j);
    }
  }

  // ----- exactly which completions keep the ledger

  ghost predicate AllLedgers(s: System)
    requires WellFormed(s)
  {
    forall n :: n in s.queues ==> Ledger(s.flavors[n], s.queues[n])
  }

  lemma {:induction false} ReleaseLedgers(s: System, n: string, w: Workload, f: string)
    requires SystemInvariant(s) && n in s.queues
    requires w in s.queues[n].marks ==> f == s.queues[n].marks[w].flavor
    ensures AllLedgers(ReleaseAt(s, n, w, f)) <==>
            IsCharged(s.queues[n], w) || NothingToFree(s.flavors[n], w, f)
  {
    hide ReleaseIn, Ledger, Conserved, NothingToFree, IsCharged;
    var t := ReleaseAt(s, n, w, f);
    assert Sound(s.flavors[n], s.queues[n]);
    FinishKeepsLedgerIff(s.flavors[n], s.queues[n], w, f);
    assert t.queues[n] == ReleaseIn(s.flavors[n], s.queues[n], w, f);
    forall m | m in t.queues && m != n ensures Ledger(t.flavors[m], t.queues[m]) {
      assert Sound(s.flavors[m], s.queues[m]) && t.queues[m] == s.queues[m];
    }
  }

  /**
   * In any state of an allowed run, a Finish of any workload at all keeps every ledger exactly when
   * it is turned away, when the workload is Admitted where it leads, or when it frees nothing.
   */
  lemma {:induction false} FinishInRunIff(s: System, es: seq<Event>, w: Workload, f: string)
    requires Registered(s) && AllowedRun(s, es)
    requires forall n :: n in Run(s, es).queues && w in Run(s, es).queues[n].marks ==>
               f == Run(s, es).queues[n].marks[w].flavor
    ensures var r := Run(s, es);
            var route := Route(r, Key(w.Namespace, w.QueueName));
            AllLedgers(Step(r, Finish(w, f))) <==>
            (route.Some? ==> IsCharged(r.queues[route.value], w) || NothingToFree(r.flavors[route.value], w, f))
  {
    hide Run, AllowedRun, SystemInvariant;
    RunKeepsInvariant(s, es);
    FinishIff(Run(s, es), w, f);
  }

  lemma {:induction false} FinishIff(r: System, w: Workload, f: string)
    requires SystemInvariant(r)
    requires forall n :: n in r.queues && w in r.queues[n].marks ==> f == r.queues[n].marks[w].flavor
    ensures var route := Route(r, Key(w.Namespace, w.QueueName));
            AllLedgers(Step(r, Finish(w, f))) <==>
            (route.Some? ==> IsCharged(r.queues[route.value], w) || NothingToFree(r.flavors[route.value], w, f))
  {
    hide AllLedgers, IsCharged, NothingToFree, ReleaseAt, Conserved, AllSound;
    var route := Route(r, Key(w.Namespace, w.QueueName));
    SoundLedgers(r);
    if route.Some? { ReleaseLedgers(r, route.value, w, f); }
  }

  /** Finishing by name only ever reaches recorded workloads, so only a second finish can go wrong. */
  lemma {:induction false} FinishByNameInRunIff(s: System, es: seq<Event>, ns: string, queueName: string, name: string)
    requires Registered(s) && AllowedRun(s, es)
    ensures var r := Run(s, es);
            var route := Route(r, Key(ns, queueName));
            AllLedgers(Step(r, FinishByName(ns, queueName, name))) <==>
            (route.Some? ==>
               var q := r.queues[route.value];
               var i := IndexByName(q.workloads, ns, name);
               i < |q.workloads| ==>
                 || IsCharged(q, q.workloads[i])
                 || NothingToFree(r.flavors[route.value], q.workloads[i], FlavorOf(q, q.workloads[i])))
  {
    hide Run, AllowedRun, SystemInvariant;
    RunKeepsInvariant(s, es);
    FinishByNameIff(Run(s, es), ns, queueName, name);
  }

  lemma {:induction false} FinishByNameIff(r: System, ns: string, queueName: string, name: string)
    requires SystemInvariant(r)
    ensures var route := Route(r, Key(ns, queueName));
            AllLedgers(Step(r, FinishByName(ns, queueName, name))) <==>
            (route.Some? ==>
               var q := r.queues[route.value];
               var i := IndexByName(q.workloads, ns, name);
               i < |q.workloads| ==>
                 || IsCharged(q, q.workloads[i])
                 || NothingToFree(r.flavors[route.value], q.workloads[i], FlavorOf(q, q.workloads[i])))
  {
    hide AllLedgers, IsCharged, NothingToFree, ReleaseAt, IndexByName, Conserved, AllSound;
    SoundLedgers(r);
    var route := Route(r, Key(ns, queueName));
    if route.Some? {
      var q := r.queues[route.value];
      var i := IndexByName(q.workloads, ns, name);
      if i < |q.workloads| {
        ReleaseLedgers(r, route.value, q.workloads[i], FlavorOf(q, q.workloads[i]));
      }
    }
  }

  lemma {:induction false} SoundLedgers(s: System)
    requires SystemInvariant(s)
    ensures AllLedgers(s)
  {
    forall n | n in s.queues ensures Ledger(s.flavors[n], s.queues[n]) {
      assert Sound(s.flavors[n], s.queues[n]);
    }
  }

  /**
   * In any state of an allowed run, submitting any workload at all keeps every ledger exactly when
   * it is turned away, when the workload is not charged where it leads, or when its charge is nothing.
   */
  lemma {:induction false} SubmitInRunIff(s: System, es: seq<Event>, w: Workload, f: string)
    requires Registered(s) && AllowedRun(s, es)
    ensures var r := Run(s, es);
            var route := Route(r, Key(w.Namespace, w.QueueName));
            AllLedgers(Step(r, Submit(w, f))) <==>
            (route.Some? ==>
               var q := r.queues[route.value];
               !IsCharged(q, w) || NothingToFree(r.flavors[route.value], w, FlavorOf(q, w)))
  {
    hide Run, AllowedRun, SystemInvariant;
    RunKeepsInvariant(s, es);
    SubmitIff(Run(s, es), w, f);
  }

  lemma {:induction false} SubmitIff(r: System, w: Workload, f: string)
    requires SystemInvariant(r)
    ensures var route := Route(r, Key(w.Namespace, w.QueueName));
            AllLedgers(Step(r, Submit(w, f))) <==>
            (route.Some? ==>
               var q := r.queues[route.value];
               !IsCharged(q, w) || NothingToFree(r.flavors[route.value], w, FlavorOf(q, w)))
  {
    hide Ledger, IsCharged, NothingToFree, Conserved, Enqueue;
    SoundLedgers(r);
    var route := Route(r, Key(w.Namespace, w.QueueName));
    if route.Some? {
      var n, t := route.value, Step(r, Submit(w, f));
      assert Sound(r.flavors[n], r.queues[n]);
      SubmitKeepsLedgerIff(r.flavors[n], r.queues[n], w, f);
      assert t.queues[n] == Enqueue(r.queues[n], w, f);
      forall m | m in t.queues && m != n ensures Ledger(t.flavors[m], t.queues[m]) {
        assert t.queues[m] == r.queues[m];
      }
    }
  }

  const NEW_QUEUE := QueueState([map[]], [], [], map[])

  /** One queue with one flavor, in state q, and the LocalQueue that w names. */
  function OneQueue(n: string, fq: FlavorQuota, w: Workload, submitted: seq<Workload>, q: QueueState): System {
    System(map[n := [fq]], map[n := q], map[Key(w.Namespace, w.QueueName) := LocalState(n, submitted)])
  }

  lemma {:induction false} NewQueueRegistered(n: string, fq: FlavorQuota, w: Workload)
    ensures var s := OneQueue(n, fq, w, [], NEW_QUEUE); Registered(s) && Run(s, []) == s && AllowedRun(s, [])
  {
  }

  /** What the events about w do to its one queue. */
  lemma {:induction false} OneQueueSubmit(n: string, fq: FlavorQuota, w: Workload, q: QueueState, f: string)
    requires |q.used| == 1
    ensures Step(OneQueue(n, fq, w, [], q), Submit(w, f)) == OneQueue(n, fq, w, [w], Enqueue(q, w, f))
  {
    hide Enqueue;
    var key := Key(w.Namespace, w.QueueName);
    var s := OneQueue(n, fq, w, [], q);
    assert Route(s, key) == Some(n);
    assert Step(s, Submit(w, f)).queues == map[n := Enqueue(q, w, f)];
    assert [] + [w] == [w];
    assert Step(s, Submit(w, f)).locals == map[key := LocalState(n, [w])];
  }

  lemma {:induction false} OneQueuePass(n: string, fq: FlavorQuota, w: Workload, q: QueueState)
    requires |q.used| == 1
    ensures Step(OneQueue(n, fq, w, [w], q), Schedule) == OneQueue(n, fq, w, [w], Pass([fq], q))
  {
    hide Pass;
    assert Step(OneQueue(n, fq, w, [w], q), Schedule).queues == map[n := Pass([fq], q)];
  }

  lemma {:induction false} OneQueueFinish(n: string, fq: FlavorQuota, w: Workload, q: QueueState, f: string)
    requires |q.used| == 1
    ensures Step(OneQueue(n, fq, w, [w], q), Finish(w, f)) == OneQueue(n, fq, w, [w], ReleaseIn([fq], q, w, f))
  {
    hide ReleaseIn;
    var s := OneQueue(n, fq, w, [w], q);
    assert Route(s, Key(w.Namespace, w.QueueName)) == Some(n);
    assert Step(s, Finish(w, f)).queues == map[n := ReleaseIn([fq], q, w, f)];
  }

  lemma {:induction false} EnqueueOne(w: Workload, f: string)
    ensures Enqueue(NEW_QUEUE, w, f) == QueueState([map[]], [], [w], map[w := Mark(Pending, f)])
  {
    assert [] + [w] == [w] && [w][..0] == [];
    assert StableSort([w]) == [w];
  }

  /** The queue once w is admitted. */
  function Occupied(fq: FlavorQuota, w: Workload): QueueState {
    QueueState([Plus(map[], Total(w))], [w], [], map[w := Mark(Admitted, fq.Name)])
  }

  lemma {:induction false} PassOne(fq: FlavorQuota, w: Workload, f: string)
    requires Accepts(fq, map[], Total(w))
    ensures Pass([fq], QueueState([map[]], [], [w], map[w := Mark(Pending, f)]))
            == Occupied(fq, w)
  {
    var fl, s0 := [fq], QueueState([map[]], [], [], map[w := Mark(Pending, f)]);
    var done := Occupied(fq, w);
    assert FirstFit(fl, [map[]], Total(w)) == 0;
    hide Accepts, FirstFit, Total;
    assert Drain(fl, s0, [w], 0) == s0;
    assert Assign(fl, s0, w) == done;
    assert Drain(fl, s0, [w], 1) == done;
    assert Select(fl, s0, [w], 1, false) == [];
  }

  /** The queue after a release that nothing was charged for. */
  lemma {:induction false} Uncharged(fq: FlavorQuota, s: QueueState, w: Workload, k: string)
    requires |s.used| == 1 && Get(s.used[0], k) == 0.0 && Get(Total(w), k) > 0.0
    requires s.workloads == [] || (s.workloads == [w] && w in s.marks && s.marks[w].status != Admitted)
    ensures var t := ReleaseIn([fq], s, w, fq.Name);
            Get(t.used[0], k) == -Get(Total(w), k) && !Ledger([fq], t)
  {
    hide Total;
    var t := ReleaseIn([fq], s, w, fq.Name);
    assert FindFlavor([fq], fq.Name) == 0;
    assert Get(t.used[0], k) == -Get(Total(w), k);
    assert Charged(t.workloads, t.marks, fq.Name, k) == 0.0;
    assert [fq][0].Name == fq.Name;
  }

  lemma {:induction false} RunOneMore(s: System, es: seq<Event>, e: Event)
    requires WellFormed(s)
    ensures Run(s, es + [e]) == Step(Run(s, es), e)
    ensures AllowedRun(s, es + [e]) <==> AllowedRun(s, es) && Allowed(Run(s, es), e)
  {
    hide Step, Allowed;
    assert (es + [e])[..|es|] == es;
  }

  /** A workload that is submitted under a flavor's name and finished before it is admitted. */
  lemma {:induction false} PendingFinishRun(n: string, fq: FlavorQuota, w: Workload, k: string)
    requires NonNegative(Total(w)) && Get(Total(w), k) > 0.0
    ensures var s, es := OneQueue(n, fq, w, [], NEW_QUEUE), [] + [Submit(w, fq.Name)];
            var r := Run(s, es + [Finish(w, fq.Name)]);
            && Registered(s) && AllowedRun(s, es)
            && n in r.queues && Get(r.queues[n].used[0], k) == -Get(Total(w), k) && !AllLedgers(r)
  {
    hide Enqueue, ReleaseIn, Ledger, Step, Total, Run, AllowedRun, Registered;
    var s := OneQueue(n, fq, w, [], NEW_QUEUE);
    var q := Enqueue(NEW_QUEUE, w, fq.Name);
    EnqueueOne(w, fq.Name);
    NewQueueRegistered(n, fq, w);
    RunOneMore(s, [], Submit(w, fq.Name));
    RunOneMore(s, [] + [Submit(w, fq.Name)], Finish(w, fq.Name));
    OneQueueSubmit(n, fq, w, NEW_QUEUE, fq.Name);
    OneQueueFinish(n, fq, w, q, fq.Name);
    Uncharged(fq, q, w, k);
  }

  lemma {:induction false} AdmittedRun(n: string, fq: FlavorQuota, w: Workload)
    requires NonNegative(Total(w)) && Accepts(fq, map[], Total(w))
    ensures var s, es := OneQueue(n, fq, w, [], NEW_QUEUE), [] + [Submit(w, "")] + [Schedule];
            Registered(s) && AllowedRun(s, es) && Run(s, es) == OneQueue(n, fq, w, [w], Occupied(fq, w))
  {
    hide Enqueue, Pass, Ledger, Step, Total, Accepts, Plus, Run, AllowedRun, Registered;
    var s := OneQueue(n, fq, w, [], NEW_QUEUE);
    var q := QueueState([map[]], [], [w], map[w := Mark(Pending, "")]);
    EnqueueOne(w, "");
    PassOne(fq, w, "");
    NewQueueRegistered(n, fq, w);
    RunOneMore(s, [], Submit(w, ""));
    RunOneMore(s, [] + [Submit(w, "")], Schedule);
    OneQueueSubmit(n, fq, w, NEW_QUEUE, "");
    OneQueuePass(n, fq, w, q);
  }

  /** A workload that is submitted, admitted and finished twice: usage falls below zero. */
  lemma {:induction false} DoubleFinishRun(n: string, fq: FlavorQuota, w: Workload, k: string)
    requires NonNegative(Total(w)) && Get(Total(w), k) > 0.0 && Accepts(fq, map[], Total(w))
    ensures var s, finish := OneQueue(n, fq, w, [], NEW_QUEUE), Finish(w, fq.Name);
            var es := [] + [Submit(w, "")] + [Schedule] + [finish];
            var r := Run(s, es + [finish]);
            && Registered(s) && AllowedRun(s, es)
            && n in r.queues && Get(r.queues[n].used[0], k) == -Get(Total(w), k) && !AllLedgers(r)
  {
    hide Run, AllowedRun, Registered, ReleaseIn, Ledger, Step, Total, Accepts, Plus;
    var s, finish := OneQueue(n, fq, w, [], NEW_QUEUE), Finish(w, fq.Name);
    var es := [] + [Submit(w, "")] + [Schedule];
    var q := Occupied(fq, w);
    var t := ReleaseIn([fq], q, w, fq.Name);
    AdmittedRun(n, fq, w);
    RunOneMore(s, es, finish);
    OneQueueFinish(n, fq, w, q, fq.Name);
    assert Allowed(OneQueue(n, fq, w, [w], q), finish);
    ReleaseOne(fq, w, k);
    RunOneMore(s, es + [finish], finish);
    OneQueueFinish(n, fq, w, t, fq.Name);
    Uncharged(fq, t, w, k);
  }

  lemma {:induction false} ReleaseOne(fq: FlavorQuota, w: Workload, k: string)
    ensures var t := ReleaseIn([fq], Occupied(fq, w), w, fq.Name);
            && |t.used| == 1 && Get(t.used[0], k) == 0.0
            && t.workloads == [w] && t.marks == map[w := Mark(Finished, fq.Name)]
  {
    hide Total;
    assert FindFlavor([fq], fq.Name) == 0;
  }

  /** A workload that is submitted, admitted and submitted again: its charge is no longer accounted for. */
  lemma {:induction false} ResubmitRun(n: string, fq: FlavorQuota, w: Workload, f: string, k: string)
    requires NonNegative(Total(w)) && Get(Total(w), k) > 0.0 && Accepts(fq, map[], Total(w))
    ensures var s, es := OneQueue(n, fq, w, [], NEW_QUEUE), [] + [Submit(w, "")] + [Schedule];
            && Registered(s) && AllowedRun(s, es)
            && !AllLedgers(Run(s, es + [Submit(w, f)]))
  {
    hide Run, AllowedRun, AllLedgers, NothingToFree, Step, Total, Accepts, Plus;
    var s, es := OneQueue(n, fq, w, [], NEW_QUEUE), [] + [Submit(w, "")] + [Schedule];
    AdmittedRun(n, fq, w);
    RunOneMore(s, es, Submit(w, f));
    SubmitInRunIff(s, es, w, f);
    ChargesSomething(fq, w, k);
  }

  lemma {:induction false} ChargesSomething(fq: FlavorQuota, w: Workload, k: string)
    requires Get(Total(w), k) > 0.0
    ensures !NothingToFree([fq], w, fq.Name)
  {
    hide Total;
    assert FindFlavor([fq], fq.Name) == 0;
  }

  // ----- priority over runs

  /** In every run every pending queue stands by priority, from the highest, and then by age. */
  lemma {:induction false} QueuesInOrder(s: System, es: seq<Event>, n: string, i: nat, j: nat)
    requires Registered(s) && AllowedRun(s, es)
    requires n in Run(s, es).queues && i < j < |Run(s, es).queues[n].queue|
    ensures var q := Run(s, es).queues[n].queue;
            && q[i].Priority >= q[j].Priority
            && (q[i].Priority == q[j].Priority ==> q[i].CreatedAt <= q[j].CreatedAt)
  {
    RunKeepsInvariant(s, es);
    assert Sound(s.flavors[n], Run(s, es).queues[n]);
    OrderMeans(Run(s, es).queues[n].queue, i, j);
  }

  /**
   * Priority is respected: in every run, when the next Schedule admits a pending workload, it admits
   * every pending workload of the queue that has a higher priority, or the same and is older, and
   * asks for no more.
   */
  lemma {:induction false} PriorityRespected(s: System, es: seq<Event>, n: string, v: Workload, w: Workload)
    requires Registered(s) && AllowedRun(s, es) && n in Run(s, es).queues
    requires v in Run(s, es).queues[n].queue && w in Run(s, es).queues[n].queue
    requires v.Priority > w.Priority || (v.Priority == w.Priority && v.CreatedAt < w.CreatedAt)
    requires AsksNoMore(Total(v), Total(w))
    ensures var m := Step(Run(s, es), Schedule).queues[n].marks;
            && v in m && w in m
            && (m[w].status == Admitted ==> m[v].status == Admitted)
  {
    hide Run, AllowedRun, SystemInvariant, Step, AsksNoMore;
    RunKeepsInvariant(s, es);
    PriorityInStep(Run(s, es), n, v, w);
  }

  lemma {:induction false} PriorityInStep(r: System, n: string, v: Workload, w: Workload)
    requires SystemInvariant(r) && n in r.queues && v in r.queues[n].queue && w in r.queues[n].queue
    requires v.Priority > w.Priority || (v.Priority == w.Priority && v.CreatedAt < w.CreatedAt)
    requires AsksNoMore(Total(v), Total(w))
    ensures var m := Step(r, Schedule).queues[n].marks;
            v in m && w in m && (m[w].status == Admitted ==> m[v].status == Admitted)
  {
    hide Pass, Conserved, AsksNoMore;
    var fl, q := r.flavors[n], r.queues[n];
    assert Sound(fl, q);
    QueueNoRepeats(fl, q);
    UrgentIsServed(fl, q, v, w);
  }

  // ----- names and routes

  /** The key tells namespaces and queues apart, as long as namespaces hold no slash. */
  lemma {:induction false} KeyInjective(a: string, x: string, b: string, y: string)
    requires '/' !in a && '/' !in b
    ensures Key(a, x) == Key(b, y) <==> a == b && x == y
  {
    if Key(a, x) == Key(b, y) {
      var key := Key(a, x);
      assert key[|a|] == '/' && key[|b|] == '/';
      assert forall k :: 0 <= k < |a| ==> key[k] == a[k];
      assert forall k :: 0 <= k < |b| ==> key[k] == b[k];
      assert |a| == |b|;
      assert a == key[..|a|] && b == key[..|b|];
      assert x == key[|a| + 1..] && y == key[|b| + 1..];
    }
  }

  /** Where a submission goes: the LocalQueue of its namespace and name and on from there, or nowhere. */
  lemma {:induction false} SubmitArrives(s: System, w: Workload, f: string)
    requires WellFormed(s)
    ensures var key, t := w.Namespace + "/" + w.QueueName, Step(s, Submit(w, f));
            if key in s.locals && s.locals[key].clusterQueue in s.queues then
              var n := s.locals[key].clusterQueue;
              && t.locals[key].workloads == s.locals[key].workloads + [w]
              && multiset(t.queues[n].queue) == multiset(s.queues[n].queue) + multiset{w}
              && w in t.queues[n].marks && t.queues[n].marks[w] == Mark(Pending, f)
              && t.queues[n].used == s.queues[n].used && t.queues[n].workloads == s.queues[n].workloads
              && (forall k :: k in s.locals && k != key ==> t.locals[k] == s.locals[k])
              && (forall m :: m in s.queues && m != n ==> t.queues[m] == s.queues[m])
            else t == s
  {
    hide StableSort;
    var key := Key(w.Namespace, w.QueueName);
    if key in s.locals && s.locals[key].clusterQueue in s.queues {
      StableSortCorrect(s.queues[s.locals[key].clusterQueue].queue + [w]);
    }
  }

  /** What a finish does, and where: the same route, the first flavor of the name, and the status. */
  lemma {:induction false} FinishArrives(s: System, w: Workload, f: string, k: string)
    requires WellFormed(s)
    ensures var key, t := w.Namespace + "/" + w.QueueName, Step(s, Finish(w, f));
            if key in s.locals && s.locals[key].clusterQueue in s.queues then
              var n := s.locals[key].clusterQueue;
              var fl := s.flavors[n];
              && w in t.queues[n].marks && t.queues[n].marks[w] == Mark(Finished, f)
              && t.queues[n].queue == s.queues[n].queue && t.queues[n].workloads == s.queues[n].workloads
              && (forall i :: 0 <= i < |fl| ==>
                    Get(t.queues[n].used[i], k) == Get(s.queues[n].used[i], k)
                      - (if i == FindFlavor(fl, f) then Get(Total(w), k) else 0.0))
              && t.locals == s.locals && (forall m :: m in s.queues && m != n ==> t.queues[m] == s.queues[m])
            else t == s
  {
    hide Total;
  }
}
