/** The quota ledger of one ClusterQueue: what is Used is what the Admitted workloads asked for. */
module KueueLedger {
  import opened KueueResources
  import opened KueueTypes
  import opened KueueOrder
  import opened KueueAdmission

  predicate Holds(marks: map<Workload, Mark>, w: Workload, flavor: string) {
    w in marks && marks[w] == Mark(Admitted, flavor)
  }

  /** The amount of k that the workloads admitted to the flavor asked for. */
  function Charged(ws: seq<Workload>, marks: map<Workload, Mark>, flavor: string, k: string): real {
    if ws == [] then 0.0
    else
      var w := ws[|ws| - 1];
      Charged(ws[..|ws| - 1], marks, flavor, k) + (if Holds(marks, w, flavor) then Get(Total(w), k) else 0.0)
  }

  ghost predicate Ledger(fl: seq<FlavorQuota>, s: QueueState) {
    && |fl| == |s.used|
    && forall i, k :: 0 <= i < |fl| ==> Get(s.used[i], k) == Charged(s.workloads, s.marks, fl[i].Name, k)
  }

  predicate Bounded(fl: seq<FlavorQuota>, used: seq<ResourceList>) {
    && |fl| == |used|
    && forall i, k :: 0 <= i < |fl| && k in used[i] ==>
         k in fl[i].Resources && 0.0 <= used[i][k] <= fl[i].Resources[k]
  }

  predicate DistinctNames(fl: seq<FlavorQuota>) {
    forall i, j :: 0 <= i < j < |fl| ==> fl[i].Name != fl[j].Name
  }

  /** Each key that an admitted workload asks for is a key of its flavor's usage. */
  predicate KeysListed(fl: seq<FlavorQuota>, s: QueueState)
    requires |fl| == |s.used|
  {
    forall i, w :: 0 <= i < |fl| && w in s.workloads && Holds(s.marks, w, fl[i].Name) ==>
      Total(w).Keys <= s.used[i].Keys
  }

  function Everyone(s: QueueState, pending: seq<Workload>): multiset<Workload> {
    multiset(pending) + multiset(s.workloads)
  }

  /** The invariant, with the pending workloads given apart from the queue field. */
  ghost predicate Core(fl: seq<FlavorQuota>, s: QueueState, pending: seq<Workload>) {
    && Ledger(fl, s) && Bounded(fl, s.used) && KeysListed(fl, s)
    && (forall w :: w in Everyone(s, pending) ==> Everyone(s, pending)[w] == 1)
    && (forall w :: w in pending ==> w in s.marks && s.marks[w].status == Pending)
    && (forall w :: w in s.workloads ==> w in s.marks && s.marks[w].status in {Admitted, Finished})
    && (forall w :: w in pending ==> NonNegative(Total(w)))
    && (forall w :: w in s.workloads ==> NonNegative(Total(w)))
  }

  ghost predicate QueueInvariant(fl: seq<FlavorQuota>, s: QueueState) {
    Core(fl, s, s.queue) && Sorted(s.queue)
  }

  // ----- sums

  lemma {:induction false} ChargedSame(ws: seq<Workload>, m: map<Workload, Mark>, m': map<Workload, Mark>,
                                       f: string, k: string)
    requires forall w :: w in ws ==> (Holds(m, w, f) <==> Holds(m', w, f))
    ensures Charged(ws, m, f, k) == Charged(ws, m', f, k)
  {
    if ws != [] { ChargedSame(ws[..|ws| - 1], m, m', f, k); }
  }

  lemma {:induction false} ChargedNonNegative(ws: seq<Workload>, m: map<Workload, Mark>, f: string, k: string)
    requires forall w :: w in ws ==> NonNegative(Total(w))
    ensures Charged(ws, m, f, k) >= 0.0
  {
    if ws != [] {
      ChargedNonNegative(ws[..|ws| - 1], m, f, k);
      assert NonNegative(Total(ws[|ws| - 1]));
    }
  }

  /** Closing the account of one workload takes its request out of the sum. */
  lemma {:induction false} ChargedWithout(ws: seq<Workload>, m: map<Workload, Mark>, w: Workload,
                                          f: string, k: string, g: string)
    requires multiset(ws)[w] == 1
    ensures Charged(ws, m[w := Mark(Finished, g)], f, k)
         == Charged(ws, m, f, k) - (if Holds(m, w, f) then Get(Total(w), k) else 0.0)
  {
    var n, m' := |ws| - 1, m[w := Mark(Finished, g)];
    assert ws == ws[..n] + [ws[n]];
    if ws[n] == w {
      assert w !in multiset(ws[..n]);
      ChargedSame(ws[..n], m, m', f, k);
    } else {
      ChargedWithout(ws[..n], m, w, f, k, g);
    }
  }

  // ----- admission

  lemma {:induction false} AssignLedger(fl: seq<FlavorQuota>, s: QueueState, w: Workload)
    requires Ledger(fl, s) && DistinctNames(fl)
    requires w !in s.workloads
    ensures Ledger(fl, Assign(fl, s, w))
  {
    var t, c := Assign(fl, s, w), FirstFit(fl, s.used, Total(w));
    if c < |fl| {
      assert t.workloads[..|t.workloads| - 1] == s.workloads;
      forall i, k | 0 <= i < |fl|
        ensures Get(t.used[i], k) == Charged(t.workloads, t.marks, fl[i].Name, k)
      {
        ChargedSame(s.workloads, s.marks, t.marks, fl[i].Name, k);
        assert Get(s.used[i], k) == Charged(s.workloads, s.marks, fl[i].Name, k);
        assert i != c ==> fl[i].Name != fl[c].Name;
      }
    }
  }

  lemma {:induction false} AssignBounded(fl: seq<FlavorQuota>, s: QueueState, w: Workload)
    requires Bounded(fl, s.used) && NonNegative(Total(w))
    ensures Bounded(fl, Assign(fl, s, w).used)
  {
    var c := FirstFit(fl, s.used, Total(w));
    if c < |fl| { AcceptsMeaning(fl[c], s.used[c], Total(w)); }
  }

  lemma {:induction false} AssignKeys(fl: seq<FlavorQuota>, s: QueueState, w: Workload)
    requires |fl| == |s.used| && KeysListed(fl, s) && DistinctNames(fl)
    requires w !in s.workloads
    ensures KeysListed(fl, Assign(fl, s, w))
  {
    var t, c := Assign(fl, s, w), FirstFit(fl, s.used, Total(w));
    if c < |fl| {
      forall i, v | 0 <= i < |fl| && v in t.workloads && Holds(t.marks, v, fl[i].Name)
        ensures Total(v).Keys <= t.used[i].Keys
      {
        if v == w {
          assert i == c;
        } else {
          assert v in s.workloads && Holds(s.marks, v, fl[i].Name);
        }
      }
    }
  }

  /** One dequeued workload: either it moves to the record or it stays pending. */
  lemma {:induction false} AssignKeepsCore(fl: seq<FlavorQuota>, s: QueueState, kept: seq<Workload>, w: Workload,
                                           rest: seq<Workload>)
    requires DistinctNames(fl) && Core(fl, s, kept + [w] + rest)
    ensures var t := Assign(fl, s, w);
            if FirstFit(fl, s.used, Total(w)) < |fl| then Core(fl, t, kept + rest)
            else Core(fl, t, kept + [w] + rest)
  {
    var t, p := Assign(fl, s, w), kept + [w] + rest;
    if FirstFit(fl, s.used, Total(w)) < |fl| {
      assert multiset(p) == multiset(kept) + multiset{w} + multiset(rest);
      assert w in p && w in Everyone(s, p);
      AssignLedger(fl, s, w);
      AssignBounded(fl, s, w);
      AssignKeys(fl, s, w);
      assert multiset(kept + rest) == multiset(kept) + multiset(rest);
      assert Everyone(t, kept + rest) == Everyone(s, p);
      assert forall v :: v in kept + rest ==> v in p && v != w;
    }
  }

  lemma {:induction false} Regroup<T>(kept: seq<T>, q: seq<T>, j: nat, after: seq<T>, taken: bool)
    requires j < |q| && after == kept + (if taken then [] else [q[j]])
    ensures kept + q[j..] == kept + [q[j]] + q[j + 1..]
    ensures after + q[j + 1..] == if taken then kept + q[j + 1..] else kept + [q[j]] + q[j + 1..]
  {
  }

  lemma {:induction false} DrainStepKeepsCore(fl: seq<FlavorQuota>, s: QueueState, q: seq<Workload>, j: nat)
    requires DistinctNames(fl) && |fl| == |s.used| && j < |q|
    requires Core(fl, Drain(fl, s, q, j), Select(fl, s, q, j, false) + q[j..])
    ensures Core(fl, Drain(fl, s, q, j + 1), Select(fl, s, q, j + 1, false) + q[j + 1..])
  {
    Regroup(Select(fl, s, q, j, false), q, j, Select(fl, s, q, j + 1, false), Choice(fl, s, q, j) < |fl|);
    AssignKeepsCore(fl, Drain(fl, s, q, j), Select(fl, s, q, j, false), q[j], q[j + 1..]);
  }

  lemma {:induction false} NothingDrained(fl: seq<FlavorQuota>, s: QueueState, q: seq<Workload>)
    requires |fl| == |s.used|
    ensures Drain(fl, s, q, 0) == s && Select(fl, s, q, 0, false) + q[0..] == q
  {
  }

  lemma {:induction false} DrainKeepsCore(fl: seq<FlavorQuota>, s: QueueState, q: seq<Workload>, j: nat)
    requires DistinctNames(fl) && Core(fl, s, q) && j <= |q|
    ensures Core(fl, Drain(fl, s, q, j), Select(fl, s, q, j, false) + q[j..])
  {
    assert |fl| == |s.used|;
    hide Choice, Core, Drain, DistinctNames;
    if j == 0 {
      NothingDrained(fl, s, q);
    } else {
      DrainKeepsCore(fl, s, q, j - 1);
      DrainStepKeepsCore(fl, s, q, j - 1);
    }
  }

  lemma {:induction false} ChargedForallSame(fl: seq<FlavorQuota>, s: QueueState, t: QueueState)
    requires Ledger(fl, s) && t.used == s.used && t.workloads == s.workloads
    requires forall w :: w in s.workloads ==> w in s.marks && w in t.marks && t.marks[w] == s.marks[w]
    ensures Ledger(fl, t)
  {
    forall i, k | 0 <= i < |fl| ensures Get(t.used[i], k) == Charged(t.workloads, t.marks, fl[i].Name, k) {
      ChargedSame(s.workloads, s.marks, t.marks, fl[i].Name, k);
      assert Get(s.used[i], k) == Charged(s.workloads, s.marks, fl[i].Name, k);
    }
  }

  /** Enqueueing again what is pending anyway keeps the invariant. */
  lemma {:induction false} RequeueKeepsCore(fl: seq<FlavorQuota>, d: QueueState, r: seq<Workload>)
    requires Core(fl, d, r)
    ensures Core(fl, Requeue(d, r), r)
  {
    var t := Requeue(d, r);
    RequeueFrame(d, r);
    assert Everyone(t, r) == Everyone(d, r);
    forall w | w in r ensures w in t.marks && t.marks[w].status == Pending {
      RequeueMarks(d, r, w);
    }
    forall w | w in d.workloads ensures w in t.marks && t.marks[w] == d.marks[w] {
      RequeueMarks(d, r, w);
      assert w in Everyone(d, r) && Everyone(d, r)[w] == 1 && w !in multiset(r);
    }
    ChargedForallSame(fl, d, t);
  }

  lemma {:induction false} CoreIgnoresQueue(fl: seq<FlavorQuota>, s: QueueState, t: QueueState, pending: seq<Workload>)
    requires Core(fl, s, pending) && t == s.(queue := t.queue)
    ensures Core(fl, t, pending)
  {
    assert Everyone(t, pending) == Everyone(s, pending);
    ChargedForallSame(fl, s, t);
  }

  /** A whole pass keeps the invariant. */
  lemma {:induction false} PassKeepsInvariant(fl: seq<FlavorQuota>, s: QueueState)
    requires DistinctNames(fl) && QueueInvariant(fl, s)
    ensures QueueInvariant(fl, Pass(fl, s))
  {
    var s0, q := s.(queue := []), s.queue;
    var d, r := Drain(fl, s0, q, |q|), Select(fl, s0, q, |q|, false);
    CoreIgnoresQueue(fl, s, s0, q);
    DrainKeepsCore(fl, s0, q, |q|);
    assert r + q[|q|..] == r;
    RequeueKeepsCore(fl, d, r);
    PassClosedForm(fl, s);
  }

  /** A workload that was never seen before joins the queue. */
  lemma {:induction false} SubmitKeepsInvariant(fl: seq<FlavorQuota>, s: QueueState, w: Workload, f: string)
    requires QueueInvariant(fl, s)
    requires w !in s.queue && w !in s.workloads && NonNegative(Total(w))
    ensures QueueInvariant(fl, Enqueue(s, w, f))
  {
    var t := Enqueue(s, w, f);
    StableSortCorrect(s.queue + [w]);
    assert Everyone(t, t.queue) == Everyone(s, s.queue) + multiset{w};
    ChargedForallSame(fl, s, t);
    forall v | v in t.queue ensures v == w || v in s.queue {
      assert v in multiset(t.queue);
    }
  }

  // ----- release

  /** The sums after a release, of any workload under any flavor name. */
  lemma {:induction false} ReleaseSums(fl: seq<FlavorQuota>, s: QueueState, w: Workload, f: string, i: nat, k: string)
    requires Ledger(fl, s) && i < |fl| && multiset(s.workloads)[w] <= 1
    ensures var t := ReleaseIn(fl, s, w, f);
            var held := w in s.workloads && Holds(s.marks, w, fl[i].Name);
            && Get(t.used[i], k) == Get(s.used[i], k) - (if i == FindFlavor(fl, f) then Get(Total(w), k) else 0.0)
            && Charged(t.workloads, t.marks, fl[i].Name, k)
                 == Get(s.used[i], k) - (if held then Get(Total(w), k) else 0.0)
  {
    if w in s.workloads {
      assert w in multiset(s.workloads);
      ChargedWithout(s.workloads, s.marks, w, fl[i].Name, k, f);
    } else {
      ChargedSame(s.workloads, s.marks, s.marks[w := Mark(Finished, f)], fl[i].Name, k);
    }
    assert Get(s.used[i], k) == Charged(s.workloads, s.marks, fl[i].Name, k);
  }

  /** Finishing w under the flavor name f would hand back nothing. */
  ghost predicate NothingToFree(fl: seq<FlavorQuota>, w: Workload, f: string) {
    FindFlavor(fl, f) == |fl| || forall k :: Get(Total(w), k) == 0.0
  }

  /** The workload is recorded here and its request is charged. */
  predicate IsCharged(s: QueueState, w: Workload) {
    w in s.workloads && w in s.marks && s.marks[w].status == Admitted
  }

  /**
   * Finish takes any workload: recorded, pending or never seen, with the flavor name it carries. It
   * keeps the ledger exactly when the workload is recorded and Admitted, or when nothing is freed.
   */
  lemma {:induction false} FinishKeepsLedgerIff(fl: seq<FlavorQuota>, s: QueueState, w: Workload, f: string)
    requires DistinctNames(fl) && QueueInvariant(fl, s)
    requires w in s.marks ==> f == s.marks[w].flavor
    ensures Ledger(fl, ReleaseIn(fl, s, w, f)) <==> IsCharged(s, w) || NothingToFree(fl, w, f)
  {
    var t, c := ReleaseIn(fl, s, w, f), FindFlavor(fl, f);
    AtMostOnce(fl, s, w);
    if IsCharged(s, w) || NothingToFree(fl, w, f) {
      forall i, k | 0 <= i < |fl| ensures Get(t.used[i], k) == Charged(t.workloads, t.marks, fl[i].Name, k) {
        ReleaseSums(fl, s, w, f, i, k);
        assert i != c && c < |fl| ==> fl[i].Name != fl[c].Name;
      }
    } else {
      var k :| Get(Total(w), k) != 0.0;
      ReleaseSums(fl, s, w, f, c, k);
      assert !(w in s.workloads && Holds(s.marks, w, fl[c].Name));
      assert Get(t.used[c], k) != Charged(t.workloads, t.marks, fl[c].Name, k);
    }
  }

  lemma {:induction false} AtMostOnce(fl: seq<FlavorQuota>, s: QueueState, w: Workload)
    requires QueueInvariant(fl, s)
    ensures multiset(s.workloads)[w] <= 1
    ensures w in s.workloads ==> w !in s.queue
  {
    if w in s.workloads {
      assert w in multiset(s.workloads) && w in Everyone(s, s.queue) && Everyone(s, s.queue)[w] == 1;
      assert w !in multiset(s.queue);
    }
  }

  /** Finishing a pending workload keeps the ledger only if the name it carries frees nothing. */
  lemma {:induction false} FinishPendingIff(fl: seq<FlavorQuota>, s: QueueState, w: Workload)
    requires DistinctNames(fl) && QueueInvariant(fl, s) && w in s.queue
    ensures Ledger(fl, ReleaseIn(fl, s, w, FlavorOf(s, w))) <==> NothingToFree(fl, w, FlavorOf(s, w))
  {
    AtMostOnce(fl, s, w);
    FinishKeepsLedgerIff(fl, s, w, FlavorOf(s, w));
  }

  /** Finishing an Admitted workload and then finishing it again keeps the ledger only if it frees nothing. */
  lemma {:induction false} FinishTwiceIff(fl: seq<FlavorQuota>, s: QueueState, w: Workload)
    requires DistinctNames(fl) && QueueInvariant(fl, s) && IsCharged(s, w)
    ensures var f := FlavorOf(s, w);
            Ledger(fl, ReleaseIn(fl, ReleaseIn(fl, s, w, f), w, f)) <==> NothingToFree(fl, w, f)
  {
    FinishKeepsInvariant(fl, s, w);
    FinishKeepsLedgerIff(fl, ReleaseIn(fl, s, w, FlavorOf(s, w)), w, FlavorOf(s, w));
  }

  // ----- submission, of any workload

  /** The sum after an Enqueue: a charged workload falls out of it. */
  lemma {:induction false} EnqueueSums(fl: seq<FlavorQuota>, s: QueueState, w: Workload, f: string, i: nat, k: string)
    requires Ledger(fl, s) && i < |fl| && multiset(s.workloads)[w] <= 1
    ensures var t := Enqueue(s, w, f);
            var held := w in s.workloads && Holds(s.marks, w, fl[i].Name);
            && t.used == s.used && t.workloads == s.workloads
            && Charged(t.workloads, t.marks, fl[i].Name, k)
                 == Get(s.used[i], k) - (if held then Get(Total(w), k) else 0.0)
  {
    hide StableSort;
    var t := Enqueue(s, w, f);
    if w in s.workloads {
      assert w in multiset(s.workloads);
      ChargedWithout(s.workloads, s.marks, w, fl[i].Name, k, f);
      ChargedSame(s.workloads, s.marks[w := Mark(Finished, f)], t.marks, fl[i].Name, k);
    } else {
      ChargedSame(s.workloads, s.marks, t.marks, fl[i].Name, k);
    }
    assert Get(s.used[i], k) == Charged(s.workloads, s.marks, fl[i].Name, k);
  }

  /**
   * Enqueue takes any workload. It keeps the ledger exactly when the workload is not charged here,
   * or its charge is nothing: one that is submitted again while Admitted falls out of the sum.
   */
  lemma {:induction false} SubmitKeepsLedgerIff(fl: seq<FlavorQuota>, s: QueueState, w: Workload, f: string)
    requires DistinctNames(fl) && QueueInvariant(fl, s)
    ensures Ledger(fl, Enqueue(s, w, f)) <==> !IsCharged(s, w) || NothingToFree(fl, w, FlavorOf(s, w))
  {
    hide Enqueue, QueueInvariant;
    AtMostOnce(fl, s, w);
    InvariantLedger(fl, s);
    var t, c := Enqueue(s, w, f), FindFlavor(fl, FlavorOf(s, w));
    EnqueueUses(s, w, f);
    if !IsCharged(s, w) || NothingToFree(fl, w, FlavorOf(s, w)) {
      forall i, k | 0 <= i < |fl| ensures Get(t.used[i], k) == Charged(t.workloads, t.marks, fl[i].Name, k) {
        EnqueueSums(fl, s, w, f, i, k);
        assert c == |fl| ==> fl[i].Name != FlavorOf(s, w);
      }
    } else {
      var k :| Get(Total(w), k) != 0.0;
      EnqueueSums(fl, s, w, f, c, k);
      assert Holds(s.marks, w, fl[c].Name);
      assert Get(t.used[c], k) != Charged(t.workloads, t.marks, fl[c].Name, k);
    }
  }

  lemma {:induction false} InvariantLedger(fl: seq<FlavorQuota>, s: QueueState)
    requires QueueInvariant(fl, s)
    ensures Ledger(fl, s)
  {
  }

  lemma {:induction false} EnqueueUses(s: QueueState, w: Workload, f: string)
    ensures var t := Enqueue(s, w, f); t.used == s.used && t.workloads == s.workloads
  {
  }

  /** A submission keeps the whole invariant exactly for a new workload with a non-negative request. */
  lemma {:induction false} SubmitKeepsInvariantIff(fl: seq<FlavorQuota>, s: QueueState, w: Workload, f: string)
    requires QueueInvariant(fl, s)
    ensures QueueInvariant(fl, Enqueue(s, w, f)) <==>
            w !in s.queue && w !in s.workloads && NonNegative(Total(w))
  {
    hide QueueInvariant, NonNegative, Enqueue;
    if w !in s.queue && w !in s.workloads && NonNegative(Total(w)) {
      SubmitKeepsInvariant(fl, s, w, f);
    }
    if QueueInvariant(fl, Enqueue(s, w, f)) {
      SubmitNeedsNew(fl, s, w, f);
    }
  }

  lemma {:induction false} SubmitNeedsNew(fl: seq<FlavorQuota>, s: QueueState, w: Workload, f: string)
    requires QueueInvariant(fl, Enqueue(s, w, f))
    ensures w !in s.queue && w !in s.workloads && NonNegative(Total(w))
  {
    hide Ledger, Bounded, KeysListed, NonNegative, StableSort;
    var t := Enqueue(s, w, f);
    StableSortCorrect(s.queue + [w]);
    assert multiset(t.queue) == multiset(s.queue) + multiset{w};
    assert w in multiset(t.queue) && w in Everyone(t, t.queue);
    assert multiset(s.queue)[w] + multiset(s.workloads)[w] == 0;
    assert w !in multiset(s.queue) && w !in multiset(s.workloads);
  }

  lemma {:induction false} ReleaseBounded(fl: seq<FlavorQuota>, s: QueueState, w: Workload)
    requires QueueInvariant(fl, s) && DistinctNames(fl)
    requires w in s.workloads && s.marks[w].status == Admitted
    ensures Bounded(fl, ReleaseIn(fl, s, w, FlavorOf(s, w)).used)
  {
    var t, c := ReleaseIn(fl, s, w, FlavorOf(s, w)), FindFlavor(fl, FlavorOf(s, w));
    assert w in Everyone(s, s.queue) && multiset(s.workloads)[w] == 1;
    if c < |fl| {
      assert Holds(s.marks, w, fl[c].Name);
      assert t.used[c].Keys == s.used[c].Keys;
      forall k | k in t.used[c] ensures 0.0 <= t.used[c][k] <= s.used[c][k] {
        FinishKeepsLedgerIff(fl, s, w, FlavorOf(s, w));
        assert Get(t.used[c], k) == Charged(t.workloads, t.marks, fl[c].Name, k);
        ChargedNonNegative(t.workloads, t.marks, fl[c].Name, k);
        assert NonNegative(Total(w));
      }
    }
  }

  lemma {:induction false} FinishKeepsInvariant(fl: seq<FlavorQuota>, s: QueueState, w: Workload)
    requires QueueInvariant(fl, s) && DistinctNames(fl)
    requires w in s.workloads && s.marks[w].status == Admitted
    ensures QueueInvariant(fl, ReleaseIn(fl, s, w, FlavorOf(s, w)))
  {
    var t, c := ReleaseIn(fl, s, w, FlavorOf(s, w)), FindFlavor(fl, FlavorOf(s, w));
    FinishKeepsLedgerIff(fl, s, w, FlavorOf(s, w));
    ReleaseBounded(fl, s, w);
    assert w in Everyone(s, s.queue) && w in multiset(s.workloads) && w !in multiset(s.queue);
    assert Everyone(t, t.queue) == Everyone(s, s.queue);
    forall i, v | 0 <= i < |fl| && v in t.workloads && Holds(t.marks, v, fl[i].Name)
      ensures Total(v).Keys <= t.used[i].Keys
    {
      assert v != w && Holds(s.marks, v, fl[i].Name);
    }
  }
}
