/** ClusterQueue: the object whose methods carry out QueueState's transitions in place. */
module KueueClusterQueue {
  import opened KueueResources
  import opened KueueTypes
  import opened KueueOrder
  import opened KueueAdmission

  class ClusterQueue {
    const Name: string
    const Flavors: seq<FlavorQuota>
    var Workloads: seq<Workload>
    var Queue: seq<Workload>
    /** Every workload this queue has handled. */
    ghost var Known: set<Workload>

    ghost predicate Valid()
      reads this
    {
      && (forall i, j :: 0 <= i < j < |Flavors| ==> Flavors[i] != Flavors[j])
      && (forall w :: w in Workloads ==> w in Known)
      && (forall w :: w in Queue ==> w in Known)
    }

    ghost function Usage(): (u: seq<ResourceList>)
      reads Flavors
      ensures |u| == |Flavors|
      ensures forall i :: 0 <= i < |u| ==> u[i] == Flavors[i].Used
    {
      seq(|Flavors|, i requires 0 <= i < |Flavors| reads Flavors => Flavors[i].Used)
    }

    ghost function Marks(): (m: map<Workload, Mark>)
      reads this, Known
    {
      map w | w in Known :: Mark(w.Status, w.FlavorName)
    }

    ghost function View(): (s: QueueState)
      reads this, Flavors, Known
    {
      QueueState(Usage(), Workloads, Queue, Marks())
    }

    constructor (name: string, flavors: seq<FlavorQuota>)
      requires forall i, j :: 0 <= i < j < |flavors| ==> flavors[i] != flavors[j]
      ensures Valid() && Name == name && Flavors == flavors
      ensures Workloads == [] && Queue == [] && Known == {}
    {
      Name, Flavors, Workloads, Queue, Known := name, flavors, [], [], {};
    }

    /** The branch of AssignFlavor that has found its flavor. */
    method Admit(w: Workload, i: nat, req: ResourceList)
      requires Valid() && w in Known && i < |Flavors|
      modifies this`Workloads, w, Flavors[i]
      ensures Valid() && Known == old(Known)
      ensures Usage() == old(Usage())[i := Plus(old(Usage())[i], req)]
      ensures Marks() == old(Marks())[w := Mark(Admitted, Flavors[i].Name)]
      ensures Workloads == old(Workloads) + [w] && Queue == old(Queue)
    {
      Flavors[i].Reserve(req);
      w.FlavorName := Flavors[i].Name;
      w.Status := Admitted;
      Workloads := Workloads + [w];
    }

    /** The loop of AssignFlavor: the first flavor that takes the request, or their number. */
    method FindFit(req: ResourceList) returns (i: nat)
      ensures i == FirstFit(Flavors, Usage(), req)
    {
      i := 0;
      var fits := false;
      while i < |Flavors| && !fits
        invariant 0 <= i <= |Flavors|
        invariant forall j :: 0 <= j < i ==> !Accepts(Flavors[j], Flavors[j].Used, req)
        invariant fits ==> i < |Flavors| && Accepts(Flavors[i], Flavors[i].Used, req)
        decreases |Flavors| - i, !fits
      {
        fits := Flavors[i].CanFit(req);
        if !fits {
          i := i + 1;
        }
      }
    }

    method AssignFlavor(w: Workload) returns (ok: bool)
      requires Valid() && w in Known
      modifies this`Workloads, w, Flavors
      ensures Valid() && Known == old(Known)
      ensures ok <==> FirstFit(Flavors, old(Usage()), Total(w)) < |Flavors|
      ensures View() == Assign(Flavors, old(View()), w)
    {
      hide FirstFit, Accepts;
      var req := w.TotalRequests();
      var i := FindFit(req);
      ok := i < |Flavors|;
      if ok {
        Admit(w, i, req);
      }
    }

    /** The loop of ReleaseWorkload: the first flavor of the name is freed. */
    method ReleaseFlavor(name: string, req: ResourceList)
      requires Valid()
      modifies Flavors
      ensures Valid()
      ensures var i := FindFlavor(Flavors, name);
              Usage() == if i < |Flavors| then old(Usage())[i := Minus(old(Usage())[i], req)] else old(Usage())
    {
      var i := 0;
      while i < |Flavors| && Flavors[i].Name != name
        invariant 0 <= i <= |Flavors|
        invariant forall j :: 0 <= j < i ==> Flavors[j].Name != name
      {
        i := i + 1;
      }
      assert FindFlavor(Flavors, name) == i;
      if i < |Flavors| {
        Flavors[i].Release(req);
        assert Usage() == old(Usage())[i := Minus(old(Usage())[i], req)];
      }
    }

    method ReleaseWorkload(w: Workload)
      requires Valid()
      modifies this`Known, w, Flavors
      ensures Valid() && Known == old(Known) + {w}
      ensures View() == ReleaseIn(Flavors, old(View()), w, old(w.FlavorName))
    {
      var req := w.TotalRequests();
      ReleaseFlavor(w.FlavorName, req);
      label Freed:
      w.Status := Finished;
      Known := Known + {w};
      assert Usage() == old@Freed(Usage());
      assert Marks() == old(Marks())[w := Mark(Finished, old(w.FlavorName))];
    }

    method Enqueue(w: Workload)
      requires Valid()
      modifies this`Queue, this`Known, w`Status
      ensures Valid() && Known == old(Known) + {w}
      ensures View() == KueueAdmission.Enqueue(old(View()), w, w.FlavorName)
    {
      hide StableSort;
      w.Status := Pending;
      Queue := Queue + [w];
      Known := Known + {w};
      assert Usage() == old(Usage());
      assert Marks() == old(Marks())[w := Mark(Pending, w.FlavorName)];
      SortQueue();
    }

    /** The library's stable sort; by StableSortUnique its result is determined. */
    method SortQueue()
      requires Valid()
      modifies this`Queue
      ensures Valid()
      ensures Queue == StableSort(old(Queue))
    {
      StableSortCorrect(Queue);
      forall w | w in StableSort(Queue) ensures w in Queue {
        assert w in multiset(StableSort(Queue));
      }
      Queue := StableSort(Queue);
    }

    /** null stands for the nil that an empty queue returns. */
    method Dequeue() returns (w: Workload?)
      modifies this`Queue
      ensures old(Queue) == [] ==> w == null && Queue == []
      ensures old(Queue) != [] ==> w == old(Queue)[0] && Queue == old(Queue)[1..]
    {
      if Queue == [] {
        return null;
      }
      w := Queue[0];
      Queue := Queue[1..];
    }
  }
}
