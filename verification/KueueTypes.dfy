/** Workloads, flavors and the order in which a ClusterQueue considers its workloads. */
module KueueTypes {
  import opened KueueResources

  /** Unset is the empty string a workload carries before it is enqueued. */
  datatype Status = Unset | Pending | Admitted | Rejected | Finished

  /** A workload is known by its reference; only Status and FlavorName change. */
  class Workload {
    const Name: string
    const Namespace: string
    const QueueName: string
    const Resources: ResourceList
    const PodCount: int
    const Priority: int
    const CreatedAt: int
    var FlavorName: string
    var Status: Status

    constructor (name: string, ns: string, queueName: string, resources: ResourceList,
                 podCount: int, priority: int, now: int)
      ensures Name == name && Namespace == ns && QueueName == queueName
      ensures Resources == resources && PodCount == podCount
      ensures Priority == priority && CreatedAt == now
      ensures FlavorName == "" && Status == Unset
    {
      Name, Namespace, QueueName := name, ns, queueName;
      Resources, PodCount, Priority, CreatedAt := resources, podCount, priority, now;
      FlavorName, Status := "", Unset;
    }

    method TotalRequests() returns (result: ResourceList)
      ensures result == Total(this)
      ensures result.Keys == Resources.Keys
      ensures forall k :: k in Resources ==> result[k] == Resources[k] * (PodCount as real)
    {
      result := map[];
      var rest := Resources.Keys;
      while rest != {}
        invariant rest <= Resources.Keys
        invariant result.Keys == Resources.Keys - rest
        invariant forall k :: k in result ==> result[k] == Total(this)[k]
      {
        var k :| k in rest;
        result := result[k := Resources[k] * (PodCount as real)];
        rest := rest - {k};
      }
    }
  }

  /** What a workload asks for: the request of one pod times the number of pods. */
  function Total(w: Workload): ResourceList {
    Scale(w.Resources, w.PodCount)
  }

  /** A named bucket with its own quota. Only Used changes. */
  class FlavorQuota {
    const Name: string
    const Resources: ResourceList
    var Used: ResourceList

    constructor (name: string, resources: ResourceList)
      ensures Name == name && Resources == resources && Used == map[]
    {
      Name, Resources, Used := name, resources, map[];
    }

    method Available() returns (free: ResourceList)
      ensures free == Minus(Resources, Used)
    {
      var r := Clone(Resources);
      free := Sub(r, Used);
    }

    method CanFit(req: ResourceList) returns (fits: bool)
      ensures fits <==> Accepts(this, Used, req)
    {
      var rest := req.Keys;
      while rest != {}
        invariant rest <= req.Keys
        invariant forall k :: k in req && k !in rest ==> k in Resources
      {
        var k :| k in rest;
        if k !in Resources {
          return false;
        }
        rest := rest - {k};
      }
      var free := Available();
      fits := Fits(req, free);
    }

    method Reserve(req: ResourceList)
      modifies this`Used
      ensures Used == Plus(old(Used), req)
    {
      Used := Add(Used, req);
    }

    method Release(req: ResourceList)
      modifies this`Used
      ensures Used == Minus(old(Used), req)
    {
      Used := Sub(Used, req);
    }
  }

  /** The flavor tracks every requested resource and, with `used` taken, has enough left. */
  predicate Accepts(fq: FlavorQuota, used: ResourceList, req: ResourceList) {
    && (forall k :: k in req ==> k in fq.Resources)
    && Within(req, Minus(fq.Resources, used))
  }

  /** In one line: everything asked for fits on top of what is taken. */
  lemma {:induction false} AcceptsMeaning(fq: FlavorQuota, used: ResourceList, req: ResourceList)
    ensures Accepts(fq, used, req) <==>
            forall k :: k in req ==> k in fq.Resources && Get(used, k) + req[k] <= fq.Resources[k]
  {
    if Accepts(fq, used, req) {
      forall k | k in req ensures Get(used, k) + req[k] <= fq.Resources[k] {
        assert k in Minus(fq.Resources, used);
      }
    }
  }

  /** Higher priority first, then the older workload. */
  predicate Before(a: Workload, b: Workload) {
    if a.Priority != b.Priority then a.Priority > b.Priority else a.CreatedAt < b.CreatedAt
  }

  predicate Sorted(q: seq<Workload>) {
    forall i, j :: 0 <= i < j < |q| ==> !Before(q[j], q[i])
  }

  /** The request is that of one pod, as often as there are pods. */
  lemma {:induction false} TotalMeans(w: Workload, k: string)
    ensures Get(Total(w), k) == Get(w.Resources, k) * (w.PodCount as real)
  {
  }
}
