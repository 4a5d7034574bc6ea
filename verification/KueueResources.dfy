/** Resource lists of mini-kueue: finite maps from a resource name to an exact amount. */
module KueueResources {

  type ResourceList = map<string, real>

  /** The amount listed for k; a missing key counts as zero, as in a Go map read. */
  function Get(r: ResourceList, k: string): real {
    if k in r then r[k] else 0.0
  }

  function Plus(a: ResourceList, b: ResourceList): ResourceList {
    map k | k in a.Keys + b.Keys :: Get(a, k) + Get(b, k)
  }

  function Minus(a: ResourceList, b: ResourceList): ResourceList {
    map k | k in a.Keys + b.Keys :: Get(a, k) - Get(b, k)
  }

  function Scale(r: ResourceList, n: int): ResourceList {
    map k | k in r :: r[k] * (n as real)
  }

  /** Only keys that the capacity lists are compared. */
  predicate Within(r: ResourceList, capacity: ResourceList) {
    forall k :: k in r && k in capacity ==> r[k] <= capacity[k]
  }

  predicate NonNegative(r: ResourceList) {
    forall k :: k in r ==> r[k] >= 0.0
  }

  method Clone(r: ResourceList) returns (result: ResourceList)
    ensures result == r
  {
    result := map[];
    var rest := r.Keys;
    while rest != {}
      invariant rest <= r.Keys
      invariant result.Keys == r.Keys - rest
      invariant forall k :: k in result ==> result[k] == r[k]
    {
      var k :| k in rest;
      result := result[k := r[k]];
      rest := rest - {k};
    }
  }

  method Add(r: ResourceList, other: ResourceList) returns (result: ResourceList)
    ensures result == Plus(r, other)
  {
    result := Clone(r);
    var rest := other.Keys;
    while rest != {}
      invariant rest <= other.Keys
      invariant result.Keys == r.Keys + (other.Keys - rest)
      invariant forall k :: k in result ==>
        result[k] == if k in other && k !in rest then Get(r, k) + other[k] else Get(r, k)
    {
      var k :| k in rest;
      result := result[k := Get(result, k) + other[k]];
      rest := rest - {k};
    }
  }

  method Sub(r: ResourceList, other: ResourceList) returns (result: ResourceList)
    ensures result == Minus(r, other)
  {
    result := Clone(r);
    var rest := other.Keys;
    while rest != {}
      invariant rest <= other.Keys
      invariant result.Keys == r.Keys + (other.Keys - rest)
      invariant forall k :: k in result ==>
        result[k] == if k in other && k !in rest then Get(r, k) - other[k] else Get(r, k)
    {
      var k :| k in rest;
      result := result[k := Get(result, k) - other[k]];
      rest := rest - {k};
    }
  }

  method Fits(r: ResourceList, capacity: ResourceList) returns (fits: bool)
    ensures fits <==> Within(r, capacity)
  {
    var rest := r.Keys;
    while rest != {}
      invariant rest <= r.Keys
      invariant forall k :: k in r && k !in rest && k in capacity ==> r[k] <= capacity[k]
    {
      var k :| k in rest;
      if k in capacity && r[k] > capacity[k] {
        return false;
      }
      rest := rest - {k};
    }
    return true;
  }
}
