/** The string searches of the Go library that the modelled code relies on. */
module Strings {

  /** strings.Index for one character: the first position, or -1. */
  function Index(s: string, c: char): (i: int)
    ensures -1 <= i < |s|
    ensures i >= 0 ==> s[i] == c && forall j :: 0 <= j < i ==> s[j] != c
    ensures i == -1 <==> c !in s
  {
    if s == "" then -1
    else if s[0] == c then 0
    else
      var i := Index(s[1..], c);
      assert s == [s[0]] + s[1..];
      if i < 0 then -1 else i + 1
  }

  /** strings.LastIndex for one character: the last position, or -1. */
  function LastIndex(s: string, c: char): (i: int)
    ensures -1 <= i < |s|
    ensures i >= 0 ==> s[i] == c && forall j :: i < j < |s| ==> s[j] != c
    ensures i == -1 <==> c !in s
  {
    if s == "" then -1
    else if s[|s| - 1] == c then |s| - 1
    else
      var i := LastIndex(s[..|s| - 1], c);
      assert s == s[..|s| - 1] + [s[|s| - 1]];
      i
  }

  /** strings.Split at one character. */
  function Split(s: string, c: char): (parts: seq<string>)
    ensures |parts| >= 1
    decreases |s|
  {
    var i := Index(s, c);
    if i < 0 then [s] else [s[..i]] + Split(s[i + 1..], c)
  }

  /** strings.Join with a one-character separator. */
  function Join(parts: seq<string>, c: char): string {
    if |parts| == 0 then ""
    else if |parts| == 1 then parts[0]
    else parts[0] + [c] + Join(parts[1..], c)
  }

  lemma {:induction false} IndexOfFirst(a: string, b: string, c: char)
    requires c !in a
    ensures Index(a + [c] + b, c) == |a|
  {
    var s := a + [c] + b;
    assert s[|a|] == c;
    forall j | 0 <= j < |a| ensures s[j] != c {
      assert s[j] == a[j];
    }
  }

  lemma {:induction false} LastIndexOfLast(a: string, b: string, c: char)
    requires c !in b
    ensures LastIndex(a + [c] + b, c) == |a|
  {
    var s := a + [c] + b;
    assert s[|a|] == c;
    forall j | |a| < j < |s| ensures s[j] != c {
      assert s[j] == b[j - |a| - 1];
    }
  }

  lemma {:induction false} SplitFirst(a: string, b: string, c: char)
    requires c !in a
    ensures Split(a + [c] + b, c) == [a] + Split(b, c)
  {
    IndexOfFirst(a, b, c);
    var s := a + [c] + b;
    assert s[..|a|] == a && s[|a| + 1..] == b;
  }

  lemma {:induction false} SplitPieces(s: string, c: char, k: nat)
    requires k < |Split(s, c)|
    ensures c !in Split(s, c)[k]
    decreases |s|
  {
    var i := Index(s, c);
    if i >= 0 && k > 0 { SplitPieces(s[i + 1..], c, k - 1); }
  }

  lemma {:induction false} SplitOfJoin(parts: seq<string>, c: char)
    requires parts != []
    requires forall k :: 0 <= k < |parts| ==> c !in parts[k]
    ensures Split(Join(parts, c), c) == parts
  {
    if |parts| > 1 {
      var rest := parts[1..];
      SplitOfJoin(rest, c);
      SplitFirst(parts[0], Join(rest, c), c);
      assert parts == [parts[0]] + rest;
    }
  }

  /** A joined list can be read back exactly when no element contains the separator. */
  lemma {:induction false} SplitJoinIff(parts: seq<string>, c: char)
    requires parts != []
    ensures Split(Join(parts, c), c) == parts <==> forall k :: 0 <= k < |parts| ==> c !in parts[k]
  {
    if Split(Join(parts, c), c) == parts {
      forall k | 0 <= k < |parts| ensures c !in parts[k] {
        SplitPieces(Join(parts, c), c, k);
      }
    } else if forall k :: 0 <= k < |parts| ==> c !in parts[k] {
      SplitOfJoin(parts, c);
    }
  }

  /** strings.SplitN at one character, for a positive limit: the last piece keeps the rest. */
  function SplitN(s: string, c: char, n: nat): (parts: seq<string>)
    requires n >= 1
    ensures 1 <= |parts| <= n
    decreases n
  {
    var i := Index(s, c);
    if n == 1 || i < 0 then [s] else [s[..i]] + SplitN(s[i + 1..], c, n - 1)
  }

  lemma {:induction false} JoinOfSplitN(s: string, c: char, n: nat)
    requires n >= 1
    ensures Join(SplitN(s, c, n), c) == s
    decreases n
  {
    hide Index;
    var i := Index(s, c);
    if n > 1 && i >= 0 {
      var rest := SplitN(s[i + 1..], c, n - 1);
      JoinOfSplitN(s[i + 1..], c, n - 1);
      assert SplitN(s, c, n) == [s[..i]] + rest;
      hide SplitN;
      assert ([s[..i]] + rest)[1..] == rest;
      assert s == s[..i] + [c] + s[i + 1..];
    }
  }

  /** How SplitN with a limit of three divides a string at its first separator. */
  lemma {:induction false} SplitThree(a: string, b: string, c: char)
    requires c !in a
    ensures SplitN(a, c, 3) == [a]
    ensures var parts := SplitN(a + [c] + b, c, 3);
            && parts[0] == a && Join(parts[1..], c) == b
            && |parts| == (if c in b then 3 else 2)
  {
    IndexOfFirst(a, b, c);
    var s := a + [c] + b;
    assert s[..|a|] == a && s[|a| + 1..] == b;
    var parts := SplitN(s, c, 3);
    assert parts[1..] == SplitN(b, c, 2);
    JoinOfSplitN(b, c, 2);
  }

  /** A prefix without the character shifts every search by its length. */
  lemma {:induction false} SearchShifts(p: string, v: string, c: char)
    requires c !in p
    ensures Index(p + v, c) == if Index(v, c) < 0 then -1 else |p| + Index(v, c)
    ensures LastIndex(p + v, c) == if LastIndex(v, c) < 0 then -1 else |p| + LastIndex(v, c)
  {
    var s := p + v;
    assert forall j :: 0 <= j < |p| ==> s[j] == p[j];
    assert forall j :: 0 <= j < |v| ==> s[|p| + j] == v[j];
    if c in v {
      assert s[|p| + Index(v, c)] == c;
    }
  }
}
