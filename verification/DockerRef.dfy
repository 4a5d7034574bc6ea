/**
 * Two independent readings of an image name in mini-docker: the daemon's API rewrites the name it
 * is given before it pulls, and the registry client parses whatever name it gets.
 */
module DockerRef {
  import opened Strings

  const LATEST := "latest"
  const HUB := "docker.io"
  const HUB_API := "registry-1.docker.io"
  const LIBRARY := "library"

  /** Name and tag: the text after the last colon is a tag unless it holds a slash. */
  function CutTag(raw: string): (string, string) {
    var i := LastIndex(raw, ':');
    if i >= 0 && '/' !in raw[i + 1..] then (raw[..i], raw[i + 1..]) else (raw, LATEST)
  }

  function Endpoint(registry: string): string {
    if registry == HUB then HUB_API else registry
  }

  /** The registry client's reading: registry, repository and tag. */
  function ParseRef(raw: string): (string, string, string) {
    var (name, tag) := CutTag(raw);
    var parts := SplitN(name, '/', 3);
    if |parts| == 1 then (HUB_API, LIBRARY + "/" + parts[0], tag)
    else if |parts| == 2 && '.' !in parts[0] then (HUB_API, Join(parts, '/'), tag)
    else (Endpoint(parts[0]), Join(parts[1..], '/'), tag)
  }

  /** The daemon's rewriting of the name it is given. */
  function NormalizeRef(raw: string): string {
    var (name, tag) := CutTag(raw);
    var parts := SplitN(name, '/', 3);
    if |parts| == 1 then HUB + "/" + LIBRARY + "/" + parts[0] + ":" + tag
    else if |parts| == 2 && '.' !in parts[0] then HUB + "/" + Join(parts, '/') + ":" + tag
    else Endpoint(parts[0]) + "/" + Join(parts[1..], '/') + ":" + tag
  }

  /** No text is lost: what is cut off is a colon and a simple tag, or there was none to cut off. */
  lemma {:induction false} CutTagKeepsText(raw: string)
    ensures var (name, tag) := CutTag(raw);
            || (raw == name + ":" + tag && '/' !in tag && ':' !in tag)
            || (name == raw && tag == "latest" && forall n, t :: raw == n + ":" + t ==> '/' in t || ':' in t)
  {
    var i := LastIndex(raw, ':');
    if i >= 0 { assert raw == raw[..i] + ":" + raw[i + 1..]; }
    hide LastIndex;
    forall n, t | raw == n + ":" + t ensures '/' in t || ':' in t || CutTag(raw) == (n, t) {
      if '/' !in t && ':' !in t { CutTagOf(n, t); }
    }
  }

  /** A simple tag behind any name is cut off. */
  lemma {:induction false} CutTagOf(name: string, tag: string)
    requires '/' !in tag && ':' !in tag
    ensures CutTag(name + ":" + tag) == (name, tag)
  {
    hide LastIndex;
    LastIndexOfLast(name, tag, ':');
    var s := name + ":" + tag;
    assert s[..|name|] == name && s[|name| + 1..] == tag;
  }

  lemma {:induction false} CutTagBack(raw: string, name: string)
    ensures '/' !in CutTag(raw).1 && ':' !in CutTag(raw).1
    ensures CutTag(name + ":" + CutTag(raw).1) == (name, CutTag(raw).1)
  {
    assert '/' !in LATEST && ':' !in LATEST;
    CutTagOf(name, CutTag(raw).1);
  }

  /** Does the name say which registry it comes from? */
  predicate Registered(a: string, b: string) {
    '.' in a || '/' in b
  }

  /** Both functions, by the name's first slash. */
  lemma {:induction false} Cases(raw: string, a: string, b: string)
    requires '/' !in a
    ensures CutTag(raw).0 == a ==>
              && ParseRef(raw) == (HUB_API, LIBRARY + "/" + a, CutTag(raw).1)
              && NormalizeRef(raw) == HUB + "/" + LIBRARY + "/" + a + ":" + CutTag(raw).1
    ensures CutTag(raw).0 == a + "/" + b ==>
            if Registered(a, b) then
              && ParseRef(raw) == (Endpoint(a), b, CutTag(raw).1)
              && NormalizeRef(raw) == Endpoint(a) + "/" + b + ":" + CutTag(raw).1
            else
              && ParseRef(raw) == (HUB_API, a + "/" + b, CutTag(raw).1)
              && NormalizeRef(raw) == HUB + "/" + (a + "/" + b) + ":" + CutTag(raw).1
  {
    hide CutTag, Join, SplitN;
    SplitThree(a, b, '/');
    JoinOfSplitN(a + "/" + b, '/', 3);
    assert a + "/" + b == a + ['/'] + b;
  }

  /** Both functions, with the names of Docker Hub written out. */
  lemma {:induction false} Readings(raw: string, a: string, b: string)
    requires '/' !in a
    ensures var (name, tag) := CutTag(raw);
            name == a ==>
              && ParseRef(raw) == ("registry-1.docker.io", "library/" + a, tag)
              && NormalizeRef(raw) == "docker.io/library/" + a + ":" + tag
    ensures var (name, tag) := CutTag(raw);
            var endpoint := if a == "docker.io" then "registry-1.docker.io" else a;
            name == a + "/" + b ==>
              if '.' in a || '/' in b
              then ParseRef(raw) == (endpoint, b, tag) && NormalizeRef(raw) == endpoint + "/" + b + ":" + tag
              else
                && ParseRef(raw) == ("registry-1.docker.io", name, tag)
                && NormalizeRef(raw) == "docker.io/" + name + ":" + tag
  {
    hide CutTag, ParseRef, NormalizeRef;
    Cases(raw, a, b);
    assert HUB + "/" + LIBRARY + "/" + a == "docker.io/library/" + a;
    assert LIBRARY + "/" + a == "library/" + a;
    assert HUB + "/" + (a + "/" + b) == "docker.io/" + (a + "/" + b);
  }

  /** Parsing a name that already says its registry. */
  lemma {:induction false} ParseRegistered(raw: string, a: string, b: string)
    requires '/' !in a && Registered(a, b)
    ensures var tag := CutTag(raw).1; var s := a + "/" + b + ":" + tag;
            && ParseRef(s) == (Endpoint(a), b, tag)
            && NormalizeRef(s) == Endpoint(a) + "/" + b + ":" + tag
  {
    hide CutTag, ParseRef, NormalizeRef;
    CutTagBack(raw, a + "/" + b);
    Cases(a + "/" + b + ":" + CutTag(raw).1, a, b);
  }

  lemma {:induction false} FirstSlash(name: string) returns (a: string, b: string)
    ensures '/' !in a
    ensures if '/' in name then name == a + "/" + b else name == a
  {
    var i := Index(name, '/');
    a, b := name, "";
    if i >= 0 { a, b := name[..i], name[i + 1..]; }
  }

  lemma {:induction false} HubNames()
    ensures '/' !in HUB && '/' !in HUB_API && '.' in HUB && '.' in HUB_API
  {
    assert HUB[6] == '.' && HUB_API[17] == '.';
  }

  /** The daemon's rewriting never changes which image is pulled, for any text at all. */
  lemma {:induction false} NormalizeKeepsMeaning(raw: string)
    ensures ParseRef(NormalizeRef(raw)) == ParseRef(raw)
  {
    hide CutTag, ParseRef, NormalizeRef, Registered, Endpoint;
    var name := CutTag(raw).0;
    var a, b := FirstSlash(name);
    Cases(raw, a, b);
    HubNames();
    Rewritten(raw, a, b);
  }

  /** The three shapes of a rewritten name, each parsed. */
  lemma {:induction false} Rewritten(raw: string, a: string, b: string)
    requires '/' !in a
    ensures ParseRef(HUB + "/" + LIBRARY + "/" + a + ":" + CutTag(raw).1) ==
            (HUB_API, LIBRARY + "/" + a, CutTag(raw).1)
    ensures ParseRef(HUB + "/" + (a + "/" + b) + ":" + CutTag(raw).1) ==
            (HUB_API, a + "/" + b, CutTag(raw).1)
    ensures Registered(a, b) ==>
            ParseRef(Endpoint(a) + "/" + b + ":" + CutTag(raw).1) == (Endpoint(a), b, CutTag(raw).1)
  {
    hide CutTag, ParseRef, NormalizeRef;
    var tag := CutTag(raw).1;
    HubNames();
    assert HUB + "/" + LIBRARY + "/" + a + ":" + tag == HUB + "/" + (LIBRARY + "/" + a) + ":" + tag;
    ParseRegistered(raw, HUB, LIBRARY + "/" + a);
    ParseRegistered(raw, HUB, a + "/" + b);
    if Registered(a, b) { ParseRegistered(raw, Endpoint(a), b); }
  }

  /**
   * The colon of a port is not a tag, whatever stands for the port: the text before the slash is the
   * registry if it has a dot or a second slash follows; otherwise it is part of the repository.
   */
  lemma {:induction false} PortCases(host: string, p: string, rest: string)
    requires '/' !in host && ':' !in host && '/' !in p && ':' !in p && ':' !in rest
    ensures var raw := host + ":" + p + "/" + rest;
            if '.' in host || '.' in p || '/' in rest then
              && ParseRef(raw) == (host + ":" + p, rest, "latest")
              && NormalizeRef(raw) == raw + ":" + "latest"
            else
              && ParseRef(raw) == ("registry-1.docker.io", raw, "latest")
              && NormalizeRef(raw) == "docker.io/" + raw + ":" + "latest"
  {
    hide ParseRef, NormalizeRef, LastIndex;
    var a, after := host + ":" + p, p + "/" + rest;
    var raw := a + "/" + rest;
    assert raw == host + ":" + after;
    LastIndexOfLast(host, after, ':');
    assert raw[|host| + 1..] == after && after[|p|] == '/';
    assert CutTag(raw) == (raw, "latest");
    hide CutTag;
    Readings(raw, a, rest);
    assert a[|host|] == ':' && ':' !in "docker.io";
    assert '.' in a <==> '.' in host || '.' in p;
  }

  /** The name, without its tag, says its registry: a dot before the first slash, or two slashes. */
  predicate SaysRegistry(raw: string) {
    var name := CutTag(raw).0;
    var i := Index(name, '/');
    i >= 0 && Registered(name[..i], name[i + 1..])
  }

  /**
   * The rewriting is not idempotent: it names Docker Hub one way and rewrites that name another
   * way. It is so on exactly the names that say their registry; a third round changes nothing.
   */
  lemma {:induction false} NormalizeIdempotentIff(raw: string)
    ensures NormalizeRef(NormalizeRef(raw)) == NormalizeRef(raw) <==> SaysRegistry(raw)
    ensures var twice := NormalizeRef(NormalizeRef(raw)); NormalizeRef(twice) == twice
  {
    hide CutTag, ParseRef, NormalizeRef, Index;
    var name, tag := CutTag(raw).0, CutTag(raw).1;
    var i := Index(name, '/');
    HubNames();
    if SaysRegistry(raw) {
      var a, b := name[..i], name[i + 1..];
      assert name == a + "/" + b;
      Cases(raw, a, b);
      ParseRegistered(raw, Endpoint(a), b);
    } else {
      var rest := if i >= 0 then name else LIBRARY + "/" + name;
      assert NormalizeRef(raw) == HUB + "/" + rest + ":" + tag by {
        if i >= 0 {
          assert name == name[..i] + "/" + name[i + 1..];
          Cases(raw, name[..i], name[i + 1..]);
        } else {
          Cases(raw, name, "");
          assert HUB + "/" + LIBRARY + "/" + name + ":" + tag == HUB + "/" + rest + ":" + tag;
        }
      }
      assert '/' in rest by {
        if i >= 0 { assert rest[i] == '/'; } else { assert rest[|LIBRARY|] == '/'; }
      }
      ParseRegistered(raw, HUB, rest);
      ParseRegistered(raw, HUB_API, rest);
      assert |HUB + "/" + rest + ":" + tag| < |HUB_API + "/" + rest + ":" + tag|;
    }
  }
}
