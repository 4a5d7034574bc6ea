/**
 * The reference parser of mini-nerdctl: a raw image name is decomposed into registry,
 * repository and tag, and printed back in canonical form.
 */
module Reference {
  import opened Strings

  datatype ParseResult = ParseResult(registry: string, repo: string, tag: string)

  const DEFAULT_REGISTRY := "docker.io"
  const OFFICIAL_PREFIX := "library"
  const DEFAULT_TAG := "latest"

  predicate IsPort(s: string) {
    1 <= |s| <= 5 && forall k :: 0 <= k < |s| ==> '0' <= s[k] <= '9'
  }

  /** The last colon that does not separate a port, or -1. */
  function LastNonPortColon(s: string): (i: int)
    ensures -1 <= i < |s|
    ensures i >= 0 ==> s[i] == ':'
  {
    var last := LastIndex(s, ':');
    if last < 0 then -1
    else
      var after := s[last + 1..];
      var slash := Index(after, '/');
      if slash >= 0 && IsPort(after[..slash]) then LastIndex(s[..last], ':') else last
  }

  /** The position of the tag separator, or -1. */
  function SplitTag(raw: string): (i: int)
    ensures -1 <= i < |raw|
    ensures i >= 0 ==> raw[i] == ':'
  {
    var at := Index(raw, '@');
    if at >= 0 then LastNonPortColon(raw[..at])
    else
      var i := LastNonPortColon(raw);
      if i >= 0 && i == |raw| - 1 then -1 else i
  }

  /** Registry and repository of a name that has lost its tag. */
  function Qualify(name: string): (string, string) {
    var parts := SplitN(name, '/', 3);
    var registry := if |parts| >= 2 && ('.' in parts[0] || ':' in parts[0]) then parts[0] else DEFAULT_REGISTRY;
    var repo :=
      if |parts| >= 2 && ('.' in parts[0] || ':' in parts[0]) then Join(parts[1..], '/')
      else if |parts| == 1 then OFFICIAL_PREFIX + "/" + parts[0]
      else Join(parts, '/');
    (registry, if registry == DEFAULT_REGISTRY && '/' !in repo then OFFICIAL_PREFIX + "/" + repo else repo)
  }

  function Parse(raw: string): ParseResult {
    var i := SplitTag(raw);
    var name := if i >= 0 then raw[..i] else raw;
    var tag := if i >= 0 then raw[i + 1..] else DEFAULT_TAG;
    var (registry, repo) := Qualify(name);
    ParseResult(registry, repo, tag)
  }

  function Name(registry: string, repo: string): string {
    registry + "/" + repo
  }

  function Print(r: ParseResult): string {
    Name(r.registry, r.repo) + ":" + r.tag
  }

  function Normalize(raw: string): string {
    Print(Parse(raw))
  }

  /** Neither a tag separator nor a digest separator. */
  predicate Plain(s: string) {
    ':' !in s && '@' !in s
  }

  // ---- Searching behind a plain prefix ----

  lemma {:induction false} ColonBetween(a: string, b: string)
    requires ':' !in b
    ensures LastNonPortColon(a + ":" + b) ==
            if '/' in b && IsPort(b[..Index(b, '/')]) then LastIndex(a, ':') else |a|
  {
    hide IsPort, Index, LastIndex;
    LastIndexOfLast(a, b, ':');
    var s := a + ":" + b;
    assert s[|a| + 1..] == b;
    assert s[..|a|] == a;
  }

  lemma {:induction false} ColonShifts(p: string, v: string)
    requires ':' !in p
    ensures LastNonPortColon(p + v) == if LastNonPortColon(v) < 0 then -1 else |p| + LastNonPortColon(v)
  {
    hide IsPort, Index, LastIndex;
    var last := LastIndex(v, ':');
    if last < 0 {
      SearchShifts(p, v, ':');
    } else {
      var a, b := v[..last], v[last + 1..];
      hide LastNonPortColon;
      assert v == a + ":" + b;
      assert p + v == (p + a) + ":" + b;
      ColonBetween(a, b);
      ColonBetween(p + a, b);
      SearchShifts(p, a, ':');
    }
  }

  lemma {:induction false} SplitTagShifts(p: string, v: string)
    requires Plain(p)
    ensures SplitTag(p + v) == if SplitTag(v) < 0 then -1 else |p| + SplitTag(v)
  {
    hide LastNonPortColon, Index;
    SearchShifts(p, v, '@');
    var at := Index(v, '@');
    if at >= 0 {
      assert (p + v)[..|p| + at] == p + v[..at];
      ColonShifts(p, v[..at]);
    } else {
      ColonShifts(p, v);
    }
  }

  /** Appending a simple tag makes its colon the separator, unless a digest hides it. */
  lemma {:induction false} SplitTagAfter(u: string, tag: string)
    requires tag != "" && Plain(tag) && '/' !in tag
    ensures '@' !in u ==> SplitTag(u + ":" + tag) == |u|
    ensures '@' in u ==> SplitTag(u + ":" + tag) == LastNonPortColon(u[..Index(u, '@')])
  {
    hide LastNonPortColon, Index;
    var s := u + ":" + tag;
    if '@' in u {
      var at := Index(u, '@');
      assert forall j :: 0 <= j < |u| ==> s[j] == u[j];
      assert Index(s, '@') == at;
      assert s[..at] == u[..at];
    } else {
      ColonBetween(u, tag);
    }
  }

  // ---- Qualified names ----

  /** The pairs that Qualify answers. */
  predicate Qualified(registry: string, repo: string) {
    && '/' !in registry
    && ('.' in registry || ':' in registry)
    && (registry == DEFAULT_REGISTRY ==> '/' in repo)
  }

  /** Qualify, by the first slash of its argument. */
  lemma {:induction false} QualifyCases(a: string, b: string)
    requires '/' !in a
    ensures Qualify(a) == (DEFAULT_REGISTRY, OFFICIAL_PREFIX + "/" + a)
    ensures var registered := '.' in a || ':' in a;
            Qualify(Name(a, b)) ==
            if !registered then (DEFAULT_REGISTRY, Name(a, b))
            else (a, if a == DEFAULT_REGISTRY && '/' !in b then OFFICIAL_PREFIX + "/" + b else b)
  {
    hide SplitN, Join;
    SplitThree(a, b, '/');
    assert Name(a, b) == a + ['/'] + b;
    JoinOfSplitN(Name(a, b), '/', 3);
    assert Name(a, b)[|a|] == '/';
    assert (OFFICIAL_PREFIX + "/" + a)[|OFFICIAL_PREFIX|] == '/';
    assert SplitN(a, '/', 3) == [a] by { SplitThree(a, "", '/'); }
  }

  /** Qualify leaves exactly the qualified pairs alone. */
  lemma {:induction false} QualifiedUnchanged(registry: string, repo: string)
    requires '/' !in registry
    ensures Qualified(registry, repo) <==> Qualify(Name(registry, repo)) == (registry, repo)
  {
    hide Qualify;
    QualifyCases(registry, repo);
    if registry == DEFAULT_REGISTRY && '/' !in repo {
      assert |OFFICIAL_PREFIX + "/" + repo| > |repo|;
    }
    if '.' !in registry && ':' !in registry {
      assert DEFAULT_REGISTRY[6] == '.';
    }
  }

  lemma {:induction false} PlainConstants()
    ensures Plain(DEFAULT_REGISTRY) && Plain(OFFICIAL_PREFIX) && Plain("/")
    ensures '.' in DEFAULT_REGISTRY && '/' !in DEFAULT_REGISTRY
  {
    assert DEFAULT_REGISTRY[6] == '.';
  }

  /** A name without a slash: a repository of the official library. */
  lemma {:induction false} OfficialPrefix(name: string) returns (p: string, q: string, x: string)
    requires '/' !in name
    ensures var (registry, repo) := Qualify(name); Qualified(registry, repo) && Name(registry, repo) == p + x
    ensures name == q + x && Plain(p) && Plain(q)
  {
    hide Qualify;
    PlainConstants();
    QualifyCases(name, "");
    p, q, x := DEFAULT_REGISTRY + "/" + OFFICIAL_PREFIX + "/", "", name;
    var repo := OFFICIAL_PREFIX + "/" + name;
    assert repo[|OFFICIAL_PREFIX|] == '/';
    assert Name(DEFAULT_REGISTRY, repo) == p + x;
  }

  /** A name with a slash, with or without a registry before it. */
  lemma {:induction false} SlashPrefix(a: string, b: string) returns (p: string, q: string, x: string)
    requires '/' !in a
    ensures var (registry, repo) := Qualify(Name(a, b)); Qualified(registry, repo) && Name(registry, repo) == p + x
    ensures Name(a, b) == q + x && Plain(p) && Plain(q)
  {
    hide Qualify;
    PlainConstants();
    QualifyCases(a, b);
    if '.' !in a && ':' !in a {
      p, q, x := DEFAULT_REGISTRY + "/", "", Name(a, b);
      assert Name(a, b)[|a|] == '/';
    } else if a == DEFAULT_REGISTRY && '/' !in b {
      p, q, x := DEFAULT_REGISTRY + "/" + OFFICIAL_PREFIX + "/", DEFAULT_REGISTRY + "/", b;
      var repo := OFFICIAL_PREFIX + "/" + b;
      assert repo[|OFFICIAL_PREFIX|] == '/';
      assert Name(DEFAULT_REGISTRY, repo) == p + x;
    } else {
      p, q, x := "", "", Name(a, b);
    }
  }

  /** The full name differs from the given one only in a plain prefix. */
  lemma {:induction false} QualifyPrefixes(name: string) returns (p: string, q: string, x: string)
    ensures Qualified(Qualify(name).0, Qualify(name).1)
    ensures Name(Qualify(name).0, Qualify(name).1) == p + x
    ensures name == q + x && Plain(p) && Plain(q)
  {
    hide Qualify, Qualified, Plain, Index;
    var slash := Index(name, '/');
    if slash < 0 {
      p, q, x := OfficialPrefix(name);
    } else {
      assert name == Name(name[..slash], name[slash + 1..]);
      p, q, x := SlashPrefix(name[..slash], name[slash + 1..]);
    }
  }

  // ---- The fixed point ----

  /** What Parse answers once the tag separator is known. */
  lemma {:induction false} ParseAt(name: string, tag: string)
    ensures SplitTag(name + ":" + tag) == |name| ==>
            Parse(name + ":" + tag) == ParseResult(Qualify(name).0, Qualify(name).1, tag)
    ensures SplitTag(name) < 0 ==>
            Parse(name) == ParseResult(Qualify(name).0, Qualify(name).1, DEFAULT_TAG)
  {
    hide SplitTag, Qualify;
    var s := name + ":" + tag;
    assert s[..|name|] == name && s[|name| + 1..] == tag;
  }

  lemma {:induction false} TaggedFixedPoint(name: string, tag: string)
    requires SplitTag(name + ":" + tag) == |name|
    ensures Parse(Normalize(name + ":" + tag)) == Parse(name + ":" + tag)
  {
    hide SplitTag, Qualify, Parse;
    var (registry, repo) := Qualify(name);
    var p, q, x := QualifyPrefixes(name);
    var v := x + ":" + tag;
    ParseAt(name, tag);
    ParseAt(Name(registry, repo), tag);
    assert name + ":" + tag == q + v;
    assert Name(registry, repo) + ":" + tag == p + v;
    SplitTagShifts(q, v);
    SplitTagShifts(p, v);
    QualifiedUnchanged(registry, repo);
  }

  /** A name without a tag separator gets the default tag; a digest then hides that tag. */
  lemma {:induction false} UntaggedNormalizes(raw: string)
    requires SplitTag(raw) < 0
    ensures var (registry, repo) := Qualify(raw);
            && Normalize(raw) == Name(registry, repo) + ":" + DEFAULT_TAG
            && Parse(raw) == ParseResult(registry, repo, DEFAULT_TAG)
            && Qualified(registry, repo)
    ensures '@' !in raw ==> Parse(Normalize(raw)) == Parse(raw)
    ensures '@' in raw ==>
              && SplitTag(Normalize(raw)) < 0 && '@' in Normalize(raw)
              && Parse(Normalize(raw)) == Parse(raw).(repo := Parse(raw).repo + ":" + DEFAULT_TAG)
  {
    hide SplitTag, Qualify, Parse, LastNonPortColon, Index;
    var (registry, repo) := Qualify(raw);
    var p, q, x := QualifyPrefixes(raw);
    var name := Name(registry, repo);
    ParseAt(raw, DEFAULT_TAG);
    ParseAt(name, DEFAULT_TAG);
    SplitTagAfter(name, DEFAULT_TAG);
    if '@' in raw {
      DigestHidesTag(p, q, x);
      var longer := repo + ":" + DEFAULT_TAG;
      var s := name + ":" + DEFAULT_TAG;
      assert s == Name(registry, longer);
      assert s[|p| + Index(x, '@')] == '@';
      ParseAt(s, DEFAULT_TAG);
      QualifyCases(registry, longer);
    } else {
      assert '@' !in name;
      QualifiedUnchanged(registry, repo);
    }
  }

  lemma {:induction false} DigestHidesTag(p: string, q: string, x: string)
    requires Plain(p) && Plain(q) && '@' in x && SplitTag(q + x) < 0
    ensures SplitTag(p + x + ":" + DEFAULT_TAG) < 0
  {
    hide LastNonPortColon, Index;
    SplitTagShifts(q, x);
    SplitTagShifts(p, x);
    assert '@' in p + x by { assert (p + x)[|p| + Index(x, '@')] == '@'; }
    SplitTagAfter(p + x, DEFAULT_TAG);
  }

  /**
   * Parsing the canonical form gives the same parts again, exactly for the names that have no
   * digest, or whose tag separator comes before it.
   */
  lemma {:induction false} FixedPointIff(raw: string)
    ensures Parse(Print(Parse(raw))) == Parse(raw) <==> '@' !in raw || SplitTag(raw) >= 0
  {
    hide SplitTag, Qualify, Parse;
    var i := SplitTag(raw);
    if i >= 0 {
      assert raw == raw[..i] + ":" + raw[i + 1..];
      TaggedFixedPoint(raw[..i], raw[i + 1..]);
    } else {
      UntaggedNormalizes(raw);
    }
  }

  /** Normalizing is idempotent on exactly the same names; on the others every round adds a tag. */
  lemma {:induction false} NormalizeIdempotentIff(raw: string)
    ensures Normalize(Normalize(raw)) == Normalize(raw) <==> '@' !in raw || SplitTag(raw) >= 0
    ensures '@' in raw && SplitTag(raw) < 0 ==>
            Normalize(Normalize(raw)) == Normalize(raw) + ":" + DEFAULT_TAG
  {
    hide SplitTag, Qualify, Parse;
    FixedPointIff(raw);
    if '@' in raw && SplitTag(raw) < 0 {
      UntaggedNormalizes(raw);
    }
  }

  /** The other round trip: the parts of a canonical name are read back from its text. */
  lemma {:induction false} PrintParse(r: ParseResult)
    requires '/' !in r.registry && '@' !in r.registry && '@' !in r.repo
    requires r.tag != "" && Plain(r.tag) && '/' !in r.tag
    ensures Parse(Print(r)) == r <==> Qualified(r.registry, r.repo)
  {
    hide SplitTag, Qualify, Parse, LastNonPortColon, Index, Qualified;
    var name := Name(r.registry, r.repo);
    assert '@' !in name;
    SplitTagAfter(name, r.tag);
    ParseAt(name, r.tag);
    QualifiedUnchanged(r.registry, r.repo);
  }

  // ---- The documented forms ----

  /** A bare name is an official image of Docker Hub, with the tag it has or the default one. */
  lemma {:induction false} OfficialImages(name: string, tag: string)
    requires Plain(name) && '/' !in name
    ensures Normalize(name) == "docker.io/library/" + name + ":latest"
    ensures Plain(tag) && '/' !in tag && tag != "" ==>
            Normalize(name + ":" + tag) == "docker.io/library/" + name + ":" + tag
  {
    hide SplitTag, Qualify, Parse, LastNonPortColon, Index;
    PlainSplits(name);
    ParseAt(name, tag);
    QualifyCases(name, "");
    if Plain(tag) && '/' !in tag && tag != "" { SplitTagAfter(name, tag); }
    var full := Name(DEFAULT_REGISTRY, OFFICIAL_PREFIX + "/" + name);
    assert full == "docker.io/library/" + name;
    assert full + ":" + DEFAULT_TAG == "docker.io/library/" + name + ":latest";
  }

  /** A name with a registry is left as it is; only a missing tag is added. */
  lemma {:induction false} QualifiedNames(registry: string, repo: string, tag: string)
    requires '/' !in registry && Plain(registry) && Plain(repo) && '.' in registry
    requires registry == "docker.io" ==> '/' in repo
    ensures Normalize(registry + "/" + repo) == registry + "/" + repo + ":latest"
    ensures Plain(tag) && '/' !in tag && tag != "" ==>
            Normalize(registry + "/" + repo + ":" + tag) == registry + "/" + repo + ":" + tag
  {
    hide SplitTag, Qualify, Parse, LastNonPortColon, Index;
    var name := Name(registry, repo);
    PlainSplits(name);
    ParseAt(name, tag);
    QualifiedUnchanged(registry, repo);
    if Plain(tag) && '/' !in tag && tag != "" { SplitTagAfter(name, tag); }
    assert name + ":" + DEFAULT_TAG == name + ":latest";
  }

  lemma {:induction false} PlainSplits(name: string)
    requires Plain(name)
    ensures SplitTag(name) == -1
  {
  }

  /** A colon at the end separates no tag and stays in the repository. */
  lemma {:induction false} TrailingColon(name: string)
    requires Plain(name) && '/' !in name
    ensures Parse(name + ":") == ParseResult("docker.io", "library/" + name + ":", "latest")
  {
    hide Qualify, LastNonPortColon, Index;
    var raw := name + ":";
    assert raw == name + ":" + "";
    ColonBetween(name, "");
    assert SplitTag(raw) == -1;
    hide SplitTag;
    ParseAt(raw, "");
    QualifyCases(raw, "");
    assert OFFICIAL_PREFIX + "/" + raw == "library/" + name + ":";
  }

  // ---- Ports ----

  /** A host without colon or slash, a colon, and text up to the next slash. */
  lemma {:induction false} ColonBeforeSlash(host: string, p: string, rest: string)
    requires Plain(host) && Plain(p) && Plain(rest) && '/' !in host && '/' !in p
    ensures SplitTag(host + ":" + (p + "/" + rest)) == if IsPort(p) then -1 else |host|
  {
    hide IsPort, Index;
    var b := p + "/" + rest;
    assert '/' in b by { assert b[|p|] == '/'; }
    assert Index(b, '/') == |p| by { IndexOfFirst(p, rest, '/'); }
    assert b[..|p|] == p;
    assert ':' !in b && '@' !in b;
    ColonBetween(host, b);
    hide LastNonPortColon;
    assert '@' !in host + ":" + b;
  }

  /**
   * What a port is decides: with one, the text before the slash is a registry and the name has the
   * default tag; without, the same text is an official image whose tag holds the rest.
   */
  lemma {:induction false} PortIff(host: string, p: string, rest: string)
    requires Plain(host) && Plain(p) && Plain(rest) && '/' !in host && '/' !in p
    ensures Parse(host + ":" + p + "/" + rest) ==
            if 1 <= |p| <= 5 && forall k :: 0 <= k < |p| ==> '0' <= p[k] <= '9'
            then ParseResult(host + ":" + p, rest, "latest")
            else ParseResult("docker.io", "library/" + host, p + "/" + rest)
  {
    hide SplitTag, Qualify, Parse;
    var raw, registry := host + ":" + (p + "/" + rest), host + ":" + p;
    assert raw == host + ":" + p + "/" + rest == Name(registry, rest);
    ColonBeforeSlash(host, p, rest);
    if IsPort(p) {
      ParseAt(raw, "");
      QualifyCases(registry, rest);
      assert ':' in registry by { assert registry[|host|] == ':'; }
      assert ':' !in DEFAULT_REGISTRY by { PlainConstants(); }
    } else {
      ParseAt(host, p + "/" + rest);
      QualifyCases(host, "");
      assert OFFICIAL_PREFIX + "/" + host == "library/" + host;
    }
  }

  /** A number in decimal digits. */
  function Decimal(n: nat): (s: string)
    ensures s != ""
  {
    var digit := ['0' + (n % 10) as char];
    if n < 10 then digit else Decimal(n / 10) + digit
  }

  function PowerOfTen(k: nat): nat {
    if k == 0 then 1 else 10 * PowerOfTen(k - 1)
  }

  lemma {:induction false} DecimalDigits(n: nat, k: nat)
    requires k >= 1
    ensures forall c :: c in Decimal(n) ==> '0' <= c <= '9'
    ensures |Decimal(n)| <= k <==> n < PowerOfTen(k)
    decreases n
  {
    if n < 10 {
      TenIsLeast(k);
    } else if k == 1 {
      DecimalDigits(n / 10, 1);
      assert PowerOfTen(1) == 10 * PowerOfTen(0) == 10;
    } else {
      DecimalDigits(n / 10, k - 1);
    }
  }

  lemma {:induction false} TenIsLeast(k: nat)
    requires k >= 1
    ensures PowerOfTen(k) >= 10
  {
    if k > 1 { TenIsLeast(k - 1); } else { assert PowerOfTen(1) == 10 * PowerOfTen(0); }
  }

  /** A number is a port up to five digits: also beyond 65535. */
  lemma {:induction false} NumberIsPort(n: nat)
    ensures IsPort(Decimal(n)) <==> n < 100000
    ensures Plain(Decimal(n)) && '/' !in Decimal(n)
  {
    DecimalDigits(n, 5);
    var s := Decimal(n);
    assert forall k :: 0 <= k < |s| ==> s[k] in s;
    assert PowerOfTen(5) == 10 * PowerOfTen(4) && PowerOfTen(4) == 10 * PowerOfTen(3);
    assert PowerOfTen(3) == 10 * PowerOfTen(2) && PowerOfTen(2) == 10 * PowerOfTen(1);
    assert PowerOfTen(1) == 10 * PowerOfTen(0);
  }

  /** A host with a number behind it is a registry exactly when the number is below 100000. */
  lemma {:induction false} HostAndPort(host: string, n: nat, rest: string)
    requires Plain(host) && Plain(rest) && '/' !in host
    ensures Parse(host + ":" + Decimal(n) + "/" + rest) ==
            if n < 100000 then ParseResult(host + ":" + Decimal(n), rest, "latest")
            else ParseResult("docker.io", "library/" + host, Decimal(n) + "/" + rest)
  {
    hide Parse, Decimal;
    NumberIsPort(n);
    PortIff(host, Decimal(n), rest);
  }
}
