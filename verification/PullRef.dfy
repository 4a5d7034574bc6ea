/**
 * How mini-nerdctl names the image it pulls: the name is normalized, and the canonical text is then
 * read by a second parser, the one that mini-docker's registry client uses too.
 */
module PullRef {
  import opened Strings
  import R = Reference
  import D = DockerRef

  /** Registry endpoint, repository and tag that a pull asks for. */
  function Target(raw: string): (string, string, string) {
    D.ParseRef(R.Normalize(raw))
  }

  /** The canonical text loses its tag at the last colon only if the tag is a simple one. */
  lemma {:induction false} CutTagOf(name: string, tag: string)
    ensures '/' !in tag && ':' !in tag ==> D.CutTag(name + ":" + tag) == (name, tag)
    ensures D.CutTag(name + ":" + tag).1 == tag ==> '/' !in tag && ':' !in tag
  {
    if '/' !in tag && ':' !in tag { D.CutTagOf(name, tag); }
    D.CutTagBack(name + ":" + tag, "");
  }

  /**
   * The two parsers agree exactly on names with a tag that holds neither slash nor colon and with a
   * registry that the second parser, too, takes for one: it has a dot, or the repository a slash.
   */
  lemma {:induction false} TargetIff(raw: string)
    ensures var r := R.Parse(raw);
            Target(raw) == (D.Endpoint(r.registry), r.repo, r.tag) <==>
            '/' !in r.tag && ':' !in r.tag && ('.' in r.registry || '/' in r.repo)
  {
    hide R.Parse, D.CutTag, D.ParseRef, D.Endpoint;
    var r := R.Parse(raw);
    RegistryHasNoSlash(raw);
    var name := r.registry + "/" + r.repo;
    assert R.Normalize(raw) == name + ":" + r.tag;
    CutTagOf(name, r.tag);
    D.Cases(R.Normalize(raw), r.registry, r.repo);
    TagIsCut(R.Normalize(raw));
    assert |name| > |r.repo|;
  }

  lemma {:induction false} TagIsCut(ref: string)
    ensures D.ParseRef(ref).2 == D.CutTag(ref).1
  {
    hide D.CutTag;
  }

  lemma {:induction false} RegistryHasNoSlash(raw: string)
    ensures '/' !in R.Parse(raw).registry
  {
    hide R.Qualify, R.SplitTag;
    var i := R.SplitTag(raw);
    var p, q, x := R.QualifyPrefixes(if i >= 0 then raw[..i] else raw);
  }
}
