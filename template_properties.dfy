/** Properties of dynamic templates that relate several calls: how parsing
    reads a configuration back, how each pattern constrains matching, what
    building a mapping keeps, and what template identity guarantees. */
module TemplateProperties {
  import opened Results
  import opened Tree
  import opened DynamicTemplate
  import Text
  import Glob

  // ---------------------------------------------------------------------
  // Parsing

  /** The configurations that parse: `match` and `mapping` present, no
      consulted entry null, `mapping` a map, and `match_pattern`, when given,
      one of the two selectors. */
  ghost predicate WellFormedConfig(conf: map<string, Node>, render: Node -> string) {
    && HeadReadable(conf)
    && "mapping" in conf && conf["mapping"].Map?
    && ("match_pattern" in conf ==>
          && !conf["match_pattern"].Null?
          && ConfigString("match_pattern", conf["match_pattern"], render).value in {"simple", "regex"})
  }

  lemma ParseSucceedsIff(name: string, conf: map<string, Node>, render: Node -> string)
    ensures Parse(name, conf, render).Success? <==> WellFormedConfig(conf, render)
  {
  }

  /** A configuration written out from template fields, with string values. */
  function ConfigOf(pattern: string, unmatch: Option<string>, matchMappingType: Option<string>,
                    matchType: MatchType, mapping: map<string, Node>): (c: map<string, Node>)
    ensures "match" in c && "mapping" in c && "match_pattern" in c
    ensures ("unmatch" in c <==> unmatch.Some?) && ("match_mapping_type" in c <==> matchMappingType.Some?)
  {
    var required := map["match" := Str(pattern), "mapping" := Map(mapping), "match_pattern" := Str(Selector(matchType))];
    var withUnmatch := if unmatch.Some? then required["unmatch" := Str(unmatch.value)] else required;
    if matchMappingType.Some? then withUnmatch["match_mapping_type" := Str(matchMappingType.value)] else withUnmatch
  }

  /** Round trip: parsing a written-out configuration gives back the fields. */
  lemma ParseRoundTrip(name: string, pattern: string, unmatch: Option<string>, matchMappingType: Option<string>,
                       matchType: MatchType, mapping: map<string, Node>, render: Node -> string)
    ensures
      var c := ConfigOf(pattern, unmatch, matchMappingType, matchType, mapping);
      Parse(name, c, render) == Success(Template(name, c, pattern, unmatch, matchMappingType, matchType, mapping))
  {
    var c := ConfigOf(pattern, unmatch, matchMappingType, matchType, mapping);
    assert c["match"] == Str(pattern) && c["mapping"] == Map(mapping) && c["match_pattern"] == Str(Selector(matchType));
    assert unmatch.Some? ==> c["unmatch"] == Str(unmatch.value);
    assert matchMappingType.Some? ==> c["match_mapping_type"] == Str(matchMappingType.value);
  }

  /** Without `match_pattern`, the same configuration parses to SIMPLE matching. */
  lemma ParseDefaultsToSimple(name: string, conf: map<string, Node>, render: Node -> string)
    requires "match_pattern" !in conf && WellFormedConfig(conf, render)
    ensures Parse(name, conf, render).Success? && Parse(name, conf, render).value.matchType == Simple
  {
  }

  /** An unknown selector is reported as such once the rest is well formed. */
  lemma ParseRejectsUnknownSelector(name: string, conf: map<string, Node>, selector: string, render: Node -> string)
    requires WellFormedConfig(conf - {"match_pattern"}, render)
    requires "match_pattern" in conf && conf["match_pattern"] == Str(selector)
    requires selector != "simple" && selector != "regex"
    ensures Parse(name, conf, render) == Failure(NoMatchingPattern(selector))
  {
    var rest := conf - {"match_pattern"};
    assert forall k :: k in rest ==> k in conf && conf[k] == rest[k];
  }

  /** Configurations that differ only in the template name and the mapping give
      equal templates. */
  lemma ParseIgnoresNameAndMapping(name1: string, name2: string, conf: map<string, Node>,
                                   mapping: map<string, Node>, render: Node -> string)
    requires Parse(name1, conf, render).Success?
    ensures Parse(name2, conf["mapping" := Map(mapping)], render).Success?
    ensures Equivalent(Parse(name1, conf, render).value, Parse(name2, conf["mapping" := Map(mapping)], render).value)
  {
    var conf2 := conf["mapping" := Map(mapping)];
    assert forall k :: k in conf && k != "mapping" ==> k in conf2 && conf2[k] == conf[k];
  }

  // ---------------------------------------------------------------------
  // Matching

  /** A name that fails `match` is rejected, whatever the type and `unmatch`. */
  lemma NameMustMatch(t: Template, name: string, dynamicType: Option<string>, regex: (string, string) -> bool)
    requires !PatternMatch(t, Some(t.pattern), name, regex)
    ensures !Match(t, name, dynamicType, regex)
  {
  }

  /** A name that satisfies `unmatch` is rejected. */
  lemma UnmatchVetoes(t: Template, name: string, dynamicType: Option<string>, regex: (string, string) -> bool)
    requires t.unmatch.Some? && PatternMatch(t, t.unmatch, name, regex)
    ensures !Match(t, name, dynamicType, regex)
  {
  }

  /** Under SIMPLE matching, `unmatch` set to a name excludes that very name. */
  lemma UnmatchExcludesItsName(t: Template, name: string, dynamicType: Option<string>, regex: (string, string) -> bool)
    requires t.matchType == Simple && t.unmatch == Some(name)
    ensures !Match(t, name, dynamicType, regex)
  {
    Glob.MatchesItself(name);
  }

  /** `unmatch` can only take matches away: with it, a template matches exactly
      what it matched without it, less the names `unmatch` accepts (stated of
      the corrected decision, which is defined without `unmatch` under REGEX). */
  lemma UnmatchOnlyVetoes(t: Template, name: string, dynamicType: Option<string>, regex: (string, string) -> bool)
    ensures MatchIntended(t, name, dynamicType, regex) <==>
      && MatchIntended(t.(unmatch := None), name, dynamicType, regex)
      && !(t.unmatch.Some? && PatternMatch(t, t.unmatch, name, regex))
  {
  }

  /** As written, parsing accepts a REGEX template without `unmatch`, on which
      the match decision is undefined for every name that satisfies `match`: it
      then tests the absent `unmatch` pattern. */
  lemma RegexWithoutUnmatchIsAccepted(render: Node -> string, name: string, regex: (string, string) -> bool)
    requires regex(".*", name)
    ensures
      var conf := map["match" := Str(".*"), "match_pattern" := Str("regex"), "mapping" := Map(map[])];
      Parse("any", conf, render).Success? && !MatchDefined(Parse("any", conf, render).value, name, regex)
  {
    var conf := map["match" := Str(".*"), "match_pattern" := Str("regex"), "mapping" := Map(map[])];
    assert "unmatch" !in conf && "match_mapping_type" !in conf;
  }

  /** A type constraint is never met when no type was inferred. */
  lemma TypeGateNeedsType(t: Template, name: string, regex: (string, string) -> bool)
    requires MatchDefined(t, name, regex) && t.matchMappingType.Some?
    ensures !Match(t, name, None, regex)
  {
  }

  /** A type constraint can only take matches away. */
  lemma TypeGateOnlyRestricts(t: Template, name: string, dynamicType: Option<string>, regex: (string, string) -> bool)
    requires MatchDefined(t, name, regex)
    ensures Match(t, name, dynamicType, regex) ==> Match(t.(matchMappingType := None), name, dynamicType, regex)
  {
  }

  // ---------------------------------------------------------------------
  // Building a mapping

  /** A string in which no placeholder occurs. */
  predicate Plain(s: string) {
    !Text.Contains(s, NameToken) && !Text.Contains(s, TypeToken) && !Text.Contains(s, CamelTypeToken)
  }

  lemma SubstitutePlain(s: string, name: string, dynamicType: string)
    requires Plain(s)
    ensures Substitute(s, name, dynamicType) == s
  {
    Text.ReplaceAllAbsent(s, NameToken, name);
    Text.ReplaceAllAbsent(s, TypeToken, dynamicType);
    Text.ReplaceAllAbsent(s, CamelTypeToken, dynamicType);
  }

  /** No key and no string anywhere in the tree holds a placeholder. */
  ghost predicate NoPlaceholders(v: Node)
    decreases v
  {
    match v
    case Map(m) => forall k :: k in m ==> Plain(k) && NoPlaceholders(m[k])
    case List(l) => forall i :: 0 <= i < |l| ==> NoPlaceholders(l[i])
    case Str(s) => Plain(s)
    case _ => true
  }

  /** Content without placeholders comes back unchanged. */
  lemma {:induction false} ResolvesPlainUnchanged(v: Node, r: Node, name: string, dynamicType: string)
    requires NoPlaceholders(v) && Resolves(v, r, name, dynamicType)
    ensures r == v
    decreases v
  {
    match v
    case Map(m) =>
      forall k | k in m ensures Substitute(k, name, dynamicType) == k {
        SubstitutePlain(k, name, dynamicType);
      }
      assert r.entries.Keys == m.Keys;
      forall k' | k' in r.entries ensures r.entries[k'] == m[k'] {
        var k :| k in m && Substitute(k, name, dynamicType) == k' && Resolves(m[k], r.entries[k'], name, dynamicType);
        ResolvesPlainUnchanged(m[k], r.entries[k'], name, dynamicType);
      }
      assert r.entries == m;
    case List(l) =>
      forall i | 0 <= i < |l| ensures r.items[i] == l[i] {
        ResolvesPlainUnchanged(l[i], r.items[i], name, dynamicType);
      }
      assert r.items == l;
    case Str(s) =>
      SubstitutePlain(s, name, dynamicType);
    case Num(_) =>
    case Bool(_) =>
    case Null =>
  }

  /** At every map of the tree, distinct keys stay distinct after rewriting. */
  ghost predicate InjectiveKeys(v: Node, name: string, dynamicType: string)
    decreases v
  {
    match v
    case Map(m) =>
      && (forall k1, k2 :: k1 in m && k2 in m && Substitute(k1, name, dynamicType) == Substitute(k2, name, dynamicType) ==> k1 == k2)
      && (forall k :: k in m ==> InjectiveKeys(m[k], name, dynamicType))
    case List(l) => forall i :: 0 <= i < |l| ==> InjectiveKeys(l[i], name, dynamicType)
    case _ => true
  }

  /** When no two keys of one map collide after rewriting, the result is unique. */
  lemma {:induction false} ResolvesUnique(v: Node, r1: Node, r2: Node, name: string, dynamicType: string)
    requires InjectiveKeys(v, name, dynamicType)
    requires Resolves(v, r1, name, dynamicType) && Resolves(v, r2, name, dynamicType)
    ensures r1 == r2
    decreases v
  {
    match v
    case Map(m) =>
      forall k' | k' in r1.entries ensures r1.entries[k'] == r2.entries[k'] {
        var k1 :| k1 in m && Substitute(k1, name, dynamicType) == k' && Resolves(m[k1], r1.entries[k'], name, dynamicType);
        var k2 :| k2 in m && Substitute(k2, name, dynamicType) == k' && Resolves(m[k2], r2.entries[k'], name, dynamicType);
        ResolvesUnique(m[k1], r1.entries[k'], r2.entries[k'], name, dynamicType);
      }
      assert r1.entries == r2.entries;
    case List(l) =>
      forall i | 0 <= i < |l| ensures r1.items[i] == r2.items[i] {
        ResolvesUnique(l[i], r1.items[i], r2.items[i], name, dynamicType);
      }
      assert r1.items == r2.items;
    case Str(_) =>
    case Num(_) =>
    case Bool(_) =>
    case Null =>
  }

  /** A mapping whose `type` key is set keeps a `type` key after building. */
  lemma HasTypeSurvivesResolution(t: Template, r: Node, name: string, dynamicType: string)
    requires HasType(t) && Resolves(Map(t.mapping), r, name, dynamicType)
    ensures r.Map? && "type" in r.entries
  {
    SubstitutePlain("type", name, dynamicType);
  }

  /** A string that is `{name}` followed by plain text. */
  lemma SubstituteNameAtFront(name: string, suffix: string, dynamicType: string)
    requires '{' !in name && '{' !in suffix
    ensures Substitute(NameToken + suffix, name, dynamicType) == name + suffix
  {
    Text.ReplaceAllLeading(NameToken, suffix, name);
    Text.ReplaceAllWithoutLead(suffix, NameToken, name);
    Text.ReplaceAllWithoutLead(name + suffix, TypeToken, dynamicType);
    Text.ReplaceAllWithoutLead(name + suffix, CamelTypeToken, dynamicType);
  }

  /** The rewriting order is fixed: placeholders that the field name brings in
      are rewritten by the later type steps. */
  lemma NameIsRewrittenFurther(name: string, dynamicType: string)
    ensures Substitute(NameToken, name, dynamicType)
         == Text.ReplaceAll(Text.ReplaceAll(name, TypeToken, dynamicType), CamelTypeToken, dynamicType)
  {
    Text.ReplaceAllLeading(NameToken, "", name);
    assert NameToken + "" == NameToken;
    assert name + "" == name;
  }

  /** `{dynamic_type}` becomes the type whatever the name: the earlier name step
      leaves it alone (only the last step can still touch the inserted type). */
  lemma TypeIsNotRewrittenByName(name: string, dynamicType: string)
    ensures Substitute(TypeToken, name, dynamicType) == Text.ReplaceAll(dynamicType, CamelTypeToken, dynamicType)
  {
    Text.ReplaceAllMismatchAfterLead(TypeToken, NameToken, name);
    Text.ReplaceAllLeading(TypeToken, "", dynamicType);
    assert TypeToken + "" == TypeToken;
    assert dynamicType + "" == dynamicType;
  }

  // ---------------------------------------------------------------------
  // Identity

  lemma EquivalentIsEquivalence(a: Template, b: Template, c: Template)
    ensures Equivalent(a, a)
    ensures Equivalent(a, b) ==> Equivalent(b, a)
    ensures Equivalent(a, b) && Equivalent(b, c) ==> Equivalent(a, c)
  {
  }

  /** Name, configuration and mapping do not take part in identity. */
  lemma EquivalentIgnoresNameConfMapping(t: Template, name: string, conf: map<string, Node>, mapping: map<string, Node>)
    ensures Equivalent(t, t.(name := name, conf := conf, mapping := mapping))
  {
  }

  /** Templates whose `match` differs are not equal. */
  lemma DifferentMatchNotEquivalent(a: Template, b: Template)
    requires a.pattern != b.pattern
    ensures !Equivalent(a, b)
  {
  }

  /** Equal templates agree on every match decision. */
  lemma EquivalentMatchAlike(a: Template, b: Template, name: string, dynamicType: Option<string>, regex: (string, string) -> bool)
    requires Equivalent(a, b) && MatchDefined(a, name, regex)
    ensures MatchDefined(b, name, regex)
    ensures Match(a, name, dynamicType, regex) == Match(b, name, dynamicType, regex)
  {
  }

  /** Equal templates have equal hashes. */
  lemma HashConsistent(a: Template, b: Template, typeHash: MatchType -> int)
    requires Equivalent(a, b)
    ensures HashCode(a, typeHash) == HashCode(b, typeHash)
  {
  }
}
