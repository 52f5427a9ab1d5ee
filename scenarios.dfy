/** Worked cases of dynamic templates: concrete configurations, the decisions
    taken on the fields they are meant for, and the mappings built for them.
    Field names are kept general wherever the case allows it. */
module TemplateScenarios {
  import opened Results
  import opened Tree
  import opened DynamicTemplate
  import opened TemplateProperties
  import Text
  import Glob

  /** A string without `{` is `Plain`, so it is never rewritten. */
  lemma SubstituteWithoutBrace(s: string, name: string, dynamicType: string)
    requires '{' !in s
    ensures Substitute(s, name, dynamicType) == s
  {
    Text.WithoutLeadNotContained(s, NameToken);
    Text.WithoutLeadNotContained(s, TypeToken);
    Text.WithoutLeadNotContained(s, CamelTypeToken);
    SubstitutePlain(s, name, dynamicType);
  }

  function TextMapping(): map<string, Node> {
    map["type" := Str("string"), "analyzer" := Str(NameToken + "_analyzer")]
  }

  function TextConfig(): map<string, Node> {
    map["match" := Str("*_text"), "mapping" := Map(TextMapping())]
  }

  /** `{match: "*_text", mapping: {type: "string", analyzer: "{name}_analyzer"}}`
      parses to a SIMPLE template with no `unmatch` and no type constraint. */
  lemma TextConfigParses(render: Node -> string)
    ensures Parse("text", TextConfig(), render)
         == Success(Template("text", TextConfig(), "*_text", None, None, Simple, TextMapping()))
  {
  }

  /** It applies exactly to the fields whose name ends in `_text`
      (`title_text`, and not `title_other`). */
  lemma TextTemplateMatches(t: Template, field: string, regex: (string, string) -> bool)
    requires t.pattern == "*_text" && t.unmatch.None? && t.matchMappingType.None? && t.matchType == Simple
    ensures Match(t, field, Some("string"), regex) <==> |field| >= 5 && field[|field| - 5..] == "_text"
  {
    assert ['*'] + "_text" == "*_text";
    Glob.StarSuffix("_text", field);
  }

  lemma TwoEntryKeys(k1: string, v1: Node, w1: Node, k2: string, v2: Node, w2: Node, name: string, dynamicType: string)
    requires Substitute(k1, name, dynamicType) == k1 && Substitute(k2, name, dynamicType) == k2
    ensures map[k1 := w1, k2 := w2].Keys == (set k | k in map[k1 := v1, k2 := v2] :: Substitute(k, name, dynamicType))
  {
    var m := map[k1 := v1, k2 := v2];
    assert (set k | k in m :: Substitute(k, name, dynamicType)) == {k1, k2};
  }

  lemma TwoEntryValues(k1: string, v1: Node, w1: Node, k2: string, v2: Node, w2: Node, name: string, dynamicType: string)
    requires k1 != k2
    requires Substitute(k1, name, dynamicType) == k1 && Substitute(k2, name, dynamicType) == k2
    requires Resolves(v1, w1, name, dynamicType) && Resolves(v2, w2, name, dynamicType)
    ensures forall k' :: k' in map[k1 := w1, k2 := w2] ==>
      ResolvedFromSome(map[k1 := v1, k2 := v2], k', map[k1 := w1, k2 := w2][k'], name, dynamicType)
  {
    var m := map[k1 := v1, k2 := v2];
    assert ResolvedFromSome(m, k1, w1, name, dynamicType);
    assert ResolvedFromSome(m, k2, w2, name, dynamicType);
  }

  lemma TwoEntryInjective(k1: string, v1: Node, k2: string, v2: Node, name: string, dynamicType: string)
    requires k1 != k2
    requires Substitute(k1, name, dynamicType) == k1 && Substitute(k2, name, dynamicType) == k2
    requires InjectiveKeys(v1, name, dynamicType) && InjectiveKeys(v2, name, dynamicType)
    ensures InjectiveKeys(Map(map[k1 := v1, k2 := v2]), name, dynamicType)
  {
  }

  /** A two-entry map whose keys are not rewritten resolves entry by entry. */
  lemma TwoEntryMapResolves(k1: string, v1: Node, w1: Node, k2: string, v2: Node, w2: Node,
                            name: string, dynamicType: string, r: Node)
    requires k1 != k2
    requires Substitute(k1, name, dynamicType) == k1 && Substitute(k2, name, dynamicType) == k2
    requires InjectiveKeys(v1, name, dynamicType) && InjectiveKeys(v2, name, dynamicType)
    requires Resolves(v1, w1, name, dynamicType) && Resolves(v2, w2, name, dynamicType)
    requires Resolves(Map(map[k1 := v1, k2 := v2]), r, name, dynamicType)
    ensures r == Map(map[k1 := w1, k2 := w2])
  {
    TwoEntryKeys(k1, v1, w1, k2, v2, w2, name, dynamicType);
    TwoEntryValues(k1, v1, w1, k2, v2, w2, name, dynamicType);
    TwoEntryInjective(k1, v1, k2, v2, name, dynamicType);
    ResolvesUnique(Map(map[k1 := v1, k2 := v2]), r, Map(map[k1 := w1, k2 := w2]), name, dynamicType);
  }

  /** Building a field (say `title_text`) of type `string` gives exactly
      `{type: "string", analyzer: "<field>_analyzer"}`. */
  lemma TextTemplateResolves(field: string, r: Node)
    requires '{' !in field
    requires Resolves(Map(TextMapping()), r, field, "string")
    ensures r == Map(map["type" := Str("string"), "analyzer" := Str(field + "_analyzer")])
  {
    SubstituteWithoutBrace("type", field, "string");
    SubstituteWithoutBrace("analyzer", field, "string");
    SubstituteWithoutBrace("string", field, "string");
    SubstituteNameAtFront(field, "_analyzer", "string");
    TwoEntryMapResolves("type", Str("string"), Str("string"), "analyzer", Str(NameToken + "_analyzer"), Str(field + "_analyzer"),
                        field, "string", r);
  }

  /** With `match: "title_*"` and `unmatch: "*_raw"`, a field applies exactly when
      its name starts with `title_` and does not end in `_raw`: `title_raw` is
      excluded although `match` accepts it. */
  lemma UnmatchScenario(t: Template, field: string, regex: (string, string) -> bool)
    requires t.pattern == "title_*" && t.unmatch == Some("*_raw") && t.matchMappingType.None? && t.matchType == Simple
    ensures PatternMatch(t, Some(t.pattern), field, regex) <==> |field| >= 6 && field[..6] == "title_"
    ensures Match(t, field, Some("string"), regex) <==>
      && |field| >= 6 && field[..6] == "title_"
      && !(|field| >= 4 && field[|field| - 4..] == "_raw")
  {
    assert "title_" + "*" == "title_*";
    Glob.PrefixStar("title_", field);
    assert ['*'] + "_raw" == "*_raw";
    Glob.StarSuffix("_raw", field);
  }

  /** A REGEX template `{match: ".*", match_mapping_type: "long", mapping:
      {type: "{dynamic_type}"}}` applies to a `long` field and not to a
      `string` one, given how the regular-expression engine answers, and makes
      the field's type the inferred one. Without `unmatch` this holds of the
      corrected decision. */
  lemma RegexScenario(t: Template, field: string, dynamicType: string, regex: (string, string) -> bool, r: Node)
    requires t.pattern == ".*" && t.unmatch.None? && t.matchMappingType == Some("long") && t.matchType == Regex
    requires t.mapping == map["type" := Str(TypeToken)]
    requires regex(".*", field) && regex("long", "long") && !regex("long", "string")
    requires '{' !in dynamicType
    requires Resolves(Map(t.mapping), r, field, dynamicType)
    ensures MatchIntended(t, field, Some("long"), regex)
    ensures !MatchIntended(t, field, Some("string"), regex)
    ensures r == Map(map["type" := Str(dynamicType)])
  {
    SubstituteWithoutBrace("type", field, dynamicType);
    TypeIsNotRewrittenByName(field, dynamicType);
    Text.ReplaceAllWithoutLead(dynamicType, CamelTypeToken, dynamicType);
    var expected := map["type" := Str(dynamicType)];
    assert (set k | k in t.mapping :: Substitute(k, field, dynamicType)) == {"type"};
    assert ResolvedFromSome(t.mapping, "type", Str(dynamicType), field, dynamicType);
    assert Resolves(Map(t.mapping), Map(expected), field, dynamicType);
    ResolvesUnique(Map(t.mapping), r, Map(expected), field, dynamicType);
  }

  /** A configuration without `match` is refused. */
  lemma MissingMatchScenario(render: Node -> string)
    ensures Parse("bad", map["mapping" := Map(map[])], render) == Failure(MissingMatch)
  {
  }
}
