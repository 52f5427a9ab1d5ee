/** A dynamic template: a rule that decides whether a newly seen field, given
    its name and inferred type, gets a mapping built from the template, and that
    builds that mapping by substituting the field's name and type into
    placeholders. Templates are immutable values built once from configuration. */
module DynamicTemplate {
  import opened Results
  import opened Tree
  import Text
  import Glob

  /** How the three patterns of a template are interpreted. */
  datatype MatchType = Simple | Regex

  datatype TemplateError =
    | MissingMatch                       // the configuration has no `match` entry
    | MissingMapping                     // the configuration has no `mapping` entry
    | MappingNotAMap                     // the `mapping` entry is not a map
    | NullValue(key: string)             // a present entry holds null and is turned into a string
    | NoMatchingPattern(value: string)   // `match_pattern` names no known match type

  /** A parsed template. `pattern` is the configured `match` entry (a keyword in
      Dafny); `conf` is the configuration it was parsed from, kept as given. */
  datatype Template = Template(
    name: string,
    conf: map<string, Node>,
    pattern: string,
    unmatch: Option<string>,
    matchMappingType: Option<string>,
    matchType: MatchType,
    mapping: map<string, Node>)

  /** The configuration selector that names a match type. */
  function Selector(t: MatchType): (r: string)
    ensures FromString(r) == Success(t)
  {
    match t
    case Simple => "simple"
    case Regex => "regex"
  }

  /** Reads a match type from its selector; any other string is an error. */
  function FromString(value: string): (r: Result<MatchType, TemplateError>)
    ensures r == Success(Simple) <==> value == "simple"
    ensures r == Success(Regex) <==> value == "regex"
    ensures r.Failure? <==> value != "simple" && value != "regex"
    ensures r.Failure? ==> r.error == NoMatchingPattern(value)
  {
    if value == "simple" then Success(Simple)
    else if value == "regex" then Success(Regex)
    else Failure(NoMatchingPattern(value))
  }

  /** The string form of a configuration value under `key`: a string is itself,
      null is an error, and any other value is whatever `render` (the runtime's
      conversion of objects to text) makes of it. */
  function ConfigString(key: string, value: Node, render: Node -> string): (r: Result<string, TemplateError>)
    ensures value.Str? ==> r == Success(value.s)
    ensures r.Failure? <==> value.Null?
    ensures r.Failure? ==> r.error == NullValue(key)
  {
    match value
    case Null => Failure(NullValue(key))
    case Str(s) => Success(s)
    case _ => Success(render(value))
  }

  /** The string form of an optional entry: absent entries give `None`. */
  function OptionalConfigString(conf: map<string, Node>, key: string, render: Node -> string): (r: Result<Option<string>, TemplateError>)
    ensures key !in conf ==> r == Success(None)
    ensures key in conf ==> (r.Success? <==> ConfigString(key, conf[key], render).Success?)
    ensures key in conf && r.Success? ==> r.value == Some(ConfigString(key, conf[key], render).value)
  {
    if key in conf then
      var s :- ConfigString(key, conf[key], render);
      Success(Some(s))
    else Success(None)
  }

  /** What a successful parse stores: exactly the configured values, the
      optional ones absent when their key is, and SIMPLE matching unless the
      configuration selects otherwise. */
  ghost predicate ParsedFrom(t: Template, name: string, conf: map<string, Node>, render: Node -> string) {
    && t.name == name
    && t.conf == conf
    && "match" in conf && ConfigString("match", conf["match"], render) == Success(t.pattern)
    && ("unmatch" in conf <==> t.unmatch.Some?)
    && ("unmatch" in conf ==> ConfigString("unmatch", conf["unmatch"], render) == Success(t.unmatch.value))
    && ("match_mapping_type" in conf <==> t.matchMappingType.Some?)
    && ("match_mapping_type" in conf ==>
          ConfigString("match_mapping_type", conf["match_mapping_type"], render) == Success(t.matchMappingType.value))
    && "mapping" in conf && conf["mapping"] == Map(t.mapping)
    && ("match_pattern" !in conf ==> t.matchType == Simple)
    && ("match_pattern" in conf ==>
          ConfigString("match_pattern", conf["match_pattern"], render) == Success(Selector(t.matchType)))
  }

  /** The entries read before `mapping` is looked at: `match` is present, and
      none of `match`, `unmatch` and `match_mapping_type` is null. */
  predicate HeadReadable(conf: map<string, Node>) {
    && "match" in conf && !conf["match"].Null?
    && ("unmatch" in conf ==> !conf["unmatch"].Null?)
    && ("match_mapping_type" in conf ==> !conf["match_mapping_type"].Null?)
  }

  /** Builds a template named `name` from its configuration. */
  function Parse(name: string, conf: map<string, Node>, render: Node -> string): (r: Result<Template, TemplateError>)
    ensures "match" !in conf ==> r == Failure(MissingMatch)
    ensures "mapping" !in conf ==> r.Failure?
    ensures "mapping" in conf && !conf["mapping"].Map? ==> r.Failure?
    ensures "match" in conf && conf["match"].Null? ==> r == Failure(NullValue("match"))
    ensures "match" in conf && !conf["match"].Null? && "unmatch" in conf && conf["unmatch"].Null? ==>
      r == Failure(NullValue("unmatch"))
    ensures ("match" in conf && !conf["match"].Null? && ("unmatch" in conf ==> !conf["unmatch"].Null?)
             && "match_mapping_type" in conf && conf["match_mapping_type"].Null?) ==>
      r == Failure(NullValue("match_mapping_type"))
    ensures HeadReadable(conf) && "mapping" !in conf ==> r == Failure(MissingMapping)
    ensures HeadReadable(conf) && "mapping" in conf && !conf["mapping"].Map? ==> r == Failure(MappingNotAMap)
    ensures (HeadReadable(conf) && "mapping" in conf && conf["mapping"].Map?
             && "match_pattern" in conf && conf["match_pattern"].Null?) ==>
      r == Failure(NullValue("match_pattern"))
    ensures r.Success? ==> ParsedFrom(r.value, name, conf, render)
  {
    if "match" !in conf then Failure(MissingMatch)
    else
      var pattern :- ConfigString("match", conf["match"], render);
      var unmatch :- OptionalConfigString(conf, "unmatch", render);
      var matchMappingType :- OptionalConfigString(conf, "match_mapping_type", render);
      if "mapping" !in conf then Failure(MissingMapping)
      else if !conf["mapping"].Map? then Failure(MappingNotAMap)
      else
        var selector :- if "match_pattern" in conf then ConfigString("match_pattern", conf["match_pattern"], render)
                        else Success("simple");
        var matchType :- FromString(selector);
        Success(Template(name, conf, pattern, unmatch, matchMappingType, matchType, conf["mapping"].entries))
  }

  /** Tests one pattern of `t` against `s`. An absent pattern never matches
      under SIMPLE; under REGEX there must be a pattern. `regex` is the runtime's
      whole-string regular-expression match of its second argument against the
      pattern given first. */
  function PatternMatch(t: Template, pattern: Option<string>, s: string, regex: (string, string) -> bool): bool
    requires t.matchType == Regex ==> pattern.Some?
  {
    match t.matchType
    case Simple => pattern.Some? && Glob.SimpleMatch(pattern.value, s)
    case Regex => regex(pattern.value, s)
  }

  /** The calls on which `Match` is defined: under REGEX the `unmatch` pattern is
      tested once the name satisfies `match`, so it must then be present. A
      name that fails `match` is rejected before `unmatch` is looked at. */
  predicate MatchDefined(t: Template, name: string, regex: (string, string) -> bool) {
    t.matchType == Simple || t.unmatch.Some? || !PatternMatch(t, Some(t.pattern), name, regex)
  }

  /** Whether `t` applies to a field called `name` whose inferred type is
      `dynamicType` (`None` when no type was inferred). */
  function Match(t: Template, name: string, dynamicType: Option<string>, regex: (string, string) -> bool): (r: bool)
    requires MatchDefined(t, name, regex)
    ensures r <==>
      && PatternMatch(t, Some(t.pattern), name, regex)
      && !(t.unmatch.Some? && PatternMatch(t, t.unmatch, name, regex))
      && (t.matchMappingType.Some? ==>
            dynamicType.Some? && PatternMatch(t, t.matchMappingType, dynamicType.value, regex))
  {
    if !PatternMatch(t, Some(t.pattern), name, regex) then false
    else if PatternMatch(t, t.unmatch, name, regex) then false
    else if t.matchMappingType.Some? then
      if dynamicType.None? then false
      else PatternMatch(t, t.matchMappingType, dynamicType.value, regex)
    else true
  }

  /** `Match` with an absent `unmatch` never excluding, under either match type:
      what `Match` does wherever it is defined, and defined everywhere. */
  function MatchIntended(t: Template, name: string, dynamicType: Option<string>, regex: (string, string) -> bool): (r: bool)
    ensures MatchDefined(t, name, regex) ==> r == Match(t, name, dynamicType, regex)
    ensures t.unmatch.None? ==>
      (r <==> PatternMatch(t, Some(t.pattern), name, regex)
              && (t.matchMappingType.Some? ==>
                    dynamicType.Some? && PatternMatch(t, t.matchMappingType, dynamicType.value, regex)))
  {
    if !PatternMatch(t, Some(t.pattern), name, regex) then false
    else if t.unmatch.Some? && PatternMatch(t, t.unmatch, name, regex) then false
    else if t.matchMappingType.Some? then
      if dynamicType.None? then false
      else PatternMatch(t, t.matchMappingType, dynamicType.value, regex)
    else true
  }

  /** Whether the template mapping declares the field's type itself. */
  predicate HasType(t: Template) {
    "type" in t.mapping
  }

  /** The type of a field built from `t`: the mapping's own `type` when it has
      one, otherwise the inferred type. */
  function MappingType(t: Template, dynamicType: Option<string>, render: Node -> string): (r: Result<Option<string>, TemplateError>)
    ensures !HasType(t) ==> r == Success(dynamicType)
    ensures HasType(t) && t.mapping["type"].Str? ==> r == Success(Some(t.mapping["type"].s))
    ensures r.Failure? <==> HasType(t) && t.mapping["type"].Null?
  {
    if "type" in t.mapping then
      var s :- ConfigString("type", t.mapping["type"], render);
      Success(Some(s))
    else Success(dynamicType)
  }

  const NameToken: string := "{name}"
  const TypeToken: string := "{dynamic_type}"
  const CamelTypeToken: string := "{dynamicType}"

  /** The rewrite applied to every key and every string value of the mapping:
      `{name}` first, then `{dynamic_type}`, then `{dynamicType}`, each replaced
      everywhere. */
  function Substitute(s: string, name: string, dynamicType: string): string {
    var withName := Text.ReplaceAll(s, NameToken, name);
    var withType := Text.ReplaceAll(withName, TypeToken, dynamicType);
    Text.ReplaceAll(withType, CamelTypeToken, dynamicType)
  }

  /** `r` is a possible result of building `v` for field `name` of type
      `dynamicType`: maps stay maps whose keys are the rewritten keys, each entry
      holding the result for some original entry with that rewritten key; lists
      stay lists of the same length, element by element; strings are rewritten;
      every other scalar is kept. Which entry wins when two keys rewrite to the
      same key is left open. */
  ghost predicate Resolves(v: Node, r: Node, name: string, dynamicType: string)
    decreases v, 1
  {
    match v
    case Map(m) =>
      && r.Map?
      && r.entries.Keys == (set k | k in m :: Substitute(k, name, dynamicType))
      && forall k' :: k' in r.entries ==> ResolvedFromSome(m, k', r.entries[k'], name, dynamicType)
    case List(l) =>
      && r.List?
      && |r.items| == |l|
      && forall i :: 0 <= i < |l| ==> Resolves(l[i], r.items[i], name, dynamicType)
    case Str(s) => r == Str(Substitute(s, name, dynamicType))
    case _ => r == v
  }

  /** `value` is the result for some entry of `m` whose key rewrites to `key`. */
  ghost predicate ResolvedFromSome(m: map<string, Node>, key: string, value: Node, name: string, dynamicType: string)
    decreases Map(m), 0
  {
    exists k :: k in m && Substitute(k, name, dynamicType) == key && Resolves(m[k], value, name, dynamicType)
  }

  /** Builds a fresh map from `m`, entry by entry, rewriting each key and
      processing each value. */
  method ProcessMap(m: map<string, Node>, name: string, dynamicType: string) returns (r: map<string, Node>)
    ensures Resolves(Map(m), Map(r), name, dynamicType)
    decreases Map(m)
  {
    r := map[];
    var todo := m.Keys;
    while todo != {}
      invariant todo <= m.Keys
      invariant r.Keys == set k | k in m.Keys - todo :: Substitute(k, name, dynamicType)
      invariant forall k' :: k' in r ==>
        exists k :: k in m.Keys - todo && Substitute(k, name, dynamicType) == k' && Resolves(m[k], r[k'], name, dynamicType)
      decreases todo
    {
      var entry :| entry in todo;
      var key := Substitute(entry, name, dynamicType);
      var value := m[entry];
      match value {
        case Map(inner) =>
          var processed := ProcessMap(inner, name, dynamicType);
          value := Map(processed);
        case List(items) =>
          var processed := ProcessList(items, name, dynamicType);
          value := List(processed);
        case Str(s) =>
          value := Str(Substitute(s, name, dynamicType));
        case _ =>
      }
      r := r[key := value];
      todo := todo - {entry};
    }
  }

  /** Builds a fresh list from `l`, element by element, processing each value. */
  method ProcessList(l: seq<Node>, name: string, dynamicType: string) returns (r: seq<Node>)
    ensures Resolves(List(l), List(r), name, dynamicType)
    decreases List(l)
  {
    r := [];
    var i := 0;
    while i < |l|
      invariant 0 <= i <= |l|
      invariant |r| == i
      invariant forall j :: 0 <= j < i ==> Resolves(l[j], r[j], name, dynamicType)
    {
      var value := l[i];
      match value {
        case Map(inner) =>
          var processed := ProcessMap(inner, name, dynamicType);
          value := Map(processed);
        case List(items) =>
          var processed := ProcessList(items, name, dynamicType);
          value := List(processed);
        case Str(s) =>
          value := Str(Substitute(s, name, dynamicType));
        case _ =>
      }
      r := r + [value];
      i := i + 1;
    }
  }

  /** The mapping of a field called `name` with inferred type `dynamicType`. */
  method MappingForName(t: Template, name: string, dynamicType: string) returns (r: map<string, Node>)
    ensures Resolves(Map(t.mapping), Map(r), name, dynamicType)
  {
    r := ProcessMap(t.mapping, name, dynamicType);
  }

  /** Template identity: two templates are equal when they match alike, whatever
      their names, configurations and mappings. */
  predicate Equivalent(a: Template, b: Template) {
    && a.pattern == b.pattern
    && a.matchMappingType == b.matchMappingType
    && a.matchType == b.matchType
    && a.unmatch == b.unmatch
  }

  /** A 32-bit two's-complement integer from an unbounded one, as Java's `int`
      arithmetic wraps. */
  function Int32(x: int): (r: int)
    ensures -0x8000_0000 <= r < 0x8000_0000
    ensures (r - x) % 0x1_0000_0000 == 0
  {
    var low := x % 0x1_0000_0000;
    if low < 0x8000_0000 then low else low - 0x1_0000_0000
  }

  /** Java's `String.hashCode` before wrapping: sum of code * 31^(n-1-i). */
  function StringHashValue(s: string): int
    decreases |s|
  {
    if |s| == 0 then 0 else 31 * StringHashValue(s[..|s| - 1]) + s[|s| - 1] as int
  }

  function OptionalHashValue(s: Option<string>): int {
    match s
    case None => 0
    case Some(v) => StringHashValue(v)
  }

  /** The template's hash: the four matching fields combined by 31-fold
      multiplication and wrapped to 32 bits. Since wrapping commutes with
      addition and multiplication, wrapping once at the end gives what wrapping
      at every step gives. `typeHash` is the runtime's identity hash of the enum
      constants. */
  function HashCode(t: Template, typeHash: MatchType -> int): (r: int)
    ensures -0x8000_0000 <= r < 0x8000_0000
  {
    var h := StringHashValue(t.pattern);
    var h1 := 31 * h + OptionalHashValue(t.unmatch);
    var h2 := 31 * h1 + typeHash(t.matchType);
    Int32(31 * h2 + OptionalHashValue(t.matchMappingType))
  }
}
