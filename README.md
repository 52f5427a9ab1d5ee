# Dynamic field-mapping templates, modelled in Dafny

This project models `DynamicTemplate`, the part of the search engine's
document mapper that handles dynamic templates. A dynamic template is a rule
read from mapping configuration. When the indexer meets a field it has no
mapping for, the rule decides from the field's name and inferred type whether
it applies. If it does, it builds that field's mapping by filling the field's
name and type into placeholders of a template mapping.

The model has four parts, all of them proved:

- **Parsing** (`DynamicTemplate.Parse`, `FromString`). One template is read
  from an untyped configuration map: `match`, `unmatch`, `match_mapping_type`,
  `match_pattern` (default `"simple"`) and `mapping`. Every way this can fail
  in the source is an error value: a missing key, an unknown selector, a null
  entry, or a `mapping` that is not a map.
- **Applicability** (`Match`, `PatternMatch`). A name must satisfy `match`, and
  `unmatch` may veto it. When the template names a type, the field's inferred
  type must satisfy it too. The SIMPLE pattern language is a `*`-glob anchored
  at both ends (module `Glob`). REGEX matching is a parameter (see Left out).
- **Building a mapping** (`ProcessMap`, `ProcessList`, `MappingForName`). These
  are loops. They fill a fresh map entry by entry and a fresh list element by
  element, as the source does. Each method is proved against the relation
  `Resolves`, which says:
  - maps stay maps, and their keys are the rewritten keys;
  - lists keep their length and are processed element by element;
  - strings are rewritten;
  - all other scalars are kept.
  The rewrite (`Substitute`) is three replace-all steps in a fixed order:
  `{name}`, then `{dynamic_type}`, then `{dynamicType}`. Replace-all (module
  `Text`) works left to right without overlaps, as Java's `String.replace`
  does.
- **Identity** (`Equivalent`, `HashCode`). Two templates are equal when their
  four matching fields are equal. Equal templates have equal hashes and make
  the same match decisions.

Files: `results.dfy` (Option/Result), `tree.dfy` (the configuration tree),
`text.dfy` (replace-all), `glob.dfy` (SIMPLE patterns), `dynamic_template.dfy`
(the operations), `template_properties.dfy` (lemmas that relate several
calls), `scenarios.dfy` (worked configurations).

Mapping trees are Dafny values. A result therefore never shares state with
the stored template or with another result. Java gets the same effect by
building fresh maps and lists.

Functions that can fail return `Result`. A null entry read as a string
(`match`, `unmatch`, `match_mapping_type`, `match_pattern`, or a top-level
`type`) fails with `NullValue`, and a null `mapping` is refused as
`MappingNotAMap`. Two null dereferences are stated as preconditions instead:
`MatchDefined` for `Match` (line 101, reached only by names that satisfy `match`), and a non-null type for
`MappingForName` (lines 137, 144 and 159).

A placeholder can survive resolution: the inserted name or type may itself
spell a placeholder, or form one together with the text next to it.
For a string that is exactly one token, `NameIsRewrittenFurther` and
`TypeIsNotRewrittenByName` state what the fixed order does with such input.
A placeholder formed by the inserted text together with its surroundings is
not covered by a lemma. What the model proves about the
placeholder's occurrences is `Text.ReplaceAllIsSplitJoin` together with
`SplitPiecesAreFree`: the output is the pieces between the leftmost
non-overlapping occurrences, joined by the replacement text. None of the three
placeholders can overlap itself, so for them these are all the occurrences;
that step is argued here, not proved.

## Model

All source paths are under `modules/elasticsearch/src/main/java/org/elasticsearch/index/mapper/xcontent/`; the cells give the full path.

| member | source | states |
|---|---|---|
| DynamicTemplate.FromString | modules/elasticsearch/src/main/java/org/elasticsearch/index/mapper/xcontent/DynamicTemplate.java:40-47 | SIMPLE exactly for `"simple"`, REGEX exactly for `"regex"`, and an error naming the value for every other string |
| DynamicTemplate.Selector | modules/elasticsearch/src/main/java/org/elasticsearch/index/mapper/xcontent/DynamicTemplate.java:36-47 | the selector of each match type is read back as that type (round trip with `FromString`) |
| DynamicTemplate.ConfigString | modules/elasticsearch/src/main/java/org/elasticsearch/index/mapper/xcontent/DynamicTemplate.java:54-56 | a string entry converts to itself, a null entry fails (the null dereference) and nothing else fails |
| DynamicTemplate.OptionalConfigString | modules/elasticsearch/src/main/java/org/elasticsearch/index/mapper/xcontent/DynamicTemplate.java:55-56 | an absent key gives no value; a present key gives its string form, failing exactly when that fails |
| DynamicTemplate.Parse | modules/elasticsearch/src/main/java/org/elasticsearch/index/mapper/xcontent/DynamicTemplate.java:50-63 | fails with the missing-`match` error when `match` is absent; fails with the null-value error naming the first null entry among `match`, `unmatch` and `match_mapping_type`; fails when `mapping` is absent or not a map, with the missing-`mapping` or not-a-map error once the entries read before it are present and non-null; then fails with the null-value error for a null `match_pattern`; on success stores the name, the configuration, the configured strings, absent optional values exactly when their keys are absent, the mapping, and SIMPLE unless `match_pattern` selects otherwise |
| TemplateProperties.ParseSucceedsIff | modules/elasticsearch/src/main/java/org/elasticsearch/index/mapper/xcontent/DynamicTemplate.java:50-63 | parsing succeeds if and only if the configuration is well formed: `match` and `mapping` present, no consulted entry null, `mapping` a map, a valid selector |
| TemplateProperties.ParseRoundTrip | modules/elasticsearch/src/main/java/org/elasticsearch/index/mapper/xcontent/DynamicTemplate.java:50-62 | a configuration written out from any template fields parses back to a template with exactly those fields |
| TemplateProperties.ParseDefaultsToSimple | modules/elasticsearch/src/main/java/org/elasticsearch/index/mapper/xcontent/DynamicTemplate.java:61 | a well-formed configuration without `match_pattern` parses to SIMPLE matching |
| TemplateProperties.ParseRejectsUnknownSelector | modules/elasticsearch/src/main/java/org/elasticsearch/index/mapper/xcontent/DynamicTemplate.java:40-62 | an otherwise well-formed configuration whose selector is neither `simple` nor `regex` fails with the unknown-pattern error for that selector |
| TemplateProperties.ParseIgnoresNameAndMapping | modules/elasticsearch/src/main/java/org/elasticsearch/index/mapper/xcontent/DynamicTemplate.java:50-62 | configurations that differ only in template name and mapping parse to equal templates |
| DynamicTemplate.PatternMatch | modules/elasticsearch/src/main/java/org/elasticsearch/index/mapper/xcontent/DynamicTemplate.java:123-128 | tests one pattern: under SIMPLE the `*`-glob `Glob.SimpleMatch`, under REGEX the runtime regex; its behaviour is pinned down through `Match`, `MatchIntended` and the Glob lemmas |
| DynamicTemplate.Match | modules/elasticsearch/src/main/java/org/elasticsearch/index/mapper/xcontent/DynamicTemplate.java:97-113 | a field applies if and only if its name satisfies `match`, does not satisfy a present `unmatch`, and, when a type pattern is set, its type is known and satisfies it; defined on every call except a REGEX template without `unmatch` and a name that satisfies `match`, where the source dereferences null |
| DynamicTemplate.MatchIntended | modules/elasticsearch/src/main/java/org/elasticsearch/index/mapper/xcontent/DynamicTemplate.java:97-113 | the corrected decision: equal to `Match` wherever `Match` is defined, and with no `unmatch`, only `match` and the type pattern decide, under either match type |
| TemplateProperties.NameMustMatch | modules/elasticsearch/src/main/java/org/elasticsearch/index/mapper/xcontent/DynamicTemplate.java:98-100 | a name that fails `match` is rejected whatever the type and `unmatch`, under either match type and with or without `unmatch` |
| TemplateProperties.UnmatchVetoes | modules/elasticsearch/src/main/java/org/elasticsearch/index/mapper/xcontent/DynamicTemplate.java:101-103 | a name that satisfies `unmatch` is rejected |
| TemplateProperties.UnmatchExcludesItsName | modules/elasticsearch/src/main/java/org/elasticsearch/index/mapper/xcontent/DynamicTemplate.java:101-103 | under SIMPLE, `unmatch` set to a name rejects that very name, wildcards included |
| TemplateProperties.UnmatchOnlyVetoes | modules/elasticsearch/src/main/java/org/elasticsearch/index/mapper/xcontent/DynamicTemplate.java:101-103 | under the corrected decision `MatchIntended` (see Findings), a template with `unmatch` accepts exactly what it accepts without it, minus the names `unmatch` accepts; under SIMPLE this is the source's own decision |
| TemplateProperties.RegexWithoutUnmatchIsAccepted | modules/elasticsearch/src/main/java/org/elasticsearch/index/mapper/xcontent/DynamicTemplate.java:101 | a concrete REGEX configuration without `unmatch` parses, and the as-written match decision is undefined on the result for every name that satisfies its `match` |
| TemplateProperties.TypeGateNeedsType | modules/elasticsearch/src/main/java/org/elasticsearch/index/mapper/xcontent/DynamicTemplate.java:104-107 | with a type pattern set, a field of unknown type is rejected whatever its name |
| TemplateProperties.TypeGateOnlyRestricts | modules/elasticsearch/src/main/java/org/elasticsearch/index/mapper/xcontent/DynamicTemplate.java:104-111 | removing the type pattern never turns an accepted field into a rejected one |
| DynamicTemplate.HasType | modules/elasticsearch/src/main/java/org/elasticsearch/index/mapper/xcontent/DynamicTemplate.java:115-117 | whether the mapping has a top-level `type` key; `MappingType` returns that key's value exactly when it holds, and `TemplateProperties.HasTypeSurvivesResolution` shows built mappings keep it |
| DynamicTemplate.MappingType | modules/elasticsearch/src/main/java/org/elasticsearch/index/mapper/xcontent/DynamicTemplate.java:115-121 | without a top-level `type` key the inferred type is returned; a string `type` is returned whatever was inferred; it fails exactly when `type` is present and null |
| TemplateProperties.HasTypeSurvivesResolution | modules/elasticsearch/src/main/java/org/elasticsearch/index/mapper/xcontent/DynamicTemplate.java:115-117 | when the template has a top-level `type` key, every built mapping has one too |
| DynamicTemplate.ProcessMap | modules/elasticsearch/src/main/java/org/elasticsearch/index/mapper/xcontent/DynamicTemplate.java:134-149 | the new map's keys are exactly the rewritten keys. Each entry is the processed value of some original entry whose key rewrites to it. Which entry is kept on a collision is left open |
| DynamicTemplate.ProcessList | modules/elasticsearch/src/main/java/org/elasticsearch/index/mapper/xcontent/DynamicTemplate.java:151-164 | the new list has the same length, each element the processed original element: maps and lists recursively, strings rewritten, other scalars unchanged |
| DynamicTemplate.MappingForName | modules/elasticsearch/src/main/java/org/elasticsearch/index/mapper/xcontent/DynamicTemplate.java:130-132 | the field's mapping is a processing of the whole template mapping |
| DynamicTemplate.Substitute | modules/elasticsearch/src/main/java/org/elasticsearch/index/mapper/xcontent/DynamicTemplate.java:137-159 | the rewrite of lines 137, 144 and 159: `{name}`, then `{dynamic_type}`, then `{dynamicType}`, each replaced throughout; `SubstitutePlain`, `SubstituteNameAtFront`, `NameIsRewrittenFurther` and `TypeIsNotRewrittenByName` state its effect |
| TemplateProperties.SubstitutePlain | modules/elasticsearch/src/main/java/org/elasticsearch/index/mapper/xcontent/DynamicTemplate.java:137 | a key or string containing none of the three placeholders is not changed by the rewrite |
| TemplateProperties.ResolvesPlainUnchanged | modules/elasticsearch/src/main/java/org/elasticsearch/index/mapper/xcontent/DynamicTemplate.java:134-164 | a template mapping with no placeholder in any key or string is built into itself |
| TemplateProperties.ResolvesUnique | modules/elasticsearch/src/main/java/org/elasticsearch/index/mapper/xcontent/DynamicTemplate.java:134-149 | when no two keys of any one map rewrite to the same key, the built mapping is unique |
| TemplateProperties.SubstituteNameAtFront | modules/elasticsearch/src/main/java/org/elasticsearch/index/mapper/xcontent/DynamicTemplate.java:144 | for a field name without `{`, `{name}` followed by text without `{` becomes the field name followed by that text |
| TemplateProperties.NameIsRewrittenFurther | modules/elasticsearch/src/main/java/org/elasticsearch/index/mapper/xcontent/DynamicTemplate.java:137 | `{name}` becomes the field name with the two type steps applied to it, because `{name}` is replaced first |
| TemplateProperties.TypeIsNotRewrittenByName | modules/elasticsearch/src/main/java/org/elasticsearch/index/mapper/xcontent/DynamicTemplate.java:159 | `{dynamic_type}` becomes the type whatever the name; only the last step can still touch the inserted type |
| Text.ReplaceAll | modules/elasticsearch/src/main/java/org/elasticsearch/index/mapper/xcontent/DynamicTemplate.java:137 | Java's `String.replace`: leftmost-first, non-overlapping replacement; `ReplaceAllIsSplitJoin`, `SplitJoinRoundTrip`, `SplitPiecesAreFree` and `ReplaceAllAbsent` relate it to the independent `Split`/`Join` |
| Text.ReplaceAllIsSplitJoin | modules/elasticsearch/src/main/java/org/elasticsearch/index/mapper/xcontent/DynamicTemplate.java:137 | replace-all is the text split at the target's leftmost non-overlapping occurrences and joined with the replacement, so those occurrences are replaced and nothing else changes |
| Text.SplitJoinRoundTrip | modules/elasticsearch/src/main/java/org/elasticsearch/index/mapper/xcontent/DynamicTemplate.java:137 | joining the pieces with the target gives back the original text |
| Text.SplitPiecesAreFree | modules/elasticsearch/src/main/java/org/elasticsearch/index/mapper/xcontent/DynamicTemplate.java:137 | no piece contains the target (that the occurrences of a target that cannot overlap itself, such as the three placeholders, are then exactly the piece boundaries is a consequence not proved here) |
| Text.ReplaceAllAbsent | modules/elasticsearch/src/main/java/org/elasticsearch/index/mapper/xcontent/DynamicTemplate.java:144 | text in which the target does not occur comes back unchanged |
| Glob.SimpleMatch | modules/elasticsearch/src/main/java/org/elasticsearch/index/mapper/xcontent/DynamicTemplate.java:125 | the SIMPLE pattern test, an anchored `*`-glob; the Glob lemmas below give its equality, `startsWith`, `endsWith` and match-all cases |
| Glob.LiteralMatchesOnlyItself | modules/elasticsearch/src/main/java/org/elasticsearch/index/mapper/xcontent/DynamicTemplate.java:125 | a SIMPLE pattern without `*` matches exactly itself |
| Glob.MatchesItself | modules/elasticsearch/src/main/java/org/elasticsearch/index/mapper/xcontent/DynamicTemplate.java:125 | every SIMPLE pattern matches its own text |
| Glob.StarMatchesAll | modules/elasticsearch/src/main/java/org/elasticsearch/index/mapper/xcontent/DynamicTemplate.java:125 | the pattern `*` matches every string |
| Glob.StarSuffix | modules/elasticsearch/src/main/java/org/elasticsearch/index/mapper/xcontent/DynamicTemplate.java:125 | `*` followed by literal text matches exactly the strings that end in that text |
| Glob.PrefixStar | modules/elasticsearch/src/main/java/org/elasticsearch/index/mapper/xcontent/DynamicTemplate.java:125 | literal text followed by `*` matches exactly the strings that start with that text |
| Glob.Concatenation | modules/elasticsearch/src/main/java/org/elasticsearch/index/mapper/xcontent/DynamicTemplate.java:125 | a pattern made of two pieces matches a string made of two pieces that the pattern pieces match |
| DynamicTemplate.Equivalent | modules/elasticsearch/src/main/java/org/elasticsearch/index/mapper/xcontent/DynamicTemplate.java:166-181 | template equality on `match`, `match_mapping_type`, the match type and `unmatch`; `EquivalentIsEquivalence`, `EquivalentIgnoresNameConfMapping`, `DifferentMatchNotEquivalent`, `EquivalentMatchAlike` and `HashConsistent` pin it down |
| TemplateProperties.EquivalentIsEquivalence | modules/elasticsearch/src/main/java/org/elasticsearch/index/mapper/xcontent/DynamicTemplate.java:166-181 | template equality is reflexive, symmetric and transitive |
| TemplateProperties.EquivalentIgnoresNameConfMapping | modules/elasticsearch/src/main/java/org/elasticsearch/index/mapper/xcontent/DynamicTemplate.java:173-180 | templates differing only in name, configuration and mapping are equal |
| TemplateProperties.DifferentMatchNotEquivalent | modules/elasticsearch/src/main/java/org/elasticsearch/index/mapper/xcontent/DynamicTemplate.java:174 | templates whose `match` differs are not equal |
| TemplateProperties.EquivalentMatchAlike | modules/elasticsearch/src/main/java/org/elasticsearch/index/mapper/xcontent/DynamicTemplate.java:166-181 | equal templates make the same match decision on every field |
| TemplateProperties.HashConsistent | modules/elasticsearch/src/main/java/org/elasticsearch/index/mapper/xcontent/DynamicTemplate.java:183-191 | equal templates have equal hashes |
| DynamicTemplate.HashCode | modules/elasticsearch/src/main/java/org/elasticsearch/index/mapper/xcontent/DynamicTemplate.java:183-191 | the hash is a 32-bit integer computed from the four matching fields only |
| TemplateScenarios.TextConfigParses | modules/elasticsearch/src/main/java/org/elasticsearch/index/mapper/xcontent/DynamicTemplate.java:50-62 | `{match: "*_text", mapping: {...}}` parses to a SIMPLE template with no `unmatch` and no type pattern |
| TemplateScenarios.TextTemplateMatches | modules/elasticsearch/src/main/java/org/elasticsearch/index/mapper/xcontent/DynamicTemplate.java:97-113 | that template applies exactly to fields whose name ends in `_text` |
| TemplateScenarios.TextTemplateResolves | modules/elasticsearch/src/main/java/org/elasticsearch/index/mapper/xcontent/DynamicTemplate.java:134-149 | for a field name without `{`, the built mapping is exactly `{type: "string", analyzer: "<name>_analyzer"}` |
| TemplateScenarios.UnmatchScenario | modules/elasticsearch/src/main/java/org/elasticsearch/index/mapper/xcontent/DynamicTemplate.java:97-103 | with `match: "title_*"` and `unmatch: "*_raw"`, a field applies exactly when its name starts with `title_` and does not end in `_raw` |
| TemplateScenarios.RegexScenario | modules/elasticsearch/src/main/java/org/elasticsearch/index/mapper/xcontent/DynamicTemplate.java:97-113 | under the corrected decision `MatchIntended` (see Findings; the source throws on this field at line 101), a REGEX template typed `long` with no `unmatch` accepts a `long` field and rejects a `string` one; its built mapping is `{type: <inferred type>}` |
| TemplateScenarios.MissingMatchScenario | modules/elasticsearch/src/main/java/org/elasticsearch/index/mapper/xcontent/DynamicTemplate.java:51-53 | a configuration without `match` is refused with the missing-`match` error |

## Left out

- REGEX matching is the parameter `regex: (string, string) -> bool`, a fixed but unknown function. The JDK's regular-expression semantics, and its errors for malformed patterns, are not modelled.
- PatternMatch: the body of `Regex.simpleMatch` is not part of this model. SIMPLE matching is specified independently as an anchored `*`-glob (`Glob.SimpleMatch`), and a null SIMPLE pattern is assumed never to match.
- Match: requires `MatchDefined` (SIMPLE, `unmatch` present, or a name that fails `match`). Under REGEX without `unmatch`, a name that satisfies `match` reaches line 101, where the source evaluates `name.matches(null)` and throws; a name that fails `match` is rejected at line 99 first. See Findings.
- MappingForName: takes a non-null inferred type. Java's `String.replace` throws on a null replacement. It does so as soon as any key or string value is processed; only an empty mapping would survive a null type.
- ProcessMap: the order of `HashMap` iteration is not modelled, so neither is which value wins when two keys rewrite to the same key. `Resolves` leaves that choice open.
- ConfigString: Java's `toString` of non-string values (numbers, booleans, maps, lists) is the parameter `render`. Only strings and null are modelled exactly.
- Parse: a null `mapping` entry is refused as `MappingNotAMap`. Java accepts it at parse time and fails with a null dereference later, in `hasType`, `mappingType` or `mappingForName`.
- HashCode: the enum constants' identity hash is the parameter `typeHash`. Dafny `char`s are Unicode scalar values, while Java hashes UTF-16 code units. The two hashes therefore differ on text beyond the Basic Multilingual Plane.
- Text.ReplaceAll: an empty target string is not modelled. All three placeholders are non-empty.
- Numbers in the configuration tree are unbounded integers (`Num`); floating-point values are not modelled. Like every non-string scalar, they pass through mapping building unchanged.
- The constructor, the accessors `name()` and `conf()`, and `equals`' own reference and class checks are covered by the `Template` datatype: its constructor and fields, and `Equivalent` on values of the one type. The retained `conf` is kept as given and never inspected.

## Findings

| source | as written | input that shows it | evidently intended | confidence | as-written member | corrected member |
|---|---|---|---|---|---|---|
| modules/elasticsearch/src/main/java/org/elasticsearch/index/mapper/xcontent/DynamicTemplate.java:101 | `patternMatch(unmatch, name)` runs, once the name satisfies `match`, even when `unmatch` is null. Under REGEX this calls `name.matches(null)`, which throws | the configuration `{match: ".*", match_pattern: "regex", mapping: {}}` parses, and `match` on any field whose name satisfies `.*` then throws | an absent `unmatch` excludes nothing under either match type, as under SIMPLE | not executed; high | TemplateProperties.RegexWithoutUnmatchIsAccepted | DynamicTemplate.MatchIntended |
