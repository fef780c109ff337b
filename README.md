# katolomb translation core, modelled in Dafny

katolomb translates keys into texts. A **translator** looks a key up, for
example in a YAML document whose keys are cut into a path on a separator
(`greetings.hello`). It can be wrapped to fall back to a fixed translation or
to the key itself, or to fill in the placeholders of the translation found.
Placeholders are written `%{name}` or `%{name|default}`, and an
**interpolator** fills them in from a **property source**: a map, a
function, or another source wrapped with a fallback value.

The model has one module per concern:

- `Results` holds the outcome types. Go's `(string, error)` pair becomes a
  `Result`, and each error the core produces is a tagged `Error` variant.
- `Text` gives the standard-library string operations the core relies on,
  with the properties the proofs need: `strings.Split`, `strings.Join`,
  `strings.Replace(…, -1)`, and the decimal rendering of sequence indices.
- `Properties` models property sources (properties.go).
- `Interpolators` models placeholder interpolation and the no-error wrapper
  (interpolator.go).
  - The placeholder regular expression is stated as a grammar predicate,
    `IsMatch`.
  - It is recognised by a scanner, `MatchAt`/`MatchesFrom`. The scanner is
    proved sound, complete and leftmost-first against the grammar.
  - `Interpolate` is a loop, proved against the functional specification
    `Interpolated`.
- `Yaml` models the tree-backed translator (yaml.go).
  - A decoded document (`Generic`) is normalised into a tree of
    string-keyed branches and string leaves (`Node`).
  - The normalising walk is written as methods with loops. They are proved
    to compute `Normalized`.
  - Lookup is proved against a reference walk, `NodeAt`.
- `Translators` models translator composition (translator.go). Evaluation
  (`Evaluate`, here and in `Interpolators`) records each leaf component
  call, and each leaf works on exactly the input and property source its
  call records. `Invocations` is that trace, and `Translate` and `Run` are
  the evaluated results.
- `PropertiesScenarios`, `InterpolatorScenarios`, `YamlScenarios` and
  `TranslatorScenarios` state the outcomes that the library's tests expect,
  as lemmas about the model.

A failed interpolation reports the text being interpolated. The error at
interpolator.go:84 quotes `text` as rebound at interpolator.go:88, so it
already holds the substitutions of the earlier declarations.
`InterpolatorScenarios.FailureQuotesCurrentText` shows this on a concrete
template.

## Model

| member | source | states |
|---|---|---|
| Properties.Property | properties.go:21-49 | A map source succeeds exactly for the names in its map, answers the mapped value, and otherwise fails with "property not available". A defaulted source never fails. It passes every successful inner answer through unchanged and answers the fallback where the inner source fails. |
| Properties.WithDefaultIsTotal | properties.go:35-43 | Wrapping any source with a default gives a source that answers every name. It agrees with the wrapped source wherever that source answers. |
| PropertiesScenarios.MapSourceOutcomes | properties_test.go:19-25 | The map-source outcomes the tests expect: the empty map, a present name, absent names. |
| PropertiesScenarios.DefaultedSourceOutcomes | properties_test.go:61-63 | A defaulted source keeps a non-empty answer and an empty answer, and answers the fallback when the wrapped source fails. |
| Interpolators.MatchAt | interpolator.go:37 | Soundness: whatever the scanner reports at a position is a match of the placeholder pattern starting there. |
| Interpolators.MatchAtComplete | interpolator.go:37 | Completeness: wherever the pattern matches, the scanner reports exactly that match. So the match at a position is unique. |
| Interpolators.MatchesFrom | interpolator.go:101 | Every reported match is a real match of the pattern. The matches come in order of position and do not overlap. |
| Interpolators.MatchesFromLeftmost | interpolator.go:101 | Leftmost-first: every position where the pattern matches either starts a reported match or lies inside one. |
| Interpolators.NoDeclarationsIffNoMatch | interpolator.go:99-116 | A template declares nothing exactly when the pattern matches nowhere in it. |
| Interpolators.NoOpenerNoDeclarations | interpolator.go:37 | A template without `%{` declares nothing. |
| Interpolators.ToInterpolation | interpolator.go:102-112 | The record built from a match is well formed: the name is non-empty without `}` or `\|`; the default has no `}` and is declared exactly when the optional group matched; the literal spells `%{name\|default}` and occurs in the template where the match starts. |
| Interpolators.Interpolations | interpolator.go:99-116 | There is one well-formed declaration per match, in match order, and each literal occurs at its match's position. |
| Interpolators.FindInterpolations | interpolator.go:99-116 | The loop builds exactly the declaration list `Interpolations`. |
| Interpolators.Interpolate | interpolator.go:79-91 | The substitution loop computes `Interpolated`. It substitutes declarations in order into the current text, and stops at the first declaration it cannot resolve. |
| Interpolators.OneDeclaration | interpolator.go:99-116 | A template with one declaration and no other `%` yields exactly that declaration's record. |
| Interpolators.TwoDeclarations | interpolator.go:99-116 | A template with two declarations and no other `%` yields those two records, in order. |
| Interpolators.SubstituteAllFails | interpolator.go:80-89 | Substitution fails if and only if some declaration names a property the source lacks and declares no default. |
| Interpolators.SubstituteAllFirstFailure | interpolator.go:81-85 | A failure is an interpolation error that carries the source's error for the first unresolvable declaration. Every earlier declaration was resolved. |
| Interpolators.InterpolatedFailsIff | interpolator.go:79-91 | `Interpolate` fails if and only if some declaration of the template lacks both its property and a default. |
| Interpolators.TotalSourceNeverFails | interpolator.go:79-91 | With a source that answers every name, interpolation never fails. |
| Interpolators.NoMatchUnchanged | interpolator.go:79-91 | A template in which the pattern matches nowhere comes back unchanged. |
| Interpolators.SingleDeclaration | interpolator.go:79-91 | For a template with one declaration: a found value replaces every occurrence of the declaration, and the default is ignored. A missing property with a default is replaced by the default. A missing property without a default is an error quoting the template. |
| Interpolators.Run | interpolator.go:43-51 | The no-error wrapper never fails. It passes a successful result through, and answers the original text when the wrapped interpolator fails. |
| Interpolators.InterpolatorForwards | interpolator.go:43-51 | An interpolation calls exactly one leaf component, and hands it the text and the very property source it was given. |
| Text.Split | yaml.go:59 | `strings.Split` with a non-empty separator yields at least one piece, and the first piece is a prefix of the input. |
| Text.JoinSplit | yaml.go:59 | Joining the pieces of a split with the separator gives back the input. |
| Text.SplitPiecesAvoidSeparator | yaml.go:59 | No piece of a split contains the separator. |
| Text.SplitAbsent | yaml.go:59 | A string that does not contain the separator splits into itself alone. |
| Text.SplitAfterFirst | yaml.go:59 | Splitting at the first occurrence of the separator gives the text before it, followed by the split of the rest. |
| Text.ReplaceAllIsJoinOfSplit | interpolator.go:88 | `strings.Replace(s, p, r, -1)` equals splitting on `p` and joining with `r`. |
| Text.ReplaceAllAbsent | interpolator.go:88 | Replacing a pattern that does not occur leaves the text unchanged. |
| Text.DecimalOfNatToString | yaml.go:113 | The decimal rendering of an index reads back as that index. |
| Text.NatToStringOfDecimal | yaml.go:113 | Every canonical decimal numeral is the rendering of the number it denotes. |
| Text.NatToStringInjective | yaml.go:113 | Distinct indices render to distinct keys. |
| Yaml.KeyPath | yaml.go:55-60 | A key's path is never empty. With the empty separator it is the whole key as one segment. |
| Yaml.KeyPathSegments | yaml.go:55-60 | With a separator, the segments joined by the separator give back the key, and no segment contains the separator. |
| Yaml.Find | yaml.go:68-89 | Lookup against the reference walk `NodeAt`. It answers the leaf the path ends at. It fails with "not found" when a segment is missing or the path goes past a leaf, and with "incomplete path" when the path ends at a branch. |
| Yaml.Translate | yaml.go:54-66 | A key translates to the leaf its path reaches. Otherwise the lookup's reason is reported as an error for that key. |
| Yaml.NodeAtAppend | yaml.go:68-89 | Walking `p + q` is walking `p`, then `q` from where `p` ended. |
| Yaml.MissingSegmentNotFound | yaml.go:74-77 | A path that reaches a branch lacking its next segment is not found, whatever follows. |
| Yaml.PastLeafNotFound | yaml.go:81-84 | A path that goes on past a leaf is not found. |
| Yaml.BranchIncomplete | yaml.go:69-70 | A path that stops at a branch is incomplete. |
| Yaml.EmptyTreeNotFound | yaml.go:74-77 | In an empty tree, no key is found. |
| Yaml.SliceKeys | yaml.go:110-116 | A normalised sequence has exactly the keys "0" to "n-1" in canonical decimal form. Each key maps to the normalised element at its index. |
| Yaml.NormalizedNodeAt | yaml.go:91-116 | Normalisation keeps every lookup. Walking the normalised tree reaches the normalised form of the document node that the same path reaches, and fails exactly where that walk fails. |
| Yaml.TranslateDocument | yaml.go:40-66 | A translator built from a document answers a key with the scalar its path reaches in the document. It reports "not found" when the walk fails, and "incomplete path" at a mapping or sequence. |
| Yaml.TranslationizeMap | yaml.go:91-97 | The loop over the entries computes the normalised map. |
| Yaml.TranslationizeValue | yaml.go:99-108 | A value is normalised by its shape: mapping, sequence or scalar. |
| Yaml.TranslationizeSlice | yaml.go:110-116 | The loop over the elements computes the index-keyed normalised map. |
| Yaml.NewYamlTranslatorWithSeparator | yaml.go:40-52 | The translator keeps the given separator and the normalised document. |
| Yaml.NewYamlTranslator | yaml.go:27-29 | The translator uses the `.` separator and the normalised document. |
| Translators.Translate | translator.go:32-53 | Both default wrappers never fail. Each passes a successful translation through unchanged, and otherwise answers its fallback: the fixed translation, or the key. |
| Translators.InterpolatedTranslation | translator.go:60-72 | The interpolated wrapper succeeds exactly when the translation and then its interpolation succeed, and answers the interpolated text. A failed translation is returned as it is. A failed interpolation is an error for the key. |
| Translators.TranslatorForwards | translator.go:32-72 | A translation calls at least one component. Every component called is handed the very property source the translator was given. |
| Translators.InterpolatedCallOrder | translator.go:60-72 | The interpolated wrapper calls the wrapped translator first. Only when that succeeds does it call one interpolator component, on the translation. |
| Translators.InnermostDefaultWins | translator.go:32-53 | Of two nested default wrappers, the inner one answers every failure. |
| InterpolatorScenarios.EmptyTemplate | interpolator_test.go:61 | The empty template interpolates to itself. |
| InterpolatorScenarios.EmptyNameIsLiteral | interpolator_test.go:62 | `%{}` is not a declaration and is kept verbatim. |
| InterpolatorScenarios.FoundPropertyIsUsed | interpolator_test.go:63 | A found property replaces its declaration. |
| InterpolatorScenarios.FoundPropertyOverridesDefault | interpolator_test.go:64 | A found property wins over the declared default. |
| InterpolatorScenarios.MissingPropertyWithoutDefaultFails | interpolator_test.go:65 | A missing property without a default is an error. |
| InterpolatorScenarios.MissingPropertyUsesDefault | interpolator_test.go:66 | A missing property with a default is replaced by the default. |
| InterpolatorScenarios.TwoFound | interpolator_test.go:67 | Two found properties both replace their declarations. |
| InterpolatorScenarios.DefaultThenFound | interpolator_test.go:69 | A default followed by a found property are both substituted. |
| InterpolatorScenarios.LastnameThenName | interpolator_test.go:70 | That template declares `lastname`, then `name`, neither with a default. |
| InterpolatorScenarios.FirstOfTwoMissingFails | interpolator_test.go:70 | The first declaration is missing without a default, so interpolation fails on the unchanged template with the source's error. |
| InterpolatorScenarios.EmptyDefault | interpolator.go:103-106 | `%{n\|}` declares an empty default, which replaces the declaration when `n` is missing. |
| InterpolatorScenarios.FailureQuotesCurrentText | interpolator.go:84 | A failure after an earlier substitution quotes the text with that substitution already made. |
| InterpolatorScenarios.SecondOfTwoFails | interpolator.go:80-88 | With two declarations, where the first resolves and the second does not, the error quotes the template with the first one replaced. |
| InterpolatorScenarios.OneDeclarationReplaced | interpolator.go:79-91 | A template with one resolvable declaration and no other `%` has it replaced by its value. |
| InterpolatorScenarios.TwoDeclarationsReplaced | interpolator.go:79-91 | A template with two resolvable declarations and no other `%` has each replaced by its value. |
| InterpolatorScenarios.NoErrorOutcomes | interpolator_test.go:26-27 | The no-error wrapper passes a success through, and answers the original text for a failure. |
| YamlScenarios.NestedKeyFound | yaml_test.go:70 | `greetings.hello` reaches the nested translation. |
| YamlScenarios.BranchKeyIncomplete | yaml_test.go:69 | `greetings` stops at a branch, which is an error for that key. |
| YamlScenarios.ListElementFound | yaml_test.go:74 | `numbers.0` reaches the first list element. |
| YamlScenarios.ListIndexOutOfRange | yaml_test.go:73 | `numbers.4` is past the end of the list, so it is not found. |
| YamlScenarios.KeyPastLeafNotFound | yaml_test.go:65 | `hello.my.key` goes past the leaf `hello`, so it is not found. |
| TranslatorScenarios.DefaultReplacesFailure | translator_test.go:27-30 | The default translation replaces a failure, and a success passes through. |
| TranslatorScenarios.KeyReplacesFailure | translator_test.go:67-69 | The key replaces a failure, and a success passes through. |
| TranslatorScenarios.InterpolatedOutcomes | translator_test.go:118-121 | A failing translation or a failing interpolation is an error. Otherwise the interpolated translation comes back. |
| TranslatorScenarios.DocumentThenPlaceholders | translator.go:60-72 | A translation found in a document has its placeholder filled in from a map of properties. |

## Left out

- Decoding YAML (yaml.go:41-45). `yaml.Unmarshal` and its error are not modelled. The constructors take the decoded document as a `Generic` value.
- The `%v` rendering of non-string keys and scalars (yaml.go:94, yaml.go:106). The model's document already holds string keys and string scalars. It therefore does not capture distinct keys that render alike (such as `1` and `"1"`). In Go, map iteration order decides which of those survives.
- The panic for an unexpected value type in `find` (yaml.go:86-87). Normalisation only produces branches and strings, so `Node` has no third shape.
- The regular-expression engine. The one pattern the core compiles (interpolator.go:37) is recognised by a scanner proved equivalent to it. `NewInterpolator` and the `regexp` field become the `Placeholders` constructor.
- Error message text. `fmt.Errorf`, `strconv.Quote` and the exact wording are replaced by tagged `Error` variants. The string returned with an error is always `""` in the core, so it is not kept.
- The Go interfaces. `Translator`, `Interpolator` and `TranslationProperties` are closed datatypes with a variant for caller-supplied functions.
  - Those functions are pure. A caller's side effects cannot be expressed, such as the tests' flags recording that a source was used.
  - Which components receive the property source is stated through the invocation trace (`Invocations`) instead.
- The `Translatable` interface (translator.go:21-23). Nothing in the core implements or uses it.
- `strings.Split` with an empty separator and `strings.Replace` with an empty pattern. The core never calls them that way: yaml.go:56-57 handles the empty separator, and a declaration's literal is never empty.
- Byte strings. Go strings are byte strings, but the model's `string` is a sequence of Unicode characters. The two agree on valid UTF-8. Invalid byte sequences, which Go's regexp reads as U+FFFD, cannot be represented.
- Concurrency and aliasing of the returned maps. The core shares no mutable state between calls.
- The test case at interpolator_test.go:68 has no lemma of its own. It is an instance of `InterpolatorScenarios.TwoDeclarationsReplaced`: two declarations, no other `%`, and values without `%`.
- The test case at interpolator_test.go:71 is not stated. Its template has four declarations, and no lemma here fixes the declarations of a template with more than two.
- The test cases that decode invalid YAML or JSON, or that look keys up in JSON documents, are not modelled, because decoding is not part of the model.
- examples/main.go and doc.go are not part of this model.
