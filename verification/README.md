# Social-service network matcher (Araraquara triage assistant)

The triage assistant asks a language model to assess a person's situation. When the model
calls the tool `consultar_rede_atendimento`, the application answers it with
`executeConsultarRede`: a mock directory lookup that scores each of ten local services
(emergency units, a health post, night shelters, a day centre, a drug-and-alcohol clinic)
against the tool-call arguments `demanda`, `perfil_usuario` and `gravidade`, sorts the
services by descending score and returns the best three. Once the model has produced its
final answer, the application strips markdown code fences from the reply before parsing it
as JSON.

This project models both pieces:

- `Strings`: the JavaScript string operations they use, on `seq<char>`. These are
  `includes`, `toLowerCase`, `join`, a global `replace` with an empty replacement and `trim`.
- `Catalog`: the `Location` record, the scored record `{ ...loc, score }` and the shipped
  directory `LOCATIONS`, copied entry by entry.
- `Scoring`: the search string and the seven additive rules, written as a rule table with a
  `Score` function. It also holds `ScoreLocation`, the imperative body of the `map` callback
  that adds the points with `score +=`, proved equal to `Score`. `Score`, `ScoreLocation`
  and `ExecuteConsultarRede` use the corrected `demanda` bonus from the row under
  "## Findings": an absent `demanda` earns no bonus. Line 100 as written, which looks for the
  string "undefined" when `demanda` is absent, is modelled by `DemandaBonusAsWritten` and
  `ScoreAsWritten`, and the matcher built on it by `Matcher.TopMatchesAsWritten`.
- `StableSort`: `sort((a, b) => b.score - a.score)`. ECMAScript requires this sort to be
  stable, so equal scores keep their order. It is specified by insertion from the back
  (`SortedByScore`) and implemented as an in-place insertion sort on an array.
- `Matcher`: `executeConsultarRede` as a method that scores into a fresh array, sorts it and
  slices the first three entries. It is proved equal to the function `TopMatches`, and the
  lemmas state what the ranking promises.
- `Scenarios`: the matcher run against the shipped directory.
- `FenceCleaner`: the reply cleaner ``text.replace(/```json/g, "").replace(/```/g, "").trim()``.

The directory is a parameter of the matcher. `Catalog.LOCATIONS` is the one the application
ships. The arguments are `Option<string>`, where `None` stands for a field that is absent,
`undefined` or `null`.

Two consequences of the code that are easy to miss:

- An empty `demanda` (`""`) is dropped from the search string. The empty string still occurs
  in every location string, so every location gets the +2 bonus. The model keeps this, and
  `Matcher.EmptyDemandaKeepsRanking` proves that the ranking does not change.
- The bonus compares the lower-cased `demanda` with the lower-cased name and tags. So for
  `demanda = "pet"`, `perfil_usuario = "mulher com animal"`, Associação São Pio scores
  20 + 5 + 2 = 27, not 25: "pet" is one of its tags.

## Model

| member | source | states |
|---|---|---|
| Strings.ContainsIff | services/geminiService.ts:86-100 | `includes` is true exactly when the needle occurs at some index of the text, and the empty needle occurs everywhere |
| Strings.ToLower | services/geminiService.ts:74-79 | `toLowerCase` keeps the length and lowers each character on its own (ASCII and Latin-1 capitals) |
| Strings.ContainsToLower | services/geminiService.ts:74-100 | a substring stays a substring after both strings are lower-cased |
| Strings.JoinContainsPart | services/geminiService.ts:74-79 | every joined part occurs in the result of `join` |
| Strings.RemoveAllAbsent | services/geminiService.ts:220 | a global replace of a pattern that does not occur leaves the text unchanged |
| Strings.RemoveAllKeepsPrefix | services/geminiService.ts:220 | text before the first possible start of the pattern passes through the global replace untouched |
| Strings.TrimProperties | services/geminiService.ts:220 | `trim` returns a slice of its input with no whitespace at either end, cuts off only whitespace before and after that slice, and leaves an already trimmed string alone |
| Strings.TrimIsSubstring | services/geminiService.ts:220 | what `trim` returns occurs in its input |
| Scoring.ScoreLocation | services/geminiService.ts:77-103 | the callback that adds the rule points one `score +=` at a time returns exactly the rule-table score |
| Scoring.ScoreSplit | services/geminiService.ts:78-100 | the score is the sum of the seven rules' contributions, each decided on its own (the rules are additive and independent) |
| Scoring.ScoreBounds | services/geminiService.ts:78-100 | every score lies between 0 and 52, because the two severity rules exclude each other |
| Scoring.SearchTermsHoldFields | services/geminiService.ts:73-74 | every non-empty argument, lower-cased, occurs in the search string, so a keyword in any field triggers its rule |
| Scoring.ProfileKeywordTriggers | services/geminiService.ts:74-90 | "document" in `perfil_usuario`, in any letter case, gives +10 to a location tagged "documentos" |
| Scoring.SeverityIsCaseSensitive | services/geminiService.ts:74-83 | `gravidade = "Grave"` does not fire the severe rule, although "grave" reaches the lower-cased search string |
| Scoring.DemandaFoundInNameOrTag | services/geminiService.ts:79-100 | a `demanda` that, lower-cased, occurs in the lower-cased name or in one lower-cased tag of the location earns the +2 bonus, so "upa" is found in "UPA Central" |
| Scoring.EmptyDemandaShift | services/geminiService.ts:74-100 | an empty `demanda` scores every location exactly 2 more than an absent one |
| Scoring.DemandaBonusAsWritten | services/geminiService.ts:100 | the bonus as the code computes it is always 0 or 2, and searches for "undefined" when `demanda` is absent |
| Scoring.AbsentDemandaMatchesUndefined | services/geminiService.ts:100 | the code's bonus and the modelled bonus agree whenever `demanda` is given; with `demanda` absent, a location spelling "undefined" gets 2 from the code and 0 from the model |
| Scoring.LocationLacksUndefined | services/geminiService.ts:79 | a location string cannot hold "undefined" when the name and every tag is shorter than nine characters or lacks an "f" or a "u" in either case, since `join` and the space between name and tags cannot complete the word |
| Scoring.AsWrittenBonusAgrees | services/geminiService.ts:100 | for such a location, the bonus as written equals the corrected bonus for every query |
| Scoring.ScoreAsWrittenDiffers | services/geminiService.ts:78-100 | the score as written and the corrected score differ by exactly the difference of the two bonuses |
| StableSort.InsertLast | services/geminiService.ts:106 | one pass of the in-place sort moves the entry at `i` left past the lower-scoring entries before it, and the rest of the array is untouched |
| StableSort.SortByScore | services/geminiService.ts:106 | the in-place sort leaves the array equal to the stable descending sort of its old contents |
| StableSort.SortedByScorePermutes | services/geminiService.ts:106 | the sort returns a permutation of its input |
| StableSort.SortedByScoreIsSorted | services/geminiService.ts:106 | the sort returns scores in non-increasing order |
| StableSort.SortedByScoreIsStable | services/geminiService.ts:106 | for every score value, entries with that score come out in their input order |
| StableSort.SortedInputUnchanged | services/geminiService.ts:106 | an input already in non-increasing score order comes out unchanged |
| StableSort.SortedHeadIsBest | services/geminiService.ts:106 | the first sorted entry is an input entry with the highest score |
| StableSort.SortedHeadIsUniqueBest | services/geminiService.ts:106 | an entry scoring strictly more than all others comes out first |
| StableSort.SortedByScoreShift | services/geminiService.ts:106 | adding the same amount to every score leaves the sorted order unchanged |
| Matcher.ExecuteConsultarRede | services/geminiService.ts:72-108 | the matcher returns the first min(3, n) entries of the stably sorted, scored directory |
| Matcher.TopMatchesAreScoredEntries | services/geminiService.ts:77-106 | the result has min(3, n) entries; each is a directory record, unchanged, with the score the query gives it; no record appears more often than the directory lists it |
| Matcher.TopMatchesOrdered | services/geminiService.ts:106 | the result is ordered by non-increasing score |
| Matcher.NothingBetterLeftOut | services/geminiService.ts:106 | every directory entry scoring more than the last returned entry is in the result |
| Matcher.TiesInCatalogOrder | services/geminiService.ts:106 | for every score, the returned entries with that score are the first directory entries with that score, in directory order |
| Matcher.EmptyQueryKeepsCatalogOrder | services/geminiService.ts:73-106 | with no arguments every entry scores 0 and the first three directory entries come back in order |
| Matcher.EmptyDemandaScoresShifted | services/geminiService.ts:73-103 | an empty `demanda` scores every directory entry 2 higher than an absent one, entry by entry |
| Matcher.EmptyDemandaKeepsRanking | services/geminiService.ts:73-106 | an empty `demanda` returns the same entries in the same order as an absent one, each with 2 more points |
| Matcher.AsWrittenRankingAgrees | services/geminiService.ts:72-108 | when the two bonuses agree on every directory entry, the matcher as written returns exactly what the corrected matcher returns |
| Matcher.AsWrittenMatcherPromotesUndefined | services/geminiService.ts:100-106 | with no arguments and a directory [A, Undefined], the matcher as written returns Undefined first with 2 points, while the corrected matcher keeps directory order with 0 points each |
| Scenarios.SevereOnlyScore | services/geminiService.ts:74-100 | with only `gravidade = "grave"`, a location scores 10 if tagged "grave" and 0 otherwise |
| Scenarios.SevereQueryTopThree | services/geminiService.ts:72-108 | in a directory whose first three entries, and only those, are tagged "grave", the severe query returns those three with 10 points each, in order |
| Scenarios.SevereQueryReturnsUpas | services/geminiService.ts:8-108 | on the shipped directory the severe query returns UPA Vila Xavier, UPA Valle Verde and UPA Central, each with 10 points |
| Scenarios.PetQueryTerms | services/geminiService.ts:74 | `demanda = "pet"` and `perfil_usuario = "mulher com animal"` make the search string "pet mulher com animal" |
| Scenarios.PetQueryScore | services/geminiService.ts:74-100 | that query gives 20 for the "animais" tag, 5 for "feminino" and 2 when "pet" is in the name or tags, and nothing else |
| Scenarios.PetQueryFullScore | services/geminiService.ts:74-100 | a location tagged "animais", "feminino" and "pet" gets 27 points from that query |
| Scenarios.PetQueryTopIsAnimalShelter | services/geminiService.ts:72-108 | if only one entry is tagged "animais", and it is also tagged "feminino" and "pet", that entry comes first with 27 points |
| Scenarios.PetQueryPrefersSaoPio | services/geminiService.ts:8-108 | on the shipped directory that query ranks Associação São Pio first with 27 points and returns three entries |
| Scenarios.ShippedPiecesCannotSpellUndefined | services/geminiService.ts:8-69 | no name or tag of the shipped directory can hold "undefined" |
| Scenarios.ShippedDirectoryUnaffected | services/geminiService.ts:8-108 | on the shipped directory, the matcher as written and the corrected matcher return the same result for every query |
| Scenarios.DocumentosInProfileReachesCentroPop | services/geminiService.ts:8-91 | `perfil_usuario = "Documentos"` gives Centro Pop the +10 documents bonus |
| FenceCleaner.FenceRemovalLeavesNoFence | services/geminiService.ts:220 | the global removal of "```" never leaves a "```" behind, even where deleted fences leave backticks next to each other |
| FenceCleaner.CleanHasNoFence | services/geminiService.ts:220 | a cleaned reply contains no code fence |
| FenceCleaner.CleanIsTrimmed | services/geminiService.ts:220 | a cleaned reply has no whitespace at either end |
| FenceCleaner.CleanIdempotent | services/geminiService.ts:220 | cleaning a cleaned reply changes nothing |
| FenceCleaner.CleanPlainText | services/geminiService.ts:220 | a reply without backticks, such as bare JSON, is only trimmed |
| FenceCleaner.CleanUnwrapsFencedBlock | services/geminiService.ts:220 | a trimmed body without backticks, wrapped in a "```json" block, comes out as exactly that body |

## Left out

- `analyzeCase` (services/geminiService.ts:169-238) is left out except for the fence cleaner on line 220: the chat session, the network calls to the model, the tool-call loop, `JSON.parse` and the repair request depend on a remote service.
- The tool declaration, the system instruction and the response schema (services/geminiService.ts:111-167) are data for the remote model, not logic.
- `horario_atual` is declared as a tool argument but the matcher never reads it, so `Args` omits it.
- Strings.ToLower: only ASCII and Latin-1 capitals (U+00C0 to U+00DE, except U+00D7) are lowered. Full Unicode case mapping, including the mappings that change length, is not modelled.
- Arguments are strings or absent. Non-string values, which `args: any` would let through and which `filter(Boolean)`, `join` and `toLowerCase` would treat in their own ways, are not modelled.
- Arithmetic overflow is not modelled: scores are mathematical integers. Scores stay between 0 and 52 (`Scoring.ScoreBounds`), so `b.score - a.score` is always exact.
- Scenarios.PetQueryPrefersSaoPio: pins down only the first place and the length of the result for that query. The second and third places are not stated.
- Console logging, the `TriageResult` type (types.ts) and the user interface (App.tsx, components/) are not part of this model.

## Findings

| source | as written | input that shows it | evidently intended | confidence | as-written member | corrected member |
|---|---|---|---|---|---|---|
| services/geminiService.ts:100 | `locString.includes(demanda?.toLowerCase())`: with `demanda` absent the argument is `undefined`, which `includes` converts to the string "undefined" | no arguments at all, and a directory entry named "Undefined": as written it gets 2 points | an absent `demanda` earns no bonus, so a query without arguments scores every entry 0 | not executed; the shipped directory's results are unaffected (Scenarios.ShippedDirectoryUnaffected) | Matcher.AsWrittenMatcherPromotesUndefined | Matcher.EmptyQueryKeepsCatalogOrder |
