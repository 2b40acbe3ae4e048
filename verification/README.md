# Cultural-assumption bias: probability tables, condition scores and prompt variants

This project is a Dafny model of the deterministic bookkeeping in a study of cultural assumptions in
language models. Proofs come with the model. The study has three scripts, and each is modelled:

- `stub_to_prompt.py` turns sentence stubs into prompts. Each stub yields six rows, with condition
  letters `A`–`F`. In each row the placeholder `QQQ` is replaced by a city, and the letter and a
  country label are attached. The sixth city is `QQQ` itself, so that row is the neutral reference.
- `CA_gpt3_query.py` collects each sample's top log-probabilities into a full distribution.
  `addOther` adds the residual mass under `OTHER`. `stripKeys` cleans the labels. `run_one_item`
  pools the samples: it adds up their linear probabilities per label and renormalises the totals.
  The script also trims each completion to its first line and lays out one exported row.
- `CA_gpt3_scoring.py` reads the exported rows. It groups them by stub and condition letter. For each
  stub, every condition's label/probability pairs are compared with those of condition `F`:
  - labels `F` lacks are folded into the condition's `OTHER`;
  - the absolute differences are added up.
  The script then averages each letter's score over the stubs.

The modules are:

- `Outcomes`: the result of an operation, or the exception Python would raise.
- `Dicts`: Python's insertion-ordered dicts, as sequences of key/value pairs. A `Dict` class stands
  for a dict that a function mutates in place.
- `Text`: `strip`, `replace`, `split`, `join` and `str` of an int.
- `Prompts`: `stub_to_prompt.py`.
- `Query`: `CA_gpt3_query.py`.
- `Scoring`: `CA_gpt3_scoring.py`.

Each modelled `for` loop of `CA_gpt3_query.py` and `CA_gpt3_scoring.py` is a Dafny method with a
`while` loop, and so is each list comprehension that calls `addOther`, `stripKeys` or
`score_condition` (`Query.AddOtherEach`, `Query.StripKeysEach`, `Scoring.ScoreFile`). The method's
`ensures` ties its result to a specification function, and lemmas about that function state what the
code promises. The nested loops of `stub_to_prompt.py` only build rows, so they are the recursive
function `Prompts.Variants`. The other comprehensions only compute values and are functions:
`TrimCompletion` applied to each text, `Flatten`, and `ProbCells` over `SortedByKey`. Of the export
loop at `CA_gpt3_query.py:154`, only the layout of one row, `Query.ExportRow`, is modelled.

A probability is a `real`. A log-probability is represented by the positive real it is the logarithm
of, so `exp(log x) == x` holds exactly. `math.log` of a value that is not positive is an error.

`float(...)` when reading cells is a function parameter `parse`. `str(...)` of a probability in an
exported row is a function parameter `render`.

The model follows the code in three places where a reader might expect otherwise:

- when two keys clean to the same key, `stripKeys` overwrites the entry rather than merging the values;
- a reference label that a condition lacks contributes nothing to the distance, and no error is raised;
- each letter's total is divided by the number of all stubs, including stubs without that letter.

## Model

| member | source | states |
|---|---|---|
| Dicts.Get | CA_gpt3_query.py:124 | `k in d` holds exactly when the lookup finds a value |
| Dicts.Put | CA_gpt3_query.py:63 | `d[k] = v` keeps the key order when `k` is present and appends `k` otherwise |
| Dicts.GetPut | CA_gpt3_query.py:63 | after `d[k] = v`, looking up `k` gives `v` and every other key gives what it gave before |
| Dicts.UniquePut | CA_gpt3_query.py:89 | assigning a key keeps the dict free of duplicate keys |
| Dicts.Remove | CA_gpt3_query.py:90 | `d.pop(k)` never makes the dict longer |
| Dicts.GetRemove | CA_gpt3_query.py:90 | after `d.pop(k)`, `k` is gone, every other key keeps its value, and the keys stay unique |
| Dicts.Dict.Set | CA_gpt3_query.py:63 | the in-place assignment leaves the object's entries equal to `Put` of the old entries |
| Dicts.Dict.Pop | CA_gpt3_query.py:90 | in-place `pop` returns the removed value, or KeyError when the key is absent, and removes the key |
| Dicts.SumOverPermutation | CA_gpt3_query.py:129 | a sum does not depend on the order of its terms |
| Dicts.SumOverAt | CA_gpt3_query.py:123-127 | adding up one key's terms over a dict gives that key's value, or 0 when the key is absent |
| Query.Log | CA_gpt3_query.py:63 | `math.log(x)` raises exactly when `x <= 0`, and otherwise `exp(log(x)) == x` |
| Query.MassPut | CA_gpt3_query.py:61-63 | storing a value under a key changes the total linear mass by the new value less the replaced one |
| Query.AddOtherOutcome | CA_gpt3_query.py:61-67 | `addOther` succeeds exactly when the mass is below 1 and `OTHER` is absent. `OTHER` then gets `exp` equal to `1 - total`, all other entries are unchanged, `OTHER` comes last, and the masses sum to 1. A mass of at least 1 is a math domain error |
| Query.OtherAlreadyPresent | CA_gpt3_query.py:61-65 | an `OTHER` already present counts toward the total and is then overwritten in place, so the sum falls short of 1 by its old mass and the check fails |
| Query.AddOtherTwice | CA_gpt3_query.py:61-65 | applying `addOther` to its own result is a math domain error, because the mass is already 1 |
| Query.AddOther | CA_gpt3_query.py:61-67 | the method mutates the dict as `AddOtherResult` says and returns the same dict. On a log error the dict is untouched; when the sum check fails, `OTHER` has already been stored |
| Query.CleanKeyMeaning | CA_gpt3_query.py:83-86 | a key whose stripped form has no newline, or no literal backslash-n, is only stripped; cleaning adds no character but a newline |
| Query.CleanKeyExamples | CA_gpt3_query.py:83-86 | `" a"` cleans to `"a"`, and `"a"` stays as it is |
| Query.CleanKeyNewlineExamples | CA_gpt3_query.py:83-86 | with a real newline in the key, a literal backslash-n becomes a newline; in a key without one it stays |
| Query.StripStepEffect | CA_gpt3_query.py:83-90 | one turn leaves the dict alone for a clean key. Otherwise the value moves under the cleaned key, overwriting, the old key is gone, and other keys keep their values |
| Query.StripStepKeeps | CA_gpt3_query.py:82-90 | a turn keeps every other key present, so the snapshot keys still to come are all found |
| Query.StripAllUnique | CA_gpt3_query.py:82-90 | the loop keeps keys unique |
| Query.StripAllClean | CA_gpt3_query.py:82-90 | turns for keys that are already clean change nothing |
| Query.StrippedClean | CA_gpt3_query.py:80-92 | `stripKeys` returns a dict of already-clean keys unchanged |
| Query.StrippedRenames | CA_gpt3_query.py:80-92 | without collisions, every value ends up under its key's cleaned form, and the dict holds exactly the cleaned keys |
| Query.CollisionOverwrites | CA_gpt3_query.py:88-90 | on a collision the entry is overwritten, not merged: `{" a": x, "a": y}` becomes `{"a": x}` |
| Query.StripAllNext | CA_gpt3_query.py:80-82 | the loop runs over a snapshot of the keys: each turn handles the next snapshot key, which is still present |
| Query.StripTurn | CA_gpt3_query.py:83-90 | one turn on the dict object has the effect `StripStep` describes |
| Query.StripKeys | CA_gpt3_query.py:80-92 | `stripKeys` returns the same dict, whose entries become `Stripped` of the old entries |
| Query.AccumulatedFacts | CA_gpt3_query.py:121-127 | after the first loop, each label seen has one entry holding the sum of its `exp` values. These are positive and add up to the total mass seen |
| Query.FlattenFacts | CA_gpt3_query.py:120 | flattening keeps the labels of all samples, each label's summed mass, and the grand total |
| Query.NormalizedFacts | CA_gpt3_query.py:129-132 | dividing by the sum keeps the keys and gives values in (0, 1] that sum to 1 |
| Query.PoolingMeaning | CA_gpt3_query.py:120-132 | the pooled keys are exactly the union of the samples' keys. Each value is the label's summed mass, with absent counting 0, over the grand total. The values lie in (0, 1] and sum to 1 |
| Query.PoolingGet | CA_gpt3_query.py:120-132 | looking up a label in the pooled table gives its share of the grand total, or nothing for a label no sample has |
| Query.PoolingOrderFree | CA_gpt3_query.py:120-132 | pooling does not depend on the order of the samples |
| Query.PoolingCopies | CA_gpt3_query.py:120-132 | pooling `n >= 1` copies of one normalised distribution gives back its linear probabilities |
| Query.SharesOfCopies | CA_gpt3_query.py:120-132 | over copies of one distribution, the grand total is the number of copies and each label's share is its probability |
| Query.Pool | CA_gpt3_query.py:120-134 | the pooling loops compute `Pooling`: unique keys, exactly the union of labels, values as shares of the grand total, summing to 1 |
| Query.AddUpAll | CA_gpt3_query.py:123-127 | the first loop computes the per-label sums `Accumulated` |
| Query.Renormalize | CA_gpt3_query.py:129-132 | the second loop divides every value, in place, by the sum of all values. That sum is positive |
| Query.TrimCompletionFacts | CA_gpt3_query.py:110 | the trimmed completion has no newline and no surrounding whitespace, and trimming it again changes nothing |
| Query.BelowTotal | CA_gpt3_query.py:155 | Python's string `<` is a strict total order |
| Query.BelowTransitive | CA_gpt3_query.py:155 | Python's string `<` is transitive |
| Query.Insert | CA_gpt3_query.py:155 | inserting into the sorted keys adds exactly the one entry |
| Query.InsertAscending | CA_gpt3_query.py:155 | inserting a new key keeps the keys ascending |
| Query.SortedByKey | CA_gpt3_query.py:155 | the sorted entries are a permutation of the dict's entries |
| Query.SortedByKeyAscending | CA_gpt3_query.py:155 | the sorted entries have strictly ascending keys |
| Query.ProbCellsAt | CA_gpt3_query.py:155 | the label/probability cells alternate: label `j` at `2j` and its rendered probability at `2j+1` |
| Query.ExportLayout | CA_gpt3_query.py:155-157 | an exported row is the item's cells, then each label and its rendered probability in ascending label order, then the completion texts |
| Query.AddOtherEach | CA_gpt3_query.py:115 | `addOther` is applied to every sample. The result is Ok exactly when no sample raises, and each sample is then changed as `AddOtherResult` says. On a raise, the failure is that of the first sample that raises: earlier samples hold their `addOther` result, that sample holds what `addOther` left in it, and later samples are untouched |
| Query.StripKeysEach | CA_gpt3_query.py:116 | every sample's keys are cleaned as `Stripped` says |
| Query.RunOneItem | CA_gpt3_query.py:110-134 | the run succeeds exactly when no sample's `addOther` raises. It then returns the pooled table of the samples, with `OTHER` added and keys cleaned, plus the trimmed texts. On a raise, the failure and the samples' state are those of the first sample whose `addOther` raises, as for `AddOtherEach` |
| Text.Strip | CA_gpt3_query.py:83 | `strip()` leaves no whitespace at either end and never lengthens the string |
| Text.StripMeaning | CA_gpt3_query.py:83 | `strip()` removes whitespace at the two ends and nothing else |
| Text.StripAvoids | CA_gpt3_query.py:110 | stripping adds no characters |
| Text.StripIdempotent | CA_gpt3_query.py:110 | `strip()` is idempotent |
| Text.ReplaceBySelf | stub_to_prompt.py:26 | replacing a pattern by itself changes nothing |
| Text.ReplaceAbsent | stub_to_prompt.py:26 | replacing a pattern that does not occur changes nothing |
| Text.ReplaceAvoids | stub_to_prompt.py:26 | a character in neither the string nor the replacement is not in the result |
| Text.Split | CA_gpt3_scoring.py:85 | `split` gives at least one piece, no piece holds the separator, and the pieces joined by the separator give back the string, so they are exactly the text between separators |
| Text.SplitJoin | stub_to_prompt.py:27 | splitting a tab-join of tab-free fields gives back the fields |
| Text.DecimalRoundTrip | stub_to_prompt.py:27 | `int(str(n)) == n` for the stub index, so different indices print differently |
| Prompts.VariantsLayout | stub_to_prompt.py:20-26 | a stub gives six rows, stub-major and city-minor: row `i` is the variant of stub `i / 6` for city `i % 6` |
| Prompts.RowFields | stub_to_prompt.py:20-26 | row `i` has stub index `i / 6`, letter `ABCDEF[i % 6]` and the matching country label, and its prompt is the stub with every `QQQ` replaced by the city |
| Prompts.NeutralPromptIsStub | stub_to_prompt.py:20-26 | the neutral row has letter `F`, and its prompt is the stub itself |
| Prompts.PromptsWithoutPlaceholder | stub_to_prompt.py:26 | a stub without `QQQ` gives six identical prompts |
| Prompts.LineSplitsIntoFields | stub_to_prompt.py:26-27 | the printed line of a tab-free stub splits back into its four fields |
| Prompts.RowKeysDistinct | stub_to_prompt.py:24-27 | rows for different (stub, city) pairs differ in their index field or their letter, the two fields the scoring script groups by |
| Prompts.OutputLayout | stub_to_prompt.py:18-27 | six lines per input line, and line `i` is the variant of stripped stub `i / 6` for city `i % 6` |
| Scoring.WindowCells | CA_gpt3_scoring.py:16 | `row[4:16]` clamps at the end of the row: its length, and cell `i` is row cell `4 + i` |
| Scoring.CellsRead | CA_gpt3_scoring.py:16-27 | at most six labels are read, from columns 4, 6, … 14, and at most six probabilities, from columns 5, 7, … 15 |
| Scoring.FromEntriesMeaning | CA_gpt3_scoring.py:19 | `dict(zip(...))` has unique keys, each holding the value of its last pair |
| Scoring.LastValueKey | CA_gpt3_scoring.py:19 | only keys among the pairs get a value |
| Scoring.OffLabelsFacts | CA_gpt3_scoring.py:31-33 | the labels queued for removal are exactly the condition's labels outside the reference's, each once |
| Scoring.FoldMoves | CA_gpt3_scoring.py:32-34 | a turn for a label outside the reference's list queues it and sets `OTHER` to its old value plus the label's probability; every other key keeps its value |
| Scoring.FoldKeeps | CA_gpt3_scoring.py:31-32 | a turn for a listed label changes nothing |
| Scoring.FoldAllKeeps | CA_gpt3_scoring.py:31-34 | the folding loop fails exactly when an unlisted label meets a dict without `OTHER`. Otherwise only `OTHER` has changed and the unlisted labels so far are queued. When `OTHER` is listed, it has gained their mass and no mass is lost |
| Scoring.PopAllGet | CA_gpt3_scoring.py:36-37 | popping the queued labels removes exactly them |
| Scoring.PopAllMass | CA_gpt3_scoring.py:36-37 | popping distinct labels takes their values out of the sum |
| Scoring.FoldAllFailsMissing | CA_gpt3_scoring.py:31-34 | the folding loop can raise only KeyError, from `cdict["OTHER"]` |
| Scoring.FoldedMeaning | CA_gpt3_scoring.py:29-37 | folding raises KeyError, and no other error, exactly when some label is unlisted and the condition has no `OTHER`. Otherwise unlisted labels are gone, `OTHER` (when listed) gains their mass, and listed labels keep their values |
| Scoring.FoldConservesMass | CA_gpt3_scoring.py:31-37 | when the reference lists `OTHER`, folding keeps the sum of the condition's probabilities |
| Scoring.FoldedListed | CA_gpt3_scoring.py:29-37 | a condition whose labels are all listed is left as it is |
| Scoring.FoldOther | CA_gpt3_scoring.py:29-37 | the folding and removal loops compute `Folded` |
| Scoring.FoldTurn | CA_gpt3_scoring.py:31-34 | one folding turn is one `FoldStep` |
| Scoring.PopQueued | CA_gpt3_scoring.py:36-37 | the removal loop computes `PopAll` |
| Scoring.DistanceMeaning | CA_gpt3_scoring.py:39-42 | the distance exists exactly when the reference has every surviving label. It is then the sum of `abs(reference[s] - condition[s])`, and never negative |
| Scoring.DistanceSelf | CA_gpt3_scoring.py:39-42 | a dict is at distance 0 from itself |
| Scoring.AbsentReferenceLabelIgnored | CA_gpt3_scoring.py:41-42 | a reference label that the condition lacks contributes nothing to the distance |
| Scoring.SumDiffs | CA_gpt3_scoring.py:39-42 | the differences loop computes `Distance`, raising KeyError at the first label the reference lacks |
| Scoring.IdenticalWindowScoresZero | CA_gpt3_scoring.py:15-44 | a condition row with the reference's own cells scores 0 |
| Scoring.ScoresStep | CA_gpt3_scoring.py:22-44 | one turn of the conditions loop records the condition's score, or skips `F` |
| Scoring.ScoresOverMeaning | CA_gpt3_scoring.py:22-44 | the conditions loop succeeds exactly when every condition other than `F` scores. It then holds one score per such condition and none for `F` |
| Scoring.ScoresMeaning | CA_gpt3_scoring.py:15-46 | a missing `F` is a KeyError. Otherwise `score_condition` succeeds exactly when every other condition scores, and returns one score per condition other than `F`, with unique keys |
| Scoring.ScoreRow | CA_gpt3_scoring.py:24-42 | one condition row's body computes `ConditionScore`: an IndexError when its cells end before the reference's, else the folded dict's distance |
| Scoring.ScoreTurn | CA_gpt3_scoring.py:22-44 | one turn of the conditions loop is one `ScoreStep`: `F` is skipped, and any other condition's score is stored under its letter |
| Scoring.ScoreCondition | CA_gpt3_scoring.py:4-46 | the method computes `Scores`, including every early raise |
| Scoring.AddScoresStep | CA_gpt3_scoring.py:63-64 | one `diff_dict[k] += d[k]` keeps the totals' keys and adds the score to `k`'s total |
| Scoring.AddScoresKeys | CA_gpt3_scoring.py:63-64 | adding one stub's scores succeeds exactly when the totals have each of its keys, and it keeps the keys |
| Scoring.AddScoresSums | CA_gpt3_scoring.py:63-64 | adding one stub's scores adds each score to its key's total |
| Scoring.AddScoresMeaning | CA_gpt3_scoring.py:63-64 | both of the above together |
| Scoring.AddAllKeys | CA_gpt3_scoring.py:62-64 | the totals loop succeeds exactly when every stub's keys are keys of the totals, and it keeps those keys |
| Scoring.AddAllSums | CA_gpt3_scoring.py:62-64 | each total becomes its start value plus the sum over the stubs of their score for it |
| Scoring.AddScoresFailsMissing | CA_gpt3_scoring.py:63-64 | adding one stub's scores can raise only KeyError, from `diff_dict[k]` |
| Scoring.AddAllFailsMissing | CA_gpt3_scoring.py:62-64 | adding all stubs' scores can raise only KeyError |
| Scoring.TotalsMeaning | CA_gpt3_scoring.py:59-64 | the totals exist exactly when every key is one of `A`–`E`, and any other key raises KeyError. The totals then hold, per letter, the sum of the stubs' scores, with a missing letter counting 0 |
| Scoring.ReportMeaning | CA_gpt3_scoring.py:66-67 | one printed line per total, with its letter's country and the total divided by the count |
| Scoring.AveragesMeaning | CA_gpt3_scoring.py:59-67 | `score_all_by_condition` succeeds exactly when there are stubs and every key is one of `A`–`E`. With stubs, a key outside `A`–`E` raises KeyError. Line `c` is country `c` with the letter's summed score over the number of all stubs. An empty list divides by zero |
| Scoring.ScoreAll | CA_gpt3_scoring.py:59-67 | the method computes `Averages` |
| Scoring.AddStub | CA_gpt3_scoring.py:63-64 | the inner totals loop computes `AddScores` |
| Scoring.PrintAverages | CA_gpt3_scoring.py:66-67 | the printing loop computes `Report` |
| Scoring.GroupStepFiles | CA_gpt3_scoring.py:89-92 | filing one row keeps the dict of dicts filing the last row of every stub and letter |
| Scoring.GroupedFails | CA_gpt3_scoring.py:88-92 | grouping fails exactly when some row has fewer than two fields |
| Scoring.GroupedFiles | CA_gpt3_scoring.py:88-92 | grouping gives a dict of dicts that files, under each stub and letter, the last row with that pair |
| Scoring.GroupedMeaning | CA_gpt3_scoring.py:86-92 | both of the above together: a later row with the same stub and letter replaces the earlier one. The outer dict's keys are exactly the rows' stub indices, in the order they first appear |
| Scoring.GroupedFailsIndex | CA_gpt3_scoring.py:86-92 | grouping can raise only IndexError, from `item[1]` |
| Scoring.GroupedKeys | CA_gpt3_scoring.py:87-92 | a new stub index is appended to `conditions` and a known one keeps its place, so the keys are `StubOrder` of the rows |
| Scoring.StubOrderMeaning | CA_gpt3_scoring.py:87-92 | `StubOrder` lists every stub index of the rows once and nothing else, and is empty only when no row has two fields |
| Scoring.GroupRows | CA_gpt3_scoring.py:86-92 | the grouping loop computes `Grouped` |
| Scoring.AllScoresMeaning | CA_gpt3_scoring.py:94 | one score dict per stub, in stub order, each that stub's `score_condition`. The list fails exactly when some stub's fails |
| Scoring.DistanceFailsMissing | CA_gpt3_scoring.py:40-41 | the differences loop can raise only KeyError |
| Scoring.ConditionScoreFails | CA_gpt3_scoring.py:24-42 | scoring one condition row raises only IndexError or KeyError |
| Scoring.ScoresOverFails | CA_gpt3_scoring.py:22-44 | the conditions loop raises only IndexError or KeyError |
| Scoring.AllScoresFails | CA_gpt3_scoring.py:94 | scoring every stub raises only IndexError or KeyError, never ZeroDivisionError |
| Scoring.ScoringDivisor | CA_gpt3_scoring.py:85-95 | the averages' divisor, `len(diff_list)`, is the number of distinct stub indices in the file, which is positive for a non-empty file that groups; ZeroDivisionError happens exactly for an empty file |
| Scoring.ScoringMeaning | CA_gpt3_scoring.py:85-95 | ZeroDivisionError happens exactly for an empty file. A file that goes through has at least one stub, and the program prints five lines, country by letter, each the letter's summed score over the number of distinct stub indices |
| Scoring.ScoreFile | CA_gpt3_scoring.py:85-95 | the main function computes `Scoring` |

## Left out

- The export loop at `CA_gpt3_query.py:154-159` writes one row per item to a TSV file. The file
  writing is I/O, so only the layout of a single row (`Query.ExportRow`, `Query.ExportLayout`) is
  modelled, not the loop over the items.
- The model-query call, the client setup and all of `CA_roberta_query.py` are not part of this
  model. They are network I/O and foreign model calls. Each sample's top log-probabilities are an
  input.
- File reading and writing are left out. So are `argparse`, every `print` (including the debugging
  prints of the texts, keys and conditions) and the `csv.writer` quoting of exported rows. The
  program's printed output is returned as a value instead.
- Floating point is left out: probabilities are exact reals. `math.exp` and `math.log` are exact.
  The check at CA_gpt3_query.py:65 compares reals exactly, so it fails only when `OTHER` was
  already present, never through rounding.
- `float(...)` and `str(...)` on probabilities are the parameters `parse` and `render`. A cell that
  does not parse raises ValueError in the code; that error is not modelled.
- Scoring.PrintAverages: returns the printed (country, average) pairs instead of the f-string
  output.
- Query.StrippedRenames: states the whole-dict result only when no two keys clean to the same key.
  Colliding keys are described turn by turn by Query.StripStepEffect and by the
  Query.CollisionOverwrites example, not for a whole dict.
- Scoring.ScoringMeaning: states the ZeroDivisionError case, the divisor and the successful result.
  Which other error a failing file raises is stated separately, by Scoring.GroupedMeaning,
  Scoring.AllScoresMeaning, Scoring.AveragesMeaning and the `...Fails` lemmas.
- Query.RunOneItem: takes each sample's dict and completion text as given. The response objects
  they come from are not modelled.
- Scoring.PopQueued: `cdict.pop(s)` is modelled with `Remove`, which never fails. A queued label is
  always a key of the dict, so the `KeyError` of a missing label cannot be reached. The same holds
  for `StripStep`'s branch for a missing snapshot key.
