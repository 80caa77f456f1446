# SHL assessment recommender — verified model of the data preparation, projection and metrics

The recommender suggests SHL assessments for a free-text query. A crawler collects
the product catalogue. Two preparation scripts turn each crawler record into text
for a sentence encoder. A FastAPI endpoint looks up the nearest catalogue entries in
a vector index and shows them. A small module scores rankings with recall,
precision and (mean) average precision.

This project models, in Dafny, the logic the repository writes itself around the
encoder and the index:

- `Duration` — `parse_duration`: the `=\s*(\d+)` rule first, then `(\d+)\s*min`
  ignoring case, each as a leftmost-match scan.
- `Normalise` — the first preparation script's `process_entry`. It normalises the
  fields, maps test-type codes through the fixed table, and appends the sentences of
  `embedding_text` one by one (a method), then joins them with `". "`.
- `Enrich` — the second preparation script. It covers the `generate_summary`
  fallback, `extract_keywords` (a method that extends and appends to a local list
  before a final filter) and the record update of `process_entry`. The
  summarisation model and the TF-IDF vectoriser are parameters that give a result
  or fail.
- `EmbeddingTexts` — the loop that builds one combined text per enriched record.
- `Recommend` — the loop that turns the index's positions into result entries, and
  the echo of the query.
- `Metrics` — the four metrics, with floats as exact reals and Python's run-time
  errors as `Failure` values.
- `TestTypes`, `PyStr` and `PyDict` — shared pieces:
  - the code table;
  - the Python string built-ins used (`strip`, `rstrip`, `lower`, `join`, `int`,
    `str`);
  - dictionaries as insertion-ordered key/value lists.

Each script's own record shape is kept. The first script reads a fully populated
crawler record and writes `Assessment_name`/`URL`/…. The second script, the
embedding-text loop and the endpoint work on the crawler's dictionary (`title`,
`url`, `test_types`, …), where missing keys are possible.

## Model

| member | source | states |
|---|---|---|
| TestTypes.TableKeys | data_process/data_processing.py:10-19 | the table maps exactly the eight one-letter codes A, B, C, D, E, K, P, S |
| TestTypes.Label | data_process/data_processing.py:42 | `TEST_TYPE_LABELS[code]` gives a label exactly for the eight codes, the table's own label |
| TestTypes.LabelOrCode | processing/data_processing.py:88 | `.get(t, t)`: a known code gives its label, an unknown one is passed through unchanged |
| Duration.MatchAt | data_process/data_processing.py:24-28 | whether a pattern matches at a position: `=`, spaces, digits, or digits, spaces, "min" in any case (a definition, no contract) |
| Duration.Value | data_process/data_processing.py:26-29 | `int` of the captured digits (a definition, no contract) |
| Duration.Group | data_process/data_processing.py:24-29 | the captured group is a non-empty run of digits |
| Duration.Search | data_process/data_processing.py:24-28 | `re.search` reports a matching position with no match before it, or nothing when the pattern matches nowhere |
| Duration.SearchFindsLeftmost | data_process/data_processing.py:24-28 | the search reports exactly the leftmost matching position |
| Duration.ParseDuration | data_process/data_processing.py:21-29 | a duration is found exactly when one of the two patterns matches somewhere in the text |
| Duration.ParseDurationPriority | data_process/data_processing.py:24-29 | the `=` rule decides whenever it matches anywhere, taking the digits after its leftmost `=`; otherwise the leftmost "digits, spaces, min" is read |
| Duration.LeftmostMinTakesWholeRun | data_process/data_processing.py:28-29 | the leftmost "N min" match begins a digit run, so the whole number before "min" is read |
| Duration.EqualsRuleWins | data_process/data_processing.py:24-26 | "40 min = 5" gives 5: the `=` rule wins over an earlier "N min" |
| Duration.MinRuleIgnoresCase | data_process/data_processing.py:28-29 | "12 MIN" gives 12: "min" is matched ignoring case |
| Duration.NoNumberNoDuration | data_process/data_processing.py:29 | the example "Untimed", which has neither an `=` nor a digit, gives no duration |
| PyStr.Strip | data_process/data_processing.py:35-39 | `strip()` leaves no leading or trailing whitespace and never lengthens the text |
| PyStr.StripRemovesPadding | data_process/data_processing.py:35-39 | `strip()` keeps a slice of the text, and removes only whitespace before and after it |
| PyStr.StripPadded | api/preprocessing.py:39 | stripping whitespace padding off a core with no padding gives back exactly that core |
| PyStr.RStrip | data_process/data_processing.py:40-41 | `rstrip(',')` keeps a prefix that does not end in a comma and removes only commas |
| PyStr.Lower | data_process/data_processing.py:48-49 | `lower()` keeps the length and lower-cases each character |
| PyStr.IsSpace | data_process/data_processing.py:24-39 | the characters `str.isspace` accepts, which both `strip()` and `\s` in a `str` pattern treat as whitespace (a definition, no contract) |
| PyStr.Join | data_process/data_processing.py:84 | `sep.join(parts)`: the parts with the separator between each two (a definition, no contract) |
| PyStr.DigitsValue | data_process/data_processing.py:26-29 | `int(digits)` for a string of ASCII digits, leading zeros allowed (a definition, no contract) |
| PyStr.JoinAppend | data_process/data_processing.py:84 | joining one more part appends the separator and that part |
| PyStr.NatToString | data_process/data_processing.py:71 | `str(n)` is a non-empty string of digits, with no leading zero for positive `n` |
| PyStr.DigitsValueOfNatToString | data_process/data_processing.py:71 | reading back the digits of `str(n)` with `int` gives `n` |
| Normalise.LabelAll | data_process/data_processing.py:42 | the labels have the codes' length and order, or KeyError names the first unknown code |
| Normalise.JoinTextParts | data_process/data_processing.py:55-84 | the conditional appends followed by `". ".join` produce the embedding text of the record |
| Normalise.ProcessEntry | data_process/data_processing.py:31-86 | KeyError exactly when a code is unknown; otherwise every field is normalised as stated and `embedding_text` is the joined sentences |
| Normalise.EmbeddingTextLayout | data_process/data_processing.py:56-84 | the text opens with the description and ends with the remote-testing and adaptive-testing sentences, in that order |
| Normalise.BareRecordHasThreeSentences | data_process/data_processing.py:62-75 | with no job levels, languages or test types and a duration of 0 or none, only description, remote and adaptive sentences remain |
| Normalise.SentenceCount | data_process/data_processing.py:62-81 | three sentences, plus one for each present job levels, languages, non-zero duration and test types |
| Normalise.FlagWordingIgnoresAnswer | data_process/data_processing.py:78-81 | the flag sentences depend only on the answer being non-empty, so a crawler answer of "No" reads "Yes" / "Supported" |
| Normalise.RemotePart | data_process/data_processing.py:78 | the remote-testing sentence as written: "Yes" for any non-empty stored answer (a definition, no contract) |
| Normalise.AdaptivePart | data_process/data_processing.py:81 | the adaptive-testing sentence as written: "Supported" for any non-empty stored answer (a definition, no contract) |
| Normalise.JobLevelsPart | data_process/data_processing.py:62-63 | the job-levels sentence, only when the levels are non-empty (a definition, no contract) |
| Normalise.LanguagesPart | data_process/data_processing.py:66-67 | the languages sentence, only when the languages are non-empty (a definition, no contract) |
| Normalise.DurationPart | data_process/data_processing.py:70-71 | the duration sentence, only for a duration that is neither None nor 0 (a definition, no contract) |
| Normalise.TestTypesPart | data_process/data_processing.py:74-75 | the measures sentence, the labels joined with ", ", only when there are labels (a definition, no contract) |
| Normalise.IntendedRemotePart | data_process/data_processing.py:78 | the remote-testing sentence as evidently intended: "Yes" only for the stored answer "yes" (a definition, no contract) |
| Normalise.IntendedAdaptivePart | data_process/data_processing.py:81 | the adaptive-testing sentence as evidently intended: "Supported" only for the stored answer "yes" (a definition, no contract) |
| Normalise.IntendedEmbeddingText | data_process/data_processing.py:56-84 | the embedding text with both flag sentences worded as intended (a definition, no contract) |
| Normalise.IntendedTextLayout | data_process/data_processing.py:56-84 | the intended text has the same sentences as the original, then the two intended flag sentences |
| Normalise.CrawlerAnswersRead | crawler/crawler/spiders/shl_spider.py:57-66 | with the intended wording, the crawler's remote answers "Yes" and "No" read "Yes" and "No", and its adaptive answers "Yes", "No" and "No Information" read "Supported", "Not supported" and "Not supported" |
| Normalise.FlagWordingsAgree | data_process/data_processing.py:78-81 | each flag sentence has one of its two wordings, and the as-written and intended sentences agree exactly when the stored answer is empty or "yes" |
| Normalise.IntendedTextDiffers | data_process/data_processing.py:56-84 | the as-written embedding text differs from the intended one exactly when a stored flag answer is neither empty nor "yes" |
| Normalise.TextParts | data_process/data_processing.py:56-81 | the sentence list: description, then job levels, languages, non-zero duration and test types when present, then the two flag sentences (a definition, no contract) |
| Normalise.EmbeddingText | data_process/data_processing.py:84 | the sentences joined with ". " (a definition, no contract) |
| Enrich.Items | processing/data_processing.py:88 | iterating a list gives its items; iterating a string gives its characters |
| Enrich.Truncate | processing/data_processing.py:80 | the fallback summary is the text itself up to 150 characters, else its first 150 characters and "...", never longer than 153 |
| Enrich.TruncateIdempotent | processing/data_processing.py:80 | applying the fallback to a fallback summary changes nothing |
| Enrich.GenerateSummary | processing/data_processing.py:67-80 | the model's summary when it succeeds, the truncation fallback when it fails |
| Enrich.FullLabels | processing/data_processing.py:115 | the full labels follow `test_types` in length and order, and are empty when the key is absent |
| Enrich.Features | processing/data_processing.py:98-100 | the features of the ranking, one per entry, in ranking order |
| Enrich.Above | processing/data_processing.py:100 | exactly the features scoring above 0.1 are kept, each from the ranking, in ranking order |
| Enrich.TopKeywords | processing/data_processing.py:100 | the first eight features scoring above 0.1, or all of them when there are fewer |
| Enrich.AddMissing | processing/data_processing.py:101 | extending keeps the old list as a prefix, adds only keywords not yet present, adds no keyword twice, and adds them in the order of the new list |
| Enrich.ExtendWithMissing | processing/data_processing.py:101 | the one-at-a-time extend loop yields that extension |
| Enrich.Candidates | processing/data_processing.py:84-103 | the keyword list before the filter: labels, the duration keyword, then the new TF-IDF keywords when the text is not blank and the ranking succeeds (a definition, no contract) |
| Enrich.DurationKeyword | processing/data_processing.py:91-92 | `str(duration) + " minutes"` when the record has a duration, nothing otherwise (a definition, no contract) |
| Enrich.LongEnough | processing/data_processing.py:105 | the final filter (a definition; its properties are the three lemmas below) |
| Enrich.LongEnoughMembers | processing/data_processing.py:105 | the final filter keeps exactly the keywords longer than two characters |
| Enrich.LongEnoughSubsequence | processing/data_processing.py:105 | the final filter keeps the relative order of the survivors |
| Enrich.LongEnoughAppend | processing/data_processing.py:105 | filtering a concatenation filters each part |
| Enrich.Keywords | processing/data_processing.py:105 | every returned keyword is longer than two characters |
| Enrich.ExtractKeywords | processing/data_processing.py:82-105 | the extend / append / extend steps and the filter compute the keyword list |
| Enrich.KeywordsKeepOrder | processing/data_processing.py:105 | the keywords are the candidates longer than two characters, in candidate order |
| Enrich.LabelsComeFirst | processing/data_processing.py:87-90 | the (long enough) test-type labels open the keyword list, in `test_types` order |
| Enrich.NoRankingKeepsEarlierKeywords | processing/data_processing.py:95-103 | blank text or a TF-IDF failure leaves only the labels and the duration |
| Enrich.TfidfAdditions | processing/data_processing.py:95-103 | TF-IDF appends at most eight keywords after the labels and duration, each a feature scoring above 0.1, none already present, no two alike |
| Enrich.Show | processing/data_processing.py:109 | `str(v)`: a string as itself, a list as `['a', 'b']` (a definition, no contract) |
| Enrich.Generated | processing/data_processing.py:109 | the two keys `summarization` and `keywords` that the context leaves out (a definition, no contract) |
| Enrich.ContextValues | processing/data_processing.py:109 | the shown values of the record's items in order, skipping summarization and keywords (a definition, no contract) |
| Enrich.Context | processing/data_processing.py:109 | those values joined with " \| " (a definition, no contract) |
| Enrich.ContextIgnoresGenerated | processing/data_processing.py:109 | storing a summary or keywords in a record does not change its context text |
| Enrich.ContextValuesIgnoreGenerated | processing/data_processing.py:109 | the values gathered for the context skip the generated keys, so storing under one of them leaves them unchanged |
| Enrich.ContextValuesAppend | processing/data_processing.py:109 | a further non-generated field adds its shown value last to the context values |
| Enrich.ContextAppend | processing/data_processing.py:109 | a further field shows up last in the context, after " \| " |
| Enrich.ProcessEntry | processing/data_processing.py:107-116 | every input key is kept, old keys first; only summarization, keywords and test_types_full are set; all other values are unchanged |
| Enrich.FullLabelsOpenCandidates | processing/data_processing.py:87-88 | `test_types_full` is the list of labels that opens the keyword candidates |
| PyDict.Get | processing/data_processing.py:115 | a lookup finds a value exactly for the keys present |
| PyDict.GetFindsFirst | processing/data_processing.py:115 | the value found is that of the first item holding the key |
| PyDict.Put | processing/data_processing.py:111-116 | after storing, the key holds the new value and every other key its old one |
| PyDict.PutKeyOrder | processing/data_processing.py:111-116 | an existing key keeps its position, a new key goes last |
| PyDict.PutKeepsKeysUnique | processing/data_processing.py:111-116 | storing never makes a key occur twice |
| PyDict.PutThree | processing/data_processing.py:111-116 | three stores of distinct keys keep the old keys first and add exactly the three keys |
| EmbeddingTexts.SummaryPart | api/preprocessing.py:35 | the summary, "" when missing, TypeError when it is a list (a definition, no contract) |
| EmbeddingTexts.JoinedItems | api/preprocessing.py:36-37 | the items of a key joined by spaces, "" when missing (a definition, no contract) |
| EmbeddingTexts.CombinedText | api/preprocessing.py:34-39 | a record fails only when its summary is a list; otherwise its text has no leading or trailing whitespace |
| EmbeddingTexts.BuildEmbeddingTexts | api/preprocessing.py:32-40 | one text per record, in corpus order, each that record's combined text |
| EmbeddingTexts.EnrichedRecordText | api/preprocessing.py:34-39 | for a record from the enrichment step: summary, keywords joined by spaces, labels joined by spaces, single-space separated, stripped |
| EmbeddingTexts.EmptyRecordEmptyText | api/preprocessing.py:35-39 | missing or empty summary, keywords and labels give the empty text |
| EmbeddingTexts.BarePartsKept | api/preprocessing.py:34-39 | with a non-empty unpadded summary and labels, the three parts are kept exactly, one space apart |
| EmbeddingTexts.MissingSummaryDropsSeparator | api/preprocessing.py:35-39 | without a summary, the leading separator is stripped, leaving keywords, one space, labels |
| EmbeddingTexts.JoinThree | api/preprocessing.py:39 | joining three parts with " " puts one space between them |
| Recommend.DefaultQuery | api/main.py:45-47 | a query given only its text asks for ten results |
| Recommend.Resolve | api/main.py:59 | a position indexes the list exactly when it lies in [-n, n), negative positions counting from the end |
| Recommend.Field | api/main.py:61-66 | `assessment[key]` gives the stored value, or KeyError naming the key |
| Recommend.Project | api/main.py:60-67 | the result entry for one record, or the KeyError of the first missing key (a definition; ProjectFails and ProjectShows state its properties) |
| Recommend.ProjectFails | api/main.py:60-67 | a record projects exactly when it has the five keys read with `[]`; otherwise KeyError names the first missing one in display order |
| Recommend.ProjectShows | api/main.py:61-66 | name, URL and remote testing are copied; adaptive support defaults to "No Information"; duration gets " minutes"; labels are joined by ", " |
| Recommend.Slot | api/main.py:59-67 | the entry for one position: IndexError outside the list, else the projection of the record there (a definition, no contract) |
| Recommend.Results | api/main.py:57-67 | the entries for all positions, stopping at the first failure (a definition; ResultsInOrder and ResultsFirstError state its properties) |
| Recommend.MapUntilFailure | api/main.py:57-67 | the loop over positions: one entry per position appended in order, stopping at the first exception (a definition, no contract) |
| Recommend.MapInOrder | api/main.py:57-67 | the loop yields one entry per position, in order, exactly when no position fails |
| Recommend.MapFirstError | api/main.py:57-67 | a failing loop reports the error of its first failing position |
| Recommend.ResultsInOrder | api/main.py:57-67 | one result per returned position, in the same order, each the projection of the record there |
| Recommend.ResultsFirstError | api/main.py:57-67 | a failure is the IndexError or KeyError of the first position that fails |
| Recommend.Recommend | api/main.py:57-69 | the endpoint's loop computes those results and echoes the query text unchanged |
| Recommend.FirstFailureStops | api/main.py:58-60 | once a position fails, the response is that failure |
| Recommend.PaddingShowsLastRecord | api/main.py:58-59 | a position of -1 in the search's row shows the catalogue's last record |
| Recommend.Found | api/main.py:58 | the positions kept are exactly the non-negative ones, each one non-negative, in row order |
| Recommend.FoundAppend | api/main.py:58 | skipping padding in a concatenated row skips it in each part, so kept positions keep their order and repeats |
| Recommend.FoundPadded | api/main.py:58 | skipping the -1 padding after the real positions gives back exactly the real positions |
| Recommend.IntendedResults | api/main.py:57-67 | the results with -1 padding positions skipped, as evidently intended (a definition, no contract) |
| Recommend.PaddingAddsNothing | api/main.py:57-67 | with -1 padding skipped, padded rows give the results of the real positions alone |
| Metrics.Prefix | evaluation/metrics.py:2 | `s[:k]` is a prefix of `s`: `k` items, all of them for large `k`, all but the last `-k` for negative `k` |
| Metrics.RelevantIn | evaluation/metrics.py:2-5 | `set(retrieved[:k]).intersection(relevant)`: the distinct relevant items retrieved (a definition, no contract) |
| Metrics.Hits | evaluation/metrics.py:11 | the relevant-position count is at most the list length |
| Metrics.HitsOfDistinct | evaluation/metrics.py:11 | without repeats, counting relevant positions counts the distinct relevant items |
| Metrics.RecallAtK | evaluation/metrics.py:1-5 | recall lies in [0, 1] and is 0 when nothing is relevant |
| Metrics.PrecisionAtK | evaluation/metrics.py:7-12 | precision lies in [0, 1] for positive `k`, is exactly 0 when `k` is 0, and is at most 0 when `k` is negative |
| Metrics.PrecisionOfWholeList | evaluation/metrics.py:8-12 | with `k` at or past the end of the list, precision is all the hits divided by `k` itself |
| Metrics.PrecisionShortList | evaluation/metrics.py:8-12 | a list shorter than `k` still divides by `k`: precision at `k` times `k` equals precision at the list's length times that length |
| Metrics.PrecisionShortListExample | evaluation/metrics.py:8-12 | the example {"a"} against ["a"] at k = 4 gives 0.25, not 1 |
| Metrics.PrecisionRecallAgree | evaluation/metrics.py:1-12 | when the top `k` are distinct, precision times `k` equals recall times the number of relevant items |
| Metrics.RecallGrowsWithCutoff | evaluation/metrics.py:1-5 | recall never falls as the cutoff grows |
| Metrics.RepeatsInPrecisionAndRecall | evaluation/metrics.py:2-11 | two examples: precision of {"a"} against ["a", "a", "b"] at k = 3 is 2/3, counting the repeat twice; recall of {"a", "b"} against ["a", "a", "c"] at k = 3 is 1/2, counting it once |
| Metrics.AveragePrecisionOf | evaluation/metrics.py:14-23 | fails exactly when relevant items exist and `k` is 0 (ZeroDivisionError) or exceeds the list (IndexError); 0 without relevant items or for negative `k` |
| Metrics.AveragePrecision | evaluation/metrics.py:14-23 | the loop with its hit count and running sum computes that value or error |
| Metrics.ApSum | evaluation/metrics.py:17-22 | the running sum over ranks 1..i: at each relevant rank, the hits so far divided by the rank (a definition, no contract) |
| Metrics.ApSumAtMostHits | evaluation/metrics.py:19-22 | every term of the running sum is at most one, so the sum is between 0 and the hit count |
| Metrics.AveragePrecisionNonNegative | evaluation/metrics.py:17-23 | average precision is never negative |
| Metrics.AveragePrecisionBounded | evaluation/metrics.py:17-23 | average precision is at most 1 when the top `k` are distinct |
| Metrics.PerfectRankingScoresOne | evaluation/metrics.py:17-23 | `k` distinct relevant items at the top score exactly 1 |
| Metrics.AllHitsSum | evaluation/metrics.py:19-22 | with only relevant items so far, the hit count and the sum both equal the rank |
| Metrics.RepeatedHitScoresTwo | evaluation/metrics.py:19-23 | the example {"a"} against ["a", "a"] at k = 2 scores 2.0, above 1, so the bound needs distinct items |
| Metrics.MeanAveragePrecision | evaluation/metrics.py:25-32 | the mean is always 0.0: each query is scored against an empty relevant set, and no queries also gives 0.0 |

## Left out

- The sentence encoder and the vector index (building, searching, persistence) are foreign libraries working on float vectors. The endpoint receives the index's row of positions as a parameter, and the embedding step ends at the list of texts.
- The summarisation model and the TF-IDF vectoriser are parameters that give a result or `None` for a failure. The TF-IDF ranking (the `argsort` order of features with their scores) is that parameter's value.
- File and JSON reading and writing, directory creation, logging, progress bars, the `main` functions, the periodic save, the FastAPI application, its routes and CORS are all I/O or framework set-up.
- The crawler and the Streamlit front end are not part of this model.
- There is no concurrency in these scripts.
- `lower()`, `re.IGNORECASE`, `\d` and `str(n)` are modelled for ASCII letters and digits only. Whitespace follows Python's `str.isspace` set.
- Duration.ParseDuration: CPython's limit on integer-string conversion (4300 digits by default, since 3.11 and in the 3.7-3.10 security releases) is not modelled. For a captured digit run longer than the limit, `int(match.group(1))` raises ValueError, while the model reads the number; for example `"= " + "1" * 4301` gives a value here.
- PyStr.DigitsValue: reads a digit string of any length, without CPython's 4300-digit ValueError of `int()`.
- PyStr.NatToString: writes a number of any size, without CPython's 4300-digit ValueError of `str()`, so the round trip DigitsValueOfNatToString holds for every `n` where Python's holds only below the limit.
- `str()` of a list is modelled as `['a', 'b']`, without `repr`'s escaping or its choice of quote character.
- JSON values are modelled as strings and lists of strings. Numbers, booleans and null in a crawler record are not modelled.
- Normalise.ProcessEntry: takes a record with every key present and every value of the right type, so the KeyError of a missing crawler key and the errors of `.strip()` on a non-string are not modelled. Only the unknown-code KeyError is.
- Enrich.Above: TF-IDF scores are exact reals compared with the exact real 0.1, whereas Python compares float64 scores with the double nearest 0.1, which lies slightly above 0.1. A score equal to that double is dropped by Python but kept by the model when the ranking passes its exact value. For example, one document with exactly 100 distinct features, each occurring once, gives every feature the score 1/√100, which rounds to that double: Python keeps no TF-IDF keyword, while the model keeps up to eight.
- Metrics: floats are exact reals, so rounding is not modelled. `relevant` is a set; a list with repeated items would change `len(relevant)`.
- Metrics.AveragePrecisionOf: the IndexError is reported without the failing index, and a negative `k` gives 0.0 (Python gives -0.0, equal to it).
- EmbeddingTexts.CombinedText: a `keywords` or `test_types_full` value that is a string is joined character by character, as Python does. Values of other JSON types are not modelled.

## Findings

| source | as written | input that shows it | evidently intended | confidence | as-written member | corrected member |
|---|---|---|---|---|---|---|
| data_process/data_processing.py:78-81 | the remote and adaptive sentences test the lower-cased answer for being non-empty | a crawler record with `remote_testing` "No" (the crawler's value for no remote testing) gives "Remote testing available: Yes"; `adaptive_supported` "No Information" gives "Adaptive testing: Supported" | "Yes" / "Supported" only when the answer is "yes" | medium, not executed | Normalise.FlagWordingIgnoresAnswer | Normalise.CrawlerAnswersRead |
| api/main.py:58-59 | every position in the index's row is used as a list index, including -1 | `max_results` larger than the number of indexed records: the index pads the row with -1, and `assessments[-1]` is the last record, shown once per padded slot | padding positions are skipped | medium, not executed | Recommend.PaddingShowsLastRecord | Recommend.PaddingAddsNothing |
