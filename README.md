# StringAnalyser, modelled in Dafny

`StringAnalyser` is the core of a tool that helps write literature-review search strings. It is built from two inputs:

- a goal bibliography, the papers the search ought to find;
- groups of keywords and their synonyms.

It then judges batches of candidate papers one at a time. Each paper is scored against the goal set:

- **Abstract keyword hits.** The paper's normalised abstract is compared with the normalised keywords. It scores when its hit count reaches the mean count of the goal abstracts.
- **Author and journal agreement.** The paper scores for each goal paper whose authors or journal are the same.

The scores split the batch into relevant and non-relevant papers, and the split gives a sensitivity and a precision percentage. A small state machine then decides whether this batch beats the best result seen so far, and stores the new best if it does.

The project has six modules, one per file:

| module | file | what it holds |
|---|---|---|
| `Lex` | `lex.dfy` | Python's `<` on strings (lexicographic by code point), proved a strict total order; sortedness and no-repeats predicates |
| `SortedStrings` | `sorted_strings.dfy` | `mergeSort` on an `array` in place, proved against the functional merge sort `MergeSorted`; `binarySearch` as a recursive function |
| `Normalizer` | `normalizer.dfy` | `prepareWords`, `prepareKeywords` and `compareAbstract`, with the tokeniser, stemmer and stopword list as a parameter (`Linguistics`) |
| `Scoring` | `scoring.dfy` | papers built from bibliography records, the baseline `meanKeywords`, the abstract and journal/author scores, and the split of a batch |
| `Acceptance` | `acceptance.dfy` | the six long-lived numbers (`Metrics`) and what `calSenPre`, `compareSensibilityPrecision` and `substitutePS` do to them, as pure functions |
| `Analyser` | `analyser.dfy` | the class `StringAnalyser`: its fields, and methods that update them in the source's order, each proved equal to the pure functions |

Percentages, the mean and the scores are exact rationals (`real`). Each of Python's ZeroDivisionErrors is modelled explicitly:

- A classifier whose goal records have no abstract cannot be built: `Create` returns `None`.
- A batch evaluation can end in `ZeroDivisionError`. Sensitivity is computed before precision, so when only precision divides by zero, the new sensitivity has already been stored.

Where the code and its documentation disagree, the model follows the code:

- **The first evaluation returns False.** The docstrings say True when there is no previous result. But the first call stores the new values as the best and then compares them with zero differences, which is never "better" (`Acceptance.Compare`, `Acceptance.FirstEvaluationExample`).
- **The three acceptance branches collapse into one rule.** A batch is accepted exactly when the sensitivity gain is larger than the precision change, where precision counts as better when it goes *down* (`Acceptance.Accepts`).
- **Counts are stored even when the batch is rejected.** After the gates pass, `__relevantes` and `__nRelevantes` are overwritten even if the comparison then rejects the batch.
- **Stopwords are removed before stemming and case-sensitively.** A capitalised stopword such as "The" is therefore kept and stemmed.
- **The merge prefers the right half on ties**, so the sort is not stable. For strings this cannot be observed: equal strings are identical, and `SortedUnique` shows that the sorted result is fully determined by the multiset of values.
- **The journal/author score has no cap.** It can exceed 0.5 (`Scoring.JournalAuthorUncapped`).

## Model

| member | source | states |
|---|---|---|
| Lex.StrictTotalOrder | model/StringAnalyser.py:409 | the string comparison used by the merge and the search is irreflexive, asymmetric, transitive and total |
| SortedStrings.MergeSortedCorrect | model/StringAnalyser.py:396-426 | the merge-sorted list is non-decreasing, a permutation of the input (same multiset) and of the same length |
| SortedStrings.SortIdempotent | model/StringAnalyser.py:396-398 | sorting an already sorted list (in particular one of length ≤ 1) leaves it unchanged |
| SortedStrings.SortedUnique | model/StringAnalyser.py:183-184 | two sorted lists with the same multiset are equal, so the sort result does not depend on the input order or on tie-breaking |
| SortedStrings.MergeFromPermutes | model/StringAnalyser.py:406-426 | the merge of the rest of two halves holds exactly the values left in both |
| SortedStrings.MergeFromSorted | model/StringAnalyser.py:406-426 | merging two sorted halves gives a sorted list |
| SortedStrings.MergeSort | model/StringAnalyser.py:396-426 | sorting `arr` in place leaves the functional merge sort of its old contents: sorted and a permutation of the input |
| SortedStrings.MergeBack | model/StringAnalyser.py:406-426 | the three merge loops write exactly the merge of the two sorted halves into `arr` |
| SortedStrings.BinarySearch | model/StringAnalyser.py:436-461 | the result is -1 or an index in `[l..r]` holding `x`; on a range sorted over `[l..r]` that contains `x` it is not -1; an empty range gives -1 |
| SortedStrings.SearchIsMembership | model/StringAnalyser.py:436-461 | on a sorted list, searching the whole list finds `x` if and only if `x` is in it |
| Normalizer.TokenizeAll | model/StringAnalyser.py:174-175 | the first loop of `prepareWords` concatenates the tokens of every item, in order |
| Normalizer.RemoveStopwords | model/StringAnalyser.py:176-181 | the stopword loop keeps, in order, the stem of every token that is not (case-sensitively) a stopword |
| Normalizer.SurvivorsMembers | model/StringAnalyser.py:177-181 | a word survives exactly when it is the stem of some token that is not a stopword |
| Normalizer.Deduplicate | model/StringAnalyser.py:183 | `list(set(...))` keeps every value once and adds none |
| Normalizer.PrepareWords | model/StringAnalyser.py:155-185 | the result is sorted and free of repeats, holds exactly the stems of the non-stopword tokens, and is the one such list |
| Normalizer.SortedListOfUnique | model/StringAnalyser.py:183-184 | a sorted list without repeats is determined by its set of values, so the set's iteration order does not matter |
| Normalizer.PrepareKeywords | model/StringAnalyser.py:132-153 | the keyword list concatenates the normalised groups, and a word occurs in it once for every group that yields it (no deduplication across groups) |
| Normalizer.KeywordRepeats | model/StringAnalyser.py:149-150 | the number of times a word occurs in the keyword list equals the number of groups whose normalised words contain it |
| Normalizer.NormalizedOnce | model/StringAnalyser.py:183-185 | within one group's normalised list a word occurs once if it is a value of the group and never otherwise |
| Normalizer.HitCountAppend | model/StringAnalyser.py:124-128 | the hit count adds up over a split of the keyword list, so a keyword listed twice counts twice |
| Normalizer.HitCountExtremes | model/StringAnalyser.py:124-128 | the hit count equals the number of keywords exactly when all are found, and is 0 exactly when none is |
| Normalizer.CompareAbstract | model/StringAnalyser.py:112-130 | `compareAbstract` counts the keyword entries, repeats included, that binary search finds among the normalised tokens |
| Scoring.CreatePapers | model/StringAnalyser.py:52-89 | one paper per record in record order; a present field is copied, a missing field stays empty, and no record is dropped |
| Scoring.Processed | model/StringAnalyser.py:101-107 | the number of processed records is at most the number of records |
| Scoring.TotalHits | model/StringAnalyser.py:101-107 | the total hit count is at most the number of processed abstracts times the number of keywords |
| Scoring.Mean | model/StringAnalyser.py:109 | the mean times the count gives back the total, and it is not negative |
| Scoring.Baseline | model/StringAnalyser.py:93-109 | there is no baseline (division by zero) exactly when no record has an abstract; otherwise it is the mean hit count over those records, between 0 and the number of keywords |
| Scoring.AnalyseAbstract | model/StringAnalyser.py:93-109 | the loop over the records computes the baseline, skipping records without an abstract |
| Scoring.MissingAbstractIgnored | model/StringAnalyser.py:101-107 | a record without an abstract does not change the baseline |
| Scoring.AbstractScore | model/StringAnalyser.py:357-369 | the abstract score is 0.5 exactly when the hit count reaches the baseline, and 0 otherwise |
| Scoring.AuthorMatches | model/StringAnalyser.py:386-388 | at most one author agreement per goal paper |
| Scoring.JournalMatches | model/StringAnalyser.py:386-390 | at most one journal agreement per goal paper |
| Scoring.JournalAuthorScore | model/StringAnalyser.py:384-392 | the journal/author score lies between 0 and 0.5 × the number of goals |
| Scoring.JournalAuthorUncapped | model/StringAnalyser.py:384-392 | two goal papers equal to the candidate give a journal/author score of 1.0, above 0.5 |
| Scoring.RelevantIff | model/StringAnalyser.py:205-213 | a paper is relevant exactly when its hit count reaches the baseline or it has at least two author/journal agreements |
| Scoring.Relevant | model/StringAnalyser.py:205-213 | every paper in the relevant list scores at least 0.5 |
| Scoring.NonRelevant | model/StringAnalyser.py:205-213 | every paper in the non-relevant list scores below 0.5 |
| Scoring.PartitionComplete | model/StringAnalyser.py:205-213 | the two lists together hold exactly the batch (same multiset), so R + N is the batch size |
| Acceptance.Percent | model/StringAnalyser.py:215-221 | a percentage lies in [0, 100] and is 100 exactly when the part is the whole |
| Acceptance.Accepts | model/StringAnalyser.py:306-343 | the three branches of `substitutePS` accept exactly when the sensitivity difference exceeds the precision difference |
| Acceptance.Substitute | model/StringAnalyser.py:298-343 | on acceptance the temporaries become the stored best; on rejection nothing changes; the temporaries and counts are never touched |
| Acceptance.Compare | model/StringAnalyser.py:273-295 | on the first evaluation the temporaries are installed and the verdict is False; later the verdict compares against the stored best, and the stored best is kept on rejection |
| Acceptance.Evaluate | model/StringAnalyser.py:249-270 | the ZeroDivision cases and their partial update; the temporaries always hold the batch's percentages; a gated batch is rejected with the stored best and counts unchanged; past the gates the counts are stored whatever the verdict; acceptance installs the percentages |
| Acceptance.SensitivityFloorHolds | model/StringAnalyser.py:258-262 | once the stored sensitivity reaches 80, it stays at or above 80 for every later sequence of batches |
| Acceptance.PrecisionCeilingHolds | model/StringAnalyser.py:258-266 | once a stored precision below 60 is set, it stays below 60 for every later sequence of batches |
| Acceptance.EvaluateKeepsWellFormed | model/StringAnalyser.py:223-233 | every evaluation keeps both stored values set together and every percentage in [0, 100], so the two sentinel tests agree |
| Acceptance.RepeatedBatchRejected | model/StringAnalyser.py:288-295 | re-evaluating the same counts right after they were installed is rejected and changes nothing |
| Acceptance.FirstEvaluationExample | model/StringAnalyser.py:288-295 | 6 relevant, 14 non-relevant and 10 goal papers give sensitivity 37.5 and precision 30, both installed, with verdict False |
| Analyser.StringAnalyser.constructor | model/StringAnalyser.py:9-18 | a new classifier starts with precision and sensitivity -1, temporaries 0 and counts 0 |
| Analyser.StringAnalyser.Create | model/StringAnalyser.py:20-49 | keywords, goal papers and baseline are computed in the source's order; no classifier when no goal record has an abstract |
| Analyser.StringAnalyser.AnalysePaperAbstract | model/StringAnalyser.py:345-369 | the method's loop gives the abstract score: 0.5 exactly when the hit count reaches `meanKeywords` |
| Analyser.StringAnalyser.AnalyseJournalAuthor | model/StringAnalyser.py:372-392 | the method's loop gives 0.25 × (author agreements + journal agreements), between 0 and 0.5 × the number of goals |
| Analyser.StringAnalyser.AnalysePaper | model/StringAnalyser.py:238-246 | the paper is appended to exactly one of the two lists, by whether it is relevant |
| Analyser.StringAnalyser.SubstitutePS | model/StringAnalyser.py:298-343 | the new state and the verdict are those of `Substitute`; it accepts exactly when the sensitivity difference exceeds the precision difference |
| Analyser.StringAnalyser.CompareSensibilityPrecision | model/StringAnalyser.py:273-295 | the new state and the verdict are those of `Compare` on the old state |
| Analyser.StringAnalyser.CalSenPre | model/StringAnalyser.py:249-270 | the new state and the returned verdict or ZeroDivisionError are those of `Evaluate` on the old state and the list sizes |
| Analyser.StringAnalyser.AnalysePapers | model/StringAnalyser.py:188-235 | splits the batch as `Relevant`/`NonRelevant` do, and the new state and the verdict are those of `Evaluate` on the sizes of that split |

## Left out

- Bibliography parsing (`bibtexparser.loads`) is left out: the model starts from the parsed records, a sequence of field maps in the parser's order.
- The tokeniser, the Porter stemmer and the English stopword list are foreign library calls. They are the parameter `Linguistics`, and their internals are not modelled.
- `Paper` is defined in model/Paper.py, which is not part of this model. It is a datatype of four strings whose defaults are taken to be empty.
- Printing the exception in `createPapers` and `analyseAbstract` is console output. Of the exceptions, only a missing field is modelled. Any other failure of the tokeniser is not.
- `printList` is console output only.
- The six getters (`getPrecision` … `getNRelevant`) only return fields. The fields are public in the class, and `State()` gathers all six.
- IEEE floating-point rounding of the percentages, the mean and the scores is not modelled. Exact rationals are used, so comparisons at the 60/80/0.5 thresholds are exact.
- The class-level defaults hold `__relevantes` and `__nRelevantes` as empty lists until the first stored batch. Here they are the count 0. The defaults are shared mutable class attributes, and they are modelled as per-instance fields.
- `analysePapers` repeats the scoring and evaluation code of `analysePaper` and `calSenPre`. `AnalysePapers` calls those two methods instead of duplicating them.
