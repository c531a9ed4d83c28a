# presidio-nl post-processing core, in Dafny

This project models what the Dutch PII anonymizer does with detector output once the detectors
(Presidio's pattern recognizers, spaCy, the RobBERT transformer) have produced it:

- the span resolver of `DutchTextAnalyzer.analyze_text` (src/core/analyzer.py): sort by score
  and span length, drop literal false positives, rename the alias types `IBAN_CODE` and `ORG`,
  greedily reject spans that overlap a kept one, and drop IBAN-looking LOCATIONs and PERSONs
  that hold a stop-word or do not look like a name (`CoreAnalyzer`, analyzer.dfy);
- the span filter of the core anonymizer (src/core/anonymizer.py): default operator table,
  sort by score and type-name length, threshold 0.4, greedy overlap removal (`CoreAnonymizer`,
  anonymizer.dfy);
- the guard chain of the second anonymizer (src/anonymizer/engine.py) and its default table
  (`AnonymizerEngine`, engine.dfy);
- Presidio's `replace` operator, which both anonymizers delegate to: the text is walked once,
  gaps are copied and each span becomes its operator's token (`PresidioReplace`, replace.dfy);
- the document pipeline of src/core/document.py: page-text concatenation, the default output
  path, the line layout on the canvas (y from 750, step 12, page break below 50), the
  per-type statistics and `process_pdf` composing them (`Document`, document.dfy);
- the two RobBERT recognizers: label mapping, the entity filter, the load-once flag and the
  order of results (`CoreRobbert`, robbert_core.dfy; `AnalyzerRobbert`, robbert_analyzer.dfy).

Shared pieces: `RecognizerResults` (results.dfy) holds Presidio's `RecognizerResult`, the
half-open overlap test, the inner overlap scan of both greedy loops, and Python's stable sort
as an insertion sort with its sortedness, permutation and stability lemmas. `TextUtil`
(text.dfy) holds the Python `str` operations the code uses (slicing with clamping, `in`,
`upper`/`lower`, `isdigit`, `strip`, `split`). `Wrappers` (wrappers.dfy) holds `Option` and
`Result`.

Scores are integers in hundredths (0.4 is 40, 0.85 is 85, 0.9 is 90): the code only compares
them and copies them. The detectors, the name regexes, the PDF reader and the NER models are
parameters: `analyze` is Presidio's `AnalyzerEngine.analyze`, `nameShape` the three name
regexes of src/core/analyzer.py:247-255, `pages` the text of each PDF page, `loadPipeline` and
`loadSpacy` the models `load` would construct, as functions from text to their raw entities.

Behaviour of the code worth noting:

- the resolver does not reject empty text and does not filter by requested type itself (it
  hands the requested list to Presidio);
- src/anonymizer/engine.py does not reject overlapping results; it passes them to Presidio as
  they are;
- src/core/anonymizer.py replaces PERSON by `[PERSOON]` and keys IBAN as `IBAN`, while
  src/anonymizer/engine.py uses `[NAAM]` and `IBAN_CODE`; each file is modelled as written;
- `process_pdf` has no OCR fallback and no "no text found" note; on an empty extraction the
  analyzer runs on the empty text.

## Model

| member | source | states |
|---|---|---|
| `RecognizerResults.OverlapsAny` | src/core/analyzer.py:219-224 | the inner scan answers true exactly when some used range overlaps `[start, end)` under `start < e && end > s` |
| `RecognizerResults.RangesOverlap` | src/core/anonymizer.py:61-66 | scanning `used_ranges` decides the same as testing overlap against the kept results themselves |
| `RecognizerResults.SortDesc` | src/core/analyzer.py:204 | the sort returns a permutation of its input (same multiset) |
| `RecognizerResults.SortDescSorted` | src/core/anonymizer.py:46-50 | the sorted list is in descending lexicographic key order |
| `RecognizerResults.SortDescStable` | src/core/analyzer.py:204 | the sort is stable: elements with equal keys keep their input order |
| `TextUtil.Slice` | src/core/analyzer.py:207 | `text[start:end]` never fails, is no longer than the text, and is the plain slice when the bounds are in range |
| `TextUtil.ContainsIff` | src/core/analyzer.py:239-243 | Python's substring test `word in span` holds exactly when the word occurs at some offset |
| `TextUtil.JoinSplit` | src/core/document.py:87 | joining the parts of `split('\n')` with `'\n'` gives the text back, so no character is lost by the line loop |
| `TextUtil.SplitPartsHaveNoSep` | src/core/document.py:87 | no line produced by `split('\n')` contains a newline |
| `CoreAnalyzer.Canonical` | src/core/analyzer.py:213-217 | `IBAN_CODE` and `ORG` never survive the rename, and every other type is left alone |
| `CoreAnalyzer.Renamed` | src/core/analyzer.py:213-217 | renaming keeps start, end and score and changes the type only through the alias table |
| `CoreAnalyzer.ResolveDisjoint` | src/core/analyzer.py:219-258 | no two kept results overlap under the half-open test |
| `CoreAnalyzer.ResolveClean` | src/core/analyzer.py:206-255 | every kept result: its text is not a false positive, no alias type remains, a LOCATION does not look like an IBAN, a PERSON has no stop-word and matches a name shape |
| `CoreAnalyzer.ResolveMembers` | src/core/analyzer.py:206-257 | every kept result is some input with only its type renamed |
| `CoreAnalyzer.ResolveSubseq` | src/core/analyzer.py:206-257 | the output is a subsequence of the renamed candidates, in their order |
| `CoreAnalyzer.ResolveSorted` | src/core/analyzer.py:204-257 | candidates in priority order (score, then span length, descending) give an output in priority order |
| `CoreAnalyzer.ResolvePrefix` | src/core/analyzer.py:257-258 | what the loop has kept after any prefix is a prefix of the final output: nothing is taken back |
| `CoreAnalyzer.ResolveMaximal` | src/core/analyzer.py:206-258 | a candidate that passes every filter and overlaps nothing kept before it is in the output; a candidate a filter rejects reserves no range |
| `CoreAnalyzer.TieBreakKeepsLonger` | src/core/analyzer.py:204-228 | of two overlapping detections with equal score the longer is kept, whatever order the detectors gave them in |
| `CoreAnalyzer.ResolveOutput` | src/core/analyzer.py:199-260 | for any detector output: kept results are disjoint, clean, renamed detections, in priority order |
| `CoreAnalyzer.AnalyzeText` | src/core/analyzer.py:170-260 | the loop with its `used_ranges` computes the resolver on the sorted detector output for the requested (or default) types, with all the properties above |
| `CoreAnonymizer.DefaultOperatorsShape` | src/core/anonymizer.py:15-23 | the default table has exactly the seven keys PERSON, LOCATION, PHONE_NUMBER, EMAIL, ORGANIZATION, IBAN, ADDRESS with tokens [PERSOON], [LOCATIE], [TELEFOONNUMMER], [EMAIL], [ORGANISATIE], [IBAN], [ADRES], each a bracketed token |
| `CoreAnonymizer.EffectiveOperators` | src/core/anonymizer.py:42-43 | a non-empty caller table is used as given; None or an empty table selects the (non-empty) defaults |
| `CoreAnonymizer.SelectDisjoint` | src/core/anonymizer.py:61-70 | the results handed to the engine are pairwise non-overlapping |
| `CoreAnonymizer.SelectScores` | src/core/anonymizer.py:56-59 | no result scoring below 0.4 reaches the engine |
| `CoreAnonymizer.SelectSubseq` | src/core/anonymizer.py:52-70 | the kept results are a subsequence of the sorted results, each unchanged |
| `CoreAnonymizer.SelectMembers` | src/core/anonymizer.py:56-70 | every kept result is one of the sorted candidates |
| `CoreAnonymizer.SelectPrefix` | src/core/anonymizer.py:68-70 | the loop only appends: what is kept after any prefix is a prefix of the final list |
| `CoreAnonymizer.SelectMaximal` | src/core/anonymizer.py:56-70 | a result scoring at least 0.4 is dropped only when it overlaps a result kept before it; a low-scoring one reserves no range |
| `CoreAnonymizer.AnonymizeText` | src/core/anonymizer.py:25-79 | the loop computes the greedy selection over the results sorted by (score, type-name length) descending, and the output is the replace of that selection with the effective table |
| `CoreAnonymizer.OverlapScenario` | src/core/anonymizer.py:46-79 | PERSON [0,12) 0.85, ORGANIZATION [0,17) 0.70 and LOCATION [21,30) 0.90 over "Jan de Vries Bank in Amsterdam" sort as LOCATION, PERSON, ORGANIZATION; ORGANIZATION is dropped and the text becomes "[PERSOON] Bank in [LOCATIE]" |
| `PresidioReplace.Token` | src/anonymizer/engine.py:66-70 | a span's replacement is its operator's non-empty new value, and never empty |
| `PresidioReplace.SpanAtFacts` | src/core/anonymizer.py:73-77 | the walk substitutes at a position exactly when some non-empty span starts there |
| `PresidioReplace.ReplaceNoSpans` | src/anonymizer/engine.py:66-72 | with no results the text is returned unchanged |
| `PresidioReplace.ReplaceGap` | src/anonymizer/engine.py:66-72 | a stretch where no span starts is copied verbatim |
| `PresidioReplace.ReplaceMatchesSegments` | src/anonymizer/engine.py:66-72 | for non-overlapping spans in start order the output is gap, token, gap, token, ..., tail |
| `PresidioReplace.ReplaceOrderIndependent` | src/core/anonymizer.py:73-77 | for non-overlapping spans the output does not depend on the order the results are listed in |
| `AnonymizerEngine.DefaultOperatorsShape` | src/anonymizer/engine.py:16-23 | the default table has exactly the six keys PERSON, LOCATION, PHONE_NUMBER, IBAN_CODE, EMAIL, ORGANIZATION with tokens [NAAM], [LOCATIE], [TELEFOONNUMMER], [REKENINGNUMMER], [EMAIL], [ORGANISATIE] |
| `AnonymizerEngine.EntityTypes` | src/anonymizer/engine.py:56-58 | the set of result types holds exactly the types some result has |
| `AnonymizerEngine.MissingOperatorTypes` | src/anonymizer/engine.py:56-60 | a type is missing exactly when some result has it and the table has no key for it |
| `AnonymizerEngine.Configs` | src/anonymizer/engine.py:62-69 | a table of OperatorConfig values reaches Presidio with the same keys and values |
| `AnonymizerEngine.AnonymizeText` | src/anonymizer/engine.py:42-72 | empty text, then None results, raise first; None operators select the defaults with no further check; a supplied table fails when empty, then when a result type has no key, then when a value is not an OperatorConfig; otherwise the output is the replace with that table alone |
| `AnonymizerEngine.CustomOperatorsOwnTokens` | src/anonymizer/engine.py:48-72 | a successful call with a caller table replaces every result with that table's own token for its type |
| `AnonymizerEngine.NoResultsKeepText` | src/anonymizer/engine.py:66-72 | non-empty text with no results comes back unchanged, with the defaults or with a valid caller table |
| `AnonymizerEngine.PersonLocationScenario` | tests/conftest.py:59-65 | "Jan de Vries woont in Amsterdam." with PERSON [0,12) and LOCATION [22,31) becomes "[NAAM] woont in [LOCATIE]." |
| `AnonymizerEngine.ShiftedLocationScenario` | tests/test_anonymizer.py:9-45 | with the LOCATION span at [23,32) the same sentence becomes "[NAAM] woont in A[LOCATIE]" |
| `AnonymizerEngine.IbanScenario` | tests/test_anonymizer.py:64-79 | "IBAN: NL91ABNA0417164300" with IBAN_CODE [6,24) becomes "IBAN: [REKENINGNUMMER]" |
| `AnonymizerEngine.PhoneScenario` | tests/test_anonymizer.py:47-62 | "Bel mij op 06-12345678" with PHONE_NUMBER [10,21) becomes "Bel mij op[TELEFOONNUMMER]8" |
| `AnonymizerEngine.PhoneScenarioCorrected` | tests/test_anonymizer.py:47-62 | with the span on the number, [11,22), the text becomes "Bel mij op [TELEFOONNUMMER]" |
| `AnonymizerEngine.CustomOperatorsFixtureScenario` | tests/test_anonymizer.py:81-100 | on the test's own results (LOCATION [23,32), score 0.9) the output is "<PERSOON> woont in A<PLAATS>": the custom tokens appear and neither default token does, so the test's four assertions hold |
| `AnonymizerEngine.CustomOperatorsScenario` | tests/test_anonymizer.py:81-100 | with LOCATION on "Amsterdam", [22,31), the output is "<PERSOON> woont in <PLAATS>.": the custom tokens appear and neither default token does |
| `Document.ExtractTextFromPdf` | src/core/document.py:11-26 | the extracted text is each page's text followed by "\n", and its length is the sum of the page lengths plus the page count |
| `Document.ConcatPagesLength` | src/core/document.py:21-26 | the concatenation is as long as all pages plus one newline per page |
| `Document.ConcatPagesSplit` | src/core/document.py:21-26 | for pages without newlines, splitting the extracted text on "\n" gives back the pages followed by one empty line |
| `Document.DefaultOutputPath` | src/core/document.py:58-62 | the default output is named `<stem>_anon.pdf` in a `verwerkt` directory inside the input's parent |
| `Document.StemSuffix` | src/core/document.py:62 | a file name is its stem followed by its suffix, and a suffix is a dot plus at least one character without another dot |
| `Document.AnonNameParts` | src/core/document.py:62 | the default output name has suffix ".pdf" and stem `<input stem>_anon` |
| `Document.DefaultOutputDiffers` | src/core/document.py:58-62 | the default output path never names the input file |
| `Document.NonBlankLines` | src/core/document.py:87-88 | only lines with a non-whitespace character are kept for drawing |
| `Document.RowBounds` | src/core/document.py:86-93 | every row's y lies in [54, 750] |
| `Document.CursorStep` | src/core/document.py:89-93 | stepping 12 down falls below 50 exactly from the 59th row of a page, after which the cursor is back at 750 |
| `Document.Layout` | src/core/document.py:85-93 | the y-cursor loop, with 50 <= y <= 750 at its head, issues exactly the reference schedule of draw and page-break calls for the non-blank lines |
| `Document.LayoutDrawsLines` | src/core/document.py:87-89 | the strings drawn are exactly the non-blank lines, each once, in order |
| `Document.LayoutBounds` | src/core/document.py:86-93 | every line is drawn at x = 50 with 54 <= y <= 750 |
| `Document.LayoutPageBreaks` | src/core/document.py:89-93 | a page break follows every 59th drawn line: n lines give n / 59 breaks |
| `Document.GroupIndex` | src/core/document.py:117 | the lookup finds the group of a type when there is one, and reports none otherwise |
| `Document.GroupByTypeKeys` | src/core/document.py:115-118 | the keys of `entities_by_type` are distinct and are exactly the result types |
| `Document.GroupByTypeRecords` | src/core/document.py:115-122 | each group holds `{text_content[start:end], score}` for the results of its type, in the order the results came |
| `Document.GroupByTypeTotal` | src/core/document.py:108-122 | the group sizes add up to the number of results, which is `total_entities` |
| `Document.BuildStats` | src/core/document.py:107-124 | the loop builds the stats record: total, grouped entries, input and output names |
| `Document.ProcessPdf` | src/core/document.py:36-124 | a missing input raises FileNotFoundError before anything else; otherwise the output path (given or default), the canvas calls for the anonymized text and the stats over the analyzer's results |
| `CoreRobbert.ConvertRobbertLabel` | src/core/recognizers/robbert.py:111-119 | PER maps to PERSON, LOC to LOCATION, ORG and MISC to ORGANIZATION, every other label to None |
| `CoreRobbert.ConvertSpacyLabel` | src/core/recognizers/robbert.py:121-142 | PERSON maps to PERSON; LOC, GPE and FAC to LOCATION; ORG and PRODUCT to ORGANIZATION; every other label, listed or not, to None |
| `CoreRobbert.MappedTypesSupported` | src/core/recognizers/robbert.py:19-28 | both mappings only produce types of the default supported list |
| `CoreRobbert.RobbertResultsMembers` | src/core/recognizers/robbert.py:78-91 | a RobBERT result is exactly a model entity with a wanted mapped type, with the model's start, end and score |
| `CoreRobbert.SpacyResultsMembers` | src/core/recognizers/robbert.py:93-107 | a spaCy result is exactly a spaCy entity with a wanted mapped type, with its char offsets and score 0.85 |
| `CoreRobbert.ResultsRequested` | src/core/recognizers/robbert.py:84-100 | with a non-empty request every result has a requested type |
| `CoreRobbert.RobbertRecognizer.constructor` | src/core/recognizers/robbert.py:13-39 | the base-class constructor builds both models once through `load`, then the recognizer drops them and starts unloaded, with the default supported list when none is given |
| `CoreRobbert.RobbertRecognizer.Load` | src/core/recognizers/robbert.py:41-54 | the first call builds both models a second time and sets `is_loaded`; a later call changes nothing |
| `CoreRobbert.RobbertRecognizer.Analyze` | src/core/recognizers/robbert.py:56-109 | empty text gives [] and loads nothing; otherwise all RobBERT results, then all spaCy results, each in model order, with no deduplication |
| `AnalyzerRobbert.ConvertLabel` | src/analyzer/recognizers/robbert.py:83-91 | PER, LOC and ORG map to PERSON, LOCATION and ORGANIZATION; MISC and every other label map to None |
| `AnalyzerRobbert.FilteredTypesRequested` | src/analyzer/recognizers/robbert.py:64-70 | with a non-empty request every result has a type, and it is a requested one |
| `AnalyzerRobbert.FilteredMembers` | src/analyzer/recognizers/robbert.py:61-79 | with a non-empty request a result is exactly a model entity whose mapped type is requested, with the model's start, end and score |
| `AnalyzerRobbert.UnfilteredMirrors` | src/analyzer/recognizers/robbert.py:61-79 | with no request every model entity is returned, in model order, None-typed ones included |
| `AnalyzerRobbert.RobbertRecognizer.constructor` | src/analyzer/recognizers/robbert.py:12-29 | the base-class constructor builds the model once through `load`, then the recognizer drops it and starts unloaded, with PERSON, LOCATION, ORGANIZATION supported by default |
| `AnalyzerRobbert.RobbertRecognizer.Load` | src/analyzer/recognizers/robbert.py:31-39 | `load` is guarded by `is_loaded`: the first call after construction builds the model a second time and sets `is_loaded`; a later call changes nothing |
| `AnalyzerRobbert.RobbertRecognizer.Analyze` | src/analyzer/recognizers/robbert.py:41-81 | empty text gives []; otherwise the model is loaded if need be and its entities are mapped and filtered in model order |

## Findings

| source | as written | input that shows it | evidently intended | confidence | as-written member | corrected member |
|---|---|---|---|---|---|---|
| tests/test_anonymizer.py:47-62 | the PHONE_NUMBER span is [10,21), one character early | "Bel mij op 06-12345678": the output is "Bel mij op[TELEFOONNUMMER]8", so the last digit survives (the test's assertions still hold) | [11,22), giving "Bel mij op [TELEFOONNUMMER]" | high, not executed | `AnonymizerEngine.PhoneScenario` | `AnonymizerEngine.PhoneScenarioCorrected` |
| tests/test_anonymizer.py:19-24 | the LOCATION span is [23,32), one character late | "Jan de Vries woont in Amsterdam.": the output is "[NAAM] woont in A[LOCATIE]", so the "A" survives and the "." is eaten | [22,31), as in tests/conftest.py, giving "[NAAM] woont in [LOCATIE]." | high, not executed | `AnonymizerEngine.ShiftedLocationScenario` | `AnonymizerEngine.PersonLocationScenario` |
| tests/test_anonymizer.py:81-100 | the custom-operator test runs on the fixture's LOCATION span [23,32), one character late | "Jan de Vries woont in Amsterdam." with the custom table: the output is "<PERSOON> woont in A<PLAATS>", so the "A" survives and the "." is eaten (the test's assertions still hold) | [22,31), giving "<PERSOON> woont in <PLAATS>." | high, not executed | `AnonymizerEngine.CustomOperatorsFixtureScenario` | `AnonymizerEngine.CustomOperatorsScenario` |

## Left out

- Presidio's `AnalyzerEngine.analyze`, spaCy and the transformers pipeline are foreign code: their outputs are parameters (`analyze`, `loadPipeline`, `loadSpacy`).
- The regex recognizers of `_add_dutch_recognizers` (src/core/analyzer.py:59-168) only configure Presidio and are not part of this model; the three PERSON name regexes are the uninterpreted parameter `nameShape`.
- Presidio's `AnonymizerEngine` internals other than `replace`: its own merging of overlapping or conflicting results, its merging of adjacent results of the same type separated only by whitespace (which rewrites `start` on the shared result objects that `process_pdf` later reads for its statistics), and its other operators (mask, hash, custom). `Replace` walks the text and substitutes the first listed span that starts at a position, so for overlapping results (which src/anonymizer/engine.py passes through unchecked) it is not Presidio's conflict handling.
- AnonymizerEngine.AnonymizeText: for overlapping analyzer results the output is the walk described above, not Presidio's resolution of the conflict. Results outside `0 <= start < end <= |text|` are also outside the model: Presidio raises `InvalidParamError` for a span ending past the text and inserts the token for an empty span, where the model returns `Ok` with the walk's output (which stops at the end of the text and copies past an empty or reversed span).
- CoreAnonymizer.AnonymizeText: the same holds for the selected results it hands to Presidio: a span ending past the text, where Presidio raises, or an empty span, where Presidio inserts the token, gives the walk's output instead.
- CoreAnalyzer.ResolveClean: `upper()`, `lower()` and `isdigit()` are modelled on ASCII letters and digits only; Unicode case mapping and non-ASCII digits are not modelled.
- PDF reading, the reportlab canvas, `PdfWriter` and file writes: the pages are a given list of strings and the canvas is the list of `drawString`/`showPage` calls; `mkdir` is recorded as the directory created.
- `keep_layout` is accepted and ignored by `process_pdf`, so it is not a parameter.
- The OCR fallback of src/core/ocr.py, the CLI, the HTTP API, the server and file cleanup are not part of this model.
- src/analyzer/engine.py (an empty-text guard and a default list around a Presidio call) is not part of this model.
- Float scores: scores are integers in hundredths; `x.score or 0.0` in the core anonymizer's sort key is the score itself, since a score is never None here.
- Of the `EntityRecognizer` base class only the construction-time `load` is modelled; its `supported_language` handling and the `nlp_artifacts` argument are not, and the recognizers store the supported entities and language only.
- The unreachable second `return` of src/core/anonymizer.py:80.
