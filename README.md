# Office Document Translator — a verified model of the translation core

The Office Document Translator (`translator.py`) translates Excel, Word and PowerPoint files through a chat-completion service. Its core is plain string and list logic. That logic decides which cell, shape or paragraph texts are worth sending, and it joins a batch into one request. It reads the reply back from whatever shape the service returned and splits it into one translation per input, retrying a bounded number of times. The collected texts are cut into windows of 50 and each translation is written back where it came from. Output files get sanitised names, and a whole folder is processed into a list of successes and a list of failures.

The model is split into these modules:

- `Text` (`text.dfy`): `clean_text` and `should_translate`. Python's `str.split()`, `' '.join`, `strip` and the number-only regular expression are spelled out.
- `Paths` (`paths.dfy`): Windows `splitext`/`basename`, `get_file_type`, the safe-name chain of `re.sub` calls and the two output-name shapes.
- `Batching` (`batching.dfy`): `translate_batch`. The service is a function from (prompt, attempt number) to either a raised exception or a reply envelope. The reply is read through the probe chain, split, and reconciled. The retry loop is the method `TranslateBatch`, proved equal to the recursive specification `Run`.
- `Documents` (`documents.dfy`): the extract → batch → reapply loop of the three processors. A document is a class holding a map from a closed `LocationReference` datatype to the slot text.
  - Collecting fragments is the method `Collect`.
  - The `range(0, n, 50)` loop is `Document.TranslateFragments`.
  - The write-back loop is `Document.ApplyTranslations`.
  - The Excel per-sheet loop is `Document.TranslateSheets`.
  - All of them are proved against recursive specification functions (`EligibleTexts`, `Process`, `ApplyBatch`, `ProcessSheets`). The lemmas about those functions say which slot ends with which text.
- `Directory` (`directory.dfy`): `process_file` dispatch, the six `glob` patterns and the `process_directory` loop. The loop is proved to compute the two ordered filters (succeeded, failed) of the non-temporary files.
- `Presentation` (`presentation.dfy`): the multi-engine processor's engine fallback, the `extend` merge of element lists, and `_translate_elements` with its `element_map`.

Dafny's `Option` and `Result` are in `wrappers.dfy`.

The model follows the code, not its description, in these places:

- `AdvancedPowerPointProcessor` defines `_process_with_hybrid_approach` twice. The second definition, at translator.py:1524 (text extraction plus OCR, written for PDF files), is in the same class body and replaces the first, at translator.py:850-886. So `self.engines['hybrid']` (translator.py:823) runs the text+OCR method, and the python-pptx/COM/XML merge of lines 857-874 never runs.
  - `HybridElements` models the shadowed merge as written. It concatenates the extractors' lists with `extend`, and nothing deduplicates them; `HybridKeepsDuplicates` proves that duplicates are kept.
  - The method that does run merges in the same way. `text_elements.extend(ocr_elements)` at translator.py:1534-1538 is `HybridElements(text_elements, ocr, None)`, with `ocr` set to `None` when the OCR libraries or the client are missing or OCR raises.
  - `ProcessPresentation` takes each engine's outcome as a parameter, so it holds whichever method the 'hybrid' entry is bound to.
- `.xlsm` is a recognised Excel extension for single files, but `process_directory` has no `*.xlsm` pattern. `MacroWorkbookNotFound` records that such workbooks are never picked up from a folder.
- On Excel the write-back tests `translated_batch[j] is not None`, so an empty translation is still written. Word and PowerPoint test truthiness (`Accepts`).
- When every attempt fails, `translate_batch` returns its input, which in the processors is the cleaned text. The slot therefore receives the whitespace-normalised original (`ProcessUnreachable`).

## Model

| member | source | states |
|---|---|---|
| Text.CleanTextNormalized | translator.py:232-245 | the result of `clean_text` has no edge whitespace, every whitespace character in it is a single space between two non-spaces, and it has the same words as the input |
| Text.CleanTextIdempotent | translator.py:242-245 | `clean_text(clean_text(x)) == clean_text(x)` |
| Text.CleanTextOfNormalized | translator.py:242-245 | `clean_text` leaves an already normalised text unchanged |
| Text.CleanTextNoSpace | translator.py:242-245 | a text without whitespace is returned as it is |
| Text.WordsOfJoin | translator.py:244 | splitting the space-join of non-empty words gives the words back |
| Text.NormalizedIsJoin | translator.py:244 | a normalised text is the space-join of its words |
| Text.CleanTextIsJoin | translator.py:242-245 | for a non-empty text, the final `strip` changes nothing: the result is the space-join of the words |
| Text.ShouldTranslateMeaning | translator.py:247-264 | `should_translate` holds iff the cleaned text has length at least 2, does not start with `=`, and contains a character other than digits, whitespace, `,`, `.` and `-` |
| Text.ShouldTranslateOfCleaned | translator.py:257 | the filter gives the same answer on the cleaned text as on the raw text |
| Text.ShouldTranslateUnspaced | translator.py:247-264 | a text of at least two non-whitespace characters, not starting with `=`, with one character outside digits, `,`, `.` and `-`, is translated |
| Text.ShouldTranslateWord | translator.py:247-264 | "Hello" is translated |
| Text.ShouldTranslateNumber | translator.py:260-261 | "123,456" is not translated |
| Text.ShouldTranslateFormula | translator.py:262-263 | a formula "=SUM(A1:A2)" is not translated |
| Text.ShouldTranslateShort | translator.py:258-259 | a one-character text and a missing value are not translated |
| Paths.SplitextParts | translator.py:221 | `splitext` cuts the path into two parts that concatenate back to it; the second is empty or a dot followed by no dot and no separator |
| Paths.SplitextOfName | translator.py:221 | a name ending in an ordinary character, followed by an extension, splits exactly between the two |
| Paths.SplitextBasename | translator.py:497 | the extension of a path equals the extension of its basename (see also line 2115) |
| Paths.FileTypeByExtension | translator.py:211-230 | the kind of `base + ext` is the kind of the lower-cased extension |
| Paths.FileTypeUpperCase | translator.py:221-224 | "C:\Reports\Q1.Summary.XLSX" is an Excel file (the comparison ignores case) |
| Paths.HiddenFileHasNoType | translator.py:221-230 | "docs/.xlsx" has no extension, so its kind is unknown |
| Paths.CollapseUnderscores | translator.py:1887 | collapsing `_+` to `_` removes exactly the underscores that follow another underscore and keeps every other character in order (`KeptFrom`); so no `__` is left, the end characters are kept, and a text without `__` is unchanged |
| Paths.StripUnderscores | translator.py:1887 | `.strip('_')` gives the infix of the text between its leading and trailing runs of `_`: everything before and after it is `_`, and it has no `_` at either end |
| Paths.SafeBaseNameIsSafe | translator.py:1885-1887 | the safe base name holds only word characters and `-`, has no `__` and no `_` at either end |
| Paths.SafeBaseNameIdempotent | translator.py:1885-1887 | sanitising a safe name again changes nothing |
| Paths.OutputNamesKeepType | translator.py:1894 | `TRANSLATED_{safe}_{timestamp}{ext}` and `{base}-translated{ext}` keep the input's document kind (see also lines 503, 2121) |
| Batching.FindFrom | translator.py:439 | the first occurrence of the delimiter at or after a position, or none |
| Batching.SplitJoin | translator.py:313-314 | splitting the `"|||"`-joined segments gives the segments back when none contains a delimiter character (see also line 439) |
| Batching.Reconcile | translator.py:447-453 | exactly one output per input: reply segments first, then the original texts from the same positions, surplus segments dropped |
| Batching.FirstAttribute | translator.py:413-432 | the first listed content attribute holding a non-blank string: a result is non-blank, comes from a name, and every earlier name holds none; there is no result iff no name holds one |
| Batching.ProbePayloadNonEmpty | translator.py:389-436 | whatever the probe chain accepts is a non-empty string |
| Batching.ProbeStandardFirst | translator.py:391-394 | non-empty content at `choices[0].message.content` wins over every other path |
| Batching.ProbeStringSecond | translator.py:398-405 | otherwise a stripped `str(response)` not starting with `{` is used |
| Batching.ProbeFindsNothing | translator.py:410-436 | the probe chain yields nothing, and the attempt fails as the raised `ValueError` does, iff there is no standard content, no usable string form and no listed content attribute or dictionary key holding a non-blank string |
| Batching.SplitReply | translator.py:439-453 | the parts are the reconciled split of the reply text, one per input |
| Batching.Retry | translator.py:336-471 | the `while retries <= max_retries` loop returns the translations, attempt count and sleeps of the recursive specification started at attempt 0 |
| Batching.TranslateBatch | translator.py:266-471 | the retry loop returns the translations, attempt count and sleeps of the specification `Run` |
| Batching.RunAligned | translator.py:284-285 | the result always has one entry per input, at most 4 attempts are made, and the empty batch makes no call (see also lines 439-453, 459-464) |
| Batching.RunSucceedsAt | translator.py:336-340 | after k failed attempts a reply at attempt k gives the reconciled split, k+1 attempts and sleeps 2, 4, …, 2k then 2 (see also lines 439-457, 466-468) |
| Batching.RunAllFail | translator.py:459-464 | four failures return the input texts, after sleeps of 2, 4 and 6 seconds |
| Batching.RunFaithfulReply | translator.py:313-314 | a reply that joins one clean segment per input gives those segments in one attempt (see also lines 439-453) |
| Documents.NumBatchesFormula | translator.py:667 | the number of windows of `range(0, n, 50)` is `(n - 1) // 50 + 1` for n > 0 (see also line 2002) |
| Documents.WindowsPartition | translator.py:669-671 | the windows `[i:i+50]` are non-empty, hold at most 50 items and concatenate back to the list (see also lines 2007-2009, 2243-2245) |
| Documents.WindowIndex | translator.py:669-671 | item i is entry `i mod 50` of window `i // 50`, for texts and references alike (see also lines 2007-2009) |
| Documents.ApplyBatchWrites | translator.py:693-768 | the write-back keeps the slot set, gives `refs[j]` the accepted translation `translated[j]`, and leaves every slot not in the batch alone (see also lines 2031-2065, 2267-2302) |
| Documents.ProcessWrites | translator.py:658-773 | the whole batch loop keeps the slot set, writes fragment i's translation to the slot `refs[i]` names (when accepted and recognised) and leaves every other slot unchanged (see also lines 2001-2068, 2237-2305) |
| Documents.ProcessUnreachable | translator.py:459-464 | when the service never answers every slot receives the text that was sent for it (see also lines 2037, 2273) |
| Documents.ProcessSheetsFrame | translator.py:660-664 | the per-sheet loop keeps the slot set and leaves alone every slot no sheet refers to |
| Documents.ProcessSheetsWrites | translator.py:660-768 | on the Excel path, fragment i of sheet n, whose cell no other sheet holds, ends with the translation its own sheet's batch loop gives it (`Written` with `TranslationFor`), and the slot set is kept |
| Documents.TrueIndices | translator.py:549-552 | the positions of the eligible items, strictly increasing, and every eligible position is among them (see also lines 1934-1938, 2154-2158) |
| Documents.Collect | translator.py:541-552 | collecting returns exactly the cleaned texts and the references of the eligible candidates, in order (see also lines 614-622, 1916-1976, 2143-2212) |
| Documents.EligibleSnoc | translator.py:549-552 | one more candidate appends its cleaned text and its reference exactly when it passes the filter (see also lines 1934-1938, 2154-2158) |
| Documents.CollectedEligible | translator.py:549-551 | every collected text passes the filter and is already cleaned, and the two lists have the same length (see also lines 1934-1936) |
| Documents.CollectedDistinct | translator.py:552 | distinct slots give distinct collected references (see also lines 1938, 2158) |
| Documents.IneligibleNotCollected | translator.py:549 | a slot whose text the filter rejects is never collected (see also lines 1934, 2154) |
| Documents.TranslateDocument | translator.py:541-773 | extraction plus the batch loop keeps the slot set, leaves every rejected slot and every slot no extractor saw unchanged, and gives each eligible slot the translation of its own fragment (see also lines 1916-2068, 2143-2305) |
| Documents.Document.Write | translator.py:2037-2062 | a write changes only a slot that exists and whose reference kind the format recognises (see also lines 2273-2299, 700-768) |
| Documents.Document.ApplyTranslations | translator.py:693-768 | the new slots are `ApplyBatch` of the old ones (see also lines 2031-2065, 2267-2302) |
| Documents.Document.TranslateWindow | translator.py:670-691 | one batch: translate the window, then write it back (see also lines 2008-2028) |
| Documents.Document.TranslateBatchAt | translator.py:669-691 | one turn of the loop at `i = 50k`: what is left of the specification after the turn, from window k + 1, is what was left before it, from window k (see also lines 2007-2028, 2243-2264) |
| Documents.Document.TranslateFragments | translator.py:669-768 | the new slots are `Process` of the old ones (see also lines 2007-2065, 2243-2302) |
| Documents.Document.TranslateSheets | translator.py:660-768 | the new slots are `ProcessSheets` of the old ones; `ProcessSheetsWrites` and `ProcessSheetsFrame` say what that is |
| Directory.ProcessFile | translator.py:2344-2394 | a path comes back only when the file exists, the libraries are loaded, a key is set, the client is created and the kind is known, and it is the result of that kind's processor |
| Directory.ProcessFileDispatches | translator.py:2377-2390 | with everything in place a supported file reaches its kind's processor |
| Directory.BasenameOfJoin | translator.py:2415 | `basename(join(folder, name)) == name` for a plain name (see also line 2451) |
| Directory.Glob | translator.py:2415-2417 | `glob` finds exactly the listed names that match the pattern |
| Directory.AllFilesMembers | translator.py:2415-2419 | a name is found iff it is listed and matches one of the six patterns |
| Directory.MatchedKind | translator.py:2415-2417 | every found file is of the kind its pattern names, never unknown (see also lines 211-230) |
| Directory.MacroWorkbookNotFound | translator.py:2415 | a `.xlsm` workbook matches none of the patterns (see also line 223) |
| Directory.CandidatesMembers | translator.py:2450-2454 | `~$` lock files are dropped and every other found file is kept |
| Directory.OutcomeMembers | translator.py:2458-2463 | a file is in the succeeded (failed) list iff processing it returned (did not return) a path |
| Directory.LoopIsPartition | translator.py:2442-2481 | the one-pass loop computes the ordered succeeded and failed filters of the non-temporary files |
| Directory.OutcomeCounts | translator.py:2441-2481 | each file lands in exactly one of the two lists |
| Directory.ProcessDirectory | translator.py:2395-2491 | the method returns the `(successful_files, failed_files)` of the specification |
| Directory.DirectoryPartition | translator.py:2409-2491 | a missing folder gives two empty lists, and the two lists partition the non-temporary files found; succeeded files returned a path, failed files did not |
| Presentation.FirstUsable | translator.py:837-848 | the result is a path iff some engine returned a truthy one; otherwise it is the error "All processing engines failed" |
| Presentation.FirstUsableIsEarliest | translator.py:837-846 | the path comes from the earliest engine that returned one |
| Presentation.ProcessPresentation | translator.py:830-848 | the engine loop returns `FirstUsable` of the engines in order hybrid, python-pptx, COM, XML |
| Presentation.HybridElements | translator.py:857-874 | the merged list starts with the python-pptx elements and holds exactly the elements of the three lists, duplicates included |
| Presentation.HybridKeepsDuplicates | translator.py:864 | an element found again by COM appears twice in the merged list (see also line 874) |
| Presentation.IndexMap | translator.py:1315 | `element_map` maps translation index k to the k-th eligible element position |
| Presentation.AnnotateEffect | translator.py:1326-1329 | the first n assignments set the translation of element `idx[k]` and touch nothing else |
| Presentation.TranslateElementsMeaning | translator.py:1300-1331 | every eligible element gets the translation of its own text; every other element is returned unchanged |
| Presentation.GroupTexts | translator.py:1308-1315 | the grouping loop builds `texts_to_translate` and `element_map` of the specification |
| Presentation.MapBack | translator.py:1326-1329 | for any in-range positions `idx` with `element_map` built from them, the mapping loop assigns translation t to element `idx[t]` |
| Presentation.TranslateElements | translator.py:1300-1331 | the method returns the specification's elements, or the elements unchanged when nothing is eligible |

## Left out

- Terminal output, progress bars and the GUI are side effects only and are not modelled.
- The Office object models are replaced by a map from references to slot texts. This covers xlwings, the COM automation, python-pptx, python-docx and the XML engines.
- The Excel shape write-back tries five COM interfaces in turn and may update none. The model treats every recognised, existing slot as writable.
- Aliasing between slots is not modelled. This covers Word's merged table cells, which appear more than once, and a group item that is also a top-level shape. Distinct references are distinct slots.
- The network call, the system-prompt file and the response-to-dictionary conversion are abstracted. The service is a function from prompt and attempt number to a raised exception or a reply envelope, and `str(response)` is part of the envelope.
- `time.sleep` is not executed. `TranslateBatch` returns the list of requested sleep durations instead.
- Timestamps are parameters, and the output folder prefix of the output paths is not modelled.
- Only the standard-path content is modelled, and only as a string. A non-string `message.content` is not modelled.
- `\d`, `\s` and `\w` are modelled on subsets of Unicode:
  - `\d`: ASCII, Thai and full-width digits.
  - `\s`: the whitespace that `str.isspace` accepts.
  - `\w`: the digits of `\d`, ASCII letters and `_`, the Thai letters (not the Thai combining vowel and tone marks, which `\w` also rejects), hiragana and katakana with their iteration and prolonged-sound marks (`ゝゞゟ`, `ーヽヾヿ`), `々`, CJK unified ideographs and Hangul syllables.
  Letters and digits of other scripts and blocks (accented Latin, Cyrillic, CJK extension blocks, half-width katakana and others) are treated as non-word and non-digit characters, so the model replaces them with `_` where Python keeps them.
- Windows drive prefixes (`C:name`) are not separated by `splitext` and `basename`. Only `/` and `\` are separators.
- The folder listing is a parameter. `glob`'s platform case rules are fixed to Windows (case-insensitive). Directories that match a pattern are not distinguished from files.
- `str(cell.value)` for non-string Excel values is not modelled: candidates carry their text already converted.
- The multi-engine processor's extractors (python-pptx, COM SmartArt/OLE, XML) and `_apply_translations` are not modelled: they are calls into Office libraries. `process_powerpoint_file` does not use that processor. Its `_apply_translations` strips `_` from the safe name but does not collapse `_` runs. Only the safe-name rule of the basic processor is modelled.
- `process_file`'s environment checks (file existence, imports, API key, client creation) are booleans, not real checks.
- The text+OCR `_process_with_hybrid_approach` (translator.py:1524-1549), which the 'hybrid' engine actually runs, is represented only by its engine outcome and by its list merge. Its PDF text extraction, the OCR call, `_translate_pdf_elements` and `_create_translated_pdf` call into PyMuPDF, pdfplumber, image libraries and the service, and are not modelled. The other PDF methods (`_analyze_pdf_type`, `_process_text_based_pdf`, `_process_scanned_pdf_with_ocr`, `_process_mixed_content_pdf`) are not reached from the engine table and are not modelled.
