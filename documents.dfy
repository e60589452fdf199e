/**
 * The extract -> batch-translate -> reapply loop shared by `process_excel_file`,
 * `process_powerpoint_file_basic` and `process_word_file`. A document is a map
 * from location references to slot texts; fragments are collected in two
 * parallel lists, cut into windows of 50, translated window by window and
 * written back to the slots their references name.
 */
module Documents {
  import opened Wrappers
  import opened Text
  import opened Paths
  import opened Batching

  /** Which header or footer of a section (`header`, `first_page_header`, `even_page_header`, likewise for footers). */
  datatype HeaderKind = Primary | FirstPage | EvenPage

  /** One writable text slot of a document, tagged by the container it sits in. */
  datatype LocationReference =
    | SheetCell(sheet: nat, row: nat, col: nat)
    | SheetShape(sheet: nat, shape: nat)
    | SlideShape(slide: nat, shape: nat)
    | SlideTableCell(slide: nat, shape: nat, row: nat, col: nat)
    | SlideGroupItem(slide: nat, shape: nat, item: nat)
    | SlideNotes(slide: nat)
    | Paragraph(para: nat)
    | WordTableCell(table: nat, row: nat, cell: nat, para: nat)
    | Header(section: nat, kind: HeaderKind, para: nat)
    | Footer(section: nat, kind: HeaderKind, para: nat)

  /** The slots of an open document and their texts. */
  type Slots = map<LocationReference, string>

  /** The reference kinds a format's write-back recognises; any other reference is reported and skipped. */
  predicate Handles(format: DocType, ref: LocationReference) {
    match format
    case Excel => ref.SheetCell? || ref.SheetShape?
    case PowerPoint => ref.SlideShape? || ref.SlideTableCell? || ref.SlideGroupItem? || ref.SlideNotes?
    case Word => ref.Paragraph? || ref.WordTableCell? || ref.Header? || ref.Footer?
    case Unknown => false
  }

  /**
   * Whether a translated string is written at all: the Excel path only asks that
   * it is not `None` (so `""` is written), the Word and PowerPoint paths that it is truthy.
   */
  predicate Accepts(format: DocType, text: string) {
    format == Excel || text != ""
  }

  /** Writing one slot: a recognised reference to a slot that exists; otherwise the write fails and nothing changes. */
  function WriteSlot(slots: Slots, format: DocType, ref: LocationReference, text: string): Slots {
    if Handles(format, ref) && ref in slots then slots[ref := text] else slots
  }

  /** No reference occurs twice. */
  predicate Distinct<T(==)>(s: seq<T>) {
    forall a, b :: 0 <= a < b < |s| ==> s[a] != s[b]
  }

  // ---------------------------------------------------------------------
  // Windows of 50

  const BatchSize: nat := 50

  /** `len(range(0, n, 50))`. */
  function NumBatches(n: nat): nat {
    (n + BatchSize - 1) / BatchSize
  }

  /** Python's `s[lo:hi]` for non-negative bounds: clamped to the sequence, empty when `lo >= hi`. */
  function PySlice<T>(s: seq<T>, lo: nat, hi: nat): seq<T> {
    if lo >= hi || lo >= |s| then [] else s[lo..if hi <= |s| then hi else |s|]
  }

  /** The `k`-th window, `s[50k : 50k + 50]`. */
  function Window<T>(s: seq<T>, k: nat): seq<T> {
    PySlice(s, k * BatchSize, k * BatchSize + BatchSize)
  }

  /** The slice `s[i:i+50]` taken at offset `i = 50k` is window `k`. */
  lemma WindowAtOffset<T>(s: seq<T>, i: nat, k: nat)
    requires i == k * BatchSize
    ensures PySlice(s, i, i + BatchSize) == Window(s, k)
  {
  }

  /** The concatenation of a list of windows. */
  function Concat<T>(ws: seq<seq<T>>): seq<T> {
    if ws == [] then [] else ws[0] + Concat(ws[1..])
  }

  /** The windows `k`, `k+1`, ..., up to the last one of `s`. */
  function WindowsFrom<T>(s: seq<T>, k: nat): seq<seq<T>>
    decreases NumBatches(|s|) - k
  {
    if k >= NumBatches(|s|) then [] else [Window(s, k)] + WindowsFrom(s, k + 1)
  }

  // ---------------------------------------------------------------------
  // Reapplication and the batch loop, as specifications

  /** The slots after the first `j` references of a batch were handled. */
  function ApplyPrefix(slots: Slots, format: DocType, refs: seq<LocationReference>, translated: seq<string>, j: nat): Slots
    requires j <= |refs|
  {
    if j == 0 then slots
    else
      var s := ApplyPrefix(slots, format, refs, translated, j - 1);
      if j - 1 < |translated| && Accepts(format, translated[j - 1])
      then WriteSlot(s, format, refs[j - 1], translated[j - 1])
      else s
  }

  /** The write-back loop of one batch: `translated[j]` goes to `refs[j]`. */
  function ApplyBatch(slots: Slots, format: DocType, refs: seq<LocationReference>, translated: seq<string>): Slots {
    ApplyPrefix(slots, format, refs, translated, |refs|)
  }

  /** A batch translator returns one string per input string (`translate_batch` by contract). */
  ghost predicate Aligned(translate: seq<string> -> seq<string>) {
    forall w :: |translate(w)| == |w|
  }

  /** `translate_batch` against the translation service `api`. */
  function BatchTranslator(lang: string, api: (string, nat) -> CallOutcome): seq<string> -> seq<string> {
    w => Run(w, lang, api).translated
  }

  /** The batch loop from window `k` on. */
  function ProcessFrom(slots: Slots, format: DocType, texts: seq<string>, refs: seq<LocationReference>,
                       translate: seq<string> -> seq<string>, k: nat): Slots
    decreases NumBatches(|texts|) - k
  {
    if k >= NumBatches(|texts|) then slots
    else ProcessFrom(ApplyBatch(slots, format, Window(refs, k), translate(Window(texts, k))), format, texts, refs, translate, k + 1)
  }

  /** One turn of the batch loop. */
  lemma ProcessFromUnfold(slots: Slots, format: DocType, texts: seq<string>, refs: seq<LocationReference>,
                          translate: seq<string> -> seq<string>, k: nat)
    requires k < NumBatches(|texts|)
    ensures ProcessFrom(slots, format, texts, refs, translate, k)
         == ProcessFrom(ApplyBatch(slots, format, Window(refs, k), translate(Window(texts, k))), format, texts, refs, translate, k + 1)
  {
  }

  /** The whole batch loop over parallel lists of texts and references. */
  function Process(slots: Slots, format: DocType, texts: seq<string>, refs: seq<LocationReference>,
                   lang: string, api: (string, nat) -> CallOutcome): Slots {
    ProcessFrom(slots, format, texts, refs, BatchTranslator(lang, api), 0)
  }

  /** The fragments one worksheet contributes. */
  datatype SheetFragments = SheetFragments(texts: seq<string>, refs: seq<LocationReference>)

  /** The Excel path runs the batch loop sheet by sheet, skipping sheets with nothing to translate. */
  function ProcessSheets(slots: Slots, sheets: seq<SheetFragments>, lang: string, api: (string, nat) -> CallOutcome): Slots
    decreases |sheets|
  {
    if sheets == [] then slots
    else ProcessSheets(ProcessSheet(slots, sheets[0], lang, api), sheets[1..], lang, api)
  }

  /** One turn of the per-sheet loop: a sheet with fragments runs the batch loop, an empty one is skipped. */
  function ProcessSheet(slots: Slots, sheet: SheetFragments, lang: string, api: (string, nat) -> CallOutcome): Slots {
    if sheet.texts == [] then slots else Process(slots, Excel, sheet.texts, sheet.refs, lang, api)
  }

  /** The translation the batch loop assigns to fragment `i`: entry `i mod 50` of the result of window `i / 50`. */
  function TranslationFor(texts: seq<string>, translate: seq<string> -> seq<string>, i: nat): string
    requires i < |texts| && Aligned(translate)
  {
    WindowIndex(texts, i);
    translate(Window(texts, i / BatchSize))[i % BatchSize]
  }

  // ---------------------------------------------------------------------
  // Collecting fragments

  /** A slot seen by an extractor, with its text (`None` when the slot has no text value). */
  datatype Candidate = Candidate(ref: LocationReference, text: Option<string>)

  /** The positions holding `true`, in increasing order. */
  function TrueIndices(flags: seq<bool>): (idx: seq<nat>)
    ensures forall k :: 0 <= k < |idx| ==> idx[k] < |flags| && flags[idx[k]]
    ensures forall k, l :: 0 <= k < l < |idx| ==> idx[k] < idx[l]
    ensures forall i :: 0 <= i < |flags| && flags[i] ==> i in idx
  {
    if flags == [] then []
    else
      var p := TrueIndices(flags[..|flags| - 1]);
      if flags[|flags| - 1] then p + [|flags| - 1] else p
  }

  /** Appending a flag appends its position exactly when it is `true`. */
  lemma TrueIndicesSnoc(flags: seq<bool>, b: bool)
    ensures TrueIndices(flags + [b]) == TrueIndices(flags) + (if b then [|flags|] else [])
  {
    assert (flags + [b])[..|flags|] == flags;
  }

  /** The positions of the candidates that pass `should_translate`, in order. */
  function EligibleIndices(cands: seq<Candidate>): seq<nat> {
    TrueIndices(CandidateFlags(cands))
  }

  /** Which candidates pass `should_translate`. */
  function CandidateFlags(cands: seq<Candidate>): seq<bool> {
    seq(|cands|, i requires 0 <= i < |cands| => ShouldTranslate(cands[i].text))
  }

  /** `texts_to_translate`: the cleaned texts of the eligible candidates. */
  function EligibleTexts(cands: seq<Candidate>): seq<string> {
    GatherTexts(cands, EligibleIndices(cands))
  }

  /** The cleaned texts of the candidates at the given positions. */
  function GatherTexts(cands: seq<Candidate>, idx: seq<nat>): seq<string>
    requires forall k :: 0 <= k < |idx| ==> idx[k] < |cands|
  {
    seq(|idx|, k requires 0 <= k < |idx| => CleanText(cands[idx[k]].text))
  }

  /** The references of the candidates at the given positions. */
  function GatherRefs(cands: seq<Candidate>, idx: seq<nat>): seq<LocationReference>
    requires forall k :: 0 <= k < |idx| ==> idx[k] < |cands|
  {
    seq(|idx|, k requires 0 <= k < |idx| => cands[idx[k]].ref)
  }

  /** `text_references`: the references of the eligible candidates. */
  function EligibleRefs(cands: seq<Candidate>): seq<LocationReference> {
    GatherRefs(cands, EligibleIndices(cands))
  }

  // ---------------------------------------------------------------------
  // Windows

  /** A window holds at most 50 items. */
  lemma WindowLength<T>(s: seq<T>, k: nat)
    ensures |Window(s, k)| == if k * BatchSize >= |s| then 0
                              else if k * BatchSize + BatchSize <= |s| then BatchSize else |s| - k * BatchSize
  {
  }

  /** A window is taken in place from `s`. */
  lemma WindowAt<T>(s: seq<T>, k: nat)
    ensures forall j :: 0 <= j < |Window(s, k)| ==> Window(s, k)[j] == s[k * BatchSize + j]
  {
  }

  /** Item `i` is entry `i mod 50` of window `i / 50`. */
  lemma WindowIndex<T>(s: seq<T>, i: nat)
    requires i < |s|
    ensures i % BatchSize < |Window(s, i / BatchSize)|
    ensures Window(s, i / BatchSize)[i % BatchSize] == s[i]
  {
    var k := i / BatchSize;
    assert k * BatchSize + i % BatchSize == i;
    WindowLength(s, k);
    WindowAt(s, k);
  }

  /** The loop runs once per started window of 50: `k` is a batch start exactly when `k < NumBatches(n)`. */
  /** Position `i` lies inside window `i / 50`. */
  lemma DivBound(i: nat)
    ensures (i / BatchSize) * BatchSize <= i < (i / BatchSize + 1) * BatchSize
  {
  }

  lemma NumBatchesExact(n: nat, k: nat)
    ensures k < NumBatches(n) <==> k * BatchSize < n
  {
  }

  /** The batch count the processors print, `(n - 1) // 50 + 1`, is the number of windows whenever there is a fragment. */
  lemma NumBatchesFormula(n: nat)
    requires n > 0
    ensures NumBatches(n) == (n - 1) / BatchSize + 1
    ensures (NumBatches(n) - 1) * BatchSize < n <= NumBatches(n) * BatchSize
  {
  }

  /** Every window the loop visits is non-empty, and they cut `s` into consecutive pieces. */
  lemma {:induction false} WindowsCover<T>(s: seq<T>, k: nat)
    requires k * BatchSize <= |s|
    ensures Concat(WindowsFrom(s, k)) == s[k * BatchSize..]
    decreases |s| - k * BatchSize
  {
    NumBatchesExact(|s|, k);
    if k * BatchSize < |s| {
      NumBatchesExact(|s|, k + 1);
      WindowSplit(s, k);
      ConcatCons(Window(s, k), WindowsFrom(s, k + 1));
      if (k + 1) * BatchSize <= |s| {
        WindowsCover(s, k + 1);
      }
    }
  }

  /** Every window from `k` on holds between 1 and 50 items. */
  lemma {:induction false} WindowsSized<T>(s: seq<T>, k: nat)
    ensures forall w :: w in WindowsFrom(s, k) ==> 0 < |w| <= BatchSize
    decreases NumBatches(|s|) - k
  {
    if k < NumBatches(|s|) {
      NumBatchesExact(|s|, k);
      WindowLength(s, k);
      WindowsSized(s, k + 1);
    }
  }

  /** The rest of `s` from window `k` is that window followed by the rest from window `k + 1`. */
  lemma WindowSplit<T>(s: seq<T>, k: nat)
    requires k * BatchSize < |s|
    ensures (k + 1) * BatchSize <= |s| ==> s[k * BatchSize..] == Window(s, k) + s[(k + 1) * BatchSize..]
    ensures (k + 1) * BatchSize > |s| ==> s[k * BatchSize..] == Window(s, k)
  {
  }

  lemma ConcatCons<T>(w: seq<T>, ws: seq<seq<T>>)
    ensures Concat([w] + ws) == w + Concat(ws)
  {
    assert ([w] + ws)[1..] == ws;
  }

  /** `range(0, len(texts), 50)` followed by the slices loses and repeats nothing. */
  lemma WindowsPartition<T>(s: seq<T>)
    ensures Concat(WindowsFrom(s, 0)) == s
    ensures |WindowsFrom(s, 0)| == NumBatches(|s|)
    ensures forall w :: w in WindowsFrom(s, 0) ==> 0 < |w| <= BatchSize
  {
    WindowsCover(s, 0);
    WindowsSized(s, 0);
    WindowsCount(s, 0);
  }

  lemma {:induction false} WindowsCount<T>(s: seq<T>, k: nat)
    ensures |WindowsFrom(s, k)| == if k >= NumBatches(|s|) then 0 else NumBatches(|s|) - k
    decreases NumBatches(|s|) - k
  {
    if k < NumBatches(|s|) {
      WindowsCount(s, k + 1);
    }
  }

  lemma DistinctWindow<T>(s: seq<T>, k: nat)
    requires Distinct(s)
    ensures Distinct(Window(s, k))
  {
    WindowLength(s, k);
    WindowAt(s, k);
  }

  // ---------------------------------------------------------------------
  // Reapplication

  /** Writes never add or remove slots. */
  lemma {:induction false} ApplyPrefixKeys(slots: Slots, format: DocType, refs: seq<LocationReference>, translated: seq<string>, j: nat)
    requires j <= |refs|
    ensures ApplyPrefix(slots, format, refs, translated, j).Keys == slots.Keys
  {
    if j > 0 {
      ApplyPrefixKeys(slots, format, refs, translated, j - 1);
    }
  }

  /** A slot whose reference is not among the first `j` keeps its text. */
  lemma {:induction false} ApplyPrefixFrame(slots: Slots, format: DocType, refs: seq<LocationReference>, translated: seq<string>, j: nat, r: LocationReference)
    requires j <= |refs| && r in slots
    requires forall m :: 0 <= m < j ==> refs[m] != r
    ensures r in ApplyPrefix(slots, format, refs, translated, j)
    ensures ApplyPrefix(slots, format, refs, translated, j)[r] == slots[r]
  {
    if j > 0 {
      ApplyPrefixFrame(slots, format, refs, translated, j - 1, r);
    }
  }

  /** What handling position `m` of a batch leaves in slot `refs[m]`. */
  function Written(format: DocType, ref: LocationReference, before: string, text: string): string {
    if Handles(format, ref) && Accepts(format, text) then text else before
  }

  /** With distinct references, position `m` receives `translated[m]` (if written at all) and nothing later overwrites it. */
  lemma {:induction false} ApplyPrefixAt(slots: Slots, format: DocType, refs: seq<LocationReference>, translated: seq<string>, j: nat, m: nat)
    requires Distinct(refs) && m < j <= |refs| && m < |translated| && refs[m] in slots
    ensures refs[m] in ApplyPrefix(slots, format, refs, translated, j)
    ensures ApplyPrefix(slots, format, refs, translated, j)[refs[m]]
         == Written(format, refs[m], slots[refs[m]], translated[m])
  {
    ApplyPrefixKeys(slots, format, refs, translated, j - 1);
    ApplyPrefixKeys(slots, format, refs, translated, j);
    if j == m + 1 {
      ApplyPrefixFrame(slots, format, refs, translated, m, refs[m]);
    } else {
      ApplyPrefixAt(slots, format, refs, translated, j - 1, m);
    }
  }

  /** The batch write-back: every reference of the batch gets its own translation. */
  lemma ApplyBatchWrites(slots: Slots, format: DocType, refs: seq<LocationReference>, translated: seq<string>)
    requires Distinct(refs) && |translated| == |refs|
    ensures ApplyBatch(slots, format, refs, translated).Keys == slots.Keys
    ensures forall m :: 0 <= m < |refs| && refs[m] in slots ==>
              ApplyBatch(slots, format, refs, translated)[refs[m]] == Written(format, refs[m], slots[refs[m]], translated[m])
    ensures forall r :: r in slots && r !in refs ==> ApplyBatch(slots, format, refs, translated)[r] == slots[r]
  {
    ApplyPrefixKeys(slots, format, refs, translated, |refs|);
    forall m | 0 <= m < |refs| && refs[m] in slots
      ensures ApplyBatch(slots, format, refs, translated)[refs[m]] == Written(format, refs[m], slots[refs[m]], translated[m])
    {
      ApplyPrefixAt(slots, format, refs, translated, |refs|, m);
    }
    forall r | r in slots && r !in refs
      ensures ApplyBatch(slots, format, refs, translated)[r] == slots[r]
    {
      ApplyPrefixFrame(slots, format, refs, translated, |refs|, r);
    }
  }

  // ---------------------------------------------------------------------
  // The batch loop

  /** `translate_batch` keeps the batch length, whatever the service does. */
  lemma BatchTranslatorAligned(lang: string, api: (string, nat) -> CallOutcome)
    ensures Aligned(BatchTranslator(lang, api))
  {
    forall w: seq<string> ensures |BatchTranslator(lang, api)(w)| == |w| {
      RunAligned(w, lang, api);
    }
  }

  lemma {:induction false} ProcessFromKeys(slots: Slots, format: DocType, texts: seq<string>, refs: seq<LocationReference>,
                                           translate: seq<string> -> seq<string>, k: nat)
    ensures ProcessFrom(slots, format, texts, refs, translate, k).Keys == slots.Keys
    decreases NumBatches(|texts|) - k
  {
    if k < NumBatches(|texts|) {
      var translated := translate(Window(texts, k));
      ApplyPrefixKeys(slots, format, Window(refs, k), translated, |Window(refs, k)|);
      ProcessFromKeys(ApplyBatch(slots, format, Window(refs, k), translated), format, texts, refs, translate, k + 1);
    }
  }

  /** A slot named by no reference from window `k` on is left alone by the rest of the loop. */
  lemma {:induction false} ProcessFromFrame(slots: Slots, format: DocType, texts: seq<string>, refs: seq<LocationReference>,
                                            translate: seq<string> -> seq<string>, k: nat, r: LocationReference)
    requires r in slots
    requires forall m :: k * BatchSize <= m < |refs| ==> refs[m] != r
    ensures r in ProcessFrom(slots, format, texts, refs, translate, k)
    ensures ProcessFrom(slots, format, texts, refs, translate, k)[r] == slots[r]
    decreases NumBatches(|texts|) - k
  {
    if k < NumBatches(|texts|) {
      var w := Window(refs, k);
      var translated := translate(Window(texts, k));
      WindowAt(refs, k);
      ApplyPrefixFrame(slots, format, w, translated, |w|, r);
      ProcessFromFrame(ApplyBatch(slots, format, w, translated), format, texts, refs, translate, k + 1, r);
    }
  }

  /** Window `i / 50` writes fragment `i`'s translation. */
  lemma OwnWindowWrite(slots: Slots, format: DocType, texts: seq<string>, refs: seq<LocationReference>,
                       translate: seq<string> -> seq<string>, i: nat)
    requires |texts| == |refs| && Distinct(refs) && i < |refs| && refs[i] in slots
    requires Aligned(translate)
    ensures refs[i] in ApplyBatch(slots, format, Window(refs, i / BatchSize), translate(Window(texts, i / BatchSize)))
    ensures ApplyBatch(slots, format, Window(refs, i / BatchSize), translate(Window(texts, i / BatchSize)))[refs[i]]
         == Written(format, refs[i], slots[refs[i]], TranslationFor(texts, translate, i))
  {
    var k := i / BatchSize;
    var w := Window(refs, k);
    var translated := translate(Window(texts, k));
    WindowLength(refs, k);
    WindowLength(texts, k);
    WindowIndex(refs, i);
    DistinctWindow(refs, k);
    ApplyPrefixAt(slots, format, w, translated, |w|, i % BatchSize);
  }

  /** ... and the windows after it leave that slot alone. */
  lemma ProcessFromOwnWindow(slots: Slots, format: DocType, texts: seq<string>, refs: seq<LocationReference>,
                             translate: seq<string> -> seq<string>, k: nat, i: nat)
    requires |texts| == |refs| && Distinct(refs) && i < |refs| && refs[i] in slots
    requires Aligned(translate) && k == i / BatchSize
    ensures refs[i] in ProcessFrom(slots, format, texts, refs, translate, k)
    ensures ProcessFrom(slots, format, texts, refs, translate, k)[refs[i]]
         == Written(format, refs[i], slots[refs[i]], TranslationFor(texts, translate, i))
  {
    DivBound(i);
    NumBatchesExact(|texts|, k);
    OwnWindowWrite(slots, format, texts, refs, translate, i);
    ProcessFromUnfold(slots, format, texts, refs, translate, k);
    AfterOwnWindow(ApplyBatch(slots, format, Window(refs, k), translate(Window(texts, k))), format, texts, refs, translate, k, i);
  }

  /** The windows after window `i / 50` leave the slot of reference `i` alone. */
  lemma AfterOwnWindow(slots: Slots, format: DocType, texts: seq<string>, refs: seq<LocationReference>,
                       translate: seq<string> -> seq<string>, k: nat, i: nat)
    requires Distinct(refs) && i < |refs| && refs[i] in slots && k == i / BatchSize
    ensures refs[i] in ProcessFrom(slots, format, texts, refs, translate, k + 1)
    ensures ProcessFrom(slots, format, texts, refs, translate, k + 1)[refs[i]] == slots[refs[i]]
  {
    DistinctAfter(refs, i, k);
    ProcessFromFrame(slots, format, texts, refs, translate, k + 1, refs[i]);
  }

  /** With distinct references, no position after window `i / 50` repeats the reference at `i`. */
  lemma DistinctAfter<T>(refs: seq<T>, i: nat, k: nat)
    requires Distinct(refs) && i < |refs| && k == i / BatchSize
    ensures forall m :: (k + 1) * BatchSize <= m < |refs| ==> refs[m] != refs[i]
  {
    DivBound(i);
  }

  /** Two slot maps that agree on slot `r` still agree there after the first `j` writes of a batch. */
  lemma {:induction false} ApplyPrefixAgree(s1: Slots, s2: Slots, format: DocType, refs: seq<LocationReference>,
                                            translated: seq<string>, j: nat, r: LocationReference)
    requires j <= |refs| && r in s1 && r in s2 && s1[r] == s2[r]
    ensures r in ApplyPrefix(s1, format, refs, translated, j) && r in ApplyPrefix(s2, format, refs, translated, j)
    ensures ApplyPrefix(s1, format, refs, translated, j)[r] == ApplyPrefix(s2, format, refs, translated, j)[r]
  {
    if j > 0 {
      ApplyPrefixAgree(s1, s2, format, refs, translated, j - 1, r);
    }
  }

  /** Two slot maps that agree on slot `r` still agree there after the batch loop from window `k` on. */
  lemma {:induction false} ProcessFromAgree(s1: Slots, s2: Slots, format: DocType, texts: seq<string>, refs: seq<LocationReference>,
                                            translate: seq<string> -> seq<string>, k: nat, r: LocationReference)
    requires r in s1 && r in s2 && s1[r] == s2[r]
    ensures r in ProcessFrom(s1, format, texts, refs, translate, k) && r in ProcessFrom(s2, format, texts, refs, translate, k)
    ensures ProcessFrom(s1, format, texts, refs, translate, k)[r] == ProcessFrom(s2, format, texts, refs, translate, k)[r]
    decreases NumBatches(|texts|) - k
  {
    if k < NumBatches(|texts|) {
      var w := Window(refs, k);
      var translated := translate(Window(texts, k));
      ApplyPrefixAgree(s1, s2, format, w, translated, |w|, r);
      ProcessFromUnfold(s1, format, texts, refs, translate, k);
      ProcessFromUnfold(s2, format, texts, refs, translate, k);
      ProcessFromAgree(ApplyBatch(s1, format, w, translated), ApplyBatch(s2, format, w, translated), format, texts, refs, translate, k + 1, r);
    }
  }

  /**
   * Windows that do not name `r` leave its slot alone: the loop from window `k` ends with the same
   * text there as the loop from window `own` started on any slots that agree on it.
   */
  lemma {:induction false} SkipTo(slots: Slots, other: Slots, format: DocType, texts: seq<string>, refs: seq<LocationReference>,
                                  translate: seq<string> -> seq<string>, k: nat, own: nat, r: LocationReference)
    requires k <= own && r in slots && r in other && slots[r] == other[r]
    requires forall m :: k * BatchSize <= m < own * BatchSize && m < |refs| ==> refs[m] != r
    ensures r in ProcessFrom(slots, format, texts, refs, translate, k)
    ensures r in ProcessFrom(other, format, texts, refs, translate, own)
    ensures ProcessFrom(slots, format, texts, refs, translate, k)[r] == ProcessFrom(other, format, texts, refs, translate, own)[r]
    decreases own - k
  {
    if k >= NumBatches(|texts|) {
      // both loops have already ended
    } else if k < own {
      var w := Window(refs, k);
      var translated := translate(Window(texts, k));
      WindowAt(refs, k);
      WindowLength(refs, k);
      ApplyPrefixFrame(slots, format, w, translated, |w|, r);
      SkipTo(ApplyBatch(slots, format, w, translated), other, format, texts, refs, translate, k + 1, own, r);
    } else {
      ProcessFromAgree(slots, other, format, texts, refs, translate, k, r);
    }
  }

  /** With distinct references, no position before `i` repeats the reference at `i`. */
  lemma DistinctBefore<T>(refs: seq<T>, i: nat)
    requires Distinct(refs) && i < |refs|
    ensures forall m :: 0 <= m < i ==> refs[m] != refs[i]
  {
  }

  /** From any window up to its own, the loop ends with fragment `i`'s translation written (when accepted) into its slot. */
  lemma ProcessFromAt(slots: Slots, format: DocType, texts: seq<string>, refs: seq<LocationReference>,
                      translate: seq<string> -> seq<string>, k: nat, i: nat)
    requires |texts| == |refs| && Distinct(refs) && i < |refs| && k <= i / BatchSize && refs[i] in slots
    requires Aligned(translate)
    ensures refs[i] in ProcessFrom(slots, format, texts, refs, translate, k)
    ensures ProcessFrom(slots, format, texts, refs, translate, k)[refs[i]]
         == Written(format, refs[i], slots[refs[i]], TranslationFor(texts, translate, i))
  {
    DivBound(i);
    DistinctBefore(refs, i);
    SkipTo(slots, slots, format, texts, refs, translate, k, i / BatchSize, refs[i]);
    ProcessFromOwnWindow(slots, format, texts, refs, translate, i / BatchSize, i);
  }

  /**
   * The batch loop as a whole: it keeps the set of slots, writes fragment `i`'s
   * translation to the slot `refs[i]` names (when that write is accepted) and
   * leaves every other slot as it was.
   */
  lemma ProcessWrites(slots: Slots, format: DocType, texts: seq<string>, refs: seq<LocationReference>,
                      lang: string, api: (string, nat) -> CallOutcome)
    requires |texts| == |refs| && Distinct(refs)
    ensures Aligned(BatchTranslator(lang, api))
    ensures Process(slots, format, texts, refs, lang, api).Keys == slots.Keys
    ensures forall i :: 0 <= i < |refs| && refs[i] in slots ==>
              Process(slots, format, texts, refs, lang, api)[refs[i]]
              == Written(format, refs[i], slots[refs[i]], TranslationFor(texts, BatchTranslator(lang, api), i))
    ensures forall r :: r in slots && r !in refs ==> Process(slots, format, texts, refs, lang, api)[r] == slots[r]
  {
    var translate := BatchTranslator(lang, api);
    BatchTranslatorAligned(lang, api);
    ProcessFromKeys(slots, format, texts, refs, translate, 0);
    forall i | 0 <= i < |refs| && refs[i] in slots
      ensures Process(slots, format, texts, refs, lang, api)[refs[i]]
           == Written(format, refs[i], slots[refs[i]], TranslationFor(texts, translate, i))
    {
      ProcessFromAt(slots, format, texts, refs, translate, 0, i);
    }
    forall r | r in slots && r !in refs
      ensures Process(slots, format, texts, refs, lang, api)[r] == slots[r]
    {
      ProcessFromFrame(slots, format, texts, refs, translate, 0, r);
    }
  }

  /** When the service never answers, every fragment's slot receives the text that was sent for it. */
  lemma ProcessUnreachable(slots: Slots, format: DocType, texts: seq<string>, refs: seq<LocationReference>,
                           lang: string, api: (string, nat) -> CallOutcome)
    requires |texts| == |refs| && Distinct(refs)
    requires forall p: string, a: nat :: api(p, a) == Raised
    ensures Process(slots, format, texts, refs, lang, api).Keys == slots.Keys
    ensures forall i :: 0 <= i < |refs| && refs[i] in slots ==>
              Process(slots, format, texts, refs, lang, api)[refs[i]] == Written(format, refs[i], slots[refs[i]], texts[i])
  {
    ProcessWrites(slots, format, texts, refs, lang, api);
    forall i | 0 <= i < |refs| && refs[i] in slots
      ensures TranslationFor(texts, BatchTranslator(lang, api), i) == texts[i]
    {
      var w := Window(texts, i / BatchSize);
      WindowIndex(texts, i);
      assert Reply(Raised) == None;
      RunAllFail(w, lang, api);
    }
  }

  /** The per-sheet loop of the Excel path keeps the set of slots, and leaves alone every slot no sheet refers to. */
  lemma {:induction false} ProcessSheetsFrame(slots: Slots, sheets: seq<SheetFragments>, lang: string, api: (string, nat) -> CallOutcome, r: LocationReference)
    requires r in slots
    requires forall n :: 0 <= n < |sheets| ==> r !in sheets[n].refs
    ensures ProcessSheets(slots, sheets, lang, api).Keys == slots.Keys
    ensures ProcessSheets(slots, sheets, lang, api)[r] == slots[r]
    decreases |sheets|
  {
    if sheets != [] {
      ProcessSheetOther(slots, sheets[0], lang, api, r);
      assert forall n :: 0 <= n < |sheets[1..]| ==> sheets[1..][n] == sheets[n + 1];
      ProcessSheetsFrame(ProcessSheet(slots, sheets[0], lang, api), sheets[1..], lang, api, r);
    }
  }

  /** One sheet's turn keeps the set of slots and leaves alone a slot the sheet does not refer to. */
  lemma ProcessSheetOther(slots: Slots, sheet: SheetFragments, lang: string, api: (string, nat) -> CallOutcome, r: LocationReference)
    requires r in slots && r !in sheet.refs
    ensures ProcessSheet(slots, sheet, lang, api).Keys == slots.Keys
    ensures ProcessSheet(slots, sheet, lang, api)[r] == slots[r]
  {
    if sheet.texts != [] {
      ProcessFromKeys(slots, Excel, sheet.texts, sheet.refs, BatchTranslator(lang, api), 0);
      ProcessFromFrame(slots, Excel, sheet.texts, sheet.refs, BatchTranslator(lang, api), 0, r);
    }
  }

  /**
   * The per-sheet loop of the Excel path writes each fragment's translation:
   * fragment `i` of sheet `n`, whose reference no other sheet holds, ends with
   * the translation its own sheet's batch loop gives it.
   */
  lemma ProcessSheetsWrites(slots: Slots, sheets: seq<SheetFragments>, lang: string, api: (string, nat) -> CallOutcome,
                            n: nat, i: nat)
    requires n < |sheets| && i < |sheets[n].refs|
    requires |sheets[n].texts| == |sheets[n].refs| && Distinct(sheets[n].refs)
    requires sheets[n].refs[i] in slots
    requires forall m :: 0 <= m < |sheets| && m != n ==> sheets[n].refs[i] !in sheets[m].refs
    ensures Aligned(BatchTranslator(lang, api))
    ensures ProcessSheets(slots, sheets, lang, api).Keys == slots.Keys
    ensures ProcessSheets(slots, sheets, lang, api)[sheets[n].refs[i]]
         == Written(Excel, sheets[n].refs[i], slots[sheets[n].refs[i]], TranslationFor(sheets[n].texts, BatchTranslator(lang, api), i))
  {
    SheetWrites(slots, sheets, lang, api, n, sheets[n], sheets[n].refs[i]);
    ProcessSheetOwn(slots, sheets[n], lang, api, i);
  }

  /** The slot of fragment `i` of sheet `n` ends with what that sheet's own turn gives it, other sheets keep the slot set. */
  lemma {:induction false} SheetWrites(slots: Slots, sheets: seq<SheetFragments>, lang: string, api: (string, nat) -> CallOutcome,
                                       n: nat, sheet: SheetFragments, r: LocationReference)
    requires n < |sheets| && sheets[n] == sheet
    requires r in slots
    requires forall m :: 0 <= m < |sheets| && m != n ==> r !in sheets[m].refs
    ensures ProcessSheets(slots, sheets, lang, api).Keys == slots.Keys
    ensures r in ProcessSheet(slots, sheet, lang, api)
    ensures ProcessSheets(slots, sheets, lang, api)[r] == ProcessSheet(slots, sheet, lang, api)[r]
    decreases |sheets|
  {
    OtherSheetsAvoid(sheets, n, r);
    ProcessSheetsUnfold(slots, sheets, lang, api);
    var s := ProcessSheet(slots, sheets[0], lang, api);
    ProcessSheetKeys(slots, sheets[0], lang, api);
    if n == 0 {
      ProcessSheetsFrame(s, sheets[1..], lang, api, r);
    } else {
      ProcessSheetOther(slots, sheets[0], lang, api, r);
      SheetWrites(s, sheets[1..], lang, api, n - 1, sheet, r);
      ProcessSheetAgree(s, slots, sheet, lang, api, r);
    }
  }

  /** One sheet's turn keeps the set of slots. */
  lemma ProcessSheetKeys(slots: Slots, sheet: SheetFragments, lang: string, api: (string, nat) -> CallOutcome)
    ensures ProcessSheet(slots, sheet, lang, api).Keys == slots.Keys
  {
    if sheet.texts != [] {
      ProcessFromKeys(slots, Excel, sheet.texts, sheet.refs, BatchTranslator(lang, api), 0);
    }
  }

  /** One sheet's turn gives a slot a value that depends only on that slot's old value. */
  lemma ProcessSheetAgree(s1: Slots, s2: Slots, sheet: SheetFragments, lang: string, api: (string, nat) -> CallOutcome, r: LocationReference)
    requires r in s1 && r in s2 && s1[r] == s2[r]
    ensures r in ProcessSheet(s1, sheet, lang, api) && r in ProcessSheet(s2, sheet, lang, api)
    ensures ProcessSheet(s1, sheet, lang, api)[r] == ProcessSheet(s2, sheet, lang, api)[r]
  {
    if sheet.texts != [] {
      ProcessFromAgree(s1, s2, Excel, sheet.texts, sheet.refs, BatchTranslator(lang, api), 0, r);
    }
  }

  /** One turn of the per-sheet loop. */
  lemma ProcessSheetsUnfold(slots: Slots, sheets: seq<SheetFragments>, lang: string, api: (string, nat) -> CallOutcome)
    requires sheets != []
    ensures ProcessSheets(slots, sheets, lang, api) == ProcessSheets(ProcessSheet(slots, sheets[0], lang, api), sheets[1..], lang, api)
  {
  }

  /** A reference that only sheet `n` holds is held by no other sheet of the remaining ones either, and sheet `n` is among them unless it is the first. */
  lemma OtherSheetsAvoid(sheets: seq<SheetFragments>, n: nat, r: LocationReference)
    requires n < |sheets|
    requires forall m :: 0 <= m < |sheets| && m != n ==> r !in sheets[m].refs
    ensures n > 0 ==> r !in sheets[0].refs && sheets[1..][n - 1] == sheets[n]
    ensures forall m :: 0 <= m < |sheets[1..]| && m + 1 != n ==> r !in sheets[1..][m].refs
  {
    forall m | 0 <= m < |sheets[1..]| && m + 1 != n ensures r !in sheets[1..][m].refs {
      assert sheets[1..][m] == sheets[m + 1];
    }
  }

  /** One sheet's turn writes the translation of its fragment `i` to the slot it names. */
  lemma ProcessSheetOwn(slots: Slots, sheet: SheetFragments, lang: string, api: (string, nat) -> CallOutcome, i: nat)
    requires i < |sheet.refs| && |sheet.texts| == |sheet.refs| && Distinct(sheet.refs)
    requires sheet.refs[i] in slots
    ensures Aligned(BatchTranslator(lang, api))
    ensures ProcessSheet(slots, sheet, lang, api).Keys == slots.Keys
    ensures ProcessSheet(slots, sheet, lang, api)[sheet.refs[i]]
         == Written(Excel, sheet.refs[i], slots[sheet.refs[i]], TranslationFor(sheet.texts, BatchTranslator(lang, api), i))
  {
    ProcessWrites(slots, Excel, sheet.texts, sheet.refs, lang, api);
  }

  // ---------------------------------------------------------------------
  // Collecting fragments

  /** Appending one candidate appends its cleaned text and reference exactly when it is eligible. */
  lemma EligibleSnoc(cands: seq<Candidate>, c: Candidate)
    ensures EligibleTexts(cands + [c])
         == EligibleTexts(cands) + (if ShouldTranslate(c.text) then [CleanText(c.text)] else [])
    ensures EligibleRefs(cands + [c])
         == EligibleRefs(cands) + (if ShouldTranslate(c.text) then [c.ref] else [])
  {
    EligibleIndicesSnoc(cands, c);
    EligibleTextsSnoc(cands, c);
    EligibleRefsSnoc(cands, c);
  }

  lemma EligibleIndicesSnoc(cands: seq<Candidate>, c: Candidate)
    ensures EligibleIndices(cands + [c]) == EligibleIndices(cands) + (if ShouldTranslate(c.text) then [|cands|] else [])
  {
    var b := ShouldTranslate(c.text);
    assert CandidateFlags(cands + [c]) == CandidateFlags(cands) + [b];
    TrueIndicesSnoc(CandidateFlags(cands), b);
  }

  lemma EligibleTextsSnoc(cands: seq<Candidate>, c: Candidate)
    requires EligibleIndices(cands + [c]) == EligibleIndices(cands) + (if ShouldTranslate(c.text) then [|cands|] else [])
    ensures EligibleTexts(cands + [c])
         == EligibleTexts(cands) + (if ShouldTranslate(c.text) then [CleanText(c.text)] else [])
  {
    GatherSnoc(cands, c, EligibleIndices(cands), ShouldTranslate(c.text));
  }

  lemma EligibleRefsSnoc(cands: seq<Candidate>, c: Candidate)
    requires EligibleIndices(cands + [c]) == EligibleIndices(cands) + (if ShouldTranslate(c.text) then [|cands|] else [])
    ensures EligibleRefs(cands + [c])
         == EligibleRefs(cands) + (if ShouldTranslate(c.text) then [c.ref] else [])
  {
    GatherSnoc(cands, c, EligibleIndices(cands), ShouldTranslate(c.text));
  }

  /** Gathering over one more candidate, whose position is appended when `b` holds. */
  lemma GatherSnoc(cands: seq<Candidate>, c: Candidate, idx: seq<nat>, b: bool)
    requires forall k :: 0 <= k < |idx| ==> idx[k] < |cands|
    ensures GatherTexts(cands + [c], idx + (if b then [|cands|] else []))
         == GatherTexts(cands, idx) + (if b then [CleanText(c.text)] else [])
    ensures GatherRefs(cands + [c], idx + (if b then [|cands|] else []))
         == GatherRefs(cands, idx) + (if b then [c.ref] else [])
  {
    var all := cands + [c];
    var idx2 := idx + (if b then [|cands|] else []);
    assert forall k :: 0 <= k < |idx| ==> all[idx[k]] == cands[idx[k]];
    assert b ==> idx2[|idx|] == |cands| && all[|cands|] == c;
  }

  /** Every collected text passes the filter and is already in `clean_text` form; texts and references stay parallel. */
  lemma CollectedEligible(cands: seq<Candidate>)
    ensures |EligibleTexts(cands)| == |EligibleRefs(cands)|
    ensures forall k :: 0 <= k < |EligibleTexts(cands)| ==>
              ShouldTranslate(Some(EligibleTexts(cands)[k])) && Normalized(EligibleTexts(cands)[k])
  {
    var idx := EligibleIndices(cands);
    forall k | 0 <= k < |EligibleTexts(cands)|
      ensures ShouldTranslate(Some(EligibleTexts(cands)[k])) && Normalized(EligibleTexts(cands)[k])
    {
      var text := cands[idx[k]].text;
      ShouldTranslateOfCleaned(text);
      CleanTextNormalized(text);
    }
  }

  /** A reference is collected only from an eligible candidate that carries it. */
  lemma CollectedFrom(cands: seq<Candidate>, r: LocationReference)
    requires r in EligibleRefs(cands)
    ensures exists i :: 0 <= i < |cands| && cands[i].ref == r && ShouldTranslate(cands[i].text)
  {
    var refs := EligibleRefs(cands);
    var k :| 0 <= k < |refs| && refs[k] == r;
    EligibleAt(cands, k);
    var j := EligibleIndices(cands)[k];
    assert cands[j].ref == r && ShouldTranslate(cands[j].text);
  }

  /** Collected entry `k` comes from an eligible candidate: its reference and its cleaned text. */
  lemma EligibleAt(cands: seq<Candidate>, k: nat)
    requires k < |EligibleRefs(cands)|
    ensures k < |EligibleIndices(cands)| && EligibleIndices(cands)[k] < |cands|
    ensures ShouldTranslate(cands[EligibleIndices(cands)[k]].text)
    ensures EligibleRefs(cands)[k] == cands[EligibleIndices(cands)[k]].ref
  {
    var flags := CandidateFlags(cands);
    var j := EligibleIndices(cands)[k];
    assert j < |flags| && flags[j];
  }

  /** The references of the candidates, in order. */
  function CandidateRefs(cands: seq<Candidate>): (refs: seq<LocationReference>)
    ensures |refs| == |cands| && forall i :: 0 <= i < |cands| ==> refs[i] == cands[i].ref
  {
    seq(|cands|, i requires 0 <= i < |cands| => cands[i].ref)
  }

  /** Distinct slots give distinct collected references. */
  lemma CollectedDistinct(cands: seq<Candidate>)
    requires Distinct(CandidateRefs(cands))
    ensures Distinct(EligibleRefs(cands))
  {
    var idx := EligibleIndices(cands);
    var refs := EligibleRefs(cands);
    forall a, b | 0 <= a < b < |refs|
      ensures refs[a] != refs[b]
    {
      assert refs[a] == CandidateRefs(cands)[idx[a]];
      assert refs[b] == CandidateRefs(cands)[idx[b]];
    }
  }

  /** With distinct slots, a slot the filter rejects is never collected. */
  lemma IneligibleNotCollected(cands: seq<Candidate>, i: nat)
    requires Distinct(CandidateRefs(cands))
    requires i < |cands| && !ShouldTranslate(cands[i].text)
    ensures cands[i].ref !in EligibleRefs(cands)
  {
    forall j | 0 <= j < |cands| && cands[j].ref == cands[i].ref
      ensures j == i
    {
      assert CandidateRefs(cands)[i] == CandidateRefs(cands)[j];
    }
    if cands[i].ref in EligibleRefs(cands) {
      CollectedFrom(cands, cands[i].ref);
    }
  }

  /**
   * Extraction followed by the batch loop: a slot whose text the filter
   * rejects keeps its text, every eligible slot gets the translation of its
   * own collected fragment, and a slot no extractor saw is left alone.
   */
  lemma TranslateDocument(slots: Slots, format: DocType, cands: seq<Candidate>, lang: string, api: (string, nat) -> CallOutcome)
    requires Distinct(CandidateRefs(cands))
    ensures Aligned(BatchTranslator(lang, api))
    ensures Process(slots, format, EligibleTexts(cands), EligibleRefs(cands), lang, api).Keys == slots.Keys
    ensures forall i :: 0 <= i < |cands| && cands[i].ref in slots && !ShouldTranslate(cands[i].text) ==>
              Process(slots, format, EligibleTexts(cands), EligibleRefs(cands), lang, api)[cands[i].ref] == slots[cands[i].ref]
    ensures forall k :: 0 <= k < |EligibleRefs(cands)| && EligibleRefs(cands)[k] in slots ==>
              Process(slots, format, EligibleTexts(cands), EligibleRefs(cands), lang, api)[EligibleRefs(cands)[k]]
              == Written(format, EligibleRefs(cands)[k], slots[EligibleRefs(cands)[k]],
                         TranslationFor(EligibleTexts(cands), BatchTranslator(lang, api), k))
    ensures forall r :: r in slots && r !in CandidateRefs(cands) ==>
              Process(slots, format, EligibleTexts(cands), EligibleRefs(cands), lang, api)[r] == slots[r]
  {
    CollectedEligible(cands);
    CollectedDistinct(cands);
    forall i | 0 <= i < |cands| && !ShouldTranslate(cands[i].text)
      ensures cands[i].ref !in EligibleRefs(cands)
    {
      IneligibleNotCollected(cands, i);
    }
    forall r | r !in CandidateRefs(cands)
      ensures r !in EligibleRefs(cands)
    {
      if r in EligibleRefs(cands) {
        CollectedFrom(cands, r);
      }
    }
    ProcessWrites(slots, format, EligibleTexts(cands), EligibleRefs(cands), lang, api);
  }

  // ---------------------------------------------------------------------
  // The document object

  /** An open document: its format and the current text of each slot. */
  class Document {
    const format: DocType
    var slots: Slots

    constructor (format: DocType, slots: Slots)
      ensures this.format == format && this.slots == slots
    {
      this.format := format;
      this.slots := slots;
    }

    /** One write-back; an unrecognised reference or a missing slot is skipped. */
    method Write(ref: LocationReference, text: string)
      modifies this
      ensures slots == WriteSlot(old(slots), format, ref, text)
    {
      if Handles(format, ref) && ref in slots {
        slots := slots[ref := text];
      }
    }

    /** The write-back loop of one batch. */
    method ApplyTranslations(refs: seq<LocationReference>, translated: seq<string>)
      modifies this
      ensures slots == ApplyBatch(old(slots), format, refs, translated)
    {
      var j := 0;
      while j < |refs|
        invariant j <= |refs|
        invariant slots == ApplyPrefix(old(slots), format, refs, translated, j)
      {
        if j < |translated| && Accepts(format, translated[j]) {
          Write(refs[j], translated[j]);
        }
        j := j + 1;
      }
    }

    /** One pass of the batch loop: translate a window, then write it back. */
    method TranslateWindow(batchTexts: seq<string>, batchRefs: seq<LocationReference>, lang: string, api: (string, nat) -> CallOutcome)
      modifies this
      ensures slots == ApplyBatch(old(slots), format, batchRefs, BatchTranslator(lang, api)(batchTexts))
    {
      var translated, attempts, sleeps := TranslateBatch(batchTexts, lang, api);
      ApplyTranslations(batchRefs, translated);
    }

    /** `for i in range(0, len(texts), 50)`: translate each window and write it back. */
    method TranslateFragments(texts: seq<string>, refs: seq<LocationReference>, lang: string, api: (string, nat) -> CallOutcome)
      modifies this
      ensures slots == Process(old(slots), format, texts, refs, lang, api)
    {
      var i := 0;
      ghost var k := 0;
      while i < |texts|
        invariant i == k * BatchSize
        invariant k <= NumBatches(|texts|)
        invariant ProcessFrom(slots, format, texts, refs, BatchTranslator(lang, api), k)
               == Process(old(slots), format, texts, refs, lang, api)
        decreases |texts| - i
      {
        TranslateBatchAt(texts, refs, i, k, lang, api);
        i := i + BatchSize;
        k := k + 1;
      }
      NumBatchesExact(|texts|, k);
    }

    /** One turn of the batch loop: the window starting at `i = 50k` is translated and written back. */
    method TranslateBatchAt(texts: seq<string>, refs: seq<LocationReference>, i: nat, ghost k: nat,
                            lang: string, api: (string, nat) -> CallOutcome)
      requires i == k * BatchSize && i < |texts|
      modifies this
      ensures k < NumBatches(|texts|)
      ensures ProcessFrom(slots, format, texts, refs, BatchTranslator(lang, api), k + 1)
           == ProcessFrom(old(slots), format, texts, refs, BatchTranslator(lang, api), k)
    {
      NumBatchesExact(|texts|, k);
      var batchTexts := PySlice(texts, i, i + BatchSize);
      var batchRefs := PySlice(refs, i, i + BatchSize);
      WindowAtOffset(texts, i, k);
      WindowAtOffset(refs, i, k);
      TranslateWindow(batchTexts, batchRefs, lang, api);
      ProcessFromUnfold(old(slots), format, texts, refs, BatchTranslator(lang, api), k);
    }

    /** The Excel path: one batch loop per sheet, skipping sheets with no fragments. */
    method TranslateSheets(sheets: seq<SheetFragments>, lang: string, api: (string, nat) -> CallOutcome)
      requires format == Excel
      modifies this
      ensures slots == ProcessSheets(old(slots), sheets, lang, api)
    {
      var n := 0;
      while n < |sheets|
        invariant n <= |sheets|
        invariant ProcessSheets(slots, sheets[n..], lang, api) == ProcessSheets(old(slots), sheets, lang, api)
      {
        assert sheets[n..][1..] == sheets[n + 1..];
        if sheets[n].texts != [] {
          TranslateFragments(sheets[n].texts, sheets[n].refs, lang, api);
        }
        n := n + 1;
      }
    }
  }

  /** Collecting the fragments of a document, in traversal order. */
  method Collect(cands: seq<Candidate>) returns (texts: seq<string>, refs: seq<LocationReference>)
    ensures texts == EligibleTexts(cands) && refs == EligibleRefs(cands)
  {
    texts, refs := [], [];
    var i := 0;
    while i < |cands|
      invariant i <= |cands|
      invariant texts == EligibleTexts(cands[..i]) && refs == EligibleRefs(cands[..i])
    {
      EligibleSnoc(cands[..i], cands[i]);
      assert cands[..i] + [cands[i]] == cands[..i + 1];
      if ShouldTranslate(cands[i].text) {
        texts := texts + [CleanText(cands[i].text)];
        refs := refs + [cands[i].ref];
      }
      i := i + 1;
    }
    assert cands[..i] == cands;
  }
}
