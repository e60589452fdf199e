/**
 * The multi-engine PowerPoint processor: the engine fallback loop, the
 * mapping of translated texts back onto extracted elements, and the hybrid
 * engine's merge of element lists.
 */
module Presentation {
  import opened Wrappers
  import opened Text
  import opened Batching
  import opened Documents

  // ---------------------------------------------------------------------
  // Engine fallback

  /** The engines, tried in this order. */
  datatype Engine = Hybrid | PythonPptx | ComAutomation | XmlDirect

  const Engines: seq<Engine> := [Hybrid, PythonPptx, ComAutomation, XmlDirect]

  /** What one engine does: raise, or return an output path (`None` when it gave up). */
  datatype EngineOutcome = Failed(message: string) | Returned(path: Option<string>)

  /** A truthy engine result. */
  predicate Usable(o: EngineOutcome) {
    o.Returned? && o.path.Some? && o.path.value != []
  }

  /** The first usable result among `engines`, or the error raised when there is none. */
  function FirstUsable(engines: seq<Engine>, run: Engine -> EngineOutcome): (r: Result<string>)
    ensures r.Ok? <==> exists i :: 0 <= i < |engines| && Usable(run(engines[i]))
    ensures r.Err? ==> r.message == "All processing engines failed"
  {
    if engines == [] then Err("All processing engines failed")
    else if Usable(run(engines[0])) then Ok(run(engines[0]).path.value)
    else
      var r := FirstUsable(engines[1..], run);
      assert forall i :: 1 <= i < |engines| ==> engines[i] == engines[1..][i - 1];
      r
  }

  /** The result comes from the earliest usable engine; every engine before it failed or gave up. */
  lemma {:induction false} FirstUsableIsEarliest(engines: seq<Engine>, run: Engine -> EngineOutcome)
    requires FirstUsable(engines, run).Ok?
    ensures exists i :: 0 <= i < |engines| && Usable(run(engines[i]))
                        && FirstUsable(engines, run).value == run(engines[i]).path.value
                        && forall j :: 0 <= j < i ==> !Usable(run(engines[j]))
  {
    if !Usable(run(engines[0])) {
      FirstUsableIsEarliest(engines[1..], run);
      var i :| 0 <= i < |engines[1..]| && Usable(run(engines[1..][i]))
                && FirstUsable(engines[1..], run).value == run(engines[1..][i]).path.value
                && forall j :: 0 <= j < i ==> !Usable(run(engines[1..][j]));
      assert forall j :: 1 <= j < i + 1 ==> engines[j] == engines[1..][j - 1];
      assert Usable(run(engines[i + 1]));
    } else {
      assert Usable(run(engines[0]));
    }
  }

  /** `process_presentation`: try each engine in order, return the first truthy result, raise when none gives one. */
  method ProcessPresentation(run: Engine -> EngineOutcome) returns (r: Result<string>)
    ensures r == FirstUsable(Engines, run)
  {
    var n := 0;
    while n < |Engines|
      invariant n <= |Engines|
      invariant FirstUsable(Engines[n..], run) == FirstUsable(Engines, run)
    {
      var outcome := run(Engines[n]);
      if outcome.Returned? && outcome.path.Some? && outcome.path.value != [] {
        return Ok(outcome.path.value);
      }
      assert Engines[n..][1..] == Engines[n + 1..];
      n := n + 1;
    }
    return Err("All processing engines failed");
  }

  // ---------------------------------------------------------------------
  // Elements

  /** An extracted element: its kind, its text, and the translation once assigned. */
  datatype Element = Element(kind: string, text: Option<string>, translated: Option<string>)

  /** The hybrid engine's element list: the python-pptx elements, then whatever COM and XML parsing found (`None`: that extractor raised or is unavailable). */
  function HybridElements(basic: seq<Element>, com: Option<seq<Element>>, xml: Option<seq<Element>>): (r: seq<Element>)
    ensures multiset(r) == multiset(basic) + multiset(if com.Some? then com.value else [])
                         + multiset(if xml.Some? then xml.value else [])
    ensures |r| >= |basic| && r[..|basic|] == basic
  {
    basic + (if com.Some? then com.value else []) + (if xml.Some? then xml.value else [])
  }

  /** The merge keeps duplicates: an element found by two extractors is translated and applied twice. */
  lemma HybridKeepsDuplicates(e: Element, com: seq<Element>)
    requires e in com
    ensures multiset(HybridElements([e], Some(com), None))[e] >= 2
  {
    assert multiset(com)[e] >= 1;
  }

  function ElementFlags(elements: seq<Element>): seq<bool> {
    seq(|elements|, i requires 0 <= i < |elements| => ShouldTranslate(elements[i].text))
  }

  /** `element_map`'s values: the positions of the eligible elements, in order. */
  function ElementIndices(elements: seq<Element>): seq<nat> {
    TrueIndices(ElementFlags(elements))
  }

  /** `texts_to_translate`: the cleaned texts of the eligible elements. */
  function ElementTexts(elements: seq<Element>): seq<string> {
    TextsAt(elements, ElementIndices(elements))
  }

  /** The cleaned texts of the elements at the given positions. */
  function TextsAt(elements: seq<Element>, idx: seq<nat>): seq<string>
    requires forall k :: 0 <= k < |idx| ==> idx[k] < |elements|
  {
    seq(|idx|, k requires 0 <= k < |idx| => CleanText(elements[idx[k]].text))
  }

  /** Gathering over one more element, whose position is appended when `b` holds. */
  lemma TextsAtSnoc(elements: seq<Element>, e: Element, idx: seq<nat>, b: bool)
    requires forall k :: 0 <= k < |idx| ==> idx[k] < |elements|
    ensures TextsAt(elements + [e], idx + (if b then [|elements|] else []))
         == TextsAt(elements, idx) + (if b then [CleanText(e.text)] else [])
  {
    var all := elements + [e];
    var idx2 := idx + (if b then [|elements|] else []);
    assert forall k :: 0 <= k < |idx| ==> all[idx[k]] == elements[idx[k]];
    assert b ==> idx2[|idx|] == |elements| && all[|elements|] == e;
  }

  /** The elements after the first `n` translations were assigned through `element_map`. */
  function Annotate(elements: seq<Element>, idx: seq<nat>, translated: seq<string>, n: nat): (r: seq<Element>)
    requires n <= |translated|
    ensures |r| == |elements|
  {
    if n == 0 then elements
    else
      var prev := Annotate(elements, idx, translated, n - 1);
      if n - 1 < |idx| && idx[n - 1] < |prev|
      then prev[idx[n - 1] := prev[idx[n - 1]].(translated := Some(translated[n - 1]))]
      else prev
  }

  /** What `_translate_elements` returns, for a batch translator `translate`. */
  function TranslateElementsSpec(elements: seq<Element>, translate: seq<string> -> seq<string>): seq<Element> {
    if elements == [] || ElementTexts(elements) == [] then elements
    else
      var translated := translate(ElementTexts(elements));
      Annotate(elements, ElementIndices(elements), translated, |translated|)
  }

  /**
   * With increasing positions, the first `n` assignments give element `idx[k]`
   * the translation `translated[k]` and leave its kind and text, and every
   * element not among those positions, as they were.
   */
  lemma {:induction false} AnnotateEffect(elements: seq<Element>, idx: seq<nat>, translated: seq<string>, n: nat)
    requires n <= |translated| && n <= |idx|
    requires forall k :: 0 <= k < |idx| ==> idx[k] < |elements|
    requires forall k, l :: 0 <= k < l < |idx| ==> idx[k] < idx[l]
    ensures forall k :: 0 <= k < n ==>
              Annotate(elements, idx, translated, n)[idx[k]] == elements[idx[k]].(translated := Some(translated[k]))
    ensures forall i :: 0 <= i < |elements| && i !in idx[..n] ==> Annotate(elements, idx, translated, n)[i] == elements[i]
  {
    if n > 0 {
      AnnotateEffect(elements, idx, translated, n - 1);
      assert idx[..n] == idx[..n - 1] + [idx[n - 1]];
      forall k | 0 <= k < n - 1 ensures idx[k] != idx[n - 1] { }
    }
  }

  /** Assigning one translation per eligible element, through `element_map`. */
  lemma AnnotateEligible(elements: seq<Element>, translated: seq<string>)
    requires |translated| == |ElementIndices(elements)|
    ensures forall k :: 0 <= k < |ElementIndices(elements)| ==>
              var i := ElementIndices(elements)[k];
              && i < |elements| && ShouldTranslate(elements[i].text)
              && Annotate(elements, ElementIndices(elements), translated, |translated|)[i]
                 == elements[i].(translated := Some(translated[k]))
    ensures forall i :: 0 <= i < |elements| && !ShouldTranslate(elements[i].text) ==>
              Annotate(elements, ElementIndices(elements), translated, |translated|)[i] == elements[i]
  {
    var idx := ElementIndices(elements);
    AnnotateEffect(elements, idx, translated, |translated|);
    assert idx[..|translated|] == idx;
    forall i | 0 <= i < |elements| && !ShouldTranslate(elements[i].text) ensures i !in idx {
      assert !ElementFlags(elements)[i];
    }
  }

  /** Every eligible element gets the translation of its own text; every other element is returned untouched. */
  lemma TranslateElementsMeaning(elements: seq<Element>, translate: seq<string> -> seq<string>)
    requires Aligned(translate)
    ensures |TranslateElementsSpec(elements, translate)| == |elements|
    ensures |ElementTexts(elements)| == |ElementIndices(elements)|
    ensures forall k :: 0 <= k < |ElementIndices(elements)| ==>
              var i := ElementIndices(elements)[k];
              && i < |elements| && ShouldTranslate(elements[i].text)
              && TranslateElementsSpec(elements, translate)[i]
                 == elements[i].(translated := Some(translate(ElementTexts(elements))[k]))
    ensures forall i :: 0 <= i < |elements| && !ShouldTranslate(elements[i].text) ==>
              TranslateElementsSpec(elements, translate)[i] == elements[i]
  {
    var texts := ElementTexts(elements);
    if elements != [] && texts != [] {
      AnnotateEligible(elements, translate(texts));
    }
  }

  /** Appending one element appends its position to `element_map`'s values exactly when it is eligible. */
  lemma IndicesSnoc(elements: seq<Element>, e: Element)
    ensures ElementIndices(elements + [e]) == ElementIndices(elements) + (if ShouldTranslate(e.text) then [|elements|] else [])
  {
    var b := ShouldTranslate(e.text);
    var flags := ElementFlags(elements);
    assert ElementFlags(elements + [e]) == flags + [b];
    TrueIndicesSnoc(flags, b);
  }

  /** Appending one element appends its cleaned text exactly when it is eligible. */
  lemma ElementsSnoc(elements: seq<Element>, e: Element)
    ensures |ElementTexts(elements)| == |ElementIndices(elements)|
    ensures ShouldTranslate(e.text) ==> ElementIndices(elements + [e]) == ElementIndices(elements) + [|elements|]
    ensures ShouldTranslate(e.text) ==> ElementTexts(elements + [e]) == ElementTexts(elements) + [CleanText(e.text)]
    ensures !ShouldTranslate(e.text) ==> ElementIndices(elements + [e]) == ElementIndices(elements)
    ensures !ShouldTranslate(e.text) ==> ElementTexts(elements + [e]) == ElementTexts(elements)
  {
    IndicesSnoc(elements, e);
    TextsAtSnoc(elements, e, ElementIndices(elements), ShouldTranslate(e.text));
  }

  /** `element_map` as built from a list of positions: entry `k` maps to the `k`-th position. */
  function IndexMap(idx: seq<nat>): (m: map<nat, nat>)
    ensures forall k: nat :: k in m <==> k < |idx|
    ensures forall k: nat :: k in m ==> m[k] == idx[k]
  {
    if idx == [] then map[] else IndexMap(idx[..|idx| - 1])[|idx| - 1 := idx[|idx| - 1]]
  }

  lemma IndexMapSnoc(idx: seq<nat>, i: nat)
    ensures IndexMap(idx + [i]) == IndexMap(idx)[|idx| := i]
  {
    assert (idx + [i])[..|idx|] == idx;
  }

  lemma PrefixSnoc<T>(s: seq<T>, i: nat)
    requires i < |s|
    ensures s[..i] + [s[i]] == s[..i + 1]
  {
  }

  /** One step of the grouping loop: element `i` is appended to both structures exactly when it is eligible. */
  lemma GroupStep(elements: seq<Element>, i: nat)
    requires i < |elements|
    ensures |ElementTexts(elements[..i])| == |ElementIndices(elements[..i])|
    ensures ShouldTranslate(elements[i].text) ==>
      ElementTexts(elements[..i + 1]) == ElementTexts(elements[..i]) + [CleanText(elements[i].text)]
    ensures ShouldTranslate(elements[i].text) ==>
      IndexMap(ElementIndices(elements[..i + 1]))
        == IndexMap(ElementIndices(elements[..i]))[|ElementTexts(elements[..i])| := i]
    ensures !ShouldTranslate(elements[i].text) ==>
      ElementTexts(elements[..i + 1]) == ElementTexts(elements[..i])
        && ElementIndices(elements[..i + 1]) == ElementIndices(elements[..i])
  {
    PrefixSnoc(elements, i);
    ElementsSnoc(elements[..i], elements[i]);
    IndexMapSnoc(ElementIndices(elements[..i]), i);
  }

  /** The grouping step of `_translate_elements`: `texts_to_translate` and `element_map`. */
  method GroupTexts(elements: seq<Element>) returns (texts: seq<string>, elementMap: map<nat, nat>)
    ensures texts == ElementTexts(elements)
    ensures elementMap == IndexMap(ElementIndices(elements))
  {
    texts, elementMap := [], map[];
    var idx := 0;
    while idx < |elements|
      invariant idx <= |elements|
      invariant texts == ElementTexts(elements[..idx])
      invariant elementMap == IndexMap(ElementIndices(elements[..idx]))
    {
      GroupStep(elements, idx);
      if ShouldTranslate(elements[idx].text) {
        texts := texts + [CleanText(elements[idx].text)];
        elementMap := elementMap[|texts| - 1 := idx];
      }
      idx := idx + 1;
    }
    assert elements[..idx] == elements;
  }

  /** `element_map`'s values are positions of elements. */
  lemma IndicesInRange(elements: seq<Element>)
    ensures forall k :: 0 <= k < |ElementIndices(elements)| ==> ElementIndices(elements)[k] < |elements|
  {
    assert |ElementFlags(elements)| == |elements|;
  }

  /** One more assignment through positions that are all in range. */
  lemma AnnotateStep(elements: seq<Element>, idx: seq<nat>, translated: seq<string>, n: nat)
    requires n < |translated|
    requires forall k :: 0 <= k < |idx| ==> idx[k] < |elements|
    ensures n < |idx| ==>
      Annotate(elements, idx, translated, n + 1)
        == Annotate(elements, idx, translated, n)[idx[n] := Annotate(elements, idx, translated, n)[idx[n]].(translated := Some(translated[n]))]
    ensures n >= |idx| ==> Annotate(elements, idx, translated, n + 1) == Annotate(elements, idx, translated, n)
  {
  }

  /** The mapping-back step of `_translate_elements`: translation `t` goes to element `element_map[t]`. */
  method MapBack(elements: seq<Element>, elementMap: map<nat, nat>, translatedTexts: seq<string>, ghost idx: seq<nat>)
    returns (result: seq<Element>)
    requires elementMap == IndexMap(idx)
    requires forall k :: 0 <= k < |idx| ==> idx[k] < |elements|
    ensures result == Annotate(elements, idx, translatedTexts, |translatedTexts|)
  {
    result := elements;
    var transIdx := 0;
    while transIdx < |translatedTexts|
      invariant transIdx <= |translatedTexts|
      invariant result == Annotate(elements, idx, translatedTexts, transIdx)
    {
      AnnotateStep(elements, idx, translatedTexts, transIdx);
      if transIdx in elementMap {
        var originalIdx := elementMap[transIdx];
        result := result[originalIdx := result[originalIdx].(translated := Some(translatedTexts[transIdx]))];
      }
      transIdx := transIdx + 1;
    }
  }

  /** `_translate_elements`. */
  method TranslateElements(elements: seq<Element>, lang: string, api: (string, nat) -> CallOutcome) returns (result: seq<Element>)
    ensures result == TranslateElementsSpec(elements, BatchTranslator(lang, api))
  {
    if elements == [] {
      return [];
    }
    var texts, elementMap := GroupTexts(elements);
    if texts == [] {
      return elements;
    }
    var translatedTexts, attempts, sleeps := TranslateBatch(texts, lang, api);
    assert translatedTexts == BatchTranslator(lang, api)(texts);
    IndicesInRange(elements);
    result := MapBack(elements, elementMap, translatedTexts, ElementIndices(elements));
  }
}
