/**
 * Batch translation (`translate_batch`): the texts of one batch are joined with
 * a delimiter into one request, the reply is read through a chain of probes,
 * split on the same delimiter and reconciled to one output per input; failed
 * attempts are retried a bounded number of times before the batch falls back to
 * its own input.
 */
module Batching {
  import opened Wrappers
  import opened Text

  /** The delimiter between the segments of one request and of its reply. */
  const Separator: string := "|||"
  /** Retries after the first attempt. */
  const MaxRetries: nat := 3
  /** Seconds slept after a successful call. */
  const DelaySeconds: nat := 2

  /** `sep.join(parts)`. */
  function Join(parts: seq<string>, sep: string): string {
    if parts == [] then [] else if |parts| == 1 then parts[0] else parts[0] + sep + Join(parts[1..], sep)
  }

  /** `sep` occurs in `s` at index `i`. */
  predicate OccursAt(s: string, sep: string, i: nat) {
    i + |sep| <= |s| && s[i..i + |sep|] == sep
  }

  /** The least index at or after `from` where `sep` occurs in `s` (`s.find(sep, from)`). */
  function FindFrom(s: string, sep: string, from: nat): (r: Option<nat>)
    requires sep != []
    ensures r.Some? ==> from <= r.value && OccursAt(s, sep, r.value)
    ensures r.Some? ==> forall i :: from <= i < r.value ==> !OccursAt(s, sep, i)
    ensures r.None? ==> forall i :: from <= i ==> !OccursAt(s, sep, i)
    decreases |s| - from
  {
    if from + |sep| > |s| then None
    else if OccursAt(s, sep, from) then Some(from)
    else FindFrom(s, sep, from + 1)
  }

  /** `s.split(sep)`: the pieces between non-overlapping occurrences of `sep`, scanning left to right. */
  function Split(s: string, sep: string): (parts: seq<string>)
    requires sep != []
    ensures |parts| >= 1
    decreases |s|
  {
    match FindFrom(s, sep, 0)
    case None => [s]
    case Some(i) => [s[..i]] + Split(s[i + |sep|..], sep)
  }

  /** No character of `sep` occurs in any of `parts`. */
  predicate Avoids(parts: seq<string>, sep: string) {
    forall i, j :: 0 <= i < |parts| && 0 <= j < |parts[i]| ==> parts[i][j] !in sep
  }

  /**
   * Segment-count reconciliation: exactly one output per input text; the reply's
   * segments come first, missing trailing segments are the original texts and
   * surplus segments are dropped.
   */
  function Reconcile(parts: seq<string>, texts: seq<string>): (r: seq<string>)
    ensures |r| == |texts|
    ensures forall i :: 0 <= i < |r| ==> r[i] == if i < |parts| then parts[i] else texts[i]
  {
    if |parts| < |texts| then parts + texts[|parts|..] else parts[..|texts|]
  }

  // ---------------------------------------------------------------------
  // The reply envelope and the probe chain

  /** An attribute value of the reply: a string, or something else. */
  datatype Value = Str(s: string) | NotStr

  /**
   * What the batcher can see of a reply object: the content at
   * `choices[0].message.content` when that path exists and holds a string,
   * `str(response)`, the reply's attributes and the dictionary it converts to
   * (empty when the conversion fails).
   */
  datatype Envelope = Envelope(
    choiceContent: Option<string>,
    repr: string,
    attributes: map<string, Value>,
    fields: map<string, Value>)

  /** One call of the translation service: it raises, or it replies. */
  datatype CallOutcome = Raised | Responded(envelope: Envelope)

  /** The attribute names probed, in order. */
  const ContentAttributes: seq<string> := ["content", "text", "answer", "result", "output", "response", "data"]

  /** The standard path yields its content when that is non-empty. */
  function StandardPath(e: Envelope): Option<string> {
    if e.choiceContent.Some? && e.choiceContent.value != "" then e.choiceContent else None
  }

  /** The stripped string form of the reply, unless it is empty or looks like a JSON object. */
  function StringPath(e: Envelope): Option<string> {
    var s := Strip(e.repr);
    if s != "" && s[0] != '{' then Some(s) else None
  }

  /** A string attribute that is not blank, as it is. */
  function AttributePath(m: map<string, Value>, name: string): Option<string> {
    if name in m && m[name].Str? && Strip(m[name].s) != "" then Some(m[name].s) else None
  }

  /**
   * The first of `names` naming a non-blank string in `m` (the `for attr in
   * content_attributes` loops, which stop at the first hit).
   */
  function FirstAttribute(m: map<string, Value>, names: seq<string>): (r: Option<string>)
    ensures r.Some? ==> Strip(r.value) != ""
    ensures r.Some? ==> exists i :: 0 <= i < |names| && AttributePath(m, names[i]) == r
                                  && forall j :: 0 <= j < i ==> AttributePath(m, names[j]).None?
    ensures r.None? <==> forall i :: 0 <= i < |names| ==> AttributePath(m, names[i]).None?
  {
    if names == [] then None
    else if AttributePath(m, names[0]).Some? then AttributePath(m, names[0])
    else
      var r := FirstAttribute(m, names[1..]);
      FirstHitShift(n => AttributePath(m, n), names, r);
      r
  }

  /** A hit among `names[1..]` that is first there is first among `names` when `names[0]` misses. */
  lemma FirstHitShift(look: string -> Option<string>, names: seq<string>, r: Option<string>)
    requires names != [] && look(names[0]).None?
    requires r.Some? ==> exists i :: 0 <= i < |names[1..]| && look(names[1..][i]) == r
                                  && forall j :: 0 <= j < i ==> look(names[1..][j]).None?
    requires r.None? <==> forall i :: 0 <= i < |names[1..]| ==> look(names[1..][i]).None?
    ensures r.Some? ==> exists i :: 0 <= i < |names| && look(names[i]) == r
                                 && forall j :: 0 <= j < i ==> look(names[j]).None?
    ensures r.None? <==> forall i :: 0 <= i < |names| ==> look(names[i]).None?
  {
    var rest := names[1..];
    if r.Some? {
      var k :| 0 <= k < |rest| && look(rest[k]) == r
               && forall j :: 0 <= j < k ==> look(rest[j]).None?;
      assert names[k + 1] == rest[k];
      forall j | 0 < j < k + 1 ensures look(names[j]).None? {
        assert names[j] == rest[j - 1];
      }
    } else {
      forall i | 0 < i < |names| ensures look(names[i]).None? {
        assert names[i] == rest[i - 1];
      }
    }
    if forall i :: 0 <= i < |names| ==> look(names[i]).None? {
      forall i | 0 <= i < |rest| ensures look(rest[i]).None? {
        assert rest[i] == names[i + 1];
      }
    }
  }

  /** The translation payload of a reply: the standard path, else the string form, else the attributes, else the dictionary. */
  function Probe(e: Envelope): Option<string> {
    if StandardPath(e).Some? then StandardPath(e)
    else if StringPath(e).Some? then StringPath(e)
    else if FirstAttribute(e.attributes, ContentAttributes).Some? then FirstAttribute(e.attributes, ContentAttributes)
    else FirstAttribute(e.fields, ContentAttributes)
  }

  /** The payload of one call; `None` when it raised or no probe found content. */
  function Reply(o: CallOutcome): Option<string> {
    match o
    case Raised => None
    case Responded(e) => Probe(e)
  }

  // ---------------------------------------------------------------------
  // The request

  /** The language directive of the request (`language_map.get`). */
  function Direction(lang: string): string {
    if lang == "ja" then "to Japanese"
    else if lang == "vi" then "to Vietnamese"
    else if lang == "en" then "to English"
    else if lang == "th" then "to Thai"
    else if lang == "zh" then "to Chinese (Simplified)"
    else if lang == "ko" then "to Korean"
    else "to the target language"
  }

  /** The user prompt: the directive, then the delimiter-joined batch. */
  function UserPrompt(texts: seq<string>, lang: string): string {
    "Translate the following text " + Direction(lang) + ", keeping segments separated by '"
    + Separator + "':\n\n" + Join(texts, Separator)
  }

  // ---------------------------------------------------------------------
  // The retry loop, as a specification

  /** What one batch run produces: the texts, how many calls were made, and the sleeps in seconds. */
  datatype BatchRun = BatchRun(translated: seq<string>, attempts: nat, sleeps: seq<nat>)

  /** The payload each attempt yields when the same prompt is sent to `api`. */
  function Payloads(prompt: string, api: (string, nat) -> CallOutcome): nat -> Option<string> {
    (a: nat) => Reply(api(prompt, a))
  }

  /** The run from attempt `retries` on, having slept `sleeps` so far; `payload(a)` is what attempt `a` yields. */
  function RunFrom(texts: seq<string>, payload: nat -> Option<string>, retries: nat, sleeps: seq<nat>): BatchRun
    requires retries <= MaxRetries
    decreases MaxRetries - retries
  {
    match payload(retries)
    case Some(t) => BatchRun(Reconcile(Split(t, Separator), texts), retries + 1, sleeps + [DelaySeconds])
    case None =>
      if retries + 1 > MaxRetries then BatchRun(texts, retries + 1, sleeps)
      else RunFrom(texts, payload, retries + 1, sleeps + [(retries + 1) * 2])
  }

  /** `translate_batch(texts, lang)` against the service `api` (prompt and attempt number to outcome). */
  function Run(texts: seq<string>, lang: string, api: (string, nat) -> CallOutcome): BatchRun {
    if texts == [] then BatchRun([], 0, []) else RunFrom(texts, Payloads(UserPrompt(texts, lang), api), 0, [])
  }

  /** The sleeps before attempts 2..k+1: 2, 4, ..., 2k seconds. */
  function Backoff(k: nat): (r: seq<nat>)
    ensures |r| == k
  {
    if k == 0 then [] else Backoff(k - 1) + [k * 2]
  }

  /** Splits a payload at the delimiter and pads or truncates it to one segment per input. */
  method SplitReply(t: string, texts: seq<string>) returns (parts: seq<string>)
    ensures parts == Reconcile(Split(t, Separator), texts)
    ensures |parts| == |texts|
  {
    parts := Split(t, Separator);
    if |parts| != |texts| {
      if |parts| < |texts| {
        parts := parts + texts[|parts|..];
      } else {
        parts := parts[..|texts|];
      }
    }
  }

  /**
   * The retry loop of `translate_batch` for a non-empty batch. `payload(a)` is
   * attempt `a`: one call of the service with the batch's prompt and the probe of its reply.
   */
  method Retry(texts: seq<string>, payload: nat -> Option<string>)
    returns (translated: seq<string>, attempts: nat, sleeps: seq<nat>)
    ensures BatchRun(translated, attempts, sleeps) == RunFrom(texts, payload, 0, [])
  {
    ghost var goal := RunFrom(texts, payload, 0, []);
    var retries: nat := 0;
    sleeps := [];
    while retries <= MaxRetries
      invariant retries <= MaxRetries + 1
      invariant retries <= MaxRetries ==> RunFrom(texts, payload, retries, sleeps) == goal
      invariant retries > MaxRetries ==> goal == BatchRun(texts, retries, sleeps)
      decreases MaxRetries + 1 - retries
    {
      var reply := payload(retries);
      if reply.Some? {
        var parts := SplitReply(reply.value, texts);
        sleeps := sleeps + [DelaySeconds];
        return parts, retries + 1, sleeps;
      }
      retries := retries + 1;
      if retries <= MaxRetries {
        sleeps := sleeps + [retries * 2];
      }
    }
    return texts, retries, sleeps;
  }

  /** `translate_batch`: an empty batch returns at once; otherwise the prompt is built and the retry loop runs. */
  method TranslateBatch(texts: seq<string>, lang: string, api: (string, nat) -> CallOutcome)
    returns (translated: seq<string>, attempts: nat, sleeps: seq<nat>)
    ensures BatchRun(translated, attempts, sleeps) == Run(texts, lang, api)
  {
    if texts == [] {
      return [], 0, [];
    }
    var prompt := UserPrompt(texts, lang);
    translated, attempts, sleeps := Retry(texts, Payloads(prompt, api));
  }

  // ---------------------------------------------------------------------
  // Lemmas

  /** Positions holding no character of `sep` cannot start an occurrence, so the search passes them. */
  lemma {:induction false} FindSkips(s: string, sep: string, from: nat, n: nat)
    requires sep != [] && from <= n <= |s|
    requires forall i :: from <= i < n ==> s[i] !in sep
    ensures FindFrom(s, sep, from) == FindFrom(s, sep, n)
    decreases n - from
  {
    if from < n {
      assert !OccursAt(s, sep, from) by {
        if from + |sep| <= |s| { assert s[from..from + |sep|][0] == s[from]; }
      }
      FindSkips(s, sep, from + 1, n);
    }
  }

  /** A segment free of delimiter characters splits to itself. */
  lemma SplitSingle(x: string, sep: string)
    requires sep != []
    requires forall j :: 0 <= j < |x| ==> x[j] !in sep
    ensures Split(x, sep) == [x]
  {
    FindSkips(x, sep, 0, |x|);
  }

  /** A delimiter-free segment, the delimiter, then the rest: the split starts with that segment. */
  lemma SplitCons(x: string, sep: string, rest: string)
    requires sep != []
    requires forall j :: 0 <= j < |x| ==> x[j] !in sep
    ensures Split(x + sep + rest, sep) == [x] + Split(rest, sep)
  {
    var s := x + sep + rest;
    forall i | 0 <= i < |x| ensures s[i] !in sep { assert s[i] == x[i]; }
    FindSkips(s, sep, 0, |x|);
    assert s[|x|..|x| + |sep|] == sep;
    assert FindFrom(s, sep, |x|) == Some(|x|);
    assert s[..|x|] == x;
    assert s[|x| + |sep|..] == rest;
  }

  /** Splitting joined segments on the delimiter gives the segments back, when none contains a delimiter character. */
  lemma {:induction false} SplitJoin(parts: seq<string>, sep: string)
    requires sep != [] && parts != []
    requires Avoids(parts, sep)
    ensures Split(Join(parts, sep), sep) == parts
  {
    var x := parts[0];
    assert forall j :: 0 <= j < |x| ==> x[j] !in sep;
    if |parts| == 1 {
      SplitSingle(x, sep);
    } else {
      var tail := parts[1..];
      assert Avoids(tail, sep) by {
        forall i, j | 0 <= i < |tail| && 0 <= j < |tail[i]| ensures tail[i][j] !in sep {
          assert tail[i] == parts[i + 1];
        }
      }
      SplitCons(x, sep, Join(tail, sep));
      SplitJoin(tail, sep);
      assert parts == [x] + tail;
    }
  }

  /** Every probe that yields something yields a non-empty string. */
  lemma ProbePayloadNonEmpty(e: Envelope)
    ensures Probe(e).Some? ==> Probe(e).value != ""
  {
    assert Strip("") == "";
  }

  /** Content at the standard path wins over every other probe. */
  lemma ProbeStandardFirst(e: Envelope, t: string)
    requires e.choiceContent == Some(t) && t != ""
    ensures Probe(e) == Some(t)
  {
  }

  /** With no standard content, a usable string form wins. */
  lemma ProbeStringSecond(e: Envelope)
    requires e.choiceContent.None? || e.choiceContent == Some("")
    requires StringPath(e).Some?
    ensures Probe(e) == StringPath(e)
  {
  }

  /**
   * A reply yields nothing, so that its attempt fails like a raised call,
   * exactly when no probe reads it: no standard content, no usable string
   * form, and no listed content attribute naming a non-blank string.
   */
  lemma ProbeFindsNothing(e: Envelope)
    ensures Probe(e).None? <==>
              && StandardPath(e).None? && StringPath(e).None?
              && forall i :: 0 <= i < |ContentAttributes| ==>
                   AttributePath(e.attributes, ContentAttributes[i]).None?
                   && AttributePath(e.fields, ContentAttributes[i]).None?
  {
    assert Probe(e).None? <==> StandardPath(e).None? && StringPath(e).None?
                               && FirstAttribute(e.attributes, ContentAttributes).None?
                               && FirstAttribute(e.fields, ContentAttributes).None?;
  }

  /** From any attempt on, the run returns one text per input and makes at most the remaining attempts. */
  lemma {:induction false} RunFromAligned(texts: seq<string>, payload: nat -> Option<string>,
                                          retries: nat, sleeps: seq<nat>)
    requires retries <= MaxRetries
    ensures |RunFrom(texts, payload, retries, sleeps).translated| == |texts|
    ensures retries < RunFrom(texts, payload, retries, sleeps).attempts <= MaxRetries + 1
    decreases MaxRetries - retries
  {
    match payload(retries)
    case Some(t) =>
    case None =>
      if retries + 1 <= MaxRetries {
        RunFromAligned(texts, payload, retries + 1, sleeps + [(retries + 1) * 2]);
      }
  }

  /**
   * Batch alignment: the result always has exactly one text per input, whatever
   * the service replies; a non-empty batch makes between 1 and 4 calls and an
   * empty one makes none.
   */
  lemma RunAligned(texts: seq<string>, lang: string, api: (string, nat) -> CallOutcome)
    ensures |Run(texts, lang, api).translated| == |texts|
    ensures Run(texts, lang, api).attempts <= MaxRetries + 1
    ensures texts == [] <==> Run(texts, lang, api).attempts == 0
    ensures texts == [] ==> Run(texts, lang, api) == BatchRun([], 0, [])
  {
    if texts != [] {
      RunFromAligned(texts, Payloads(UserPrompt(texts, lang), api), 0, []);
    }
  }

  /** After `k` failed attempts the run has slept 2, 4, ..., 2k seconds and continues at attempt `k`. */
  lemma {:induction false} RunAfterFailures(texts: seq<string>, payload: nat -> Option<string>, k: nat)
    requires k <= MaxRetries
    requires forall a :: 0 <= a < k ==> payload(a).None?
    ensures RunFrom(texts, payload, 0, []) == RunFrom(texts, payload, k, Backoff(k))
  {
    if k > 0 {
      RunAfterFailures(texts, payload, k - 1);
      assert payload(k - 1).None?;
    }
  }

  /**
   * Retry: when the first `k` calls fail and call `k` yields a payload, the run
   * makes exactly `k + 1` calls, sleeps the backoff and then the rate-limit delay,
   * and returns the reconciled segments of that payload.
   */
  lemma RunSucceedsAt(texts: seq<string>, lang: string, api: (string, nat) -> CallOutcome, k: nat, t: string)
    requires texts != [] && k <= MaxRetries
    requires forall a :: 0 <= a < k ==> Reply(api(UserPrompt(texts, lang), a)).None?
    requires Reply(api(UserPrompt(texts, lang), k)) == Some(t)
    ensures Run(texts, lang, api)
      == BatchRun(Reconcile(Split(t, Separator), texts), k + 1, Backoff(k) + [DelaySeconds])
  {
    var payload := Payloads(UserPrompt(texts, lang), api);
    assert forall a :: 0 <= a < k ==> payload(a).None?;
    RunAfterFailures(texts, payload, k);
    assert payload(k) == Some(t);
  }

  /** Retry exhaustion: when every call fails the run makes 4 calls, sleeps 2, 4 and 6 seconds, and returns its input. */
  lemma RunAllFail(texts: seq<string>, lang: string, api: (string, nat) -> CallOutcome)
    requires texts != []
    requires forall a :: 0 <= a <= MaxRetries ==> Reply(api(UserPrompt(texts, lang), a)).None?
    ensures Run(texts, lang, api) == BatchRun(texts, MaxRetries + 1, [2, 4, 6])
  {
    var payload := Payloads(UserPrompt(texts, lang), api);
    assert forall a :: 0 <= a < MaxRetries ==> payload(a).None?;
    RunAfterFailures(texts, payload, MaxRetries);
    assert payload(MaxRetries).None?;
  }

  /**
   * Positional alignment: when the service answers with one delimiter-free
   * segment per input, joined by the delimiter, each input receives its own segment.
   */
  lemma RunFaithfulReply(texts: seq<string>, lang: string, api: (string, nat) -> CallOutcome, ts: seq<string>)
    requires texts != [] && |ts| == |texts| && Avoids(ts, Separator)
    requires Reply(api(UserPrompt(texts, lang), 0)) == Some(Join(ts, Separator))
    ensures Run(texts, lang, api).translated == ts
    ensures Run(texts, lang, api).attempts == 1
  {
    SplitJoin(ts, Separator);
  }
}
