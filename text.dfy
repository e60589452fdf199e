/**
 * Text normalisation and the translation-eligibility filter
 * (`clean_text` and `should_translate` in translator.py).
 */
module Text {
  import opened Wrappers

  /** Python's `str.isspace`: the characters `str.split()`, `str.strip()` and the regex `\s` treat as whitespace. */
  predicate IsSpace(c: char) {
    var n := c as int;
    n == 0x20 || (0x09 <= n <= 0x0D) || (0x1C <= n <= 0x1F) || n == 0x85 || n == 0xA0 ||
    n == 0x1680 || (0x2000 <= n <= 0x200A) || n == 0x2028 || n == 0x2029 || n == 0x202F ||
    n == 0x205F || n == 0x3000
  }

  /** A word as `str.split()` produces it: non-empty, no whitespace. */
  predicate IsWord(w: string) {
    w != [] && forall i :: 0 <= i < |w| ==> !IsSpace(w[i])
  }

  /** Length of the leading run of non-whitespace characters of `s`. */
  function RunLength(s: string): (k: nat)
    ensures k <= |s|
    ensures forall i :: 0 <= i < k ==> !IsSpace(s[i])
    ensures k == |s| || IsSpace(s[k])
  {
    if s == [] || IsSpace(s[0]) then 0 else 1 + RunLength(s[1..])
  }

  /** `s.split()` with no argument: the maximal whitespace-free runs of `s`, in order. */
  function Words(s: string): (ws: seq<string>)
    ensures forall i :: 0 <= i < |ws| ==> IsWord(ws[i])
    decreases |s|
  {
    if s == [] then []
    else if IsSpace(s[0]) then Words(s[1..])
    else
      var k := RunLength(s);
      [s[..k]] + Words(s[k..])
  }

  /** `' '.join(ws)`. */
  function JoinWords(ws: seq<string>): string {
    if ws == [] then [] else if |ws| == 1 then ws[0] else ws[0] + " " + JoinWords(ws[1..])
  }

  /** Drops leading whitespace (`str.lstrip()`). */
  function StripLeft(s: string): (r: string)
    ensures |r| <= |s| && r == s[|s| - |r|..]
    ensures r == [] || !IsSpace(r[0])
  {
    if s != [] && IsSpace(s[0]) then StripLeft(s[1..]) else s
  }

  /** Drops trailing whitespace (`str.rstrip()`). */
  function StripRight(s: string): (r: string)
    ensures |r| <= |s| && r == s[..|r|]
    ensures r == [] || !IsSpace(r[|r| - 1])
  {
    if s != [] && IsSpace(s[|s| - 1]) then StripRight(s[..|s| - 1]) else s
  }

  /** `str.strip()` with no argument. */
  function Strip(s: string): string {
    StripRight(StripLeft(s))
  }

  /** Positions `i` and `i + 1` of `t` are not both whitespace. */
  predicate NoSpacePairAt(t: string, i: nat)
    requires i + 1 < |t|
  {
    !IsSpace(t[i]) || !IsSpace(t[i + 1])
  }

  /**
   * The shape `clean_text` promises: no whitespace at either end, no two
   * whitespace characters in a row, and every whitespace character a plain space.
   */
  predicate Normalized(t: string) {
    && (t != [] ==> !IsSpace(t[0]) && !IsSpace(t[|t| - 1]))
    && (forall i :: 0 <= i < |t| && IsSpace(t[i]) ==> t[i] == ' ')
    && (forall i :: 0 <= i < |t| - 1 ==> NoSpacePairAt(t, i))
  }

  /** `clean_text`: `None` and `""` give `""`; otherwise `' '.join(text.split()).strip()`. */
  function CleanText(text: Option<string>): string {
    match text
    case None => ""
    case Some(s) => if s == "" then "" else Strip(JoinWords(Words(s)))
  }

  /** The regex `\d`: ASCII, Thai and fullwidth decimal digits. */
  predicate IsDigit(c: char) {
    ('0' <= c <= '9') || ('\U{0E50}' <= c <= '\U{0E59}') || ('\U{FF10}' <= c <= '\U{FF19}')
  }

  /** One character of the class `[\d\s,.-]`. */
  predicate IsNumberFormatting(c: char) {
    IsDigit(c) || IsSpace(c) || c == ',' || c == '.' || c == '-'
  }

  /** `re.match(r'^[\d\s,.-]+$', t)` succeeds. */
  predicate NumericOnly(t: string) {
    |t| >= 1 && forall i :: 0 <= i < |t| ==> IsNumberFormatting(t[i])
  }

  /** `should_translate`: the cleaned text is long enough, not only number formatting and not a formula. */
  predicate ShouldTranslate(text: Option<string>) {
    var t := CleanText(text);
    if t == "" || |t| < 2 then false
    else if NumericOnly(t) then false
    else if t[0] == '=' then false
    else true
  }

  // ---------------------------------------------------------------------
  // Lemmas

  /** A word followed by whitespace (or nothing) is one run. */
  lemma {:induction false} RunLengthOfWord(w: string, rest: string)
    requires IsWord(w)
    requires rest == [] || IsSpace(rest[0])
    ensures RunLength(w + rest) == |w|
  {
    assert (w + rest)[0] == w[0];
    if |w| > 1 {
      assert (w + rest)[1..] == w[1..] + rest;
      RunLengthOfWord(w[1..], rest);
    } else {
      assert (w + rest)[1..] == rest;
    }
  }

  /** Splitting joined words on whitespace gives the words back. */
  lemma {:induction false} WordsOfJoin(ws: seq<string>)
    requires forall i :: 0 <= i < |ws| ==> IsWord(ws[i])
    ensures Words(JoinWords(ws)) == ws
  {
    if ws == [] {
    } else if |ws| == 1 {
      var w := ws[0];
      RunLengthOfWord(w, []);
      assert w + [] == w;
      assert w[..|w|] == w && w[|w|..] == [];
    } else {
      var w := ws[0];
      var rest := JoinWords(ws[1..]);
      var s := w + " " + rest;
      assert s == w + (" " + rest);
      RunLengthOfWord(w, " " + rest);
      assert s[..|w|] == w;
      assert s[|w|..] == " " + rest;
      assert (" " + rest)[1..] == rest;
      WordsOfJoin(ws[1..]);
    }
  }

  /** Joined words start and end with a word character. */
  lemma {:induction false} JoinWordsEnds(ws: seq<string>)
    requires ws != []
    requires forall i :: 0 <= i < |ws| ==> IsWord(ws[i])
    ensures ws[0] != [] && ws[|ws| - 1] != []
    ensures JoinWords(ws) != []
    ensures JoinWords(ws)[0] == ws[0][0]
    ensures JoinWords(ws)[|JoinWords(ws)| - 1] == ws[|ws| - 1][|ws[|ws| - 1]| - 1]
  {
    assert IsWord(ws[0]) && IsWord(ws[|ws| - 1]);
    if |ws| > 1 {
      var rest := JoinWords(ws[1..]);
      JoinWordsEnds(ws[1..]);
      assert ws[1..][|ws[1..]| - 1] == ws[|ws| - 1];
      var t := ws[0] + " " + rest;
      assert JoinWords(ws) == t;
      assert t[0] == ws[0][0];
      assert t[|t| - 1] == rest[|rest| - 1];
    }
  }

  /** Joined words are normalised. */
  lemma {:induction false} JoinWordsNormalized(ws: seq<string>)
    requires forall i :: 0 <= i < |ws| ==> IsWord(ws[i])
    ensures Normalized(JoinWords(ws))
  {
    if |ws| == 1 {
      assert IsWord(ws[0]);
    } else if |ws| > 1 {
      var w := ws[0];
      var rest := JoinWords(ws[1..]);
      JoinWordsNormalized(ws[1..]);
      JoinWordsEnds(ws[1..]);
      var t := w + " " + rest;
      assert IsWord(w);
      forall i | 0 <= i < |t| && IsSpace(t[i]) ensures t[i] == ' ' {
        if i > |w| { assert t[i] == rest[i - |w| - 1]; }
      }
      forall i | 0 <= i < |t| - 1 ensures NoSpacePairAt(t, i) {
        if i > |w| {
          assert NoSpacePairAt(rest, i - |w| - 1);
          assert t[i] == rest[i - |w| - 1] && t[i + 1] == rest[i - |w|];
        } else if i == |w| {
          assert t[i + 1] == rest[0];
        } else if i == |w| - 1 {
          assert t[i] == w[|w| - 1];
        } else {
          assert t[i] == w[i] && t[i + 1] == w[i + 1];
        }
      }
      assert t[|t| - 1] == rest[|rest| - 1];
    }
  }

  /** `strip()` leaves a string without edge whitespace unchanged. */
  lemma StripNoEdges(s: string)
    requires s == [] || (!IsSpace(s[0]) && !IsSpace(s[|s| - 1]))
    ensures Strip(s) == s
  {
  }

  /** `clean_text` always returns a normalised string, and keeps the words of its input. */
  lemma CleanTextNormalized(text: Option<string>)
    ensures Normalized(CleanText(text))
    ensures text.Some? ==> Words(CleanText(text)) == Words(text.value)
  {
    if text.Some? && text.value != "" {
      CleanTextIsJoin(text.value);
      JoinWordsNormalized(Words(text.value));
      WordsOfJoin(Words(text.value));
    }
  }

  /** On a non-empty string, `clean_text` is the space-join of its words (the final `strip` changes nothing). */
  lemma CleanTextIsJoin(s: string)
    requires s != ""
    ensures CleanText(Some(s)) == JoinWords(Words(s))
  {
    JoinWordsNormalized(Words(s));
    StripNormalized(JoinWords(Words(s)));
  }

  /** `strip()` leaves a normalised string unchanged. */
  lemma StripNormalized(t: string)
    requires Normalized(t)
    ensures Strip(t) == t
  {
    StripNoEdges(t);
  }

  /** What follows a space inside a normalised string is again normalised. */
  lemma NormalizedAfterSpace(t: string, k: nat)
    requires Normalized(t) && k < |t| && IsSpace(t[k])
    ensures 0 < k < |t| - 1 && !IsSpace(t[k + 1])
    ensures Normalized(t[k + 1..])
  {
    var rest := t[k + 1..];
    assert NoSpacePairAt(t, k);
    forall i | 0 <= i < |rest| - 1 ensures NoSpacePairAt(rest, i) {
      assert NoSpacePairAt(t, k + 1 + i);
      assert rest[i] == t[k + 1 + i] && rest[i + 1] == t[k + 2 + i];
    }
    forall i | 0 <= i < |rest| && IsSpace(rest[i]) ensures rest[i] == ' ' {
      assert rest[i] == t[k + 1 + i];
    }
  }

  /** Joining a word in front of further words puts one space between them. */
  lemma JoinWordsCons(w: string, ws: seq<string>)
    requires ws != []
    ensures JoinWords([w] + ws) == w + " " + JoinWords(ws)
  {
    assert ([w] + ws)[1..] == ws;
  }

  /** Whitespace in front of a string contributes no word. */
  lemma WordsAfterSpace(s: string, k: nat)
    requires k < |s| && IsSpace(s[k])
    ensures Words(s[k..]) == Words(s[k + 1..])
  {
    assert s[k..][1..] == s[k + 1..];
  }

  /** A normalised string is its own words joined by single spaces. */
  lemma {:induction false} NormalizedIsJoin(t: string)
    requires Normalized(t)
    ensures JoinWords(Words(t)) == t
    ensures t != [] ==> Words(t) != []
    decreases |t|
  {
    if t != [] {
      var k := RunLength(t);
      WordsAtWord(t);
      if k == |t| {
        assert t[..k] == t && t[k..] == [];
      } else {
        NormalizedSplit(t);
        var rest := t[k + 1..];
        NormalizedIsJoin(rest);
        JoinWordsCons(t[..k], Words(rest));
      }
    }
  }

  /** A string starting with a non-space starts with its first run as a word. */
  lemma WordsAtWord(t: string)
    requires t != [] && !IsSpace(t[0])
    ensures Words(t) == [t[..RunLength(t)]] + Words(t[RunLength(t)..])
  {
  }

  /** A normalised string that has a space is its first word, one space, and a normalised rest with its remaining words. */
  lemma NormalizedSplit(t: string)
    requires Normalized(t) && t != [] && RunLength(t) < |t|
    ensures var k := RunLength(t);
      && 0 < k < |t| - 1
      && t == t[..k] + " " + t[k + 1..]
      && Normalized(t[k + 1..]) && t[k + 1..] != []
      && Words(t[k..]) == Words(t[k + 1..])
  {
    var k := RunLength(t);
    NormalizedAfterSpace(t, k);
    WordsAfterSpace(t, k);
    SpaceSplit(t, k);
  }

  /** A string with a space at `k` is what precedes it, the space, and what follows. */
  lemma SpaceSplit(t: string, k: nat)
    requires k < |t| && t[k] == ' '
    ensures t == t[..k] + " " + t[k + 1..]
  {
    assert t == t[..k] + [t[k]] + t[k + 1..];
  }

  /** `clean_text` leaves a normalised string unchanged. */
  lemma CleanTextOfNormalized(t: string)
    requires Normalized(t)
    ensures CleanText(Some(t)) == t
  {
    if t != "" {
      NormalizedIsJoin(t);
      StripNoEdges(t);
    }
  }

  /** Applying `clean_text` twice is the same as applying it once. */
  lemma CleanTextIdempotent(text: Option<string>)
    ensures CleanText(Some(CleanText(text))) == CleanText(text)
  {
    CleanTextNormalized(text);
    CleanTextOfNormalized(CleanText(text));
  }

  /** What `should_translate` answers, stated on the cleaned text. */
  lemma ShouldTranslateMeaning(text: Option<string>)
    ensures ShouldTranslate(text) <==>
      var t := CleanText(text);
      |t| >= 2 && t[0] != '=' && exists i :: 0 <= i < |t| && !IsNumberFormatting(t[i])
  {
  }

  /** The filter gives the same answer on the cleaned text, which is what the extractors send. */
  lemma ShouldTranslateOfCleaned(text: Option<string>)
    ensures ShouldTranslate(Some(CleanText(text))) == ShouldTranslate(text)
  {
    CleanTextIdempotent(text);
  }

  /** A text without whitespace is left as it is. */
  lemma CleanTextNoSpace(t: string)
    requires forall i :: 0 <= i < |t| ==> !IsSpace(t[i])
    ensures CleanText(Some(t)) == t
  {
    CleanTextOfNormalized(t);
  }

  /** A text without whitespace, not a formula, with a character outside the number class is translated. */
  lemma ShouldTranslateUnspaced(t: string, k: nat)
    requires |t| >= 2 && t[0] != '='
    requires forall i :: 0 <= i < |t| ==> !IsSpace(t[i])
    requires k < |t| && !IsNumberFormatting(t[k])
    ensures ShouldTranslate(Some(t))
  {
    CleanTextNoSpace(t);
  }

  /** The filter's documented examples: ordinary words are translated... */
  lemma ShouldTranslateWord()
    ensures ShouldTranslate(Some("Hello"))
  {
    var t := "Hello";
    assert forall i :: 0 <= i < |t| ==> !IsSpace(t[i]);
    ShouldTranslateUnspaced(t, 0);
  }

  /** ...numbers with their formatting are not... */
  lemma ShouldTranslateNumber()
    ensures !ShouldTranslate(Some("123,456"))
  {
    var t := "123,456";
    assert forall i :: 0 <= i < |t| ==> IsNumberFormatting(t[i]) && !IsSpace(t[i]);
    CleanTextOfNormalized(t);
  }

  /** ...nor formulas... */
  lemma ShouldTranslateFormula()
    ensures !ShouldTranslate(Some("=SUM(A1:A2)"))
  {
    CleanTextOfNormalized("=SUM(A1:A2)");
  }

  /** ...nor single characters, nor a missing value. */
  lemma ShouldTranslateShort()
    ensures !ShouldTranslate(Some("A"))
    ensures !ShouldTranslate(None)
  {
    CleanTextOfNormalized("A");
  }
}
