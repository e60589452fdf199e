/**
 * File names: the document kind of a path (`get_file_type`), the output names
 * the processors save to, and the `[\w-]` sanitisation of the PowerPoint name.
 * Paths follow Windows rules: both `/` and `\` separate components.
 */
module Paths {
  import Text

  /** The kinds `get_file_type` distinguishes (`DocType`). */
  datatype DocType = Excel | Word | PowerPoint | Unknown

  predicate IsSep(c: char) {
    c == '/' || c == '\\'
  }

  /** Index of the last separator of `p`, or -1 (`p.rfind(sep)` over both separators). */
  function LastSep(p: string): (i: int)
    ensures -1 <= i < |p|
    ensures i >= 0 ==> IsSep(p[i])
    ensures forall j :: i < j < |p| ==> !IsSep(p[j])
  {
    if p == [] then -1 else if IsSep(p[|p| - 1]) then |p| - 1 else LastSep(p[..|p| - 1])
  }

  /** Index of the last `.` of `p`, or -1. */
  function LastDot(p: string): (i: int)
    ensures -1 <= i < |p|
    ensures i >= 0 ==> p[i] == '.'
    ensures forall j :: i < j < |p| ==> p[j] != '.'
  {
    if p == [] then -1 else if p[|p| - 1] == '.' then |p| - 1 else LastDot(p[..|p| - 1])
  }

  /** `os.path.basename`: what follows the last separator. */
  function Basename(p: string): string {
    p[LastSep(p) + 1..]
  }

  /**
   * `os.path.splitext`: the extension starts at the last dot of the last
   * component, unless everything before that dot in the component is dots
   * (so `.xlsx` alone has no extension).
   */
  function Splitext(p: string): (string, string) {
    var sepIndex := LastSep(p);
    var dotIndex := LastDot(p);
    if dotIndex > sepIndex && exists i :: sepIndex + 1 <= i < dotIndex && p[i] != '.'
    then (p[..dotIndex], p[dotIndex..])
    else (p, [])
  }

  /** A well-formed extension: a dot, then no further dot and no separator. */
  predicate IsExtension(ext: string) {
    |ext| >= 1 && ext[0] == '.' && forall i :: 1 <= i < |ext| ==> ext[i] != '.' && !IsSep(ext[i])
  }

  /** `str.lower()` on ASCII letters; every other character is left alone. */
  function Lower(s: string): (r: string)
    ensures |r| == |s|
  {
    seq(|s|, i requires 0 <= i < |s| => if 'A' <= s[i] <= 'Z' then (s[i] as int + 32) as char else s[i])
  }

  /** The kind a lower-cased extension stands for. */
  function KindOfExtension(ext: string): DocType {
    if ext in [".xlsx", ".xls", ".xlsm"] then Excel
    else if ext in [".docx", ".doc"] then Word
    else if ext in [".pptx", ".ppt"] then PowerPoint
    else Unknown
  }

  /** `get_file_type`. */
  function GetFileType(path: string): DocType {
    KindOfExtension(Lower(Splitext(path).1))
  }

  // ---------------------------------------------------------------------
  // Output names

  /**
   * The regex `\w`: every `\d` digit, ASCII letters and `_`, the Thai letters,
   * hiragana and katakana with their iteration and prolonged-sound marks, the
   * ideographic iteration mark, CJK ideographs and Hangul syllables.
   */
  predicate IsWordChar(c: char) {
    Text.IsDigit(c) || ('a' <= c <= 'z') || ('A' <= c <= 'Z') || c == '_' ||
    ('\U{0E01}' <= c <= '\U{0E30}') || ('\U{0E32}' <= c <= '\U{0E33}') || ('\U{0E40}' <= c <= '\U{0E46}') ||
    ('\U{3041}' <= c <= '\U{3096}') || ('\U{309D}' <= c <= '\U{309F}') ||
    ('\U{30A1}' <= c <= '\U{30FA}') || ('\U{30FC}' <= c <= '\U{30FF}') || c == '\U{3005}' ||
    ('\U{4E00}' <= c <= '\U{9FFF}') || ('\U{AC00}' <= c <= '\U{D7A3}')
  }

  /** The class `[\w\-]`. */
  predicate IsSafeChar(c: char) {
    IsWordChar(c) || c == '-'
  }

  /** `re.sub(r'[^\w\-]', '_', s)`. */
  function ReplaceUnsafe(s: string): (r: string)
    ensures |r| == |s|
    ensures forall i :: 0 <= i < |s| ==> r[i] == if IsSafeChar(s[i]) then s[i] else '_'
  {
    seq(|s|, i requires 0 <= i < |s| => if IsSafeChar(s[i]) then s[i] else '_')
  }

  /** Positions `i` and `i + 1` of `s` are not both `_`. */
  predicate NoUnderscorePairAt(s: string, i: nat)
    requires i + 1 < |s|
  {
    s[i] != '_' || s[i + 1] != '_'
  }

  /** No two `_` next to each other. */
  predicate NoDoubleUnderscore(s: string) {
    forall i :: 0 <= i < |s| - 1 ==> NoUnderscorePairAt(s, i)
  }

  /** Position `i` of `s` is a `_` that follows another `_`. */
  predicate RepeatedUnderscore(s: string, i: nat)
    requires i < |s|
  {
    i > 0 && s[i] == '_' && s[i - 1] == '_'
  }

  /** The characters of `s` from position `i` on, except the repeated underscores, in order. */
  function KeptFrom(s: string, i: nat): string
    requires i <= |s|
    decreases |s| - i
  {
    if i == |s| then []
    else (if RepeatedUnderscore(s, i) then [] else [s[i]]) + KeptFrom(s, i + 1)
  }

  /** Past the first position, dropping the first character only shifts the positions. */
  lemma {:induction false} KeptFromShift(s: string, j: nat)
    requires s != [] && 1 <= j <= |s| - 1
    decreases |s| - j
    ensures KeptFrom(s[1..], j) == KeptFrom(s, j + 1)
  {
    if j < |s| - 1 {
      assert RepeatedUnderscore(s[1..], j) == RepeatedUnderscore(s, j + 1);
      KeptFromShift(s, j + 1);
    }
  }

  /** What is kept of `s` in terms of what is kept of `s[1..]`. */
  lemma KeptFromFront(s: string)
    ensures |s| <= 1 ==> KeptFrom(s, 0) == s
    ensures |s| >= 2 ==> KeptFrom(s, 0) == if s[0] == '_' && s[1] == '_' then KeptFrom(s[1..], 0) else [s[0]] + KeptFrom(s[1..], 0)
  {
    if |s| == 1 {
      assert KeptFrom(s, 1) == [];
    } else if |s| >= 2 {
      var t := s[1..];
      var tail := KeptFrom(s, 2);
      KeptFromShift(s, 1);
      assert KeptFrom(t, 1) == tail;
      assert !RepeatedUnderscore(t, 0) && t[0] == s[1];
      assert KeptFrom(t, 0) == [s[1]] + tail;
      assert !RepeatedUnderscore(s, 0);
      assert KeptFrom(s, 0) == [s[0]] + KeptFrom(s, 1);
      if s[0] == '_' && s[1] == '_' {
        assert RepeatedUnderscore(s, 1);
        assert KeptFrom(s, 1) == tail;
      } else {
        assert !RepeatedUnderscore(s, 1);
        assert KeptFrom(s, 1) == [s[1]] + tail;
      }
    }
  }

  /**
   * `re.sub(r'_+', '_', s)`: every run of `_` becomes one `_`, that is,
   * exactly the underscores that follow another underscore are removed.
   */
  function CollapseUnderscores(s: string): (r: string)
    ensures r == KeptFrom(s, 0)
    ensures NoDoubleUnderscore(r)
    ensures |r| <= |s|
    ensures s != [] ==> r != [] && r[0] == s[0] && r[|r| - 1] == s[|s| - 1]
    ensures forall i :: 0 <= i < |r| ==> r[i] in s
    ensures NoDoubleUnderscore(s) ==> r == s
  {
    KeptFromFront(s);
    if |s| <= 1 then s
    else
      var t := s[1..];
      if s[0] == '_' && s[1] == '_' then
        assert !NoUnderscorePairAt(s, 0);
        CollapseUnderscores(t)
      else
        var rest := CollapseUnderscores(t);
        NoDoubleCons(s[0], rest);
        NoDoubleTail(s);
        [s[0]] + rest
  }

  /** Putting a character in front keeps the property when it does not start a new `__`. */
  lemma NoDoubleCons(c: char, rest: string)
    requires NoDoubleUnderscore(rest)
    requires rest != [] ==> c != '_' || rest[0] != '_'
    ensures NoDoubleUnderscore([c] + rest)
  {
    var r := [c] + rest;
    forall i | 0 <= i < |r| - 1 ensures NoUnderscorePairAt(r, i) {
      if i > 0 {
        assert NoUnderscorePairAt(rest, i - 1);
      }
    }
  }

  /** A suffix of a string with no `__` has none either. */
  lemma NoDoubleTail(s: string)
    requires s != []
    ensures NoDoubleUnderscore(s) ==> NoDoubleUnderscore(s[1..])
  {
    if NoDoubleUnderscore(s) {
      forall i | 0 <= i < |s| - 2 ensures NoUnderscorePairAt(s[1..], i) {
        assert NoUnderscorePairAt(s, i + 1);
      }
    }
  }

  /** Number of `_` at the start of `s`. */
  function LeadingUnderscores(s: string): (k: nat)
    ensures k <= |s|
    ensures forall i :: 0 <= i < k ==> s[i] == '_'
    ensures k == |s| || s[k] != '_'
  {
    if s != [] && s[0] == '_' then 1 + LeadingUnderscores(s[1..]) else 0
  }

  /** Number of `_` at the end of `s`. */
  function TrailingUnderscores(s: string): (k: nat)
    ensures k <= |s|
    ensures forall i :: |s| - k <= i < |s| ==> s[i] == '_'
    ensures k == |s| || s[|s| - 1 - k] != '_'
  {
    if s != [] && s[|s| - 1] == '_' then 1 + TrailingUnderscores(s[..|s| - 1]) else 0
  }

  /** `s.strip('_')`: drops every leading and every trailing `_`. */
  function StripUnderscores(s: string): (r: string)
    ensures r == [] || (r[0] != '_' && r[|r| - 1] != '_')
    ensures LeadingUnderscores(s) + |r| <= |s| && r == s[LeadingUnderscores(s)..LeadingUnderscores(s) + |r|]
    ensures forall i :: 0 <= i < LeadingUnderscores(s) ==> s[i] == '_'
    ensures forall i :: LeadingUnderscores(s) + |r| <= i < |s| ==> s[i] == '_'
    ensures s == [] || (s[0] != '_' && s[|s| - 1] != '_') ==> r == s
  {
    var a := LeadingUnderscores(s);
    var t := s[a..];
    t[..|t| - TrailingUnderscores(t)]
  }

  /** The safe base name of the PowerPoint processor. */
  function SafeBaseName(base: string): string {
    StripUnderscores(CollapseUnderscores(ReplaceUnsafe(base)))
  }

  /** What a sanitised name looks like. */
  predicate IsSafeName(s: string) {
    && (forall i :: 0 <= i < |s| ==> IsSafeChar(s[i]))
    && NoDoubleUnderscore(s)
    && (s == [] || (s[0] != '_' && s[|s| - 1] != '_'))
  }

  /** `TRANSLATED_{safe}_{timestamp}{ext}`, the PowerPoint output file name. */
  function PowerPointOutputName(inputPath: string, timestamp: string): string {
    var (base, ext) := Splitext(Basename(inputPath));
    "TRANSLATED_" + SafeBaseName(base) + "_" + timestamp + ext
  }

  /** `{base}-translated{ext}`, the Excel and Word output file name. */
  function TranslatedOutputName(inputPath: string): string {
    var (base, ext) := Splitext(Basename(inputPath));
    base + "-translated" + ext
  }

  // ---------------------------------------------------------------------
  // Lemmas

  /** Every character of a safe-character string is kept by collapsing. */
  lemma CollapseKeepsSafeChars(r: string)
    requires forall i :: 0 <= i < |r| ==> IsSafeChar(r[i])
    ensures forall i :: 0 <= i < |CollapseUnderscores(r)| ==> IsSafeChar(CollapseUnderscores(r)[i])
  {
  }

  /** An infix keeps the safe characters and the absence of `__`. */
  lemma InfixSafe(c: string, a: nat, t: string)
    requires a + |t| <= |c| && t == c[a..a + |t|]
    requires forall i :: 0 <= i < |c| ==> IsSafeChar(c[i])
    requires NoDoubleUnderscore(c)
    ensures forall i :: 0 <= i < |t| ==> IsSafeChar(t[i])
    ensures NoDoubleUnderscore(t)
  {
    forall i | 0 <= i < |t| ensures IsSafeChar(t[i]) {
      assert t[i] == c[a + i];
    }
    forall i | 0 <= i < |t| - 1 ensures NoUnderscorePairAt(t, i) {
      assert NoUnderscorePairAt(c, a + i);
      assert t[i] == c[a + i] && t[i + 1] == c[a + i + 1];
    }
  }

  /** The sanitised base name holds only `[\w-]`, has no `__` and no `_` at either end. */
  lemma SafeBaseNameIsSafe(base: string)
    ensures IsSafeName(SafeBaseName(base))
  {
    var r := ReplaceUnsafe(base);
    var c := CollapseUnderscores(r);
    CollapseKeepsSafeChars(r);
    InfixSafe(c, LeadingUnderscores(c), StripUnderscores(c));
  }

  /** A name that is already safe is left as it is, so sanitising twice changes nothing more. */
  lemma SafeBaseNameIdempotent(base: string)
    ensures IsSafeName(base) ==> SafeBaseName(base) == base
    ensures SafeBaseName(SafeBaseName(base)) == SafeBaseName(base)
  {
    forall s | IsSafeName(s) ensures SafeBaseName(s) == s {
      assert ReplaceUnsafe(s) == s;
    }
    SafeBaseNameIsSafe(base);
  }

  /** `splitext` cuts `p` in two, and the second part is empty or a well-formed extension. */
  lemma SplitextParts(p: string)
    ensures Splitext(p).0 + Splitext(p).1 == p
    ensures Splitext(p).1 == [] || IsExtension(Splitext(p).1)
  {
    var dotIndex := LastDot(p);
    if Splitext(p).1 != [] {
      var ext := p[dotIndex..];
      forall i | 1 <= i < |ext| ensures ext[i] != '.' && !IsSep(ext[i]) {
        assert ext[i] == p[dotIndex + i];
      }
    }
  }

  /** A name ending in an ordinary character, followed by an extension, splits exactly there. */
  lemma SplitextOfName(base: string, ext: string)
    requires base != [] && !IsSep(base[|base| - 1]) && base[|base| - 1] != '.'
    requires IsExtension(ext)
    ensures Splitext(base + ext) == (base, ext)
  {
    var p := base + ext;
    var n := |base|;
    assert p[n] == '.';
    forall j | n < j < |p| ensures p[j] != '.' && !IsSep(p[j]) {
      assert p[j] == ext[j - n];
    }
    LastDotAt(p, n);
    LastSepBefore(p, n);
    assert p[n - 1] == base[n - 1];
    assert p[..n] == base && p[n..] == ext;
  }

  /** `LastDot` is the only index that is a dot with no dot after it (-1: no dot at all). */
  lemma {:induction false} LastDotAt(p: string, n: int)
    requires -1 <= n < |p| && (n >= 0 ==> p[n] == '.')
    requires forall j :: n < j < |p| ==> p[j] != '.'
    ensures LastDot(p) == n
    decreases |p|
  {
    if n < |p| - 1 {
      LastDotAt(p[..|p| - 1], n);
    }
  }

  /** `LastSep` is the only index that is a separator with no separator after it (-1: none). */
  lemma {:induction false} LastSepAt(p: string, n: int)
    requires -1 <= n < |p| && (n >= 0 ==> IsSep(p[n]))
    requires forall j :: n < j < |p| ==> !IsSep(p[j])
    ensures LastSep(p) == n
    decreases |p|
  {
    if n < |p| - 1 {
      LastSepAt(p[..|p| - 1], n);
    }
  }

  /** When no separator follows `n` and `p[n]` is none either, `LastSep` lies before `n`. */
  lemma LastSepBefore(p: string, n: nat)
    requires n < |p| && !IsSep(p[n])
    requires forall j :: n < j < |p| ==> !IsSep(p[j])
    ensures LastSep(p) < n
  {
  }

  /** The basename has no separator of its own. */
  lemma BasenameNoSep(p: string)
    ensures LastSep(Basename(p)) == -1
  {
    var b := Basename(p);
    forall j | 0 <= j < |b| ensures !IsSep(b[j]) {
      assert b[j] == p[LastSep(p) + 1 + j];
    }
    LastSepAt(b, -1);
  }

  /** The last dot of a suffix is the last dot of the whole, shifted, when it lies in the suffix. */
  lemma {:induction false} LastDotSuffix(p: string, k: nat)
    requires k <= |p|
    ensures LastDot(p[k..]) == if LastDot(p) >= k then LastDot(p) - k else -1
    decreases |p|
  {
    if k < |p| && p[|p| - 1] != '.' {
      var q := p[..|p| - 1];
      assert p[k..][..|p[k..]| - 1] == q[k..];
      LastDotSuffix(q, k);
    }
  }

  /** A character other than `.` lies in `p[s+1..d)` iff it lies at the shifted place of the suffix after `s`. */
  lemma NonDotShift(p: string, b: string, s: int, d: int)
    requires -1 <= s < d < |p| && b == p[s + 1..]
    ensures (exists i :: s + 1 <= i < d && p[i] != '.') == (exists i :: 0 <= i < d - s - 1 && b[i] != '.')
  {
    if exists i :: s + 1 <= i < d && p[i] != '.' {
      var i :| s + 1 <= i < d && p[i] != '.';
      assert b[i - s - 1] != '.';
    }
    if exists i :: 0 <= i < d - s - 1 && b[i] != '.' {
      var i :| 0 <= i < d - s - 1 && b[i] != '.';
      assert p[i + s + 1] != '.';
    }
  }

  /** The extension `splitext` finds in a path is the one it finds in the path's last component. */
  lemma SplitextBasename(p: string)
    ensures Splitext(Basename(p)).1 == Splitext(p).1
  {
    var s := LastSep(p);
    var d := LastDot(p);
    var b := Basename(p);
    BasenameNoSep(p);
    LastDotSuffix(p, s + 1);
    if d > s {
      NonDotShift(p, b, s, d);
      assert b[d - s - 1..] == p[d..];
      assert Splitext(b).1 == Splitext(p).1;
    } else {
      assert LastDot(b) == -1;
    }
  }

  /** The document kind of a name depends only on its lower-cased extension. */
  lemma FileTypeByExtension(base: string, ext: string)
    requires base != [] && !IsSep(base[|base| - 1]) && base[|base| - 1] != '.'
    requires IsExtension(ext)
    ensures GetFileType(base + ext) == KindOfExtension(Lower(ext))
  {
    SplitextOfName(base, ext);
  }

  /** Both output names keep the input's extension, so the saved copy is of the same kind. */
  lemma OutputNamesKeepType(inputPath: string, timestamp: string)
    requires Splitext(Basename(inputPath)).1 != []
    requires forall i :: 0 <= i < |timestamp| ==> timestamp[i] != '.' && !IsSep(timestamp[i])
    ensures GetFileType(TranslatedOutputName(inputPath)) == GetFileType(inputPath)
    ensures GetFileType(PowerPointOutputName(inputPath, timestamp)) == GetFileType(inputPath)
  {
    var (base, ext) := Splitext(Basename(inputPath));
    SplitextParts(Basename(inputPath));
    SplitextBasename(inputPath);
    var x := base + "-translated";
    FileTypeByExtension(x, ext);
    var y := "TRANSLATED_" + SafeBaseName(base) + "_" + timestamp;
    assert y[|y| - 1] == if timestamp == [] then '_' else timestamp[|timestamp| - 1];
    FileTypeByExtension(y, ext);
  }

  /** An upper-case extension behind a dotted name, after a Windows directory, is still recognised. */
  lemma FileTypeUpperCase()
    ensures GetFileType("C:\\Reports\\Q1.Summary.XLSX") == Excel
  {
    var ext := ".XLSX";
    assert IsExtension(ext);
    assert Lower(ext) == ".xlsx" by {
      assert Lower(ext)[1] == 'x' && Lower(ext)[2] == 'l' && Lower(ext)[3] == 's' && Lower(ext)[4] == 'x';
    }
    var base := "C:\\Reports\\Q1.Summary";
    FileTypeByExtension(base, ext);
    assert base + ext == "C:\\Reports\\Q1.Summary.XLSX";
    assert KindOfExtension(".xlsx") == Excel;
  }

  /** A name that is only a dot and an extension is a hidden file with no extension. */
  lemma HiddenFileHasNoType()
    ensures GetFileType("docs/.xlsx") == Unknown
  {
    var p := "docs/.xlsx";
    LastSepAt(p, 4);
    LastDotAt(p, 5);
  }
}
