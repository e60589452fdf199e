/**
 * `process_file` and `process_directory`: dispatching one file on its kind,
 * finding the supported files of a folder, and sorting them into the
 * succeeded and failed lists.
 */
module Directory {
  import opened Wrappers
  import opened Paths

  // ---------------------------------------------------------------------
  // One file

  /** What `process_file` finds in its environment before it dispatches. */
  datatype Environment = Environment(fileExists: bool, librariesLoaded: bool, apiKey: string, clientCreated: bool)

  /**
   * `process_file`: give up (`None`) when the file is missing, the libraries
   * or the API key are unavailable or the client cannot be created; otherwise
   * hand the path to the processor of its kind, and give up on an unknown kind.
   */
  function ProcessFile(env: Environment, path: string, processor: (DocType, string) -> Option<string>): (r: Option<string>)
    ensures r.Some? ==> env.fileExists && env.librariesLoaded && env.apiKey != [] && env.clientCreated && GetFileType(path) != Unknown
    ensures r.Some? ==> r == processor(GetFileType(path), path)
  {
    if !env.fileExists then None
    else if !env.librariesLoaded then None
    else if env.apiKey == [] then None
    else if !env.clientCreated then None
    else
      match GetFileType(path)
      case Unknown => None
      case kind => processor(kind, path)
  }

  /** With everything in place, a supported file reaches its kind's processor unchanged. */
  lemma ProcessFileDispatches(env: Environment, path: string, processor: (DocType, string) -> Option<string>)
    requires env.fileExists && env.librariesLoaded && env.apiKey != [] && env.clientCreated
    requires GetFileType(path) != Unknown
    ensures ProcessFile(env, path, processor) == processor(GetFileType(path), path)
  {
  }

  // ---------------------------------------------------------------------
  // Finding files

  /** `os.path.join(folder, name)` with Windows separators. */
  function JoinPath(folder: string, name: string): string {
    if folder == [] then name
    else if IsSep(folder[|folder| - 1]) then folder + name
    else folder + "\\" + name
  }

  /** A plain file name: not empty and without separators. */
  predicate IsPlainName(name: string) {
    name != [] && forall i :: 0 <= i < |name| ==> !IsSep(name[i])
  }

  /** Joining a plain name to its folder and taking the basename gives the name back. */
  lemma BasenameOfJoin(folder: string, name: string)
    requires IsPlainName(name)
    ensures Basename(JoinPath(folder, name)) == name
  {
    var p := JoinPath(folder, name);
    var n := |p| - |name|;
    assert p[n..] == name;
    forall j | n <= j < |p| ensures !IsSep(p[j]) {
      assert p[j] == name[j - n];
    }
    if folder == [] {
      LastSepAt(p, -1);
    } else {
      assert IsSep(p[n - 1]);
      LastSepAt(p, n - 1);
    }
  }

  /** The glob patterns, in the order their results are concatenated. */
  const Patterns: seq<string> := [".xlsx", ".xls", ".docx", ".doc", ".pptx", ".ppt"]

  /** `*<pattern>` matches a name, without case distinction; names starting with `.` are never matched by `*`. */
  predicate Matches(name: string, pattern: string) {
    name != [] && name[0] != '.' && |name| > |pattern| && Lower(name[|name| - |pattern|..]) == pattern
  }

  /** `glob.glob(os.path.join(folder, '*' + pattern))` over the folder's names, in listing order. */
  function Glob(listing: seq<string>, pattern: string): (r: seq<string>)
    ensures forall n :: n in r <==> n in listing && Matches(n, pattern)
  {
    if listing == [] then []
    else (if Matches(listing[0], pattern) then [listing[0]] else []) + Glob(listing[1..], pattern)
  }

  /** `all_files`: the Excel, then the Word, then the PowerPoint matches. */
  function AllFiles(listing: seq<string>): seq<string> {
    Glob(listing, ".xlsx") + Glob(listing, ".xls") + Glob(listing, ".docx")
    + Glob(listing, ".doc") + Glob(listing, ".pptx") + Glob(listing, ".ppt")
  }

  /** A name is found exactly when it matches one of the patterns. */
  lemma AllFilesMembers(listing: seq<string>, name: string)
    ensures name in AllFiles(listing) <==> name in listing && exists p :: p in Patterns && Matches(name, p)
  {
    if name in listing && exists p :: p in Patterns && Matches(name, p) {
      var p :| p in Patterns && Matches(name, p);
      assert p in [".xlsx", ".xls", ".docx", ".doc", ".pptx", ".ppt"];
    }
  }

  /** A found file is one `get_file_type` recognises, of the kind its pattern names. */
  lemma MatchedKind(name: string, pattern: string)
    requires IsPlainName(name) && pattern in Patterns && Matches(name, pattern)
    ensures GetFileType(name) == KindOfExtension(pattern) && GetFileType(name) != Unknown
  {
    var n := |name| - |pattern|;
    var ext := name[n..];
    assert Lower(ext) == pattern;
    assert Lower(ext)[0] == '.';
    forall j | n < j < |name| ensures name[j] != '.' {
      assert Lower(ext)[j - n] == name[j] || 'A' <= name[j] <= 'Z';
      assert pattern[j - n] != '.';
    }
    LastDotAt(name, n);
    LastSepAt(name, -1);
    assert 0 < n && name[0] != '.';
  }

  /** `.xlsm` workbooks are recognised by `get_file_type`, but no pattern finds them in a folder. */
  lemma MacroWorkbookNotFound(name: string)
    requires |name| > 5 && Lower(name[|name| - 5..]) == ".xlsm"
    ensures forall p :: p in Patterns ==> !Matches(name, p)
  {
    var l := Lower(name[|name| - 5..]);
    assert Lower(name[|name| - 4..]) == l[1..];
    assert Lower(name[|name| - 3..]) == l[2..];
  }

  // ---------------------------------------------------------------------
  // The directory loop

  /** Office lock files: names starting with `~$`. */
  predicate IsTemporary(name: string) {
    |name| >= 2 && name[0] == '~' && name[1] == '$'
  }

  /** A truthy output path. */
  predicate Succeeded(out: Option<string>) {
    out.Some? && out.value != []
  }

  /** The found files that are not lock files. */
  function Candidates(files: seq<string>): seq<string> {
    if files == [] then []
    else (if IsTemporary(files[0]) then [] else [files[0]]) + Candidates(files[1..])
  }

  /** The candidates whose processing succeeded (`want`) or failed (`!want`), in order. */
  function Outcome(files: seq<string>, folder: string, process: string -> Option<string>, want: bool): seq<string> {
    if files == [] then []
    else (if Succeeded(process(JoinPath(folder, files[0]))) == want then [files[0]] else [])
         + Outcome(files[1..], folder, process, want)
  }

  /** Lock files are dropped, every other found file is kept. */
  lemma {:induction false} CandidatesMembers(files: seq<string>)
    ensures forall n :: n in Candidates(files) <==> n in files && !IsTemporary(n)
  {
    if files != [] {
      CandidatesMembers(files[1..]);
      assert files == [files[0]] + files[1..];
    }
  }

  /** A file is in the succeeded (failed) list exactly when its processing succeeded (failed). */
  lemma {:induction false} OutcomeMembers(files: seq<string>, folder: string, process: string -> Option<string>, want: bool)
    ensures forall n :: n in Outcome(files, folder, process, want) <==> n in files && Succeeded(process(JoinPath(folder, n))) == want
  {
    if files != [] {
      OutcomeMembers(files[1..], folder, process, want);
      assert files == [files[0]] + files[1..];
    }
  }

  /** The `(successful_files, failed_files)` pair `process_directory` returns. */
  function DirectoryResult(folderExists: bool, folder: string, listing: seq<string>, process: string -> Option<string>)
    : (seq<string>, seq<string>)
  {
    if !folderExists then ([], [])
    else
      var files := Candidates(AllFiles(listing));
      (Outcome(files, folder, process, true), Outcome(files, folder, process, false))
  }

  /** The loop over a prefix of the found files. */
  function LoopResult(files: seq<string>, folder: string, process: string -> Option<string>): (seq<string>, seq<string>)
  {
    if files == [] then ([], [])
    else
      var prev := LoopResult(files[..|files| - 1], folder, process);
      var name := files[|files| - 1];
      if IsTemporary(name) then prev
      else if Succeeded(process(JoinPath(folder, name))) then (prev.0 + [name], prev.1)
      else (prev.0, prev.1 + [name])
  }

  lemma OutcomeSnoc(files: seq<string>, name: string, folder: string, process: string -> Option<string>, want: bool)
    ensures Outcome(files + [name], folder, process, want)
         == Outcome(files, folder, process, want) + (if Succeeded(process(JoinPath(folder, name))) == want then [name] else [])
  {
    if files != [] {
      assert (files + [name])[1..] == files[1..] + [name];
      OutcomeSnoc(files[1..], name, folder, process, want);
    }
  }

  lemma CandidatesSnoc(files: seq<string>, name: string)
    ensures Candidates(files + [name]) == Candidates(files) + (if IsTemporary(name) then [] else [name])
  {
    if files != [] {
      assert (files + [name])[1..] == files[1..] + [name];
      CandidatesSnoc(files[1..], name);
    }
  }

  /** The one-pass loop computes the two filters: each non-temporary file lands in exactly one list, in order. */
  lemma {:induction false} LoopIsPartition(files: seq<string>, folder: string, process: string -> Option<string>)
    ensures LoopResult(files, folder, process)
         == (Outcome(Candidates(files), folder, process, true), Outcome(Candidates(files), folder, process, false))
  {
    if files != [] {
      var init := files[..|files| - 1];
      var name := files[|files| - 1];
      assert files == init + [name];
      LoopIsPartition(init, folder, process);
      CandidatesSnoc(init, name);
      var prev := LoopResult(init, folder, process);
      var c := Candidates(init);
      if IsTemporary(name) {
        assert LoopResult(files, folder, process) == prev;
        assert Candidates(files) == c;
      } else {
        assert Candidates(files) == c + [name];
        OutcomeSnoc(c, name, folder, process, true);
        OutcomeSnoc(c, name, folder, process, false);
        if Succeeded(process(JoinPath(folder, name))) {
          assert LoopResult(files, folder, process) == (prev.0 + [name], prev.1);
          assert Outcome(c, folder, process, false) + [] == Outcome(c, folder, process, false);
        } else {
          assert LoopResult(files, folder, process) == (prev.0, prev.1 + [name]);
          assert Outcome(c, folder, process, true) + [] == Outcome(c, folder, process, true);
        }
      }
    }
  }

  /** Nothing is lost or counted twice: the two lists together are as long as the non-temporary files found. */
  lemma {:induction false} OutcomeCounts(files: seq<string>, folder: string, process: string -> Option<string>)
    ensures |Outcome(files, folder, process, true)| + |Outcome(files, folder, process, false)| == |files|
  {
    if files != [] {
      OutcomeCounts(files[1..], folder, process);
    }
  }

  /** `process_directory`. */
  method ProcessDirectory(folderExists: bool, folder: string, listing: seq<string>, process: string -> Option<string>)
    returns (successful: seq<string>, failed: seq<string>)
    ensures (successful, failed) == DirectoryResult(folderExists, folder, listing, process)
  {
    if !folderExists {
      return [], [];
    }
    var allFiles := AllFiles(listing);
    if allFiles == [] {
      return [], [];
    }
    successful, failed := [], [];
    var i := 0;
    while i < |allFiles|
      invariant i <= |allFiles|
      invariant (successful, failed) == LoopResult(allFiles[..i], folder, process)
    {
      var name := allFiles[i];
      assert allFiles[..i + 1][..i] == allFiles[..i];
      if !IsTemporary(name) {
        var output := process(JoinPath(folder, name));
        if Succeeded(output) {
          successful := successful + [name];
        } else {
          failed := failed + [name];
        }
      }
      i := i + 1;
    }
    assert allFiles[..i] == allFiles;
    LoopIsPartition(allFiles, folder, process);
  }

  /** The summary `process_directory` reports: every found non-temporary file is in exactly one list. */
  lemma DirectoryPartition(folderExists: bool, folder: string, listing: seq<string>, process: string -> Option<string>)
    ensures var (ok, bad) := DirectoryResult(folderExists, folder, listing, process);
            && (!folderExists ==> ok == [] && bad == [])
            && (folderExists ==> |ok| + |bad| == |Candidates(AllFiles(listing))|)
            && (forall n :: n in ok ==> n in listing && !IsTemporary(n) && Succeeded(process(JoinPath(folder, n))))
            && (forall n :: n in bad ==> n in listing && !IsTemporary(n) && !Succeeded(process(JoinPath(folder, n))))
            && (folderExists ==> forall n :: n in AllFiles(listing) && !IsTemporary(n) ==> n in ok || n in bad)
  {
    if folderExists {
      var files := Candidates(AllFiles(listing));
      OutcomeCounts(files, folder, process);
      CandidatesMembers(AllFiles(listing));
      OutcomeMembers(files, folder, process, true);
      OutcomeMembers(files, folder, process, false);
      forall n | n in AllFiles(listing) ensures n in listing {
        AllFilesMembers(listing, n);
      }
    }
  }
}
