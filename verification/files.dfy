/** Classification of the selected files: the category a file is counted
    under, whether its name marks a supported format, which extractor its
    extension dispatches to, and the checks that run before any file is read. */
module Files {
  import opened Wrappers
  import opened Text

  /** A file from the folder picker: its path relative to the picked folder's
      parent (`webkitRelativePath`) and its own name. */
  datatype SelectedFile = SelectedFile(relativePath: string, name: string)

  /** Category of a file that sits at the top of the selection. */
  const RootCategory: string := "Ra\U{ED}z"

  /** The parent folder of the file: the second-to-last `/`-separated segment,
      or the root category when the path has a single segment. */
  function Category(path: string): (c: string)
    ensures '/' !in path ==> c == RootCategory
    ensures '/' !in c
  {
    var parts := Split(path, '/');
    if |parts| > 1 then parts[|parts| - 2] else RootCategory
  }

  /** A path with a separator is `prefix + category + "/" + last`, where `last`
      is the file's own segment and `prefix` is empty or ends at a separator. */
  lemma CategoryIsParentFolder(path: string)
    requires '/' in path
    ensures exists pre, last ::
      && path == pre + Category(path) + "/" + last
      && '/' !in last
      && (pre == "" || pre[|pre| - 1] == '/')
  {
    var parts := Split(path, '/');
    var n := |parts|;
    assert n >= 2;
    var last := parts[n - 1];
    var pre := JoinLastTwo(parts);
    assert path == pre + Category(path) + "/" + last;
    assert '/' !in last;
  }

  /** A join of two or more pieces ends with the last two, after a prefix that
      is empty or ends at a separator. */
  lemma JoinLastTwo(parts: seq<string>) returns (pre: string)
    requires |parts| >= 2
    ensures Join(parts, "/") == pre + parts[|parts| - 2] + "/" + parts[|parts| - 1]
    ensures pre == "" || pre[|pre| - 1] == '/'
  {
    var n := |parts|;
    var c, last := parts[n - 2], parts[n - 1];
    if n == 2 {
      pre := "";
      assert parts == [c, last];
      assert Join(parts, "/") == c + "/" + last;
    } else {
      var front := parts[..n - 2];
      pre := Join(front, "/") + "/";
      assert parts == front + [c, last];
      JoinAppend(front, [c, last], "/");
      assert Join([c, last], "/") == c + "/" + last;
    }
  }

  /** The three supported extensions, with their dot. */
  const SupportedSuffixes: seq<string> := [".pdf", ".docx", ".pptx"]

  predicate EndsWithIgnoringCase(name: string, suffix: string) {
    |suffix| <= |name| && Lower(name[|name| - |suffix|..]) == suffix
  }

  /** The name matches `/\.(pdf|docx|pptx)$/i`; only ASCII letters fold case
      under that flag, so ASCII lower-casing decides the match. */
  predicate IsSupported(name: string) {
    exists i :: 0 <= i < |SupportedSuffixes| && EndsWithIgnoringCase(name, SupportedSuffixes[i])
  }

  /** The dispatch key: the last `.`-separated segment, lower-cased. */
  function Extension(name: string): string {
    var parts := Split(name, '.');
    Lower(parts[|parts| - 1])
  }

  datatype Format = Pdf | Docx | Pptx

  function FormatOf(ext: string): Option<Format> {
    if ext == "pdf" then Some(Pdf)
    else if ext == "docx" then Some(Docx)
    else if ext == "pptx" then Some(Pptx)
    else None
  }

  /** A name ending in `.` plus a dot-free `ext` (ignoring case) has extension `ext`. */
  lemma ExtensionOfSuffix(name: string, suffix: string)
    requires |suffix| >= 1 && suffix[0] == '.' && '.' !in suffix[1..]
    requires EndsWithIgnoringCase(name, suffix)
    ensures Extension(name) == suffix[1..]
  {
    var k := |name| - |suffix|;
    var t := name[k + 1..];
    DotBeforeSuffix(name, suffix);
    assert name == name[..k] + ['.'] + t;
    SplitLast(name[..k], '.', t);
  }

  /** Under the same conditions the name has a `.` where the suffix starts, and
      what follows it is dot-free and lower-cases to the rest of the suffix. */
  lemma DotBeforeSuffix(name: string, suffix: string)
    requires |suffix| >= 1 && suffix[0] == '.' && '.' !in suffix[1..]
    requires EndsWithIgnoringCase(name, suffix)
    ensures var k := |name| - |suffix|;
      name[k] == '.' && '.' !in name[k + 1..] && Lower(name[k + 1..]) == suffix[1..]
  {
    var k := |name| - |suffix|;
    var t := name[k + 1..];
    assert Lower(name[k..])[0] == '.';
    assert Lower(name[k..])[1..] == Lower(t);
    assert '.' !in t by {
      forall j | 0 <= j < |t| ensures t[j] != '.' {
        assert Lower(t)[j] == suffix[j + 1];
      }
    }
  }

  /** Every supported file reaches an extractor: its extension is one of the three. */
  lemma SupportedDispatches(name: string)
    requires IsSupported(name)
    ensures FormatOf(Extension(name)).Some?
  {
    var i :| 0 <= i < |SupportedSuffixes| && EndsWithIgnoringCase(name, SupportedSuffixes[i]);
    var suffix := SupportedSuffixes[i];
    if i == 0 {
      assert suffix == ".pdf" && suffix[1..] == "pdf";
    } else if i == 1 {
      assert suffix == ".docx" && suffix[1..] == "docx";
    } else {
      assert suffix == ".pptx" && suffix[1..] == "pptx";
    }
    ExtensionOfSuffix(name, suffix);
  }

  /** The supported files, in selection order. */
  function SupportedFiles(files: seq<SelectedFile>): (r: seq<SelectedFile>)
    ensures forall i :: 0 <= i < |r| ==> IsSupported(r[i].name) && r[i] in files
    ensures forall f :: f in files && IsSupported(f.name) ==> f in r
    ensures |r| <= |files|
  {
    if files == [] then []
    else
      var rest := SupportedFiles(files[1..]);
      if IsSupported(files[0].name) then [files[0]] + rest else rest
  }

  /** The test a selected file must pass to be processed. */
  predicate IsSupportedFile(f: SelectedFile) {
    IsSupported(f.name)
  }

  /** The supported files are the selection filtered by the name test: the
      files that pass, in selection order, repeats kept. */
  lemma {:induction false} SupportedFilesIsFilter(files: seq<SelectedFile>)
    ensures SupportedFiles(files) == Filter(files, IsSupportedFile)
    decreases |files|
  {
    if files != [] {
      SupportedFilesIsFilter(files[1..]);
    }
  }

  datatype PreflightError = NoFolderSelected | NoKeywords | NoSupportedFiles

  /** The checks before analysis, in the order they run; the first that fails
      ends the run before any file is processed. */
  function Preflight(files: seq<SelectedFile>, keywords: seq<string>): (r: Result<seq<SelectedFile>, PreflightError>)
    ensures r == Err(NoFolderSelected) <==> |files| == 0
    ensures r == Err(NoKeywords) <==> |files| > 0 && |keywords| == 0
    ensures r == Err(NoSupportedFiles) <==> |files| > 0 && |keywords| > 0 && (forall f :: f in files ==> !IsSupported(f.name))
    ensures r.Ok? ==> |r.value| > 0 && r.value == SupportedFiles(files)
  {
    if |files| == 0 then Err(NoFolderSelected)
    else if |keywords| == 0 then Err(NoKeywords)
    else
      var supported := SupportedFiles(files);
      if |supported| == 0 then Err(NoSupportedFiles)
      else
        assert supported[0] in files;
        Ok(supported)
  }

}
