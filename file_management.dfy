/**
 * FileManager: where kata blocks are written and how an existing export is
 * read back to seed the ledger. The file system is a map from path to text;
 * POSIX `os.path.splitext` and `os.path.join` are written out, and reading a
 * file splits its text into lines the way Python's text mode does
 * (universal newlines, each line keeping its "\n").
 */
module FileManagement {
  import opened Wrappers
  import opened Text
  import AppState

  // ---------------------------------------------------------------------
  // os.path
  // ---------------------------------------------------------------------

  predicate HasNonDot(s: string) {
    exists k :: 0 <= k < |s| && s[k] != '.'
  }

  /** An extension: empty, or one dot followed by neither dots nor slashes. */
  predicate IsExtension(e: string) {
    e == "" || (e[0] == '.' && forall k :: 0 < k < |e| ==> e[k] != '.' && e[k] != '/')
  }

  lemma LastDotExtension(p: string, dot: int, sep: int)
    requires 0 <= dot < |p| && p[dot] == '.'
    requires forall k :: dot < k < |p| ==> p[k] != '.'
    requires -1 <= sep < dot
    requires forall k :: sep < k < |p| && k >= 0 ==> p[k] != '/'
    ensures IsExtension(p[dot..])
  {
  }

  /**
   * The dot at `d` starts the extension: it is the last dot of the final
   * path component, and something other than a dot comes before it there.
   */
  predicate ExtensionDot(p: string, d: int) {
    && 0 <= d < |p| && p[d] == '.'
    && (forall k :: d < k < |p| ==> p[k] != '.' && p[k] != '/')
    && exists k :: 0 <= k < d && p[k] != '.' && p[k] != '/' && forall m :: k < m < d ==> p[m] != '/'
  }

  /**
   * `os.path.splitext`: the extension starts at the last dot of the final
   * path component, unless only dots come before it in that component.
   */
  function SplitExt(p: string): (r: (string, string))
    ensures r.0 + r.1 == p
    ensures IsExtension(r.1)
    ensures r.0 == "" ==> p == ""
  {
    var sep := RFind(p, '/');
    var dot := RFind(p, '.');
    if dot > sep && HasNonDot(p[sep + 1..dot]) then
      LastDotExtension(p, dot, sep);
      assert dot > 0 by {
        var k :| 0 <= k < |p[sep + 1..dot]| && p[sep + 1..dot][k] != '.';
      }
      (p[..dot], p[dot..])
    else (p, "")
  }

  /**
   * The extension `SplitExt` returns is non-empty exactly when some dot
   * starts an extension, and then it starts at that dot.
   */
  lemma SplitExtDot(p: string, d: int)
    ensures SplitExt(p).1 != "" ==> ExtensionDot(p, |SplitExt(p).0|)
    ensures ExtensionDot(p, d) ==> SplitExt(p).1 != "" && d == |SplitExt(p).0|
  {
    var sep := RFind(p, '/');
    var dot := RFind(p, '.');
    if dot > sep && HasNonDot(p[sep + 1..dot]) {
      ExtensionDotFound(p, sep, dot);
    }
    if ExtensionDot(p, d) {
      ExtensionDotIsLast(p, d);
    }
  }

  /** The last dot after the last separator, with a non-dot before it in between, starts the extension. */
  lemma ExtensionDotFound(p: string, sep: int, dot: int)
    requires sep == RFind(p, '/') && dot == RFind(p, '.')
    requires dot > sep && HasNonDot(p[sep + 1..dot])
    ensures ExtensionDot(p, dot) && dot > 0
  {
    var j :| 0 <= j < |p[sep + 1..dot]| && p[sep + 1..dot][j] != '.';
    var k := sep + 1 + j;
    assert p[k] != '.' && p[k] != '/';
  }

  /** A dot that starts the extension is found by the two `rfind` scans. */
  lemma ExtensionDotIsLast(p: string, d: int)
    requires ExtensionDot(p, d)
    ensures d == RFind(p, '.') && RFind(p, '/') < d && HasNonDot(p[RFind(p, '/') + 1..d])
  {
    RFindAt(p, '.', d);
    var k :| 0 <= k < d && p[k] != '.' && p[k] != '/' && forall m :: k < m < d ==> p[m] != '/';
    RFindBelow(p, '/', k);
    var sep := RFind(p, '/');
    assert p[sep + 1..d][k - sep - 1] == p[k];
  }

  /** `os.path.join(a, b)`: an absolute `b` replaces `a`; otherwise one "/" separates them. */
  function PathJoin(a: string, b: string): (r: string)
    ensures StartsWith(b, "/") ==> r == b
    ensures !StartsWith(b, "/") && (a == "" || EndsWith(a, "/")) ==> r == a + b
    ensures !StartsWith(b, "/") && !(a == "" || EndsWith(a, "/")) ==> r == a + "/" + b
  {
    if StartsWith(b, "/") then b
    else if a == "" || EndsWith(a, "/") then a + b
    else a + "/" + b
  }

  /** The extension `_, ext = os.path.splitext(file_name)` that read_katas filters on. */
  function Extension(fileName: string): string {
    SplitExt(fileName).1
  }

  /** `f"{base_name}-{language}{ext}"`: the language inserted before the extension. */
  function LanguageFileName(fileName: string, language: string): (r: string)
    ensures r == SplitExt(fileName).0 + "-" + language + Extension(fileName)
    ensures |r| == |fileName| + 1 + |language|
    ensures EndsWith(r, "-" + language + Extension(fileName))
    ensures StartsWith(r, "/") <==> StartsWith(fileName, "/")
  {
    var (base, ext) := SplitExt(fileName);
    var r := base + "-" + language + ext;
    assert r[|r| - |"-" + language + ext|..] == "-" + language + ext;
    assert base != "" ==> r[0] == fileName[0];
    assert base == "" ==> fileName == "" && r[0] == '-';
    StartsWithChar(r, '/');
    StartsWithChar(fileName, '/');
    r
  }

  lemma StartsWithChar(s: string, c: char)
    ensures StartsWith(s, [c]) <==> |s| > 0 && s[0] == c
  {
    if |s| > 0 { assert s[..1] == [s[0]]; }
  }

  function LanguageFilePath(repoPath: string, fileName: string, language: string): string {
    PathJoin(repoPath, LanguageFileName(fileName, language))
  }

  lemma LanguageFileNameExample()
    ensures LanguageFileName("katas.md", "python") == "katas-python.md"
  {
    var p := "katas.md";
    assert RFind(p, '/') == -1;
    assert RFind(p, '.') == 5 by { assert p[5] == '.' && p[6] != '.' && p[7] != '.'; }
    assert p[0..5][0] != '.';
    assert p[..5] == "katas" && p[5..] == ".md";
  }

  /** Python truthiness of the optional `language` argument: None and "" are false. */
  predicate Truthy(language: Option<string>) {
    language.Some? && language.value != ""
  }

  /** The file add_kata appends to. */
  function TargetPath(repoPath: string, fileName: string, split: bool, language: Option<string>): string {
    if split && Truthy(language) then LanguageFilePath(repoPath, fileName, language.value)
    else PathJoin(repoPath, fileName)
  }

  /** The language file is chosen exactly when the split flag is set and the language is non-empty. */
  lemma TargetPathChoice(repoPath: string, fileName: string, split: bool, language: Option<string>)
    ensures split && Truthy(language) ==> TargetPath(repoPath, fileName, split, language) == LanguageFilePath(repoPath, fileName, language.value)
    ensures TargetPath(repoPath, fileName, split, language) != PathJoin(repoPath, fileName) <==> split && Truthy(language)
  {
    if split && Truthy(language) {
      var n := LanguageFileName(fileName, language.value);
      assert |PathJoin(repoPath, n)| != |PathJoin(repoPath, fileName)|;
    }
  }

  // ---------------------------------------------------------------------
  // Reading a file as lines
  // ---------------------------------------------------------------------

  /** Text-mode reading: "\r\n" and a lone "\r" both become "\n". */
  function UniversalNewlines(t: string): string {
    if t == [] then []
    else if t[0] == '\r' then
      if |t| > 1 && t[1] == '\n' then "\n" + UniversalNewlines(t[2..]) else "\n" + UniversalNewlines(t[1..])
    else [t[0]] + UniversalNewlines(t[1..])
  }

  /** No "\r" is left after reading, and the text never grows. */
  lemma {:induction false} UniversalNewlinesNoReturn(t: string)
    ensures forall k :: 0 <= k < |UniversalNewlines(t)| ==> UniversalNewlines(t)[k] != '\r'
    ensures |UniversalNewlines(t)| <= |t|
  {
    if t != [] {
      var rest := if t[0] == '\r' && |t| > 1 && t[1] == '\n' then t[2..] else t[1..];
      UniversalNewlinesNoReturn(rest);
      var head := if t[0] == '\r' then "\n" else [t[0]];
      assert UniversalNewlines(t) == head + UniversalNewlines(rest);
      assert forall k :: 1 <= k < |UniversalNewlines(t)| ==> UniversalNewlines(t)[k] == UniversalNewlines(rest)[k - 1];
    }
  }

  /** Text without "\r" is read unchanged. */
  lemma {:induction false} UniversalNewlinesPlain(t: string)
    requires forall k :: 0 <= k < |t| ==> t[k] != '\r'
    ensures UniversalNewlines(t) == t
  {
    if t != [] {
      UniversalNewlinesPlain(t[1..]);
    }
  }

  /** Translation distributes over a concatenation that does not split a "\r\n". */
  lemma {:induction false} UniversalNewlinesAppend(a: string, b: string)
    requires a == [] || b == [] || a[|a| - 1] != '\r' || b[0] != '\n'
    ensures UniversalNewlines(a + b) == UniversalNewlines(a) + UniversalNewlines(b)
  {
    if a == [] {
      assert a + b == b;
    } else {
      var ab := a + b;
      assert ab[0] == a[0];
      if a[0] == '\r' && |a| > 1 && a[1] == '\n' {
        assert ab[1] == '\n';
        assert ab[2..] == a[2..] + b;
        UniversalNewlinesAppend(a[2..], b);
      } else if a[0] == '\r' && |a| == 1 {
        assert ab[1..] == b;
      } else if a[0] == '\r' {
        assert ab[1] == a[1];
        assert ab[1..] == a[1..] + b;
        UniversalNewlinesAppend(a[1..], b);
      } else {
        assert ab[1..] == a[1..] + b;
        UniversalNewlinesAppend(a[1..], b);
      }
    }
  }

  function Concat(lines: seq<string>): string {
    if lines == [] then "" else lines[0] + Concat(lines[1..])
  }

  /** Iterating a text file: each line up to and including its "\n"; the last line may lack one. */
  function SplitLines(t: string): seq<string>
    decreases |t|
  {
    if t == [] then []
    else
      var i := IndexOf(t, '\n');
      if i < 0 then [t] else [t[..i + 1]] + SplitLines(t[i + 1..])
  }

  /** The lines put back together give the text. */
  lemma {:induction false} SplitLinesConcat(t: string)
    ensures Concat(SplitLines(t)) == t
    decreases |t|
  {
    if t != [] {
      var i := IndexOf(t, '\n');
      if i >= 0 {
        SplitLinesConcat(t[i + 1..]);
        assert t[..i + 1] + t[i + 1..] == t;
      }
    }
  }

  /**
   * No line is empty, every line but the last ends with "\n", and no line
   * holds a "\n" before its end.
   */
  predicate LinesShaped(lines: seq<string>) {
    && (forall i :: 0 <= i < |lines| ==> lines[i] != "")
    && (forall i :: 0 <= i < |lines| - 1 ==> lines[i][|lines[i]| - 1] == '\n')
    && (forall i, k :: 0 <= i < |lines| && 0 <= k < |lines[i]| - 1 ==> lines[i][k] != '\n')
  }

  /** The first line ends at its only "\n", if it has one. */
  predicate FirstLineShaped(first: string) {
    first != "" && forall k :: 0 <= k < |first| - 1 ==> first[k] != '\n'
  }

  lemma {:induction false} SplitLinesBreaks(t: string)
    ensures LinesShaped(SplitLines(t))
    decreases |t|
  {
    if t != [] {
      var i := IndexOf(t, '\n');
      if i >= 0 {
        SplitLinesBreaks(t[i + 1..]);
        FirstLine(t, i);
        LinesCons(t[..i + 1], SplitLines(t[i + 1..]));
      } else {
        IndexOfFirst(t, '\n');
        assert FirstLineShaped(t);
        LinesCons(t, []);
      }
    }
  }

  lemma FirstLine(t: string, i: int)
    requires 0 <= i == IndexOf(t, '\n')
    ensures FirstLineShaped(t[..i + 1]) && t[..i + 1][i] == '\n'
  {
    IndexOfFirst(t, '\n');
  }

  /** A first line ending at its only "\n", followed by shaped lines, gives shaped lines. */
  lemma LinesCons(first: string, rest: seq<string>)
    requires FirstLineShaped(first) && LinesShaped(rest)
    requires rest != [] ==> first[|first| - 1] == '\n'
    ensures LinesShaped([first] + rest)
  {
    var lines := [first] + rest;
    assert forall i :: 1 <= i < |lines| ==> lines[i] == rest[i - 1];
  }

  /** Text that ends at a line break splits into its own lines followed by the next text's. */
  lemma {:induction false} SplitLinesAppend(a: string, b: string)
    requires a == "" || a[|a| - 1] == '\n'
    ensures SplitLines(a + b) == SplitLines(a) + SplitLines(b)
  {
    if a == [] {
      assert a + b == b;
    } else {
      var i := IndexOf(a, '\n');
      IndexOfAppend(a, b, '\n');
      SliceAppend(a, b, i + 1);
      SplitLinesAppend(a[i + 1..], b);
      SplitLinesStep(a + b, i, a[..i + 1], a[i + 1..] + b);
      ConsAppend(a[..i + 1], SplitLines(a[i + 1..]), SplitLines(b));
    }
  }

  /** One step of the split: the first line, then the lines of the rest. */
  lemma SplitLinesStep(t: string, i: int, first: string, rest: string)
    requires 0 <= i == IndexOf(t, '\n') && first == t[..i + 1] && rest == t[i + 1..]
    ensures SplitLines(t) == [first] + SplitLines(rest)
  {
  }

  lemma ConsAppend<T>(x: T, p: seq<T>, q: seq<T>)
    ensures [x] + (p + q) == [x] + p + q
  {
  }

  lemma IndexOfAppend(a: string, b: string, c: char)
    requires a != [] && a[|a| - 1] == c
    ensures 0 <= IndexOf(a, c) && IndexOf(a + b, c) == IndexOf(a, c)
    ensures var i := IndexOf(a, c); i + 1 == |a| || a[i + 1..][|a[i + 1..]| - 1] == c
  {
    IndexOfFirst(a, c);
    IndexOfFirst(a + b, c);
    var i := IndexOf(a, c);
    assert forall k :: 0 <= k < |a| ==> (a + b)[k] == a[k];
  }

  lemma SliceAppend<T>(a: seq<T>, b: seq<T>, j: nat)
    requires j <= |a|
    ensures (a + b)[..j] == a[..j] && (a + b)[j..] == a[j..] + b
  {
  }

  /** The lines `for line in f` yields for a file holding `text`. */
  function FileLines(text: string): seq<string> {
    SplitLines(UniversalNewlines(text))
  }

  // ---------------------------------------------------------------------
  // Title lines
  // ---------------------------------------------------------------------

  /** A line that starts with "#" and contains "kyu" in any ASCII case. */
  predicate IsTitleLine(line: string) {
    StartsWith(line, "#") && Contains(Lower(line), "kyu")
  }

  /**
   * The kata name of a title line: the text between the first character and
   * the last "#", stripped, cut at the first "[", stripped again.
   */
  function ExtractTitle(line: string): (r: string)
    ensures Trimmed(r)
    ensures forall k :: 0 <= k < |r| ==> r[k] != '['
    ensures RFind(line, '#') == 0 ==> r == ""
  {
    var inner := PySlice(line, 1, RFind(line, '#'));
    assert RFind(line, '#') == 0 ==> inner == "";
    Strip(SplitFirst(Strip(inner), '['))
  }

  /** What read_katas takes from one line: the extracted name of a title line, nothing otherwise. */
  function TitleOf(line: string): Option<string> {
    if IsTitleLine(line) then Some(ExtractTitle(line)) else None
  }

  /** The names `f` gives for the lines of `lines`, gathered into a set. */
  function Gather(lines: seq<string>, f: string -> Option<string>): set<string> {
    if lines == [] then {}
    else
      var last := f(lines[|lines| - 1]);
      Gather(lines[..|lines| - 1], f) + (if last.Some? then {last.value} else {})
  }

  /** `t` is gathered exactly when some line gives it. */
  lemma {:induction false} GatherIff(lines: seq<string>, f: string -> Option<string>, t: string)
    ensures t in Gather(lines, f) <==> exists i :: 0 <= i < |lines| && f(lines[i]) == Some(t)
  {
    if lines != [] {
      var n := |lines| - 1;
      var init := lines[..n];
      GatherIff(init, f, t);
      if t in Gather(init, f) {
        var i :| 0 <= i < |init| && f(init[i]) == Some(t);
        assert lines[i] == init[i];
      }
      if exists i :: 0 <= i < |lines| && f(lines[i]) == Some(t) {
        var i :| 0 <= i < |lines| && f(lines[i]) == Some(t);
        if i < n {
          assert init[i] == lines[i];
        }
      }
    }
  }

  /** Every line counts, wherever it sits: a "# 6 kyu" comment inside a code fence is read as a title too. */
  lemma GatherAppend(a: seq<string>, b: seq<string>, f: string -> Option<string>)
    ensures Gather(a + b, f) == Gather(a, f) + Gather(b, f)
  {
    forall t ensures t in Gather(a + b, f) <==> t in Gather(a, f) + Gather(b, f) {
      GatherIff(a + b, f, t);
      GatherIff(a, f, t);
      GatherIff(b, f, t);
      if exists i :: 0 <= i < |a + b| && f((a + b)[i]) == Some(t) {
        var i :| 0 <= i < |a + b| && f((a + b)[i]) == Some(t);
        if i >= |a| {
          assert b[i - |a|] == (a + b)[i];
        }
      }
      if exists i :: 0 <= i < |b| && f(b[i]) == Some(t) {
        var i :| 0 <= i < |b| && f(b[i]) == Some(t);
        assert (a + b)[|a| + i] == b[i];
      }
      if exists i :: 0 <= i < |a| && f(a[i]) == Some(t) {
        var i :| 0 <= i < |a| && f(a[i]) == Some(t);
        assert (a + b)[i] == a[i];
      }
    }
  }

  /** A line that gives `t`, wherever it sits, puts `t` among the gathered names. */
  lemma GatherAt(a: seq<string>, x: string, b: seq<string>, f: string -> Option<string>, t: string)
    requires f(x) == Some(t)
    ensures t in Gather(a + [x] + b, f)
  {
    var lines := a + [x] + b;
    assert lines[|a|] == x;
    GatherIff(lines, f, t);
  }

  /** The names extracted from the title lines among `lines`. */
  function TitlesIn(lines: seq<string>): set<string> {
    Gather(lines, TitleOf)
  }

  /** The names read_katas takes from the listed file `name`, if it has the extension and exists. */
  function FileTitles(repoPath: string, ext: string, name: string, files: map<string, string>): set<string> {
    var path := PathJoin(repoPath, name);
    if EndsWith(name, ext) && path in files then TitlesIn(FileLines(files[path])) else {}
  }

  function ScannedTitles(repoPath: string, ext: string, listing: seq<string>, files: map<string, string>): set<string> {
    if listing == [] then {}
    else ScannedTitles(repoPath, ext, listing[..|listing| - 1], files) + FileTitles(repoPath, ext, listing[|listing| - 1], files)
  }

  /** A name is scanned exactly when some listed file with the extension exists and has a title line giving it. */
  lemma {:induction false} ScannedTitlesIff(repoPath: string, ext: string, listing: seq<string>, files: map<string, string>, t: string)
    ensures t in ScannedTitles(repoPath, ext, listing, files) <==>
      exists name :: name in listing && EndsWith(name, ext) && PathJoin(repoPath, name) in files
        && t in TitlesIn(FileLines(files[PathJoin(repoPath, name)]))
  {
    if listing != [] {
      var init := listing[..|listing| - 1];
      ScannedTitlesIff(repoPath, ext, init, files, t);
      assert listing == init + [listing[|listing| - 1]];
    }
  }

  /** Some listed name with the extension joins to `filePath`, which does not exist yet. */
  predicate MainFileMissing(repoPath: string, ext: string, filePath: string, listing: seq<string>, files: map<string, string>) {
    filePath !in files && exists k :: 0 <= k < |listing| && EndsWith(listing[k], ext) && PathJoin(repoPath, listing[k]) == filePath
  }

  /** One more listed file: its titles join the scan, and it may be the missing main file. */
  lemma ScanStep(repoPath: string, ext: string, filePath: string, listing: seq<string>, i: nat, files: map<string, string>)
    requires i < |listing|
    ensures ScannedTitles(repoPath, ext, listing[..i + 1], files)
      == ScannedTitles(repoPath, ext, listing[..i], files) + FileTitles(repoPath, ext, listing[i], files)
    ensures MainFileMissing(repoPath, ext, filePath, listing[..i + 1], files) <==>
      || MainFileMissing(repoPath, ext, filePath, listing[..i], files)
      || (filePath !in files && EndsWith(listing[i], ext) && PathJoin(repoPath, listing[i]) == filePath)
  {
    var pre, cur := listing[..i], listing[..i + 1];
    assert cur[..i] == pre && cur[i] == listing[i];
    forall k | 0 <= k < i ensures cur[k] == pre[k] { }
  }

  /** The inner loop of read_katas over the lines of one file. */
  method ScanLines(lines: seq<string>) returns (titles: set<string>)
    ensures titles == TitlesIn(lines)
    ensures forall t :: t in titles <==> exists i :: 0 <= i < |lines| && IsTitleLine(lines[i]) && ExtractTitle(lines[i]) == t
  {
    titles := {};
    for j := 0 to |lines|
      invariant titles == TitlesIn(lines[..j])
    {
      GatherPrefix(lines, j, TitleOf);
      var line := lines[j];
      if StartsWith(line, "#") && Contains(Lower(line), "kyu") {
        titles := titles + {ExtractTitle(line)};
      }
    }
    assert lines[..|lines|] == lines;
    TitlesInIff(lines);
  }

  /** Gathering one more line of a prefix adds what that line gives. */
  lemma GatherPrefix(lines: seq<string>, j: nat, f: string -> Option<string>)
    requires j < |lines|
    ensures Gather(lines[..j + 1], f)
      == Gather(lines[..j], f) + (if f(lines[j]).Some? then {f(lines[j]).value} else {})
  {
    assert lines[..j + 1][..j] == lines[..j];
  }

  lemma TitlesInIff(lines: seq<string>)
    ensures forall t :: t in TitlesIn(lines) <==>
      exists i :: 0 <= i < |lines| && IsTitleLine(lines[i]) && ExtractTitle(lines[i]) == t
  {
    forall t ensures t in TitlesIn(lines) <==>
      exists i :: 0 <= i < |lines| && IsTitleLine(lines[i]) && ExtractTitle(lines[i]) == t {
      GatherIff(lines, TitleOf, t);
    }
  }

  // ---------------------------------------------------------------------
  // The file system and the manager
  // ---------------------------------------------------------------------

  class FileSystem {
    var files: map<string, string>

    constructor (files: map<string, string>)
      ensures this.files == files
    {
      this.files := files;
    }

    /** What the file at `path` holds; a missing file reads as nothing. */
    function Content(path: string): string
      reads this
    {
      if path in files then files[path] else ""
    }

    /** `open(path, "a").write(text)`: a missing file is created. */
    method Append(path: string, text: string)
      modifies this
      ensures files == old(files)[path := old(Content(path)) + text]
    {
      files := files[path := Content(path) + text];
    }
  }

  class FileManager {
    const repoPath: string
    const fileName: string
    const filePath: string
    var languageFiles: map<string, string>

    /** Every cached path is the one the naming rule gives. */
    ghost predicate Valid()
      reads this
    {
      && filePath == PathJoin(repoPath, fileName)
      && forall language :: language in languageFiles ==> languageFiles[language] == LanguageFilePath(repoPath, fileName, language)
    }

    constructor (repoPath: string, fileName: string)
      ensures Valid()
      ensures this.repoPath == repoPath && this.fileName == fileName && languageFiles == map[]
    {
      this.repoPath := repoPath;
      this.fileName := fileName;
      this.filePath := PathJoin(repoPath, fileName);
      languageFiles := map[];
    }

    /**
     * _get_language_file_path: the first call for a language adds its path
     * to the cache; later calls return the cached path and change nothing.
     */
    method GetLanguageFilePath(language: string) returns (path: string)
      requires Valid()
      modifies this
      ensures Valid()
      ensures path == LanguageFilePath(repoPath, fileName, language)
      ensures languageFiles == old(languageFiles)[language := path]
      ensures language in old(languageFiles) ==> languageFiles == old(languageFiles)
    {
      if language !in languageFiles {
        var (baseName, ext) := SplitExt(fileName);
        var languageFile := baseName + "-" + language + ext;
        languageFiles := languageFiles[language := PathJoin(repoPath, languageFile)];
      }
      path := languageFiles[language];
    }

    /** add_kata: append `content` to the target file; the cache grows only on the language path. */
    method AddKata(content: string, language: Option<string>, state: AppState.ApplicationState, fs: FileSystem)
      requires Valid()
      modifies this, fs
      ensures Valid()
      ensures var target := TargetPath(repoPath, fileName, state.differentFileDependingOnLanguage, language);
        fs.files == old(fs.files)[target := old(fs.Content(target)) + content]
      ensures state.differentFileDependingOnLanguage && Truthy(language) ==>
        languageFiles == old(languageFiles)[language.value := LanguageFilePath(repoPath, fileName, language.value)]
      ensures !(state.differentFileDependingOnLanguage && Truthy(language)) ==> languageFiles == old(languageFiles)
    {
      var targetPath := filePath;
      if state.differentFileDependingOnLanguage && Truthy(language) {
        targetPath := GetLanguageFilePath(language.value);
      }
      fs.Append(targetPath, content);
    }

    /**
     * The first half of read_katas: the names of every title line of every
     * listed file with the main file's extension. A listed file that does
     * not exist is skipped, and created empty when it is the main file.
     */
    method ScanListing(listing: seq<string>, fs: FileSystem) returns (kataSet: set<string>)
      requires Valid()
      modifies fs
      ensures kataSet == ScannedTitles(repoPath, Extension(fileName), listing, old(fs.files))
      ensures fs.files == if MainFileMissing(repoPath, Extension(fileName), filePath, listing, old(fs.files))
        then old(fs.files)[filePath := ""] else old(fs.files)
    {
      kataSet := {};
      var (_, ext) := SplitExt(fileName);
      for i := 0 to |listing|
        invariant kataSet == ScannedTitles(repoPath, ext, listing[..i], old(fs.files))
        invariant fs.files == if MainFileMissing(repoPath, ext, filePath, listing[..i], old(fs.files))
          then old(fs.files)[filePath := ""] else old(fs.files)
      {
        var file := listing[i];
        ScanStep(repoPath, ext, filePath, listing, i, old(fs.files));
        if EndsWith(file, ext) {
          var path := PathJoin(repoPath, file);
          if path in fs.files {
            var titles := ScanLines(FileLines(fs.files[path]));
            if path !in old(fs.files) {
              assert fs.files[path] == "";
              assert titles == {};
            }
            kataSet := kataSet + titles;
          } else if path == filePath {
            fs.files := fs.files[filePath := ""];
          }
        }
      }
      assert listing[..|listing|] == listing;
    }

    /**
     * read_katas: every name scanned from the listed files is pushed;
     * names already pushed keep their places and nothing else in the state changes.
     */
    method ReadKatas(listing: seq<string>, fs: FileSystem, state: AppState.ApplicationState)
      requires Valid() && state.Valid()
      modifies fs, state
      ensures state.Valid()
      ensures old(state.pushedKatas) <= state.pushedKatas
      ensures forall n :: n in state.pushedKatas <==>
        n in old(state.pushedKatas) || n in ScannedTitles(repoPath, Extension(fileName), listing, old(fs.files))
      ensures state.completedKatas == old(state.completedKatas) && state.webDriver == old(state.webDriver)
      ensures state.differentFileDependingOnLanguage == old(state.differentFileDependingOnLanguage)
      ensures fs.files == if MainFileMissing(repoPath, Extension(fileName), filePath, listing, old(fs.files))
        then old(fs.files)[filePath := ""] else old(fs.files)
    {
      var kataSet := ScanListing(listing, fs);
      var filesAfterScan := fs.files;
      var remaining := kataSet;
      while remaining != {}
        invariant remaining <= kataSet
        invariant state.Valid()
        invariant old(state.pushedKatas) <= state.pushedKatas
        invariant forall n :: n in state.pushedKatas <==> n in old(state.pushedKatas) || n in kataSet - remaining
        invariant state.completedKatas == old(state.completedKatas) && state.webDriver == old(state.webDriver)
        invariant state.differentFileDependingOnLanguage == old(state.differentFileDependingOnLanguage)
        invariant fs.files == filesAfterScan
        decreases |remaining|
      {
        var kataName :| kataName in remaining;
        state.AddPushedKata(kataName);
        remaining := remaining - {kataName};
      }
    }
  }
}
