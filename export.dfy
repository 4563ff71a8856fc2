/**
 * What main.py writes: the text block save_and_commit_kata builds for a
 * kata, appended through FileManager.add_kata, and the loop of main that
 * saves the scraped katas one after the other. The heading line of a block
 * is read back by the seeding parser of read_katas, so a kata exported once
 * is known as pushed the next time the program reads its files.
 */
module Export {
  import opened Wrappers
  import opened Text
  import opened Katas
  import opened FileManagement
  import AppState
  import WebScraper

  // ---------------------------------------------------------------------
  // The block
  // ---------------------------------------------------------------------

  /** The first line of a block, without its "\n": `# {name} [{level}] #{n}`. */
  function HeadingLine(k: Kata, n: int): string {
    "# " + k.name + " [" + k.level + "] #" + IntToString(n)
  }

  /** What follows the heading line: a blank line, the fenced code, a blank line. */
  function BlockBody(k: Kata): string {
    "\n```" + k.language + "\n" + k.code + "\n```\n\n"
  }

  /** The content string of save_and_commit_kata: the heading line, then the body. */
  function ExportBlock(k: Kata, n: int): string {
    HeadingLine(k, n) + "\n" + BlockBody(k)
  }

  /** A block starts with its heading line and "#", and ends with the closing fence and a blank line. */
  lemma ExportBlockShape(k: Kata, n: int)
    ensures var r := ExportBlock(k, n);
      && StartsWith(r, HeadingLine(k, n) + "\n")
      && EndsWith(r, "\n```\n\n")
      && r[0] == '#' && r[|r| - 1] == '\n'
  {
    var r := ExportBlock(k, n);
    assert r[..|HeadingLine(k, n)| + 1] == HeadingLine(k, n) + "\n";
    assert r[|r| - |"\n```\n\n"|..] == "\n```\n\n";
  }

  lemma ExportBlockExample()
    ensures ExportBlock(Kata("Two Sum", "6 kyu", "python", "pass"), 0)
      == "# Two Sum [6 kyu] #0" + "\n" + "\n```python\npass\n```\n\n"
  {
    var k := Kata("Two Sum", "6 kyu", "python", "pass");
    HeadingExample(k);
    BodyExample(k);
    Concat3(HeadingLine(k, 0), "\n", BlockBody(k), "# Two Sum [6 kyu] #0", "\n", "\n```python\npass\n```\n\n");
  }

  lemma HeadingExample(k: Kata)
    requires k == Kata("Two Sum", "6 kyu", "python", "pass")
    ensures HeadingLine(k, 0) == "# Two Sum [6 kyu] #0"
  {
    assert IntToString(0) == "0";
  }

  lemma BodyExample(k: Kata)
    requires k == Kata("Two Sum", "6 kyu", "python", "pass")
    ensures BlockBody(k) == "\n```python\npass\n```\n\n"
  {
  }

  lemma Concat3<T>(a: seq<T>, b: seq<T>, c: seq<T>, x: seq<T>, y: seq<T>, z: seq<T>)
    requires a == x && b == y && c == z
    ensures a + b + c == x + y + z
  {
  }

  predicate NoLineBreak(s: string) {
    forall i :: 0 <= i < |s| ==> s[i] != '\n' && s[i] != '\r'
  }

  /** Empty text, or text whose last character is "\n": the next text starts a line. */
  predicate EndsAtLineBreak(s: string) {
    s == "" || s[|s| - 1] == '\n'
  }

  /**
   * A kata whose heading the seeding parser gives back unchanged: its level
   * contains "kyu" in some case, and its name is already stripped, has no
   * "[" and, like the level, no line break.
   */
  predicate RoundTrips(k: Kata) {
    && Contains(Lower(k.level), "kyu")
    && Trimmed(k.name)
    && (forall i :: 0 <= i < |k.name| ==> k.name[i] != '[')
    && NoLineBreak(k.name)
    && NoLineBreak(k.level)
  }

  // ---------------------------------------------------------------------
  // The heading line read back
  // ---------------------------------------------------------------------

  /** The heading line starts with "#", so it is a title line whenever the level mentions "kyu". */
  lemma HeadingIsTitleLine(k: Kata, n: int, tail: string)
    requires Contains(Lower(k.level), "kyu")
    ensures IsTitleLine(HeadingLine(k, n) + tail)
  {
    var a := "# " + k.name + " [";
    var b := "] #" + IntToString(n) + tail;
    var line := HeadingLine(k, n) + tail;
    assert line == a + k.level + b;
    LowerAppend(a + k.level, b);
    LowerAppend(a, k.level);
    ContainsAppend(Lower(a), Lower(k.level), "kyu");
    ContainsPrepend(Lower(a) + Lower(k.level), Lower(b), "kyu");
    assert line[..1] == "#";
  }

  /** `s.split('[')[0]` of `name + " [" + level + "]"` is `name + " "` when the name has no "[". */
  lemma SplitAtBracket(name: string, level: string)
    requires forall i :: 0 <= i < |name| ==> name[i] != '['
    ensures SplitFirst(name + " [" + level + "]", '[') == name + " "
  {
    var s := name + " [" + level + "]";
    var r := SplitFirst(s, '[');
    assert s[..|r|] == r;
    assert s[|name|] == ' ' && s[|name| + 1] == '[';
    assert forall i :: 0 <= i < |name| ==> s[i] == name[i];
    assert |r| == |name| + 1;
    assert r == s[..|name| + 1];
    assert s[..|name| + 1] == name + " ";
  }

  /** `rfind` finds the last character of `pre` when what follows does not hold that character. */
  lemma RFindBefore(pre: string, mid: string, post: string, c: char)
    requires pre != [] && pre[|pre| - 1] == c
    requires forall i :: 0 <= i < |mid| ==> mid[i] != c
    requires forall i :: 0 <= i < |post| ==> post[i] != c
    ensures RFind(pre + mid + post, c) == |pre| - 1
  {
    var s := pre + mid + post;
    assert s[|pre| - 1] == c;
    forall i | |pre| <= i < |s| ensures s[i] != c {
      if i < |pre| + |mid| {
        assert s[i] == mid[i - |pre|];
      } else {
        assert s[i] == post[i - |pre| - |mid|];
      }
    }
  }

  /** The last "#" of a heading line is the one before the number. */
  lemma HeadingLastHash(k: Kata, n: int, tail: string)
    requires forall i :: 0 <= i < |tail| ==> tail[i] != '#'
    ensures RFind(HeadingLine(k, n) + tail, '#') == |"# " + k.name + " [" + k.level + "] "|
  {
    var digits := IntToString(n);
    assert forall i :: 0 <= i < |digits| ==> digits[i] != '#';
    RFindBefore("# " + k.name + " [" + k.level + "] #", digits, tail, '#');
  }

  /** The text between the first character and the last "#" of a heading line. */
  lemma HeadingInner(k: Kata, n: int, tail: string)
    requires forall i :: 0 <= i < |tail| ==> tail[i] != '#'
    ensures var line := HeadingLine(k, n) + tail;
      PySlice(line, 1, RFind(line, '#')) == " " + k.name + " [" + k.level + "] "
  {
    HeadingLastHash(k, n, tail);
    var line := HeadingLine(k, n) + tail;
    var p := |"# " + k.name + " [" + k.level + "] "|;
    assert line[1..p] == " " + k.name + " [" + k.level + "] ";
  }

  /** strip, split at "[", strip again: applied to the inner text, it gives the name back. */
  lemma InnerTitle(name: string, level: string)
    requires Trimmed(name) && forall i :: 0 <= i < |name| ==> name[i] != '['
    ensures Strip(SplitFirst(Strip(" " + name + " [" + level + "] "), '[')) == name
  {
    if name == "" {
      InnerTitleUnnamed(name, level);
    } else {
      StripInner(name, level);
      SplitAtBracket(name, level);
      StripTrailingSpace(name);
    }
  }

  lemma InnerTitleUnnamed(name: string, level: string)
    requires name == ""
    ensures Strip(SplitFirst(Strip(" " + name + " [" + level + "] "), '[')) == ""
  {
    var core := "[" + level + "]";
    assert " " + name + " [" + level + "] " == "  " + core + " ";
    StripPadded("  ", core, " ");
    var r := SplitFirst(core, '[');
    assert r == "";
    StripTrimmed("");
  }

  lemma StripInner(name: string, level: string)
    requires name != "" && Trimmed(name)
    ensures Strip(" " + name + " [" + level + "] ") == name + " [" + level + "]"
  {
    var core := name + " [" + level + "]";
    assert " " + name + " [" + level + "] " == " " + core + " ";
    StripPadded(" ", core, " ");
  }

  lemma StripTrailingSpace(name: string)
    requires Trimmed(name)
    ensures Strip(name + " ") == name
  {
    assert "" + name + " " == name + " ";
    StripPadded("", name, " ");
  }

  /** The name extractor recovers the name from the heading line, whatever follows without a "#". */
  lemma HeadingTitle(k: Kata, n: int, tail: string)
    requires Trimmed(k.name) && forall i :: 0 <= i < |k.name| ==> k.name[i] != '['
    requires forall i :: 0 <= i < |tail| ==> tail[i] != '#'
    ensures ExtractTitle(HeadingLine(k, n) + tail) == k.name
  {
    HeadingInner(k, n, tail);
    InnerTitle(k.name, k.level);
  }

  /** Text that ends at a line break ("\n" or "\r") still ends with "\n" once read. */
  lemma {:induction false} UniversalNewlinesLineEnd(t: string)
    requires t != [] && (t[|t| - 1] == '\n' || t[|t| - 1] == '\r')
    ensures UniversalNewlines(t) != [] && UniversalNewlines(t)[|UniversalNewlines(t)| - 1] == '\n'
  {
    if t[0] == '\r' && |t| > 1 && t[1] == '\n' {
      if |t| > 2 {
        UniversalNewlinesLineEnd(t[2..]);
      }
    } else if |t| > 1 {
      UniversalNewlinesLineEnd(t[1..]);
    }
  }

  /** The lines of a block: the heading line with its "\n", then the lines of the body. */
  lemma BlockLines(k: Kata, n: int)
    requires NoLineBreak(k.name) && NoLineBreak(k.level)
    ensures FileLines(ExportBlock(k, n)) == [HeadingLine(k, n) + "\n"] + FileLines(BlockBody(k))
  {
    HeadingNoBreak(k, n);
    FirstLineOf(HeadingLine(k, n), BlockBody(k));
  }

  lemma HeadingNoBreak(k: Kata, n: int)
    requires NoLineBreak(k.name) && NoLineBreak(k.level)
    ensures NoLineBreak(HeadingLine(k, n))
  {
    var h := HeadingLine(k, n);
    var digits := IntToString(n);
    forall i | 0 <= i < |h| ensures h[i] != '\n' && h[i] != '\r' {
      var a := |"# " + k.name + " [" + k.level + "] #"|;
      if i >= a {
        assert h[i] == digits[i - a];
      } else if 2 <= i < 2 + |k.name| {
        assert h[i] == k.name[i - 2];
      } else if 4 + |k.name| <= i < 4 + |k.name| + |k.level| {
        assert h[i] == k.level[i - 4 - |k.name|];
      }
    }
  }

  /** Text made of a line without a break, "\n", and the rest reads as that line, then the rest's lines. */
  lemma FirstLineOf(line: string, rest: string)
    requires NoLineBreak(line)
    ensures FileLines(line + "\n" + rest) == [line + "\n"] + FileLines(rest)
  {
    var h := line + "\n";
    assert forall i :: 0 <= i < |h| - 1 ==> h[i] == line[i];
    UniversalNewlinesPlain(h);
    UniversalNewlinesAppend(h, rest);
    SplitLinesAppend(h, UniversalNewlines(rest));
    OneLine(h);
  }

  /** A line whose only "\n" is its last character splits into itself. */
  lemma OneLine(h: string)
    requires h != [] && h[|h| - 1] == '\n'
    requires forall i :: 0 <= i < |h| - 1 ==> h[i] != '\n'
    ensures SplitLines(h) == [h]
  {
    IndexOfFirst(h, '\n');
    assert IndexOf(h, '\n') == |h| - 1;
    assert h[..|h|] == h && h[|h|..] == [];
  }

  /** Reading `before + blk + after` translates the three parts on their own. */
  lemma NewlinesAround(before: string, blk: string, after: string)
    requires blk != "" && blk[0] != '\n' && blk[|blk| - 1] == '\n'
    ensures UniversalNewlines(before + blk + after)
      == UniversalNewlines(before) + UniversalNewlines(blk) + UniversalNewlines(after)
  {
    assert (before + blk)[|before + blk| - 1] == blk[|blk| - 1];
    UniversalNewlinesAppend(before + blk, after);
    UniversalNewlinesAppend(before, blk);
  }

  /** Reading `before + blk + after` when `before` and `blk` end at a line break and `blk` starts a line. */
  lemma LinesAround(before: string, blk: string, after: string)
    requires EndsAtLineBreak(before)
    requires blk != "" && blk[0] != '\n' && blk[|blk| - 1] == '\n'
    ensures FileLines(before + blk + after)
      == SplitLines(UniversalNewlines(before)) + FileLines(blk) + SplitLines(UniversalNewlines(after))
  {
    NewlinesAround(before, blk, after);
    var ub, uk, ua := UniversalNewlines(before), UniversalNewlines(blk), UniversalNewlines(after);
    ReadLineEnds(before, blk);
    assert FileLines(before + blk + after) == SplitLines(ub + uk + ua);
    LinesOfThree(ub, uk, ua);
  }

  /** Texts that end at a line break still do once read. */
  lemma ReadLineEnds(before: string, blk: string)
    requires EndsAtLineBreak(before)
    requires blk != "" && blk[|blk| - 1] == '\n'
    ensures EndsAtLineBreak(UniversalNewlines(before))
    ensures UniversalNewlines(blk) != "" && UniversalNewlines(blk)[|UniversalNewlines(blk)| - 1] == '\n'
  {
    UniversalNewlinesLineEnd(blk);
    if before != "" {
      UniversalNewlinesLineEnd(before);
    } else {
      assert UniversalNewlines(before) == "";
    }
  }

  lemma LinesOfThree(a: string, b: string, c: string)
    requires a == "" || a[|a| - 1] == '\n'
    requires b != "" && b[|b| - 1] == '\n'
    ensures SplitLines(a + b + c) == SplitLines(a) + SplitLines(b) + SplitLines(c)
  {
    assert (a + b)[|a + b| - 1] == b[|b| - 1];
    SplitLinesAppend(a + b, c);
    SplitLinesAppend(a, b);
  }

  /** A line that is a title line giving `t`, anywhere among the lines, puts `t` among the titles. */
  lemma TitleAt(a: seq<string>, line: string, b: seq<string>, t: string)
    requires TitleOf(line) == Some(t)
    ensures t in TitlesIn(a + [line] + b)
  {
    GatherAt(a, line, b, TitleOf, t);
  }

  /**
   * A block appended after text that is empty or ends at a line break, and
   * followed by anything, gives back the kata's name to the seeding parser.
   */
  lemma SavedTitleRecovered(before: string, k: Kata, n: int, after: string)
    requires EndsAtLineBreak(before)
    requires RoundTrips(k)
    ensures k.name in TitlesIn(FileLines(before + ExportBlock(k, n) + after))
  {
    ExportBlockShape(k, n);
    BlockLines(k, n);
    TitleOfHeading(k, n);
    TitleInBlock(before, ExportBlock(k, n), after, HeadingLine(k, n) + "\n", FileLines(BlockBody(k)), k.name);
  }

  /** A block whose first line is a title line, placed at a line start, contributes that title. */
  lemma TitleInBlock(before: string, blk: string, after: string, h: string, body: seq<string>, title: string)
    requires EndsAtLineBreak(before)
    requires blk != "" && blk[0] != '\n' && blk[|blk| - 1] == '\n'
    requires FileLines(blk) == [h] + body && TitleOf(h) == Some(title)
    ensures title in TitlesIn(FileLines(before + blk + after))
  {
    LinesAround(before, blk, after);
    TitleAmong(FileLines(before + blk + after), SplitLines(UniversalNewlines(before)), h, body,
      SplitLines(UniversalNewlines(after)), title);
  }

  /** A title line among lines arranged as `a`, then `h` followed by `body`, then `c`. */
  lemma TitleAmong(lines: seq<string>, a: seq<string>, h: string, body: seq<string>, c: seq<string>, title: string)
    requires lines == a + ([h] + body) + c && TitleOf(h) == Some(title)
    ensures title in TitlesIn(lines)
  {
    Regroup(a, h, body, c);
    TitleAt(a, h, body + c, title);
  }

  lemma Regroup<T>(a: seq<T>, x: T, b: seq<T>, c: seq<T>)
    ensures a + ([x] + b) + c == a + [x] + (b + c)
  {
    assert a + ([x] + b) + c == a + ([x] + (b + c));
  }

  /** The heading line, as a file line, is a title line giving the name. */
  lemma TitleOfHeading(k: Kata, n: int)
    requires RoundTrips(k)
    ensures TitleOf(HeadingLine(k, n) + "\n") == Some(k.name)
  {
    HeadingIsTitleLine(k, n, "\n");
    HeadingTitle(k, n, "\n");
  }

  /** The heading line of "Two Sum", as a file line, gives "Two Sum" back. */
  lemma HeadingTitleExample()
    ensures ExtractTitle(HeadingLine(Kata("Two Sum", "6 kyu", "python", "pass"), 0) + "\n") == "Two Sum"
  {
    var name := "Two Sum";
    assert Trimmed(name) && forall i :: 0 <= i < |name| ==> name[i] != '[';
    HeadingTitle(Kata(name, "6 kyu", "python", "pass"), 0, "\n");
  }

  // ---------------------------------------------------------------------
  // Saving
  // ---------------------------------------------------------------------

  /** The file add_kata appends a kata's block to. */
  function Target(repoPath: string, fileName: string, split: bool, k: Kata): string {
    TargetPath(repoPath, fileName, split, Some(k.language))
  }

  /** What a file holds; a missing file reads as empty. */
  function ContentOf<P, C>(files: map<P, seq<C>>, path: P): seq<C> {
    if path in files then files[path] else []
  }

  /** One append: a path and the text added at its end. */
  type Write = (string, string)

  /** The files after the writes, applied in order; a missing file starts empty. */
  function Appends<P, C>(files: map<P, seq<C>>, writes: seq<(P, seq<C>)>): map<P, seq<C>> {
    if writes == [] then files
    else
      var prev := Appends(files, writes[..|writes| - 1]);
      var (path, text) := writes[|writes| - 1];
      prev[path := ContentOf(prev, path) + text]
  }

  /** The files after one more write. */
  lemma AppendsSnoc<P, C>(files: map<P, seq<C>>, ws: seq<(P, seq<C>)>, i: nat)
    requires i < |ws|
    ensures var prev := Appends(files, ws[..i]);
      Appends(files, ws[..i + 1]) == prev[ws[i].0 := ContentOf(prev, ws[i].0) + ws[i].1]
  {
    assert ws[..i + 1][..i] == ws[..i];
  }

  /** Every text written ends at a line break. */
  predicate LineTerminated(ws: seq<Write>) {
    forall j :: 0 <= j < |ws| ==> ws[j].1 != "" && ws[j].1[|ws[j].1| - 1] == '\n'
  }

  /** The texts of the writes to `path`, in order. */
  function TextsTo<P(==), C>(writes: seq<(P, seq<C>)>, path: P): seq<seq<C>> {
    if writes == [] then []
    else
      var w := writes[|writes| - 1];
      TextsTo(writes[..|writes| - 1], path) + if w.0 == path then [w.1] else []
  }

  /** The texts one after the other. */
  function Glue<C>(texts: seq<seq<C>>): seq<C> {
    if texts == [] then [] else Glue(texts[..|texts| - 1]) + texts[|texts| - 1]
  }

  /** The writes main performs: each kata's block, numbered `n`, to the kata's target file. */
  function Writes(repoPath: string, fileName: string, split: bool, n: int, katas: seq<Kata>): (ws: seq<Write>)
    ensures |ws| == |katas|
    ensures forall i :: 0 <= i < |katas| ==> ws[i] == (Target(repoPath, fileName, split, katas[i]), ExportBlock(katas[i], n))
  {
    seq(|katas|, i requires 0 <= i < |katas| => (Target(repoPath, fileName, split, katas[i]), ExportBlock(katas[i], n)))
  }

  lemma {:induction false} TextsToAppend<P, C>(a: seq<(P, seq<C>)>, b: seq<(P, seq<C>)>, path: P)
    ensures TextsTo(a + b, path) == TextsTo(a, path) + TextsTo(b, path)
  {
    if b != [] {
      var init := b[..|b| - 1];
      assert (a + b)[..|a + b| - 1] == a + init;
      assert (a + b)[|a + b| - 1] == b[|b| - 1];
      TextsToAppend(a, init, path);
    } else {
      assert a + b == a;
    }
  }

  lemma {:induction false} GlueAppend<C>(a: seq<seq<C>>, b: seq<seq<C>>)
    ensures Glue(a + b) == Glue(a) + Glue(b)
  {
    if b != [] {
      var init := b[..|b| - 1];
      assert (a + b)[..|a + b| - 1] == a + init;
      assert (a + b)[|a + b| - 1] == b[|b| - 1];
      GlueAppend(a, init);
    } else {
      assert a + b == a;
    }
  }

  /** Texts that each end at a line break glue into text that is empty or ends at one. */
  lemma {:induction false} GlueLineEnd(texts: seq<string>)
    requires forall i :: 0 <= i < |texts| ==> texts[i] != "" && texts[i][|texts[i]| - 1] == '\n'
    ensures EndsAtLineBreak(Glue(texts))
  {
    if texts != [] {
      GlueLineEnd(texts[..|texts| - 1]);
    }
  }

  lemma {:induction false} TextsToLineEnd(writes: seq<Write>, path: string)
    requires LineTerminated(writes)
    ensures forall j :: 0 <= j < |TextsTo(writes, path)| ==>
      TextsTo(writes, path)[j] != "" && TextsTo(writes, path)[j][|TextsTo(writes, path)[j]| - 1] == '\n'
  {
    if writes != [] {
      TextsToLineEnd(writes[..|writes| - 1], path);
    }
  }

  /**
   * Every file ends up holding what it held before, followed by the texts
   * written to it in the order they were written; no other file is created.
   */
  lemma {:induction false} AppendsPerFile<P, C>(files: map<P, seq<C>>, writes: seq<(P, seq<C>)>, path: P)
    ensures ContentOf(Appends(files, writes), path) == ContentOf(files, path) + Glue(TextsTo(writes, path))
    ensures path in Appends(files, writes) <==> path in files || TextsTo(writes, path) != []
  {
    if writes == [] {
      assert ContentOf(files, path) + [] == ContentOf(files, path);
    } else {
      var init := writes[..|writes| - 1];
      AppendsPerFile(files, init, path);
      AppendsStepContent(files, writes, path);
      AppendsStepPresent(files, writes, path);
    }
  }

  lemma AppendsStepContent<P, C>(files: map<P, seq<C>>, writes: seq<(P, seq<C>)>, path: P)
    requires writes != []
    requires var init := writes[..|writes| - 1];
      ContentOf(Appends(files, init), path) == ContentOf(files, path) + Glue(TextsTo(init, path))
    ensures ContentOf(Appends(files, writes), path) == ContentOf(files, path) + Glue(TextsTo(writes, path))
  {
    var init, w := writes[..|writes| - 1], writes[|writes| - 1];
    AppendsLast(files, writes);
    TextsToLast(writes, path);
    var prev, r := Appends(files, init), TextsTo(init, path);
    ContentOfUpdate(prev, w.0, ContentOf(prev, w.0) + w.1, path);
    if w.0 == path {
      GlueSnoc(r, w.1);
    } else {
      assert r + [] == r;
    }
  }

  lemma AppendsStepPresent<P, C>(files: map<P, seq<C>>, writes: seq<(P, seq<C>)>, path: P)
    requires writes != []
    requires var init := writes[..|writes| - 1];
      path in Appends(files, init) <==> path in files || TextsTo(init, path) != []
    ensures path in Appends(files, writes) <==> path in files || TextsTo(writes, path) != []
  {
    var init, w := writes[..|writes| - 1], writes[|writes| - 1];
    AppendsLast(files, writes);
    TextsToLast(writes, path);
    var prev, r := Appends(files, init), TextsTo(init, path);
    ContentOfUpdate(prev, w.0, ContentOf(prev, w.0) + w.1, path);
    if w.0 != path {
      assert r + [] == r;
    }
  }

  lemma AppendsLast<P, C>(files: map<P, seq<C>>, writes: seq<(P, seq<C>)>)
    requires writes != []
    ensures var prev, w := Appends(files, writes[..|writes| - 1]), writes[|writes| - 1];
      Appends(files, writes) == prev[w.0 := ContentOf(prev, w.0) + w.1]
  {
  }

  lemma TextsToLast<P, C>(writes: seq<(P, seq<C>)>, path: P)
    requires writes != []
    ensures var w := writes[|writes| - 1];
      TextsTo(writes, path) == TextsTo(writes[..|writes| - 1], path) + if w.0 == path then [w.1] else []
  {
  }

  lemma ContentOfUpdate<P, C>(m: map<P, seq<C>>, k: P, v: seq<C>, p: P)
    ensures ContentOf(m[k := v], p) == if k == p then v else ContentOf(m, p)
    ensures p in m[k := v] <==> k == p || p in m
  {
  }

  lemma GlueSnoc<C>(r: seq<seq<C>>, x: seq<C>)
    ensures Glue(r + [x]) == Glue(r) + x
  {
    var r' := r + [x];
    assert r'[..|r'| - 1] == r;
  }

  /** Without the split flag every block goes to the main file, in the order of the katas. */
  lemma MainFileOnly(repoPath: string, fileName: string, n: int, katas: seq<Kata>)
    ensures TextsTo(Writes(repoPath, fileName, false, n, katas), PathJoin(repoPath, fileName))
      == seq(|katas|, i requires 0 <= i < |katas| => ExportBlock(katas[i], n))
  {
    var ws := Writes(repoPath, fileName, false, n, katas);
    MainFileOnlyTexts(ws, PathJoin(repoPath, fileName));
  }

  lemma {:induction false} MainFileOnlyTexts(ws: seq<Write>, path: string)
    requires forall i :: 0 <= i < |ws| ==> ws[i].0 == path
    ensures TextsTo(ws, path) == seq(|ws|, i requires 0 <= i < |ws| => ws[i].1)
  {
    if ws != [] {
      MainFileOnlyTexts(ws[..|ws| - 1], path);
    }
  }

  /**
   * Each saved kata that round-trips is read back from the file it went to,
   * provided that file was empty, missing or ended at a line break before.
   */
  lemma SavedNamesReadBack(files: map<string, string>, repoPath: string, fileName: string, split: bool, n: int, katas: seq<Kata>, i: nat)
    requires i < |katas| && RoundTrips(katas[i])
    requires EndsAtLineBreak(ContentOf(files, Target(repoPath, fileName, split, katas[i])))
    ensures katas[i].name in TitlesIn(FileLines(ContentOf(
      Appends(files, Writes(repoPath, fileName, split, n, katas)), Target(repoPath, fileName, split, katas[i]))))
  {
    var ws := Writes(repoPath, fileName, split, n, katas);
    var t := ws[i].0;
    assert LineTerminated(ws[..i]) by {
      forall j | 0 <= j < i ensures ws[..i][j].1 != "" && ws[..i][j].1[|ws[..i][j].1| - 1] == '\n' {
        ExportBlockShape(katas[j], n);
      }
    }
    ContentAround(files, ws, i);
    PrefixLineEnd(ContentOf(files, t), ws[..i], t);
    SavedTitleRecovered(ContentOf(files, t) + Glue(TextsTo(ws[..i], t)), katas[i], n, Glue(TextsTo(ws[i + 1..], t)));
  }

  /** The texts to `path`, split around write `i` when that write goes to `path`. */
  lemma TextsAround<P, C>(ws: seq<(P, seq<C>)>, i: nat)
    requires i < |ws|
    ensures TextsTo(ws, ws[i].0) == TextsTo(ws[..i], ws[i].0) + [ws[i].1] + TextsTo(ws[i + 1..], ws[i].0)
  {
    var t := ws[i].0;
    var pre, post := ws[..i], ws[i + 1..];
    SplitAround(ws, i);
    TextsToAppend(pre + [ws[i]], post, t);
    TextsToAppend(pre, [ws[i]], t);
    assert [ws[i]][..0] == [];
  }

  lemma SplitAround<T>(s: seq<T>, i: nat)
    requires i < |s|
    ensures s == s[..i] + [s[i]] + s[i + 1..]
  {
  }

  lemma GlueAround<C>(a: seq<seq<C>>, x: seq<C>, b: seq<seq<C>>)
    ensures Glue(a + [x] + b) == Glue(a) + x + Glue(b)
  {
    GlueAppend(a + [x], b);
    GlueAppend(a, [x]);
    assert [x][..0] == [];
  }

  /** The content of the file of write `i`: what came before it, its text, what came after. */
  lemma ContentAround<P, C>(files: map<P, seq<C>>, ws: seq<(P, seq<C>)>, i: nat)
    requires i < |ws|
    ensures var t := ws[i].0;
      ContentOf(Appends(files, ws), t)
      == (ContentOf(files, t) + Glue(TextsTo(ws[..i], t))) + ws[i].1 + Glue(TextsTo(ws[i + 1..], t))
  {
    var t := ws[i].0;
    var tpre, tpost := TextsTo(ws[..i], t), TextsTo(ws[i + 1..], t);
    TextsAround(ws, i);
    GlueAround(tpre, ws[i].1, tpost);
    AppendsPerFile(files, ws, t);
    Reassociate(ContentOf(files, t), Glue(tpre), ws[i].1, Glue(tpost));
  }

  lemma Reassociate<T>(a: seq<T>, b: seq<T>, c: seq<T>, d: seq<T>)
    ensures a + (b + c + d) == (a + b) + c + d
  {
  }

  /** Earlier content that ends at a line break, followed by line-terminated texts, still does. */
  lemma PrefixLineEnd(start: string, pre: seq<Write>, t: string)
    requires EndsAtLineBreak(start) && LineTerminated(pre)
    ensures EndsAtLineBreak(start + Glue(TextsTo(pre, t)))
  {
    TextsToLineEnd(pre, t);
    var g := Glue(TextsTo(pre, t));
    GlueLineEnd(TextsTo(pre, t));
    if g != "" {
      assert (start + g)[|start + g| - 1] == g[|g| - 1];
    }
  }

  /**
   * The language-file cache after saving `katas` in order: with the split
   * flag, every kata with a non-empty language caches its file path.
   */
  function CacheAfter(cache: map<string, string>, repoPath: string, fileName: string, split: bool, katas: seq<Kata>): map<string, string>
    decreases |katas|
  {
    if katas == [] then cache
    else
      var k := katas[|katas| - 1];
      var c := CacheAfter(cache, repoPath, fileName, split, katas[..|katas| - 1]);
      if split && k.language != "" then c[k.language := LanguageFilePath(repoPath, fileName, k.language)] else c
  }

  /** The languages whose files saving `katas` routes to. */
  function SplitLanguages(split: bool, katas: seq<Kata>): set<string> {
    if split then set i | 0 <= i < |katas| && katas[i].language != "" :: katas[i].language else {}
  }

  /**
   * The cache grows by exactly the languages saved to their own files, each
   * mapped to its naming-rule path; every other entry is kept.
   */
  lemma {:induction false} CacheAfterEntries(cache: map<string, string>, repoPath: string, fileName: string, split: bool, katas: seq<Kata>)
    ensures var c := CacheAfter(cache, repoPath, fileName, split, katas);
      && c.Keys == cache.Keys + SplitLanguages(split, katas)
      && (forall l :: l in SplitLanguages(split, katas) ==> c[l] == LanguageFilePath(repoPath, fileName, l))
      && (forall l :: l in cache && l !in SplitLanguages(split, katas) ==> c[l] == cache[l])
    decreases |katas|
  {
    if katas != [] {
      var init := katas[..|katas| - 1];
      var k := katas[|katas| - 1];
      CacheAfterEntries(cache, repoPath, fileName, split, init);
      assert init + [k] == katas;
      SplitLanguagesSnoc(split, init, k);
      var ci := CacheAfter(cache, repoPath, fileName, split, init);
      if split && k.language != "" {
        CacheAfterPut(cache, ci, SplitLanguages(split, init), k.language, repoPath, fileName);
      }
    }
  }

  /** One more entry, its value given by the naming rule, keeps the three facts of CacheAfterEntries. */
  lemma CacheAfterPut(cache: map<string, string>, c: map<string, string>, langs: set<string>, x: string,
                      repoPath: string, fileName: string)
    requires c.Keys == cache.Keys + langs
    requires forall l :: l in langs ==> c[l] == LanguageFilePath(repoPath, fileName, l)
    requires forall l :: l in cache && l !in langs ==> c[l] == cache[l]
    ensures var c' := c[x := LanguageFilePath(repoPath, fileName, x)];
      && c'.Keys == cache.Keys + (langs + {x})
      && (forall l :: l in langs + {x} ==> c'[l] == LanguageFilePath(repoPath, fileName, l))
      && (forall l :: l in cache && l !in langs + {x} ==> c'[l] == cache[l])
  {
    var c' := c[x := LanguageFilePath(repoPath, fileName, x)];
    assert c'.Keys == c.Keys + {x};
    forall l | l in langs + {x} ensures c'[l] == LanguageFilePath(repoPath, fileName, l) {
      if l != x {
        assert l in langs;
      }
    }
    forall l | l in cache && l !in langs + {x} ensures c'[l] == cache[l] {
      assert l != x && c'[l] == c[l];
    }
  }

  /** The cache after one more kata of `katas`. */
  lemma CacheAfterSnoc(cache: map<string, string>, repoPath: string, fileName: string, split: bool, katas: seq<Kata>, i: nat)
    requires i < |katas|
    ensures var c := CacheAfter(cache, repoPath, fileName, split, katas[..i]);
      CacheAfter(cache, repoPath, fileName, split, katas[..i + 1])
      == if split && katas[i].language != "" then c[katas[i].language := LanguageFilePath(repoPath, fileName, katas[i].language)] else c
  {
    assert katas[..i + 1][..i] == katas[..i];
  }

  lemma SplitLanguagesSnoc(split: bool, katas: seq<Kata>, k: Kata)
    ensures SplitLanguages(split, katas + [k])
      == SplitLanguages(split, katas) + (if split && k.language != "" then {k.language} else {})
  {
    var s := katas + [k];
    assert forall i :: 0 <= i < |katas| ==> s[i] == katas[i];
    assert s[|katas|] == k;
  }

  /**
   * save_and_commit_kata: the block, numbered with the current size of the
   * pushed list, is appended to the file add_kata chooses for the kata's
   * language. The git commit that follows is not modelled.
   */
  method SaveAndCommitKata(kata: Kata, fileManager: FileManager, state: AppState.ApplicationState, fs: FileSystem)
    requires fileManager.Valid()
    modifies fileManager, fs
    ensures fileManager.Valid()
    ensures var t := Target(fileManager.repoPath, fileManager.fileName, state.differentFileDependingOnLanguage, kata);
      fs.files == old(fs.files)[t := ContentOf(old(fs.files), t) + ExportBlock(kata, |state.pushedKatas|)]
    ensures state.differentFileDependingOnLanguage && kata.language != "" ==>
      fileManager.languageFiles == old(fileManager.languageFiles)[kata.language :=
        LanguageFilePath(fileManager.repoPath, fileManager.fileName, kata.language)]
    ensures !(state.differentFileDependingOnLanguage && kata.language != "") ==>
      fileManager.languageFiles == old(fileManager.languageFiles)
  {
    var content := ExportBlock(kata, |state.pushedKatas|);
    ghost var t := Target(fileManager.repoPath, fileManager.fileName, state.differentFileDependingOnLanguage, kata);
    assert fs.Content(t) == ContentOf(fs.files, t);
    fileManager.AddKata(content, Some(kata.language), state, fs);
  }

  /** The loop `for kata in katas: save_and_commit_kata(kata, file_manager)` of main. */
  method SaveAll(katas: seq<Kata>, fileManager: FileManager, state: AppState.ApplicationState, fs: FileSystem)
    requires fileManager.Valid()
    modifies fileManager, fs
    ensures fileManager.Valid()
    ensures fs.files == Appends(old(fs.files), Writes(fileManager.repoPath, fileManager.fileName,
      state.differentFileDependingOnLanguage, |state.pushedKatas|, katas))
    ensures fileManager.languageFiles == CacheAfter(old(fileManager.languageFiles), fileManager.repoPath,
      fileManager.fileName, state.differentFileDependingOnLanguage, katas)
  {
    ghost var repoPath, fileName, split := fileManager.repoPath, fileManager.fileName, state.differentFileDependingOnLanguage;
    ghost var ws := Writes(repoPath, fileName, split, |state.pushedKatas|, katas);
    ghost var files, cache := fs.files, fileManager.languageFiles;
    for i := 0 to |katas|
      invariant fileManager.Valid()
      invariant fs.files == Appends(files, ws[..i])
      invariant fileManager.languageFiles == CacheAfter(cache, repoPath, fileName, split, katas[..i])
    {
      CacheAfterSnoc(cache, repoPath, fileName, split, katas, i);
      AppendsSnoc(files, ws, i);
      SaveAndCommitKata(katas[i], fileManager, state, fs);
    }
    assert ws[..|katas|] == ws;
    assert katas[..|katas|] == katas;
  }

  /**
   * Why main saves nothing: the scraper raised, or the modelled passes ran
   * out while the source would still be inside get_completed_katas.
   */
  datatype ExportError = ScrapeFailed(error: WebScraper.ScrapeError) | Unfinished

  /**
   * Lines 65-67 of main: the scraper runs first and pushes every name it
   * returns, so every block of the run carries the same number, the size
   * of the pushed list after scraping. main saves only once the scraper
   * returns, on the count or on a missing marker. A scraper fault escapes
   * line 65 before anything is saved, and a run whose passes run out has
   * not returned yet. In both cases the names accepted so far stay pushed,
   * and no file and no cache entry changes.
   */
  method ExportCompleted(pushStep: int, passes: seq<WebScraper.Pass>, fileManager: FileManager,
                         state: AppState.ApplicationState, fs: FileSystem)
    returns (r: Result<seq<Kata>, ExportError>)
    requires fileManager.Valid() && state.Valid()
    modifies fileManager, fs, state
    ensures fileManager.Valid() && state.Valid()
    ensures var o := WebScraper.Collect(passes, 0, pushStep, [],
        WebScraper.Ledger(old(state.completedKatas), old(state.pushedKatas)));
      && (o.stop.Faulted? ==> r == Err(ScrapeFailed(o.stop.error)))
      && (o.stop == WebScraper.PassesExhausted ==> r == Err(Unfinished))
      && (o.stop == WebScraper.CountReached || o.stop == WebScraper.MarkerAbsent ==> r == Ok(o.katas))
      && state.pushedKatas == old(state.pushedKatas) + WebScraper.Names(o.katas)
      && state.completedKatas == o.ledger.completed
    ensures state.webDriver == old(state.webDriver)
    ensures state.differentFileDependingOnLanguage == old(state.differentFileDependingOnLanguage)
    ensures r.Err? ==> fs.files == old(fs.files) && fileManager.languageFiles == old(fileManager.languageFiles)
    ensures r.Ok? ==> fs.files == Appends(old(fs.files), Writes(fileManager.repoPath, fileManager.fileName,
      old(state.differentFileDependingOnLanguage), |old(state.pushedKatas)| + |r.value|, r.value))
    ensures r.Ok? ==> fileManager.languageFiles == CacheAfter(old(fileManager.languageFiles),
      fileManager.repoPath, fileManager.fileName, old(state.differentFileDependingOnLanguage), r.value)
  {
    ghost var l0 := WebScraper.Ledger(state.completedKatas, state.pushedKatas);
    var katas, stop, passesUsed := WebScraper.GetCompletedKatas(pushStep, passes, state);
    ghost var o := WebScraper.Collect(passes, 0, pushStep, [], l0);
    assert o.katas == katas && o.stop == stop;
    PushedAfterCollect(passes, pushStep, l0);
    if stop.Faulted? {
      return Err(ScrapeFailed(stop.error));
    }
    if stop == WebScraper.PassesExhausted {
      return Err(Unfinished);
    }
    NamesLength(katas);
    assert |state.pushedKatas| == |l0.pushed| + |katas|;
    SaveAll(katas, fileManager, state, fs);
    r := Ok(katas);
  }

  /** The names pushed while scraping are the names of the katas returned, after the earlier ones. */
  lemma PushedAfterCollect(passes: seq<WebScraper.Pass>, pushStep: int, l0: WebScraper.Ledger)
    ensures var o := WebScraper.Collect(passes, 0, pushStep, [], l0);
      o.ledger.pushed == l0.pushed + WebScraper.Names(o.katas)
  {
    WebScraper.CollectProperties(passes, pushStep, l0);
  }

  lemma {:induction false} NamesLength(katas: seq<Kata>)
    ensures |WebScraper.Names(katas)| == |katas|
  {
    if katas != [] {
      NamesLength(katas[1..]);
    }
  }
}
