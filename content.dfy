/** The content parser: file-name sanitising, the markdown title and
    description scan, the Swift example description scan, and the example
    file listing. File contents arrive as the lines `splitlines()` gives. */
module Content {
  import opened Outcomes
  import opened Text
  import opened Listing

  /** What the parser records for a guide page. */
  datatype DocumentMetadata = DocumentMetadata(filename: string, title: string, description: string, path: string)

  /** What the parser records for a Swift example. */
  datatype ExampleMetadata = ExampleMetadata(filename: string, description: string, path: string)

  /** The description of a page whose scan finds no prose line. */
  const NoDescription: string := "No description available."

  // ---------------------------------------------------------------------
  // sanitize_filename

  /** Replaces every `+` with `_`; no other character changes. */
  function SanitizeFilename(name: string): (r: string)
    ensures |r| == |name|
    ensures '+' !in r
    ensures forall i :: 0 <= i < |name| && name[i] != '+' ==> r[i] == name[i]
    ensures forall i :: 0 <= i < |name| && name[i] == '+' ==> r[i] == '_'
  {
    ReplaceCharSpec(name, '+', '_');
    ReplaceChar(name, '+', '_')
  }

  /** Sanitising a sanitised name changes nothing. */
  lemma SanitizeIdempotent(name: string)
    ensures SanitizeFilename(SanitizeFilename(name)) == SanitizeFilename(name)
  {
  }

  /** Two distinct names can share a sanitised name, so the example copies
      may overwrite one another. */
  lemma SanitizeNotInjective()
    ensures SanitizeFilename("a+b.swift") == SanitizeFilename("a_b.swift")
  {
  }

  // ---------------------------------------------------------------------
  // extract_metadata: the specification of the scan

  /** Whether a metadata block is open once the first `k` lines have been
      read: a line starting with `@` opens one (or keeps it open), a line
      that is exactly `}` after stripping closes it. */
  function BlockOpenAfter(lines: seq<string>, k: nat): bool
    requires k <= |lines|
  {
    if k == 0 then false
    else
      var s := Strip(lines[k - 1]);
      StartsWith(s, "@") || (BlockOpenAfter(lines, k - 1) && s != "}")
  }

  /** Line `k` is read as content: it is not blank, does not start a
      metadata block and does not lie inside one. */
  predicate IsContent(lines: seq<string>, k: int)
    requires 0 <= k < |lines|
  {
    var s := Strip(lines[k]);
    s != "" && !StartsWith(s, "@") && !BlockOpenAfter(lines, k)
  }

  /** Line `k` is a level-1 heading outside any metadata block. */
  predicate IsTitleLine(lines: seq<string>, k: int) {
    0 <= k < |lines| && IsContent(lines, k) && StartsWith(Strip(lines[k]), "# ")
  }

  /** Line `k` could serve as a description: content that does not start
      with `#`, `<` or `>`. */
  predicate IsDescLine(lines: seq<string>, k: int) {
    0 <= k < |lines| && IsContent(lines, k)
    && var s := Strip(lines[k]);
    !StartsWith(s, "#") && !StartsWith(s, "<") && !StartsWith(s, ">")
  }

  /** The heading text of a `# ` line, stripped again. */
  function HeadingText(line: string): string {
    var s := Strip(line);
    if |s| >= 2 then Strip(s[2..]) else ""
  }

  /** Line `t` is the first title line. */
  ghost predicate FirstTitle(lines: seq<string>, t: int) {
    IsTitleLine(lines, t) && forall i :: 0 <= i < t ==> !IsTitleLine(lines, i)
  }

  /** Line `d` is the first description line after line `t`. */
  ghost predicate FirstDescAfter(lines: seq<string>, t: int, d: int) {
    t < d && IsDescLine(lines, d) && forall i :: t < i < d ==> !IsDescLine(lines, i)
  }

  /** What `extract_metadata` promises of its result `m` for file `f`. With no
      title line the title is the stem and the description the placeholder;
      otherwise the title is the first title line's heading text and the
      description the first description line after it, or the placeholder. */
  ghost predicate DocMetadataSpec(f: SourceFile, m: DocumentMetadata) {
    var lines := f.lines;
    && m.filename == f.name
    && m.path == f.path
    && ((forall k :: 0 <= k < |lines| ==> !IsTitleLine(lines, k)) ==>
          m.title == f.stem && m.description == NoDescription)
    && (forall t :: FirstTitle(lines, t) ==>
          && m.title == HeadingText(lines[t])
          && ((forall d :: t < d < |lines| ==> !IsDescLine(lines, d)) ==> m.description == NoDescription)
          && (forall d :: FirstDescAfter(lines, t, d) ==> m.description == Strip(lines[d])))
  }

  /** At most one line is the first title line. */
  lemma FirstTitleUnique(lines: seq<string>, t1: int, t2: int)
    requires FirstTitle(lines, t1) && FirstTitle(lines, t2)
    ensures t1 == t2
  {
  }

  /** At most one line is the first description line after a given line. */
  lemma FirstDescUnique(lines: seq<string>, t: int, d1: int, d2: int)
    requires FirstDescAfter(lines, t, d1) && FirstDescAfter(lines, t, d2)
    ensures d1 == d2
  {
  }

  /** The specification for a page without a title line. */
  lemma SpecWithoutTitle(f: SourceFile, m: DocumentMetadata)
    requires m == DocumentMetadata(f.name, f.stem, NoDescription, f.path)
    requires forall k :: 0 <= k < |f.lines| ==> !IsTitleLine(f.lines, k)
    ensures DocMetadataSpec(f, m)
  {
  }

  /** The specification for a page whose title line `t` has no description
      line after it. */
  lemma SpecWithoutDescription(f: SourceFile, m: DocumentMetadata, t: int)
    requires FirstTitle(f.lines, t)
    requires m == DocumentMetadata(f.name, HeadingText(f.lines[t]), NoDescription, f.path)
    requires forall d :: t < d < |f.lines| ==> !IsDescLine(f.lines, d)
    ensures DocMetadataSpec(f, m)
  {
    forall t' | FirstTitle(f.lines, t') ensures t' == t {
      FirstTitleUnique(f.lines, t, t');
    }
  }

  /** The specification for a page with title line `t` and description line `d`. */
  lemma SpecWithDescription(f: SourceFile, m: DocumentMetadata, t: int, d: int)
    requires FirstTitle(f.lines, t) && FirstDescAfter(f.lines, t, d)
    requires m == DocumentMetadata(f.name, HeadingText(f.lines[t]), Strip(f.lines[d]), f.path)
    ensures DocMetadataSpec(f, m)
  {
    forall t' | FirstTitle(f.lines, t') ensures t' == t {
      FirstTitleUnique(f.lines, t, t');
    }
    forall d' | FirstDescAfter(f.lines, t, d') ensures d' == d {
      FirstDescUnique(f.lines, t, d, d');
    }
  }

  /** A title line's heading text is never empty: the stripped line ends in
      a non-space character after its `# `. */
  lemma TitleNotEmpty(lines: seq<string>, k: int)
    requires IsTitleLine(lines, k)
    ensures HeadingText(lines[k]) != ""
  {
    var s := Strip(lines[k]);
    StripSpec(lines[k]);
    StartsWithChars(s, "# ");
    assert IsSpace(s[1]);
    var rest := s[2..];
    assert rest[|rest| - 1] == s[|s| - 1];
    StripSpec(rest);
  }

  /** Once a line starting with `@` has been read, the block stays open
      until a `}` line. */
  lemma {:induction false} BlockStaysOpen(lines: seq<string>, a: int, j: int)
    requires 0 <= a < j <= |lines|
    requires StartsWith(Strip(lines[a]), "@")
    requires forall i :: a < i < j ==> Strip(lines[i]) != "}"
    ensures BlockOpenAfter(lines, j)
    decreases j
  {
    if j > a + 1 {
      BlockStaysOpen(lines, a, j - 1);
    }
  }

  /** Lines after an `@` line that no `}` line has closed are never read as
      title or description, whatever they hold. */
  lemma UnclosedBlockHides(lines: seq<string>, a: int, k: int)
    requires 0 <= a < k < |lines|
    requires StartsWith(Strip(lines[a]), "@")
    requires forall i :: a < i < k ==> Strip(lines[i]) != "}"
    ensures !IsTitleLine(lines, k) && !IsDescLine(lines, k)
  {
    BlockStaysOpen(lines, a, k);
  }

  /** Some title line exists exactly when a first one does. */
  lemma {:induction false} FindFirstTitle(lines: seq<string>, k: int) returns (t: int)
    requires IsTitleLine(lines, k)
    ensures FirstTitle(lines, t) && t <= k
    decreases k
  {
    if forall i :: 0 <= i < k ==> !IsTitleLine(lines, i) {
      t := k;
    } else {
      var i :| 0 <= i < k && IsTitleLine(lines, i);
      t := FindFirstTitle(lines, i);
    }
  }

  /** A description line after `t` exists exactly when a first one does. */
  lemma {:induction false} FindFirstDesc(lines: seq<string>, t: int, d: int) returns (e: int)
    requires t < d && IsDescLine(lines, d)
    ensures FirstDescAfter(lines, t, e) && e <= d
    decreases d
  {
    if forall i :: t < i < d ==> !IsDescLine(lines, i) {
      e := d;
    } else {
      var i :| t < i < d && IsDescLine(lines, i);
      e := FindFirstDesc(lines, t, i);
    }
  }

  /** The specification determines the metadata: two results that both meet
      it are equal. */
  lemma DocMetadataSpecUnique(f: SourceFile, m1: DocumentMetadata, m2: DocumentMetadata)
    requires DocMetadataSpec(f, m1) && DocMetadataSpec(f, m2)
    ensures m1 == m2
  {
    var lines := f.lines;
    if k :| 0 <= k < |lines| && IsTitleLine(lines, k) {
      var t := FindFirstTitle(lines, k);
      if d :| t < d < |lines| && IsDescLine(lines, d) {
        var e := FindFirstDesc(lines, t, d);
        assert m1.description == Strip(lines[e]) == m2.description;
      }
    }
  }

  /** `# Title` followed by `Some text.` gives title `Title` and description
      `Some text.`. */
  lemma TitleThenProse(f: SourceFile, m: DocumentMetadata)
    requires f.lines == ["# Title", "Some text."]
    requires DocMetadataSpec(f, m)
    ensures m.title == "Title" && m.description == "Some text."
  {
    var lines := f.lines;
    StripTrimmed(lines[0]);
    StripTrimmed(lines[1]);
    StripTrimmed("Title");
    assert lines[0][2..] == "Title";
    assert IsTitleLine(lines, 0);
    assert FirstTitle(lines, 0);
    assert FirstDescAfter(lines, 0, 1);
  }

  // ---------------------------------------------------------------------
  // extract_metadata: the scan

  /** A line that is no title line extends a run of such lines. */
  lemma NoTitleExtend(lines: seq<string>, i: int)
    requires forall k :: 0 <= k < i ==> !IsTitleLine(lines, k)
    requires !IsTitleLine(lines, i)
    ensures forall k :: 0 <= k < i + 1 ==> !IsTitleLine(lines, k)
  {
  }

  /** A line that is no description extends a run of such lines. */
  lemma NoDescExtend(lines: seq<string>, t: int, i: int)
    requires forall d :: t < d < i ==> !IsDescLine(lines, d)
    requires !IsDescLine(lines, i)
    ensures forall d :: t < d < i + 1 ==> !IsDescLine(lines, d)
  {
  }

  /** Finds a page's title and description in one pass over its lines. */
  method ExtractMetadata(f: SourceFile) returns (m: DocumentMetadata)
    ensures DocMetadataSpec(f, m)
    ensures m.description != ""
  {
    var lines := f.lines;
    var title := f.stem;
    var description := "";
    var inMetadataBlock := false;
    var foundTitle := false;
    ghost var t := -1;
    ghost var d := -1;
    for i := 0 to |lines|
      invariant inMetadataBlock == BlockOpenAfter(lines, i)
      invariant description == "" && d == -1
      invariant !foundTitle ==> title == f.stem && forall k :: 0 <= k < i ==> !IsTitleLine(lines, k)
      invariant foundTitle ==> 0 <= t < i && FirstTitle(lines, t) && title == HeadingText(lines[t])
      invariant foundTitle ==> forall d :: t < d < i ==> !IsDescLine(lines, d)
    {
      var stripped := Strip(lines[i]);
      assert IsContent(lines, i) == (stripped != "" && !StartsWith(stripped, "@") && !inMetadataBlock);
      assert IsTitleLine(lines, i) == (IsContent(lines, i) && StartsWith(stripped, "# "));
      assert IsDescLine(lines, i) == (IsContent(lines, i) && !StartsWith(stripped, "#")
        && !StartsWith(stripped, "<") && !StartsWith(stripped, ">"));
      assert BlockOpenAfter(lines, i + 1) ==
        (StartsWith(stripped, "@") || (inMetadataBlock && stripped != "}"));
      if foundTitle && !IsDescLine(lines, i) {
        NoDescExtend(lines, t, i);
      }
      if !foundTitle && !IsTitleLine(lines, i) {
        NoTitleExtend(lines, i);
      }
      if StartsWith(stripped, "@") {
        inMetadataBlock := true;
        continue;
      }
      if inMetadataBlock {
        if stripped == "}" || stripped == "" {
          if stripped == "}" {
            inMetadataBlock := false;
          }
          continue;
        }
        continue;
      }
      if stripped == "" {
        continue;
      }
      if !foundTitle {
        if StartsWith(stripped, "# ") {
          title := Strip(stripped[2..]);
          foundTitle := true;
          t := i;
        }
        continue;
      }
      if StartsWith(stripped, "#") || StartsWith(stripped, "<") || StartsWith(stripped, ">") {
        continue;
      }
      assert FirstDescAfter(lines, t, i);
      description := stripped;
      d := i;
      break;
    }
    if description == "" {
      description := NoDescription;
    }
    m := DocumentMetadata(f.name, title, description, f.path);
    if !foundTitle {
      SpecWithoutTitle(f, m);
    } else if d < 0 {
      SpecWithoutDescription(f, m, t);
    } else {
      SpecWithDescription(f, m, t, d);
    }
  }

  // ---------------------------------------------------------------------
  // extract_example_metadata: the specification of the scan

  /** The text after a line's `//`, stripped again. */
  function CommentText(line: string): string {
    var s := Strip(line);
    if |s| >= 2 then Strip(s[2..]) else ""
  }

  /** A `//` line gives the description unless its text is empty, a `MARK:`
      label or a `===` rule. Every `///` line is such a line too. */
  predicate Describes(line: string) {
    var c := CommentText(line);
    StartsWith(Strip(line), "//") && c != "" && !StartsWith(c, "MARK:") && !StartsWith(c, "===")
  }

  /** A line the scan passes over: blank, or opening or continuing a block
      comment. */
  predicate Skippable(line: string) {
    var s := Strip(line);
    s == "" || StartsWith(s, "/*") || StartsWith(s, "*")
  }

  /** Line `k` is where the scan stops with a description: it describes and
      every line before it is passed over. */
  ghost predicate DescribedAt(lines: seq<string>, k: int) {
    0 <= k < |lines| && Describes(lines[k]) && forall i :: 0 <= i < k ==> Skippable(lines[i])
  }

  /** The description made up from a file stem when the comments give none. */
  function FallbackDescription(stem: string): string {
    "Example code demonstrating " + ReplaceChar(ReplaceChar(stem, '_', ' '), '+', ' ') + "."
  }

  /** What `extract_example_metadata` promises of its result `m` for file `f`. */
  ghost predicate ExampleSpec(f: SourceFile, m: ExampleMetadata) {
    && m.filename == SanitizeFilename(f.name)
    && m.path == f.path
    && (forall k :: DescribedAt(f.lines, k) ==> m.description == CommentText(f.lines[k]))
    && ((forall k :: 0 <= k < |f.lines| ==> !DescribedAt(f.lines, k)) ==>
          m.description == FallbackDescription(f.stem))
  }

  /** A line starting with `//` is never passed over. */
  lemma CommentNotSkippable(line: string)
    requires StartsWith(Strip(line), "//")
    ensures !Skippable(line)
  {
    var s := Strip(line);
    StartsWithChars(s, "//");
    assert s[0] == '/' && s[1] == '/';
    StartsWithChars(s, "/*");
    assert "/*"[1] == '*';
    StartsWithChars(s, "*");
    assert "*"[0] == '*';
  }

  /** At most one line is where the scan stops with a description. */
  lemma DescribedAtUnique(lines: seq<string>, k1: int, k2: int)
    requires DescribedAt(lines, k1) && DescribedAt(lines, k2)
    ensures k1 == k2
  {
    if k1 < k2 {
      CommentNotSkippable(lines[k1]);
    } else if k2 < k1 {
      CommentNotSkippable(lines[k2]);
    }
  }

  /** A `///` doc comment always describes, and its description keeps the
      third slash: `/// Does X.` gives `/ Does X.`. */
  lemma TripleSlashKeepsSlash(line: string)
    requires StartsWith(Strip(line), "///")
    ensures Describes(line)
    ensures CommentText(line) != [] && CommentText(line)[0] == '/'
  {
    var s := Strip(line);
    StartsWithChars(s, "///");
    assert s[..2] == "//";
    StripKeepsHead(s[2..]);
    var c := CommentText(line);
    StartsWithChars(c, "MARK:");
    StartsWithChars(c, "===");
  }

  /** A line reached with every line before it passed over, that neither
      describes nor is passed over, ends the scan: no line describes. */
  lemma ScanStopsWithout(lines: seq<string>, k: int)
    requires 0 <= k < |lines|
    requires !Skippable(lines[k]) && !Describes(lines[k])
    requires forall i :: 0 <= i < k ==> Skippable(lines[i])
    ensures forall j :: 0 <= j < |lines| ==> !DescribedAt(lines, j)
  {
    forall j | 0 <= j < k ensures !DescribedAt(lines, j) {
      if Describes(lines[j]) {
        CommentNotSkippable(lines[j]);
      }
    }
  }

  /** When every line is passed over, no line describes. */
  lemma AllSkippedNoDescription(lines: seq<string>)
    requires forall i :: 0 <= i < |lines| ==> Skippable(lines[i])
    ensures forall j :: 0 <= j < |lines| ==> !DescribedAt(lines, j)
  {
    forall j | 0 <= j < |lines| ensures !DescribedAt(lines, j) {
      if Describes(lines[j]) {
        CommentNotSkippable(lines[j]);
      }
    }
  }

  /** A rejected `//` comment (empty, `MARK:` or `===`) reached before any
      description ends the scan: what follows it is never read. */
  lemma RejectedCommentEndsScan(lines: seq<string>, k: int)
    requires 0 <= k < |lines|
    requires StartsWith(Strip(lines[k]), "//") && !Describes(lines[k])
    requires forall i :: 0 <= i < k ==> Skippable(lines[i])
    ensures forall j :: 0 <= j < |lines| ==> !DescribedAt(lines, j)
  {
    CommentNotSkippable(lines[k]);
    ScanStopsWithout(lines, k);
  }

  /** The specification when line `k` gives the description. */
  lemma SpecDescribedAt(f: SourceFile, m: ExampleMetadata, k: int)
    requires DescribedAt(f.lines, k)
    requires m == ExampleMetadata(SanitizeFilename(f.name), CommentText(f.lines[k]), f.path)
    ensures ExampleSpec(f, m)
  {
    forall k' | DescribedAt(f.lines, k') ensures k' == k {
      DescribedAtUnique(f.lines, k, k');
    }
  }

  /** The specification when no line gives the description. */
  lemma SpecFallback(f: SourceFile, m: ExampleMetadata)
    requires forall j :: 0 <= j < |f.lines| ==> !DescribedAt(f.lines, j)
    requires m == ExampleMetadata(SanitizeFilename(f.name), FallbackDescription(f.stem), f.path)
    ensures ExampleSpec(f, m)
  {
  }

  // ---------------------------------------------------------------------
  // extract_example_metadata: the scan

  /** Finds an example's description in its leading comments, falling back
      to one made from the file stem, and sanitises its file name. */
  method ExtractExampleMetadata(f: SourceFile) returns (m: ExampleMetadata)
    ensures ExampleSpec(f, m)
    ensures m.description != ""
  {
    var lines := f.lines;
    var description := "";
    ghost var described, stopped := false, false;
    ghost var at := -1;
    for i := 0 to |lines|
      invariant description == "" && !described && !stopped
      invariant forall k :: 0 <= k < i ==> Skippable(lines[k])
    {
      var stripped := Strip(lines[i]);
      if stripped == "" {
        continue;
      }
      if StartsWith(stripped, "//") {
        var comment := Strip(stripped[2..]);
        if comment != "" && !StartsWith(comment, "MARK:") && !StartsWith(comment, "===") {
          assert DescribedAt(lines, i);
          description := comment;
          described, at := true, i;
          break;
        }
        RejectedCommentEndsScan(lines, i);
      }
      if StartsWith(stripped, "///") {
        TripleSlashKeepsSlash(lines[i]);
        assert false;
      }
      if !StartsWith(stripped, "/*") && !StartsWith(stripped, "*") {
        if !StartsWith(stripped, "//") {
          ScanStopsWithout(lines, i);
        }
        stopped := true;
        break;
      }
    }
    if description == "" {
      description := FallbackDescription(f.stem);
    }
    var safeFilename := SanitizeFilename(f.name);
    m := ExampleMetadata(safeFilename, description, f.path);
    if described {
      SpecDescribedAt(f, m, at);
    } else {
      if !stopped {
        AllSkippedNoDescription(lines);
      }
      SpecFallback(f, m);
    }
  }

  /** The two results that meet the example specification are equal. */
  lemma ExampleSpecUnique(f: SourceFile, m1: ExampleMetadata, m2: ExampleMetadata)
    requires ExampleSpec(f, m1) && ExampleSpec(f, m2)
    ensures m1 == m2
  {
    if k :| DescribedAt(f.lines, k) {
      assert m1.description == CommentText(f.lines[k]) == m2.description;
    }
  }

  /** An example starting `/// Does X.` is described as `/ Does X.`: the
      `//` branch takes the line before the `///` branch is reached. */
  lemma DocCommentExample(f: SourceFile, m: ExampleMetadata)
    requires |f.lines| > 0 && f.lines[0] == "/// Does X."
    requires ExampleSpec(f, m)
    ensures m.description == "/ Does X."
  {
    var line := f.lines[0];
    StripTrimmed(line);
    StripTrimmed("/ Does X.");
    assert line[2..] == "/ Does X.";
    TripleSlashKeepsSlash(line);
    assert DescribedAt(f.lines, 0);
  }

  /** `// MARK: -` is a `//` comment that does not describe. */
  lemma MarkLineRejected(line: string)
    requires line == "// MARK: -"
    ensures StartsWith(Strip(line), "//") && !Describes(line)
  {
    StripTrimmed(line);
    var text := " MARK: -";
    assert line[2..] == text;
    assert TrimLeft(text) == text[1..];
    StripTrimmed(text[1..]);
    assert CommentText(line) == text[1..];
    assert text[1..][..5] == "MARK:";
  }

  /** An example starting `// MARK: -` gets the made-up description,
      whatever comments follow. */
  lemma MarkCommentExample(f: SourceFile, m: ExampleMetadata)
    requires |f.lines| > 0 && f.lines[0] == "// MARK: -"
    requires ExampleSpec(f, m)
    ensures m.description == FallbackDescription(f.stem)
  {
    MarkLineRejected(f.lines[0]);
    RejectedCommentEndsScan(f.lines, 0);
  }

  /** `get_example_files`: the `.swift` files of the examples directory in
      sorted order, or nothing when the directory does not exist. */
  function GetExampleFiles(examplesRoot: Option<seq<SourceFile>>): (files: seq<SourceFile>)
    ensures examplesRoot.None? ==> files == []
    ensures examplesRoot.Some? ==> multiset(files) == multiset(examplesRoot.value)
    ensures SortedByName(files)
  {
    match examplesRoot
    case None => []
    case Some(listing) => SortByName(listing)
  }
}
