/** The SKILL.md index: a fixed header, one bullet per guide page, an
    examples section only when there are examples, and fixed usage and
    licence notes. `SkillMd` gives the lines that `_generate_skill_md`
    joins with newlines and writes. */
module SkillIndex {
  import opened Text
  import opened Content

  // Long text is written as concatenations of short literals, which keeps
  // proofs about the page cheap; each line's text is the concatenation.

  const SkillName: string := "migrating-to-" + "swift-" + "concurrency"
  const RepoUrl: string := "https://" + "github.com/" + "swiftlang/" + "swift-migration-" + "guide.git"

  /** The front-matter description of the skill. */
  const SkillDescription: string :=
    "Provides the " + "complete Swift " + "Concurrency " + "Migration " + "Guide. Use when " +
      "migrating to " + "Swift 6, " + "resolving " + "data-race " + "safety errors, " +
      "understanding " + "Sendable and " + "actor " + "isolation, or " + "incrementally " +
      "adopting " + "async/await."

  /** Front matter, title, introduction and the documentation heading. */
  function Header(): seq<string> {
    [ "---",
      "name: " + SkillName,
      "description: " + SkillDescription,
      "---",
      "",
      "# Swift " + "Concurrency " + "Migration Guide",
      "",
      "The complete " + "content of the " + "Swift " + "Concurrency " + "Migration Guide " +
        "by Apple. This " + "guide helps you " + "migrate your " + "code to take " +
        "advantage of " + "Swift's " + "data-race " + "safety " + "guarantees and " +
        "the Swift 6 " + "language mode.",
      "",
      "## Documentation",
      "" ]
  }

  /** The content licence line, which links the licence as `LICENSE.txt`. */
  function ContentLicenseLine(): string {
    "The " + "documentation " + "and example " + "code in this " + "skill are from " +
      "the [Swift " + "Concurrency " + "Migration " + "Guide](" + RepoUrl + "), " +
      "copyright Apple " + "Inc. and the " + "Swift project " + "authors, " + "distributed " +
      "under the " + "[Apache 2.0 " + "License]" + "(LICENSE.txt)."
  }

  /** Usage notes and the licence and attribution block. */
  function Footer(): seq<string> {
    [ "## Usage Notes",
      "",
      "- Start with " + "Data Race " + "Safety to " + "understand the " + "core concepts",
      "- Follow the " + "Migration " + "Strategy for a " + "recommended " + "approach",
      "- Refer to " + "Common Problems " + "for solutions " + "to typical " + "issues",
      "- Use the Code " + "Examples as " + "reference " + "implementations",
      "",
      "## License & " + "Attribution",
      "",
      "### Content " + "License",
      "",
      ContentLicenseLine(),
      "",
      "### Skill " + "Structure " + "License",
      "",
      "The structure " + "and " + "organization of " + "this skill " + "(this index " +
        "file) is " + "copyright Kyle " + "Hughes, " + "distributed " + "under the MIT " +
        "License.",
      "" ]
  }

  /** The lines that open the examples section. */
  function ExamplesIntro(): seq<string> {
    [ "## Code Examples",
      "",
      "Swift source " + "files " + "demonstrating " + "migration " + "patterns and " +
        "concurrency " + "concepts:",
      "" ]
  }

  /** A description with its square brackets turned into parentheses, so that
      it cannot break the bullet's link syntax. */
  function SafeDescription(d: string): string {
    ReplaceChar(ReplaceChar(d, '[', '('), ']', ')')
  }

  /** A safe description has no square brackets, turns `[` into `(` and `]`
      into `)`, and keeps every other character. */
  lemma SafeDescriptionSpec(d: string)
    ensures |SafeDescription(d)| == |d|
    ensures '[' !in SafeDescription(d) && ']' !in SafeDescription(d)
    ensures forall i :: 0 <= i < |d| ==>
      SafeDescription(d)[i] == (if d[i] == '[' then '(' else if d[i] == ']' then ')' else d[i])
  {
    var once := ReplaceChar(d, '[', '(');
    ReplaceCharSpec(d, '[', '(');
    ReplaceCharSpec(once, ']', ')');
    var r := SafeDescription(d);
    assert forall i :: 0 <= i < |r| ==> r[i] != '[' && r[i] != ']';
  }

  /** The link of a guide page, relative to the skill directory. */
  function DocLink(doc: DocumentMetadata): string {
    "Guide/" + doc.filename
  }

  /** The link of an example, relative to the skill directory. */
  function ExampleLink(example: ExampleMetadata): string {
    "Examples/" + example.filename
  }

  /** A bullet line: bold caption, the link twice, then the safe description. */
  function Entry(caption: string, link: string, description: string): string {
    "- **" + caption + "** ([" + link + "](" + link + ")): " + SafeDescription(description)
  }

  function DocEntry(doc: DocumentMetadata): string {
    Entry(doc.title, DocLink(doc), doc.description)
  }

  function ExampleEntry(example: ExampleMetadata): string {
    Entry(example.filename, ExampleLink(example), example.description)
  }

  function DocEntries(docs: seq<DocumentMetadata>): seq<string> {
    seq(|docs|, i requires 0 <= i < |docs| => DocEntry(docs[i]))
  }

  function ExampleEntries(examples: seq<ExampleMetadata>): seq<string> {
    seq(|examples|, i requires 0 <= i < |examples| => ExampleEntry(examples[i]))
  }

  /** The examples section, absent when there are no examples. */
  function ExamplesSection(examples: seq<ExampleMetadata>): seq<string> {
    if examples == [] then [] else ExamplesIntro() + ExampleEntries(examples) + [""]
  }

  /** A page with the given header and footer around the documentation
      section and the optional examples section. */
  function Layout(header: seq<string>, docs: seq<DocumentMetadata>, examples: seq<ExampleMetadata>,
                  footer: seq<string>): seq<string> {
    header + DocEntries(docs) + [""] + ExamplesSection(examples) + footer
  }

  /** The index's lines for the given registries. */
  function SkillMd(docs: seq<DocumentMetadata>, examples: seq<ExampleMetadata>): seq<string> {
    Layout(Header(), docs, examples, Footer())
  }

  /** The header's last two lines are the documentation heading and a
      blank line. */
  lemma HeaderShape()
    ensures |Header()| == 11 && Header()[9] == "## Documentation" && Header()[10] == ""
  {
  }

  /** Every bullet starts with `- **`, so it is never blank and never a
      heading. */
  lemma EntryShape(caption: string, link: string, description: string)
    ensures var e := Entry(caption, link, description); |e| >= 4 && e[..4] == "- **"
  {
  }

  /** In any layout, the documentation bullets follow the header one per
      page and a blank line ends them. */
  lemma LayoutDocs(header: seq<string>, docs: seq<DocumentMetadata>, examples: seq<ExampleMetadata>,
                   footer: seq<string>)
    ensures |Layout(header, docs, examples, footer)| == |header| + |docs| + 1 + |ExamplesSection(examples)| + |footer|
    ensures Layout(header, docs, examples, footer)[..|header|] == header
    ensures forall i :: 0 <= i < |docs| ==> Layout(header, docs, examples, footer)[|header| + i] == DocEntry(docs[i])
    ensures Layout(header, docs, examples, footer)[|header| + |docs|] == ""
  {
  }

  /** No bullet line is blank. */
  lemma DocEntriesNotBlank(docs: seq<DocumentMetadata>)
    ensures forall i :: 0 <= i < |docs| ==> DocEntry(docs[i]) != ""
  {
    forall i | 0 <= i < |docs| ensures DocEntry(docs[i]) != "" {
      EntryShape(docs[i].title, DocLink(docs[i]), docs[i].description);
    }
  }

  /** An element of the middle part of a three-part concatenation. */
  lemma MiddleAt<T>(a: seq<T>, b: seq<T>, c: seq<T>, k: int)
    requires 0 <= k < |b|
    ensures (a + b + c)[|a| + k] == b[k]
  {
  }

  /** A non-empty examples section: the heading, a blank line, the
      introduction, a blank line, one bullet per example, a blank line. */
  lemma ExamplesSectionShape(examples: seq<ExampleMetadata>)
    requires examples != []
    ensures var section := ExamplesSection(examples);
      && |section| == 5 + |examples|
      && section[0] == "## Code Examples"
      && section[..4] == ExamplesIntro()
      && (forall j :: 0 <= j < |examples| ==> section[4 + j] == ExampleEntry(examples[j]))
      && section[4 + |examples|] == ""
  {
    var e := ExampleEntries(examples);
    forall j | 0 <= j < |examples| ensures ExamplesSection(examples)[4 + j] == ExampleEntry(examples[j]) {
      MiddleAt(ExamplesIntro(), e, [""], j);
    }
  }

  /** In any layout with examples, their section follows the blank line
      that ends the documentation bullets. */
  lemma LayoutExamples(header: seq<string>, docs: seq<DocumentMetadata>, examples: seq<ExampleMetadata>,
                       footer: seq<string>)
    requires examples != []
    ensures var lines := Layout(header, docs, examples, footer);
      var at := |header| + |docs| + 1;
      && at + 4 + |examples| < |lines|
      && lines[at] == "## Code Examples"
      && forall j :: 0 <= j < |examples| ==> lines[at + 4 + j] == ExampleEntry(examples[j])
  {
    var before := header + DocEntries(docs) + [""];
    var section := ExamplesSection(examples);
    ExamplesSectionShape(examples);
    forall k | 0 <= k < |section|
      ensures Layout(header, docs, examples, footer)[|before| + k] == section[k]
    {
      MiddleAt(before, section, footer, k);
    }
  }

  /** No bullet is the examples heading. */
  lemma DocEntriesLackExamplesHeading(docs: seq<DocumentMetadata>)
    ensures "## Code Examples" !in DocEntries(docs)
  {
    forall i | 0 <= i < |docs| ensures DocEntries(docs)[i] != "## Code Examples" {
      var e := DocEntry(docs[i]);
      EntryShape(docs[i].title, DocLink(docs[i]), docs[i].description);
      assert e[0] == e[..4][0] == '-';
      assert "## Code Examples"[0] == '#';
    }
  }

  /** In any layout whose header and footer lack the examples heading, the
      heading appears exactly when there are examples. */
  lemma LayoutExamplesHeading(header: seq<string>, docs: seq<DocumentMetadata>, examples: seq<ExampleMetadata>,
                              footer: seq<string>)
    requires "## Code Examples" !in header && "## Code Examples" !in footer
    ensures "## Code Examples" in Layout(header, docs, examples, footer) <==> examples != []
  {
    if examples != [] {
      LayoutExamples(header, docs, examples, footer);
    } else {
      DocEntriesLackExamplesHeading(docs);
      assert Layout(header, docs, examples, footer) == header + DocEntries(docs) + [""] + footer;
    }
  }

  /** In any layout with an eleven-line header ending in the documentation
      heading and a blank line, the bullets follow one per page and a blank
      line ends them. */
  lemma LayoutDocSection(header: seq<string>, docs: seq<DocumentMetadata>, examples: seq<ExampleMetadata>,
                         footer: seq<string>)
    requires |header| == 11 && header[9] == "## Documentation" && header[10] == ""
    ensures var lines := Layout(header, docs, examples, footer);
      && |lines| == 11 + |docs| + 1 + |ExamplesSection(examples)| + |footer|
      && lines[9] == "## Documentation" && lines[10] == ""
      && (forall i :: 0 <= i < |docs| ==> lines[11 + i] == DocEntry(docs[i]) != "")
      && lines[11 + |docs|] == ""
  {
    var lines := Layout(header, docs, examples, footer);
    LayoutDocs(header, docs, examples, footer);
    DocEntriesNotBlank(docs);
    assert lines[9] == lines[..11][9] && lines[10] == lines[..11][10];
  }

  /** The footer's content licence line ends with the link target
      `LICENSE.txt`, whichever licence file the skill holds. */
  lemma FooterLinksLicenseTxt()
    ensures var line := Footer()[11]; |line| >= 14 && line[|line| - 14..] == "(LICENSE.txt)."
  {
    var tail := "(LICENSE.txt).";
    var line := ContentLicenseLine();
    assert Footer()[11] == line;
    var lead := line[..|line| - |tail|];
    assert line == lead + tail;
  }

  /** The footer's length. */
  lemma FooterLength()
    ensures |Footer()| == 17
  {
  }

  /** The documentation section holds exactly one bullet per page, in
      registry order, each linking `Guide/<filename>`; a blank line ends it. */
  lemma DocSection(docs: seq<DocumentMetadata>, examples: seq<ExampleMetadata>)
    ensures var lines := SkillMd(docs, examples);
      && |lines| == 11 + |docs| + 1 + |ExamplesSection(examples)| + 17
      && lines[9] == "## Documentation" && lines[10] == ""
      && (forall i :: 0 <= i < |docs| ==> lines[11 + i] == DocEntry(docs[i]) != "")
      && lines[11 + |docs|] == ""
  {
    HeaderShape();
    FooterLength();
    LayoutDocSection(Header(), docs, examples, Footer());
  }

  /** In any layout with an eleven-line header and some examples, the
      examples section follows the documentation section. */
  lemma LayoutExampleSection(header: seq<string>, docs: seq<DocumentMetadata>, examples: seq<ExampleMetadata>,
                             footer: seq<string>)
    requires |header| == 11 && examples != []
    ensures var lines := Layout(header, docs, examples, footer);
      && |lines| > 16 + |docs| + |examples|
      && lines[12 + |docs|] == "## Code Examples"
      && forall j :: 0 <= j < |examples| ==> lines[16 + |docs| + j] == ExampleEntry(examples[j])
  {
    LayoutExamples(header, docs, examples, footer);
  }

  /** When there are examples, their section follows the documentation
      section with one bullet per example, in registry order, each linking
      `Examples/<filename>`. */
  lemma ExampleSection(docs: seq<DocumentMetadata>, examples: seq<ExampleMetadata>)
    requires examples != []
    ensures var lines := SkillMd(docs, examples);
      && |lines| > 16 + |docs| + |examples|
      && lines[12 + |docs|] == "## Code Examples"
      && forall j :: 0 <= j < |examples| ==> lines[16 + |docs| + j] == ExampleEntry(examples[j])
  {
    HeaderShape();
    LayoutExampleSection(Header(), docs, examples, Footer());
  }

  /** The header does not hold the examples heading. */
  lemma HeaderHasNoExamplesHeading()
    ensures "## Code Examples" !in Header()
  {
  }

  /** The footer does not hold the examples heading. */
  lemma FooterHasNoExamplesHeading()
    ensures "## Code Examples" !in Footer()
  {
  }

  /** The index has a "## Code Examples" line exactly when the example
      registry is not empty. */
  lemma CodeExamplesIffExamples(docs: seq<DocumentMetadata>, examples: seq<ExampleMetadata>)
    ensures "## Code Examples" in SkillMd(docs, examples) <==> examples != []
  {
    HeaderHasNoExamplesHeading();
    FooterHasNoExamplesHeading();
    LayoutExamplesHeading(Header(), docs, examples, Footer());
  }
}
