/** The skill generator: it reads the table of contents, indexes the guide
    pages by stem, records metadata for each page in table-of-contents
    order and for each example in name order, copies the files, copies the
    licence and writes the index. The file system is a log of effects. */
module Generator {
  import opened Outcomes
  import opened Text
  import opened Toc
  import opened Listing
  import opened Content
  import opened SkillIndex

  /** The table of contents itself, which is never a guide page. */
  const TocFileName: string := "MigrationGuide.md"

  /** Where the table of contents lies inside the repository. */
  const TocRelPath: string := "Guide.docc/MigrationGuide.md"

  /** The licence file names, most preferred first. */
  const LicenseNames: seq<string> := ["LICENSE.txt", "LICENSE.md", "LICENSE"]

  /** The run's settings: where the skill goes and whether to touch disk. */
  datatype Config = Config(outputPath: string, dryRun: bool)

  /** Why a build stops. */
  datatype BuildError =
    | TocNotFound(path: string)
    | NoDocumentation
    | NoLicense

  /** What a build does to the file system, in order. */
  datatype FsEffect =
    | ResetDir(dir: string)
    | Copy(source: string, dest: string)
    | WriteLines(dest: string, lines: seq<string>)
    | Archive(dir: string)

  /** `Path(dir) / name`. */
  function PathJoin(dir: string, name: string): string {
    dir + "/" + name
  }

  function GuideDir(out: string): string {
    PathJoin(out, "Guide")
  }

  function ExamplesDir(out: string): string {
    PathJoin(out, "Examples")
  }

  // ---------------------------------------------------------------------
  // The stem map and the table-of-contents order

  /** The guide pages keyed by stem, built by walking the listing; a later
      page with the same stem replaces an earlier one, and the table of
      contents is skipped. */
  function StemMap(listing: seq<SourceFile>): (m: map<string, SourceFile>)
    ensures forall k :: k in m ==> m[k].stem == k && m[k].name != TocFileName && m[k] in listing
    ensures forall f :: f in listing && f.name != TocFileName ==> f.stem in m
  {
    if listing == [] then map[]
    else
      var init := listing[..|listing| - 1];
      var f := listing[|listing| - 1];
      assert listing == init + [f];
      var m := StemMap(init);
      if f.name == TocFileName then m else m[f.stem := f]
  }

  /** When no two guide pages share a stem, each page is found under its own
      stem. */
  lemma {:induction false} StemMapFindsEachPage(listing: seq<SourceFile>)
    requires forall i, j :: (0 <= i < j < |listing| && listing[i].name != TocFileName
               && listing[j].name != TocFileName) ==> listing[i].stem != listing[j].stem
    ensures forall f :: f in listing && f.name != TocFileName ==> StemMap(listing)[f.stem] == f
  {
    if listing != [] {
      var init := listing[..|listing| - 1];
      var last := listing[|listing| - 1];
      StemMapFindsEachPage(init);
      forall f | f in listing && f.name != TocFileName ensures StemMap(listing)[f.stem] == f {
        if f != last {
          var i :| 0 <= i < |listing| && listing[i] == f;
          assert i < |listing| - 1;
          assert f in init;
        }
      }
    }
  }

  /** The pages the table-of-contents tokens name, in token order: unknown
      tokens are dropped and repeated tokens repeat their page. */
  function Resolve(order: seq<string>, m: map<string, SourceFile>): (r: seq<SourceFile>)
    ensures |r| <= |order|
    ensures forall f :: f in r ==> f in m.Values
  {
    if order == [] then []
    else
      var init := Resolve(order[..|order| - 1], m);
      var t := order[|order| - 1];
      if t in m then init + [m[t]] else init
  }

  /** The tokens that name a page, in order. */
  function KnownTokens(order: seq<string>, m: map<string, SourceFile>): (r: seq<string>)
    ensures forall t :: t in r ==> t in order && t in m
  {
    if order == [] then []
    else
      var init := order[..|order| - 1];
      var t := order[|order| - 1];
      if t in m then KnownTokens(init, m) + [t] else KnownTokens(init, m)
  }

  /** Resolving a concatenation resolves each part. */
  lemma {:induction false} ResolveAppend(a: seq<string>, b: seq<string>, m: map<string, SourceFile>)
    ensures Resolve(a + b, m) == Resolve(a, m) + Resolve(b, m)
    decreases |b|
  {
    if b == [] {
      assert a + b == a;
    } else {
      var init := b[..|b| - 1];
      assert (a + b)[..|a + b| - 1] == a + init;
      ResolveAppend(a, init, m);
    }
  }

  /** The resolved pages are, one for one, the pages of the known tokens. */
  lemma {:induction false} ResolveFollowsToc(order: seq<string>, m: map<string, SourceFile>)
    ensures var r, k := Resolve(order, m), KnownTokens(order, m);
      |r| == |k| && forall i :: 0 <= i < |r| ==> k[i] in m && r[i] == m[k[i]]
  {
    if order != [] {
      var init, t := order[..|order| - 1], order[|order| - 1];
      ResolveFollowsToc(init, m);
      var r, k := Resolve(order, m), KnownTokens(order, m);
      var r', k' := Resolve(init, m), KnownTokens(init, m);
      if t in m {
        assert r == r' + [m[t]] && k == k' + [t];
        forall i | 0 <= i < |r| ensures k[i] in m && r[i] == m[k[i]] {
          if i < |r'| {
            assert r[i] == r'[i] && k[i] == k'[i];
          }
        }
      } else {
        assert r == r' && k == k';
      }
    }
  }

  /** Nothing resolves exactly when no token names a page. */
  lemma {:induction false} ResolveEmptyIff(order: seq<string>, m: map<string, SourceFile>)
    ensures Resolve(order, m) == [] <==> forall i :: 0 <= i < |order| ==> order[i] !in m
  {
    if order != [] {
      var init := order[..|order| - 1];
      ResolveEmptyIff(init, m);
      assert forall i :: 0 <= i < |init| ==> init[i] == order[i];
    }
  }

  /** A page listed twice in the table of contents is recorded twice. */
  lemma RepeatedTokenRepeatsPage(t: string, m: map<string, SourceFile>)
    requires t in m
    ensures Resolve([t, t], m) == [m[t], m[t]]
  {
    assert [t, t][..1] == [t];
    assert [t][..0] == [];
  }

  // ---------------------------------------------------------------------
  // Records and copies

  /** `records` holds, one for one, the metadata of the guide pages `sources`. */
  ghost predicate DocRecords(sources: seq<SourceFile>, records: seq<DocumentMetadata>) {
    && |records| == |sources|
    && forall i {:trigger DocMetadataSpec(sources[i], records[i])} ::
         0 <= i < |sources| ==> DocMetadataSpec(sources[i], records[i])
  }

  /** `records` holds, one for one, the metadata of the examples `sources`. */
  ghost predicate ExampleRecords(sources: seq<SourceFile>, records: seq<ExampleMetadata>) {
    && |records| == |sources|
    && forall i {:trigger ExampleSpec(sources[i], records[i])} ::
         0 <= i < |sources| ==> ExampleSpec(sources[i], records[i])
  }

  /** The records of given pages are determined by the pages. */
  lemma DocRecordsUnique(sources: seq<SourceFile>, r1: seq<DocumentMetadata>, r2: seq<DocumentMetadata>)
    requires DocRecords(sources, r1) && DocRecords(sources, r2)
    ensures r1 == r2
  {
    forall i | 0 <= i < |sources| ensures r1[i] == r2[i] {
      DocMetadataSpecUnique(sources[i], r1[i], r2[i]);
    }
  }

  /** The records of given examples are determined by the examples. */
  lemma ExampleRecordsUnique(sources: seq<SourceFile>, r1: seq<ExampleMetadata>, r2: seq<ExampleMetadata>)
    requires ExampleRecords(sources, r1) && ExampleRecords(sources, r2)
    ensures r1 == r2
  {
    forall i | 0 <= i < |sources| ensures r1[i] == r2[i] {
      ExampleSpecUnique(sources[i], r1[i], r2[i]);
    }
  }

  /** Recording one more page keeps the records one for one. */
  lemma DocRecordsSnoc(sources: seq<SourceFile>, records: seq<DocumentMetadata>, f: SourceFile, m: DocumentMetadata)
    requires DocRecords(sources, records) && DocMetadataSpec(f, m)
    ensures DocRecords(sources + [f], records + [m])
  {
    var s, r := sources + [f], records + [m];
    forall i | 0 <= i < |s| ensures DocMetadataSpec(s[i], r[i]) {
      if i < |sources| {
        assert s[i] == sources[i] && r[i] == records[i];
        assert DocMetadataSpec(sources[i], records[i]);
      }
    }
  }

  /** Recording one more example keeps the records one for one. */
  lemma ExampleRecordsSnoc(sources: seq<SourceFile>, records: seq<ExampleMetadata>, f: SourceFile, m: ExampleMetadata)
    requires ExampleRecords(sources, records) && ExampleSpec(f, m)
    ensures ExampleRecords(sources + [f], records + [m])
  {
    var s, r := sources + [f], records + [m];
    forall i | 0 <= i < |s| ensures ExampleSpec(s[i], r[i]) {
      if i < |sources| {
        assert s[i] == sources[i] && r[i] == records[i];
        assert ExampleSpec(sources[i], records[i]);
      }
    }
  }

  /** A guide page is copied under its own name into `Guide`. */
  function DocCopy(f: SourceFile, out: string): FsEffect {
    Copy(f.path, PathJoin(GuideDir(out), f.name))
  }

  /** An example is copied under its sanitised name into `Examples`. */
  function ExampleCopy(m: ExampleMetadata, out: string): FsEffect {
    Copy(m.path, PathJoin(ExamplesDir(out), m.filename))
  }

  function DocCopies(sources: seq<SourceFile>, out: string): seq<FsEffect> {
    seq(|sources|, i requires 0 <= i < |sources| => DocCopy(sources[i], out))
  }

  function ExampleCopies(records: seq<ExampleMetadata>, out: string): seq<FsEffect> {
    seq(|records|, i requires 0 <= i < |records| => ExampleCopy(records[i], out))
  }

  lemma DocCopiesSnoc(sources: seq<SourceFile>, f: SourceFile, out: string)
    ensures DocCopies(sources + [f], out) == DocCopies(sources, out) + [DocCopy(f, out)]
  {
  }

  lemma ExampleCopiesSnoc(records: seq<ExampleMetadata>, m: ExampleMetadata, out: string)
    ensures ExampleCopies(records + [m], out) == ExampleCopies(records, out) + [ExampleCopy(m, out)]
  {
  }

  /** The bullets of one more record extend the bullets. */
  lemma DocEntriesSnoc(docs: seq<DocumentMetadata>, doc: DocumentMetadata)
    ensures DocEntries(docs + [doc]) == DocEntries(docs) + [DocEntry(doc)]
  {
  }

  lemma ExampleEntriesSnoc(examples: seq<ExampleMetadata>, example: ExampleMetadata)
    ensures ExampleEntries(examples + [example]) == ExampleEntries(examples) + [ExampleEntry(example)]
  {
  }

  /** Every guide link of the index names the file copied for that page. */
  lemma DocLinksMatchCopies(sources: seq<SourceFile>, records: seq<DocumentMetadata>, out: string)
    requires DocRecords(sources, records)
    ensures forall i :: 0 <= i < |records| ==>
      DocCopies(sources, out)[i] == Copy(records[i].path, PathJoin(out, DocLink(records[i])))
  {
    forall i | 0 <= i < |records|
      ensures DocCopies(sources, out)[i] == Copy(records[i].path, PathJoin(out, DocLink(records[i])))
    {
      assert DocMetadataSpec(sources[i], records[i]);
      assert PathJoin(GuideDir(out), sources[i].name) == out + "/" + ("Guide/" + sources[i].name);
    }
  }

  /** Every example is copied from its own path under its sanitised name,
      and every example link of the index names that copy. */
  lemma ExampleLinksMatchCopies(sources: seq<SourceFile>, records: seq<ExampleMetadata>, out: string)
    requires ExampleRecords(sources, records)
    ensures forall i :: 0 <= i < |records| ==>
      var name := SanitizeFilename(sources[i].name);
      && ExampleCopies(records, out)[i] == Copy(sources[i].path, PathJoin(ExamplesDir(out), name))
      && PathJoin(ExamplesDir(out), name) == PathJoin(out, ExampleLink(records[i]))
  {
    forall i | 0 <= i < |records|
      ensures var name := SanitizeFilename(sources[i].name);
        && ExampleCopies(records, out)[i] == Copy(sources[i].path, PathJoin(ExamplesDir(out), name))
        && PathJoin(ExamplesDir(out), name) == PathJoin(out, ExampleLink(records[i]))
    {
      var name := SanitizeFilename(sources[i].name);
      assert ExampleSpec(sources[i], records[i]);
      assert PathJoin(ExamplesDir(out), name) == out + "/" + ("Examples/" + name);
    }
  }

  // ---------------------------------------------------------------------
  // The licence

  /** The first of `names` that is present. */
  function FirstPresent(names: seq<string>, present: set<string>): (r: Option<string>)
    ensures r.None? <==> forall i :: 0 <= i < |names| ==> names[i] !in present
    ensures r.Some? ==> exists i :: 0 <= i < |names| && names[i] == r.value
                          && r.value in present
                          && forall j :: 0 <= j < i ==> names[j] !in present
  {
    if names == [] then None
    else if names[0] in present then Some(names[0])
    else
      var r := FirstPresent(names[1..], present);
      assert forall i :: 0 < i < |names| ==> names[i] == names[1..][i - 1];
      if r.Some? then
        var i :| 0 <= i < |names[1..]| && names[1..][i] == r.value && r.value in present
                && forall j :: 0 <= j < i ==> names[1..][j] !in present;
        assert names[i + 1] == r.value;
        r
      else r
  }

  /** A `LICENSE.txt` is always preferred. */
  lemma PlainTextLicensePreferred(present: set<string>)
    requires "LICENSE.txt" in present
    ensures FirstPresent(LicenseNames, present) == Some("LICENSE.txt")
  {
  }

  /** The copy of licence file `name` from the repository into the skill. */
  function LicenseCopy(repoPath: string, out: string, name: string): FsEffect {
    Copy(PathJoin(repoPath, name), PathJoin(out, name))
  }

  /** What a full run does after the examples: with licence `license` it
      copies it, writes the index and archives the skill; with none it
      stops before doing anything. */
  function Published(repoPath: string, out: string, license: Option<string>,
                   docs: seq<DocumentMetadata>, examples: seq<ExampleMetadata>): seq<FsEffect> {
    match license
    case None => []
    case Some(name) =>
      [LicenseCopy(repoPath, out, name), WriteLines(PathJoin(out, "SKILL.md"), SkillMd(docs, examples)), Archive(out)]
  }

  /** The licence copied is the one the repository has, but the index always
      links `LICENSE.txt`: with only `LICENSE.md` present, the copy is
      `LICENSE.md` and the link in the content licence line dangles. */
  lemma LicenseLinkCanDangle(repoPath: string, out: string)
    ensures FirstPresent(LicenseNames, {"LICENSE.md"}) == Some("LICENSE.md")
    ensures LicenseCopy(repoPath, out, "LICENSE.md").dest == PathJoin(out, "LICENSE.md")
    ensures var line := Footer()[11]; |line| >= 14 && line[|line| - 14..] == "(LICENSE.txt)."
  {
    assert LicenseNames[0] !in {"LICENSE.md"};
    FooterLinksLicenseTxt();
  }

  /** In the log of a full run, after the prefix and the reset, the copy of
      guide page `i` lands where its index link points, and after the guide
      copies the copy of example `j` lands where its index link points. */
  lemma BuildCopiesMatchLinks(prefix: seq<FsEffect>, out: string, sources: seq<SourceFile>,
                              records: seq<DocumentMetadata>, examples: seq<ExampleMetadata>, rest: seq<FsEffect>)
    requires DocRecords(sources, records)
    ensures var log := prefix + [ResetDir(out)] + DocCopies(sources, out) + ExampleCopies(examples, out) + rest;
      && (forall i :: 0 <= i < |records| ==>
            log[|prefix| + 1 + i] == Copy(records[i].path, PathJoin(out, DocLink(records[i]))))
      && (forall j :: 0 <= j < |examples| ==>
            log[|prefix| + 1 + |records| + j] == Copy(examples[j].path, PathJoin(out, ExampleLink(examples[j]))))
  {
    var docs, exs := DocCopies(sources, out), ExampleCopies(examples, out);
    var log := prefix + [ResetDir(out)] + docs + exs + rest;
    DocLinksMatchCopies(sources, records, out);
    forall i | 0 <= i < |records|
      ensures log[|prefix| + 1 + i] == Copy(records[i].path, PathJoin(out, DocLink(records[i])))
    {
      assert log[|prefix| + 1 + i] == docs[i];
    }
    forall j | 0 <= j < |examples|
      ensures log[|prefix| + 1 + |records| + j] == Copy(examples[j].path, PathJoin(out, ExampleLink(examples[j])))
    {
      assert log[|prefix| + 1 + |records| + j] == exs[j];
      assert PathJoin(ExamplesDir(out), examples[j].filename) == out + "/" + ("Examples/" + examples[j].filename);
    }
  }

  // ---------------------------------------------------------------------
  // The generator

  /** The first step of processing the guide: the stem map, built by a walk
      over the listing. */
  method IndexGuide(guideListing: seq<SourceFile>) returns (fileMap: map<string, SourceFile>)
    ensures fileMap == StemMap(guideListing)
  {
    fileMap := map[];
    for i := 0 to |guideListing|
      invariant fileMap == StemMap(guideListing[..i])
    {
      var mdFile := guideListing[i];
      assert guideListing[..i + 1][..i] == guideListing[..i];
      if mdFile.name == TocFileName {
        continue;
      }
      fileMap := fileMap[mdFile.stem := mdFile];
    }
    assert guideListing[..|guideListing|] == guideListing;
  }

  /** Builds the index line by line, as `_generate_skill_md` appends to its
      list: the header, a bullet per page, a blank line, the examples section
      when there are examples, then the footer. */
  method RenderIndex(header: seq<string>, docs: seq<DocumentMetadata>, examples: seq<ExampleMetadata>,
                     footer: seq<string>) returns (content: seq<string>)
    ensures content == Layout(header, docs, examples, footer)
  {
    content := header;
    for i := 0 to |docs|
      invariant content == header + DocEntries(docs[..i])
    {
      var doc := docs[i];
      var entry := DocEntry(doc);
      DocEntriesSnoc(docs[..i], doc);
      assert docs[..i + 1] == docs[..i] + [doc];
      content := content + [entry];
    }
    assert docs[..|docs|] == docs;
    content := content + [""];
    ghost var beforeExamples := content;
    if |examples| > 0 {
      content := content + ExamplesIntro();
      for i := 0 to |examples|
        invariant content == beforeExamples + ExamplesIntro() + ExampleEntries(examples[..i])
      {
        var example := examples[i];
        var entry := ExampleEntry(example);
        ExampleEntriesSnoc(examples[..i], example);
        assert examples[..i + 1] == examples[..i] + [example];
        content := content + [entry];
      }
      assert examples[..|examples|] == examples;
      content := content + [""];
    }
    assert content == beforeExamples + ExamplesSection(examples);
    content := content + footer;
  }

  class SkillGenerator {
    const config: Config
    const repoPath: string
    var docRegistry: seq<DocumentMetadata>
    var exampleRegistry: seq<ExampleMetadata>
    /** Everything the generator has done to the file system, in order. */
    ghost var effects: seq<FsEffect>

    constructor (config: Config, repoPath: string)
      ensures this.config == config && this.repoPath == repoPath
      ensures docRegistry == [] && exampleRegistry == [] && effects == []
    {
      this.config := config;
      this.repoPath := repoPath;
      docRegistry := [];
      exampleRegistry := [];
      effects := [];
    }

    /** Indexes the guide pages of `guideListing` by stem, then records and
        copies the page of each token of `docOrder` that names one; fails
        when the registry is still empty afterwards. */
    method ProcessDocs(docOrder: seq<string>, guideListing: seq<SourceFile>) returns (r: Outcome<BuildError>)
      modifies this
      ensures var sources := Resolve(docOrder, StemMap(guideListing));
        && |docRegistry| == |old(docRegistry)| + |sources|
        && docRegistry[..|old(docRegistry)|] == old(docRegistry)
        && DocRecords(sources, docRegistry[|old(docRegistry)|..])
        && effects == old(effects) + (if config.dryRun then [] else DocCopies(sources, config.outputPath))
      ensures exampleRegistry == old(exampleRegistry)
      ensures r == (if docRegistry == [] then Fail(NoDocumentation) else Pass)
    {
      var fileMap := IndexGuide(guideListing);
      ghost var before := docRegistry;
      ghost var effects0 := effects;
      ghost var sources: seq<SourceFile> := [];
      ghost var records: seq<DocumentMetadata> := [];
      for i := 0 to |docOrder|
        invariant sources == Resolve(docOrder[..i], fileMap)
        invariant docRegistry == before + records && DocRecords(sources, records)
        invariant effects == effects0 + (if config.dryRun then [] else DocCopies(sources, config.outputPath))
        invariant exampleRegistry == old(exampleRegistry)
      {
        var docName := docOrder[i];
        assert docOrder[..i + 1][..i] == docOrder[..i];
        if docName !in fileMap {
          continue;
        }
        var sourcePath := fileMap[docName];
        var metadata := ExtractMetadata(sourcePath);
        docRegistry := docRegistry + [metadata];
        if !config.dryRun {
          effects := effects + [DocCopy(sourcePath, config.outputPath)];
        }
        DocRecordsSnoc(sources, records, sourcePath, metadata);
        DocCopiesSnoc(sources, sourcePath, config.outputPath);
        sources, records := sources + [sourcePath], records + [metadata];
      }
      assert docOrder[..|docOrder|] == docOrder;
      assert docRegistry[..|before|] == before && docRegistry[|before|..] == records;
      if docRegistry == [] {
        return Fail(NoDocumentation);
      }
      return Pass;
    }

    /** The body of `_process_examples`' loop: records one example and,
        unless it is a dry run, copies it under its sanitised name. */
    method RecordExample(sourcePath: SourceFile) returns (ghost metadata: ExampleMetadata)
      modifies this`exampleRegistry, this`effects
      ensures ExampleSpec(sourcePath, metadata)
      ensures exampleRegistry == old(exampleRegistry) + [metadata]
      ensures effects == old(effects) + (if config.dryRun then [] else [ExampleCopy(metadata, config.outputPath)])
    {
      var m := ExtractExampleMetadata(sourcePath);
      exampleRegistry := exampleRegistry + [m];
      if !config.dryRun {
        effects := effects + [ExampleCopy(m, config.outputPath)];
      }
      metadata := m;
    }

    /** The loop of `_process_examples`: records and copies `files` in
        order, appending to the example registry. */
    method RecordExamples(files: seq<SourceFile>)
      modifies this`exampleRegistry, this`effects
      ensures |exampleRegistry| == |old(exampleRegistry)| + |files|
      ensures exampleRegistry[..|old(exampleRegistry)|] == old(exampleRegistry)
      ensures ExampleRecords(files, exampleRegistry[|old(exampleRegistry)|..])
      ensures effects == old(effects)
        + (if config.dryRun then [] else ExampleCopies(exampleRegistry[|old(exampleRegistry)|..], config.outputPath))
    {
      ghost var before := exampleRegistry;
      ghost var records: seq<ExampleMetadata> := [];
      for i := 0 to |files|
        invariant exampleRegistry == before + records && ExampleRecords(files[..i], records)
        invariant effects == old(effects) + (if config.dryRun then [] else ExampleCopies(records, config.outputPath))
      {
        ghost var metadata := RecordExample(files[i]);
        ExampleRecordsSnoc(files[..i], records, files[i], metadata);
        ExampleCopiesSnoc(records, metadata, config.outputPath);
        assert files[..i + 1] == files[..i] + [files[i]];
        records := records + [metadata];
      }
      assert files[..|files|] == files;
      assert exampleRegistry[..|before|] == before && exampleRegistry[|before|..] == records;
    }

    /** Records and copies every example, in name order; without an
        examples directory or example files nothing changes. */
    method ProcessExamples(examplesRoot: Option<seq<SourceFile>>)
      modifies this
      ensures var files := GetExampleFiles(examplesRoot);
        && |exampleRegistry| == |old(exampleRegistry)| + |files|
        && exampleRegistry[..|old(exampleRegistry)|] == old(exampleRegistry)
        && ExampleRecords(files, exampleRegistry[|old(exampleRegistry)|..])
        && effects == old(effects)
             + (if config.dryRun then [] else ExampleCopies(exampleRegistry[|old(exampleRegistry)|..], config.outputPath))
      ensures docRegistry == old(docRegistry)
    {
      var exampleFiles := GetExampleFiles(examplesRoot);
      RecordExamples(exampleFiles);
    }

    /** Copies the first licence file the repository has, in order of
        preference, into the skill; fails when it has none. */
    method CopyLicense(present: set<string>) returns (r: Outcome<BuildError>)
      modifies this
      ensures docRegistry == old(docRegistry) && exampleRegistry == old(exampleRegistry)
      ensures match FirstPresent(LicenseNames, present)
        case Some(name) =>
          r == Pass && effects == old(effects) + [LicenseCopy(repoPath, config.outputPath, name)]
        case None => r == Fail(NoLicense) && effects == old(effects)
    {
      for i := 0 to |LicenseNames|
        invariant FirstPresent(LicenseNames, present) == FirstPresent(LicenseNames[i..], present)
        invariant effects == old(effects)
      {
        var name := LicenseNames[i];
        assert LicenseNames[i..] == [name] + LicenseNames[i + 1..];
        if name in present {
          effects := effects + [LicenseCopy(repoPath, config.outputPath, name)];
          return Pass;
        }
      }
      return Fail(NoLicense);
    }

    method GenerateSkillMd()
      modifies this
      ensures docRegistry == old(docRegistry) && exampleRegistry == old(exampleRegistry)
      ensures effects == old(effects) + [WriteLines(PathJoin(config.outputPath, "SKILL.md"), SkillMd(docRegistry, exampleRegistry))]
    {
      var content := RenderIndex(Header(), docRegistry, exampleRegistry, Footer());
      effects := effects + [WriteLines(PathJoin(config.outputPath, "SKILL.md"), content)];
    }

    /** The last steps of a full run: copy the licence, write the index and
        archive the skill, stopping when there is no licence. */
    method Publish(licenses: set<string>) returns (r: Outcome<BuildError>)
      modifies this
      ensures docRegistry == old(docRegistry) && exampleRegistry == old(exampleRegistry)
      ensures r == (if FirstPresent(LicenseNames, licenses).None? then Fail(NoLicense) else Pass)
      ensures effects == old(effects)
        + Published(repoPath, config.outputPath, FirstPresent(LicenseNames, licenses), docRegistry, exampleRegistry)
    {
      r := CopyLicense(licenses);
      if r.Fail? {
        return;
      }
      GenerateSkillMd();
      effects := effects + [Archive(config.outputPath)];
    }

    /** The steps of the build after the guide: process the examples,
        then, unless it is a dry run, copy the licence, write the index and
        archive the skill. */
    method Package(examplesRoot: Option<seq<SourceFile>>, licenses: set<string>) returns (r: Outcome<BuildError>)
      modifies this
      ensures docRegistry == old(docRegistry)
      ensures var files := GetExampleFiles(examplesRoot);
        && |exampleRegistry| == |old(exampleRegistry)| + |files|
        && exampleRegistry[..|old(exampleRegistry)|] == old(exampleRegistry)
        && ExampleRecords(files, exampleRegistry[|old(exampleRegistry)|..])
      ensures config.dryRun ==> effects == old(effects) && r == Pass
      ensures !config.dryRun ==>
        r == (if FirstPresent(LicenseNames, licenses).None? then Fail(NoLicense) else Pass)
      ensures !config.dryRun ==>
        effects == old(effects)
          + ExampleCopies(exampleRegistry[|old(exampleRegistry)|..], config.outputPath)
          + Published(repoPath, config.outputPath, FirstPresent(LicenseNames, licenses), docRegistry, exampleRegistry)
    {
      ProcessExamples(examplesRoot);
      if config.dryRun {
        return Pass;
      }
      r := Publish(licenses);
    }

    /** The whole build: read the table of contents, process the guide,
        then package the skill. `toc` is the table of contents' text when
        the file exists, `licenses` the licence names present in the
        repository. A full run logs the reset, the guide copies, the example
        copies, the licence copy, the index write and the archive, stopping
        where it fails. */
    method Build(toc: Option<string>, guideListing: seq<SourceFile>, examplesRoot: Option<seq<SourceFile>>,
                 licenses: set<string>) returns (r: Outcome<BuildError>)
      modifies this
      ensures toc.None? ==> r == Fail(TocNotFound(PathJoin(repoPath, TocRelPath))) && unchanged(this)
      ensures toc.Some? ==>
        var sources := Resolve(ParseTocOrder(toc.value), StemMap(guideListing));
        && |docRegistry| == |old(docRegistry)| + |sources|
        && docRegistry[..|old(docRegistry)|] == old(docRegistry)
        && DocRecords(sources, docRegistry[|old(docRegistry)|..])
      ensures toc.Some? && docRegistry == [] ==>
        r == Fail(NoDocumentation) && exampleRegistry == old(exampleRegistry)
      ensures toc.Some? && docRegistry != [] ==>
        var files := GetExampleFiles(examplesRoot);
        && |exampleRegistry| == |old(exampleRegistry)| + |files|
        && exampleRegistry[..|old(exampleRegistry)|] == old(exampleRegistry)
        && ExampleRecords(files, exampleRegistry[|old(exampleRegistry)|..])
      ensures config.dryRun ==> effects == old(effects)
      ensures config.dryRun && toc.Some? && docRegistry != [] ==> r == Pass
      ensures !config.dryRun && toc.Some? && docRegistry != [] ==>
        r == (if FirstPresent(LicenseNames, licenses).None? then Fail(NoLicense) else Pass)
      ensures !config.dryRun && toc.Some? && docRegistry == [] ==>
        effects == old(effects) + [ResetDir(config.outputPath)]
          + DocCopies(Resolve(ParseTocOrder(toc.value), StemMap(guideListing)), config.outputPath)
      ensures !config.dryRun && toc.Some? && docRegistry != [] ==>
        effects == old(effects) + [ResetDir(config.outputPath)]
          + DocCopies(Resolve(ParseTocOrder(toc.value), StemMap(guideListing)), config.outputPath)
          + ExampleCopies(exampleRegistry[|old(exampleRegistry)|..], config.outputPath)
          + Published(repoPath, config.outputPath, FirstPresent(LicenseNames, licenses), docRegistry, exampleRegistry)
    {
      if toc.None? {
        return Fail(TocNotFound(PathJoin(repoPath, TocRelPath)));
      }
      var docOrder := ParseTocOrder(toc.value);
      if !config.dryRun {
        effects := effects + [ResetDir(config.outputPath)];
      }
      r := ProcessDocs(docOrder, guideListing);
      if r.Fail? {
        return;
      }
      r := Package(examplesRoot, licenses);
    }
  }
}
