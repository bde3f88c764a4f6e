# Swift concurrency migration skill packager — Dafny model

`package.py` turns a clone of the Swift Concurrency Migration Guide
repository into a "skill": a directory holding the guide's markdown pages
under `Guide/`, its Swift examples under `Examples/`, the licence and a
generated `SKILL.md` index, zipped at the end. This project models the
content pipeline at its heart and proves what it promises:

- `Toc` reads the table of contents: `re.findall(r'<doc:([^>]+)>', …)` as a
  left-to-right, non-overlapping scan.
- `Content` holds `sanitize_filename`, the markdown title and description
  scan of `extract_metadata`, the Swift comment scan of
  `extract_example_metadata`, and `get_example_files`. Both scans are
  imperative `for` loops with `break` and `continue`, as in the source. Each
  is proved against a relational specification (`DocMetadataSpec`,
  `ExampleSpec`) that pins the result down uniquely.
- `Listing` is the directory listing and Python's `sorted` on paths of one
  directory, that is by name in code-point order.
- `SkillIndex` is the text of `SKILL.md` as a sequence of lines.
- `Generator` is the `SkillGenerator` class. It has the two registries as
  fields that its methods append to, plus a ghost log of file-system
  effects: directory reset, copies, the index write and the archive.
  `Build` follows `build()`: table of contents, output directory, guide,
  examples, licence, index, archive.

`Text` models the Python string operations these need: `strip` (over
`str.isspace`'s character set), `startswith`, and single-character
`replace`. `Outcomes` holds `Option` and an `Outcome` for steps that can
raise.

File contents arrive as the lines `splitlines()` gives. Directory listings
arrive as sequences of `SourceFile(path, name, stem, lines)`. A missing file
or directory is `None`. The licence files present are a set of names.

### Where the code and its documentation disagree

The model follows the code in each case.

- `extract_example_metadata`: a `/// Does X.` line is taken by the `//`
  branch first (package.py:270-275). Its description is therefore
  `/ Does X.`, not `Does X.`. The `///` branch (package.py:278-280) can never
  run. `TripleSlashKeepsSlash` and `DocCommentExample` state this, and the
  method marks the dead branch with `assert false`.
- A rejected `//` comment (empty, `MARK:` or `===`) is not skipped. It falls
  through to the code check at package.py:283 and ends the scan, so
  `// MARK: -` as the first line gives the made-up description
  whatever follows (`RejectedCommentEndsScan`, `MarkCommentExample`).

The index's licence line always links `LICENSE.txt` (package.py:503),
while `_copy_license` may copy `LICENSE.md` or `LICENSE` instead
(package.py:428-431). The model reproduces both as written: `Footer` and
`CopyLicense`. `LicenseLinkCanDangle` states the consequence: with only
`LICENSE.md` present, the copied file and the linked file differ.

Long literal lines of the index are written as concatenations of short
literals. Each line's text is exactly the source's. This keeps the
verifier's work on the fixed header and footer small.

## Model

| member | source | states |
|---|---|---|
| Toc.FindClose | package.py:188 | the first `>` of a string: it is a `>`, none comes before it, and there is none exactly when the result is absent (the `[^>]+>` part of the pattern) |
| Toc.ParseTocOrder | package.py:180-188 | every token is non-empty and holds no `>`; each token uses at least seven characters of text |
| Toc.PlainPrefix | package.py:188 | text without `<` before the rest adds no token and leaves the rest's tokens as they are |
| Toc.MarkerStep | package.py:188 | a `<doc:TOKEN>` marker at the front yields TOKEN, followed by the tokens of what comes after |
| Toc.EmptyMarkerIgnored | package.py:188 | `<doc:>` yields no token, and the scan goes on after it |
| Toc.NoOpenNoTokens | package.py:188 | text in which `<doc:` never starts yields `[]` |
| Toc.TocRoundTrip | package.py:180-188 | a table of contents written from any list of valid tokens, each marker preceded by its own text free of `<` and followed by trailing text free of `<`, parses back to exactly that list, in order and with duplicates |
| Toc.DuplicatesKept | package.py:188 | markers a, b, a yield [a, b, a]: duplicates are kept in order |
| Toc.NestedOpenInToken | package.py:188 | `<doc:a<doc:b>` yields the single token `a<doc:b` |
| Text.Strip | package.py:209 | `strip()`: the string with its leading and then its trailing whitespace removed; what that guarantees is stated by `StripSlice`, `StripSpec` and `StripIdempotent` |
| Text.StripSlice | package.py:209 | `strip()` returns a contiguous slice of the line, and every character outside that slice is whitespace |
| Text.StripSpec | package.py:209 | `strip()` leaves a result that is empty or neither starts nor ends with whitespace; it is empty exactly when the line is all whitespace |
| Text.StripIdempotent | package.py:209 | stripping twice is stripping once |
| Text.ReplaceChar | package.py:169 | single-character `replace(a, b)`: each character equal to `a` becomes `b`, scanning left to right; what that guarantees is stated by `ReplaceCharSpec` |
| Text.ReplaceCharSpec | package.py:169 | single-character `replace` keeps the length and replaces exactly the matching characters |
| Listing.Insert | package.py:305 | inserting into a name-sorted listing keeps it sorted and adds exactly that file |
| Listing.SortByName | package.py:305 | `sorted` returns a name-sorted permutation of the listing |
| Content.SanitizeFilename | package.py:167-169 | the result has the same length and no `+`; each `+` becomes `_` and every other character is kept |
| Content.SanitizeIdempotent | package.py:167-169 | sanitising twice is sanitising once |
| Content.SanitizeNotInjective | package.py:167-169 | `a+b.swift` and `a_b.swift` get the same name, so their copies collide |
| Content.ExtractMetadata | package.py:190-249 | the scan's result meets `DocMetadataSpec`, and its description is never empty |
| Content.FirstTitleUnique | package.py:228-232 | only one line is the first title line |
| Content.FirstDescUnique | package.py:234-239 | only one line is the first description line after the title |
| Content.SpecWithoutTitle | package.py:201-242 | with no title line, the stem and the placeholder meet the specification |
| Content.SpecWithoutDescription | package.py:228-242 | with a title line but no description line after it, its heading and the placeholder meet the specification |
| Content.SpecWithDescription | package.py:228-239 | the first title line's heading and the first description line after it meet the specification |
| Content.TitleNotEmpty | package.py:229-230 | the heading text of a title line is never empty |
| Content.BlockStaysOpen | package.py:211-221 | after an `@` line, the metadata block stays open until a `}` line |
| Content.UnclosedBlockHides | package.py:211-221 | lines inside an unclosed metadata block are never a title or a description |
| Content.FindFirstTitle | package.py:227-232 | if some line is a title line, a first one exists |
| Content.FindFirstDesc | package.py:234-239 | if some line after the title is a description line, a first one exists |
| Content.DocMetadataSpecUnique | package.py:190-249 | two results meeting `DocMetadataSpec` are equal, so the specification determines the metadata |
| Content.TitleThenProse | package.py:208-239 | `# Title` then `Some text.` gives title `Title` and description `Some text.` |
| Content.ExtractExampleMetadata | package.py:251-299 | the scan's result meets `ExampleSpec` (sanitised name, path, first described comment or the made-up description), and its description is never empty |
| Content.CommentNotSkippable | package.py:265-284 | a `//` line is never passed over |
| Content.DescribedAtUnique | package.py:262-275 | at most one line is where the scan stops with a description |
| Content.TripleSlashKeepsSlash | package.py:270-280 | a `///` line always describes, and its description starts with `/` |
| Content.ScanStopsWithout | package.py:282-284 | a line reached after only skipped lines, which neither describes nor is skipped, ends the scan with no description |
| Content.AllSkippedNoDescription | package.py:262-290 | when every line is skipped, no line describes |
| Content.RejectedCommentEndsScan | package.py:270-284 | an empty, `MARK:` or `===` comment reached before a description ends the scan: no line describes |
| Content.SpecDescribedAt | package.py:270-275 | the text of the describing line meets `ExampleSpec` |
| Content.FallbackDescription | package.py:290 | the made-up description `Example code demonstrating <stem>.` with every `_` and then every `+` of the stem turned into a space |
| Content.SpecFallback | package.py:286-293 | with no describing line, the description made from the stem meets `ExampleSpec` |
| Content.ExampleSpecUnique | package.py:251-299 | two results meeting `ExampleSpec` are equal |
| Content.DocCommentExample | package.py:270-280 | `/// Does X.` as the first line gives the description `/ Does X.` |
| Content.MarkLineRejected | package.py:270-273 | `// MARK: -` is a `//` line that does not describe |
| Content.MarkCommentExample | package.py:270-290 | a first line `// MARK: -` gives the made-up description, whatever follows |
| Content.GetExampleFiles | package.py:301-305 | no directory gives `[]`; otherwise a name-sorted permutation of the listing |
| SkillIndex.SafeDescription | package.py:466 | a bullet's description with every `[` replaced by `(` and then every `]` by `)` (the same expression serves the example bullets at line 481); its guarantee is `SafeDescriptionSpec` |
| SkillIndex.SafeDescriptionSpec | package.py:466 | a bullet's description has no `[` or `]`: `[` becomes `(`, `]` becomes `)`, and every other character is kept |
| SkillIndex.Layout | package.py:447-510 | the index page for a given header and footer: the header, one bullet per guide page in registry order, a blank line, the examples section only when there are examples, then the footer; proved about a symbolic header by the `Layout*` lemmas |
| SkillIndex.SkillMd | package.py:447-510 | the lines of SKILL.md: `Layout` with the fixed frontmatter-and-overview header and the usage-and-licence footer |
| SkillIndex.HeaderShape | package.py:447-461 | the header has 11 lines and ends with `## Documentation` and a blank line |
| SkillIndex.EntryShape | package.py:467 | every bullet starts with `- **` |
| SkillIndex.LayoutDocs | package.py:447-470 | after the header come the bullets, one per page in order, then a blank line; the total length adds up |
| SkillIndex.DocEntriesNotBlank | package.py:464-468 | no documentation bullet is blank |
| SkillIndex.ExamplesSectionShape | package.py:473-485 | the examples section is the heading, then the blank line, introduction and blank line of `ExamplesIntro`, one bullet per example in order, and a closing blank line |
| SkillIndex.LayoutExamples | package.py:470-485 | with examples, their section starts right after the blank line that ends the documentation bullets |
| SkillIndex.DocEntriesLackExamplesHeading | package.py:464-468 | no documentation bullet is the `## Code Examples` line |
| SkillIndex.LayoutExamplesHeading | package.py:470-510 | with a header and footer that lack it, `## Code Examples` appears exactly when there are examples |
| SkillIndex.LayoutDocSection | package.py:459-470 | with an 11-line header ending in the documentation heading, line 11+i is the bullet of page i, and line 11+n is blank |
| SkillIndex.FooterLength | package.py:488-510 | the usage and licence notes are 17 lines |
| SkillIndex.FooterLinksLicenseTxt | package.py:500-503 | the content-licence line of the footer links the licence as `(LICENSE.txt).`, whichever licence file was copied |
| SkillIndex.DocSection | package.py:447-470 | in SKILL.md, `## Documentation` is followed by one non-blank bullet per registered page, in registry order, linking `Guide/<filename>`, then a blank line |
| SkillIndex.LayoutExampleSection | package.py:470-485 | with an 11-line header and examples, the examples heading is line 12+n and example j's bullet is line 16+n+j |
| SkillIndex.ExampleSection | package.py:472-485 | in SKILL.md with examples, `## Code Examples` follows the documentation section, with one bullet per example in registry order, linking `Examples/<filename>` |
| SkillIndex.HeaderHasNoExamplesHeading | package.py:447-461 | the header has no `## Code Examples` line |
| SkillIndex.FooterHasNoExamplesHeading | package.py:488-510 | the footer has no `## Code Examples` line |
| SkillIndex.CodeExamplesIffExamples | package.py:472-485 | SKILL.md has a `## Code Examples` line exactly when the example registry is not empty |
| Generator.StemMap | package.py:369-375 | every key maps to a file with that stem, which is in the listing and is not `MigrationGuide.md`; every other file's stem is a key |
| Generator.StemMapFindsEachPage | package.py:369-375 | when no two pages share a stem, each page is found under its own stem |
| Generator.Resolve | package.py:377-382 | no more pages than tokens, each of them a page of the map |
| Generator.KnownTokens | package.py:377-380 | the tokens kept are tokens of the table of contents that name a page |
| Generator.ResolveAppend | package.py:377-382 | resolving two token lists one after the other is resolving their concatenation |
| Generator.ResolveFollowsToc | package.py:377-387 | the resolved pages are, one for one and in order, the pages of the tokens that name one: unknown tokens are dropped and repeats are kept |
| Generator.ResolveEmptyIff | package.py:377-396 | nothing resolves exactly when no token names a page, which is the case `_process_docs` raises on |
| Generator.RepeatedTokenRepeatsPage | package.py:377-387 | a page listed twice is recorded twice |
| Generator.DocRecordsUnique | package.py:384-386 | the doc registry's records are determined by the pages |
| Generator.ExampleRecordsUnique | package.py:410-412 | the example registry's records are determined by the files |
| Generator.DocCopy | package.py:390-393 | the copy of a guide page: from its source path to `Guide/<its own name>` under the output directory |
| Generator.DocLinksMatchCopies | package.py:390-393 | each page's index link `Guide/<filename>` names the file its copy writes |
| Generator.ExampleCopy | package.py:414-417 | the copy of an example: from its source path to `Examples/<sanitised name>` under the output directory |
| Generator.ExampleLinksMatchCopies | package.py:414-417 | each example is copied from its path under its sanitised name, and its index link `Examples/<filename>` names that copy |
| Generator.LicenseCopy | package.py:428-431 | the copy of licence file `name`: from `name` in the repository root to `name` in the output directory |
| Generator.FirstPresent | package.py:428-435 | absent exactly when no name is present; otherwise a present name that no earlier name precedes |
| Generator.PlainTextLicensePreferred | package.py:428-431 | with `LICENSE.txt` present, it is the licence chosen |
| Generator.LicenseLinkCanDangle | package.py:428-503 | with only `LICENSE.md` present, the copied file is `LICENSE.md` while the footer still links `LICENSE.txt`, so the link can name a file that is not in the skill |
| Generator.Published | package.py:333-343 | what a full run does after the examples: nothing when no licence is present, otherwise the licence copy, the write of SKILL.md for the registries, and the archive, in that order |
| Generator.IndexGuide | package.py:369-375 | the loop builds exactly `StemMap` of the listing |
| Generator.RenderIndex | package.py:447-510 | the appended lines are exactly the layout: header, a bullet per page, a blank line, the examples section when there are examples, and the footer |
| Generator.BuildCopiesMatchLinks | package.py:319-343 | in the log of a full run, the entry after the reset for guide page `i` copies that page to where its index link points, and the entry for example `j` after the guide copies copies it to where its link points |
| Generator.SkillGenerator.constructor | package.py:317-318 | the registries and the effect log start empty |
| Generator.SkillGenerator.ProcessDocs | package.py:366-396 | appends one record per resolved page, in order and meeting `DocMetadataSpec`; logs a copy per page unless it is a dry run; fails exactly when the registry is then empty |
| Generator.SkillGenerator.RecordExample | package.py:407-417 | appends the file's record, which meets `ExampleSpec`, and logs its copy under the sanitised name unless it is a dry run |
| Generator.SkillGenerator.RecordExamples | package.py:407-417 | appends one record per file, in order; logs their copies unless it is a dry run |
| Generator.SkillGenerator.ProcessExamples | package.py:398-419 | appends one record per example file in name order, meeting `ExampleSpec`, and logs their copies unless it is a dry run; no directory changes nothing |
| Generator.SkillGenerator.CopyLicense | package.py:421-435 | copies the first present licence by order of preference and appends exactly that copy to the log, or fails with `NoLicense` when none is present and changes nothing |
| Generator.SkillGenerator.GenerateSkillMd | package.py:437-514 | writes `SkillMd` of the current registries to `SKILL.md` and changes neither registry |
| Generator.SkillGenerator.Publish | package.py:333-343 | leaves the registries alone; succeeds exactly when a licence is present; appends exactly `Published(...)` to the log: the licence copy, the SKILL.md write and the archive, or nothing on failure |
| Generator.SkillGenerator.Package | package.py:329-343 | records the examples; a dry run then stops with success, touching no file; otherwise the result is `Pass` exactly when a licence is present, else `NoLicense`, and the log gains exactly the example copies followed by `Published(...)` |
| Generator.SkillGenerator.Build | package.py:319-343 | a missing table of contents fails and changes nothing; otherwise the registries hold the records of the resolved pages and, past the guide, of the examples; a dry run changes no file; a full run's log is exactly the reset, the guide copies (stopping there with `NoDocumentation` when nothing resolved), the example copies and `Published(...)`, and its result is `Pass` exactly when a licence is present |

## Left out

- `GitRepository` (package.py:89-145): clone, temporary directory and cleanup are external processes.
- `signal_handler`, `main`, argument parsing and `Configuration.from_args` (package.py:76-84, 519-559) are command-line plumbing. The configuration is a `Config` value.
- Logging (package.py:45-55 and every `logger` call). This includes the warning when there are no example files. That early return changes nothing else, so `ProcessExamples` has no separate branch for it.
- Reading, globbing and copying files (`read_text`, `splitlines`, `glob`, `shutil.copy2`, `mkdir`, `rmtree`, `write_text`) are not performed. File contents arrive as lines, and listings arrive in the order `glob` returns them. Writes are entries in the effect log.
- `_prepare_directory` and `_create_zip_archive` (package.py:347-364) are single `ResetDir` and `Archive` entries of the effect log. The zip's naming is not modelled.
- `SkillIndex.SkillMd` is the list of lines. Joining them with `'\n'` for the write (package.py:514) is not modelled.
- Path objects are strings joined with `/`. Path normalisation is not modelled.
- `splitlines` line-boundary characters are not modelled: each line is taken as given.
- Exceptions other than the three the source raises on purpose (missing table of contents, no documentation, no licence) are not modelled. Unreadable files and failed copies are examples.
