# Emergence note library, modelled in Dafny

Emergence keeps a Zettelkasten: a directory of Markdown notes ("zettels"),
each named `<id>.md`. Each note opens with a five-line header: `---`, a title,
a date, the tags, `---`. A small database holds the notes' titles and their
tags. The library (`emergence_zk`) does five things:

- it derives a note's id from its file name;
- it builds tags;
- it reads and writes the header (two revisions of the format);
- it loads a note, bringing the database's title and tags in line with the
  header and collecting the note's links to other notes;
- it writes new notes with a builder, and builds the note graph of a
  directory.

This project models that library and proves what it promises.

One module per source file, in dependency order:

| module | models |
|---|---|
| `Errors` | `ZkError`, plus the `Result`/`Option` wrappers |
| `Text` | the Rust string operations the code relies on (`lines`, `trim`, `split_whitespace`, `strip_prefix`, `to_lowercase`, `is_ascii`, byte-offset slicing, `Ord` on strings) |
| `Slices` | `sort`, `binary_search` and `remove` on the sorted list of declared tag names |
| `Chrono` | the dates: `%Y-%m-%d %I:%M:%S %p` formatting and parsing, and `Display` |
| `Paths` | the part of `std::path` the library uses: components, `push`, `file_name`, `extension`, `OsStr::to_str` |
| `Id` | `id.rs` |
| `Tags` | `tag.rs` |
| `HeaderText` | the delimiter check and line lookup shared by both header revisions |
| `ZettelFrontMatter` | `zettel/frontmatter.rs`, the current header |
| `LegacyFrontMatter` | `frontmatter.rs`, the older header |
| `Fs` | the file system as a class: file contents, `canonicalize`, `read_dir`, `create_new` |
| `Store` | the database as a class |
| `Links` | `link.rs` |
| `Zettels` | `zettel/mod.rs` |
| `Builder` | `zettel/builder.rs` |
| `LegacyZettel` | `zettel.rs` |
| `Kasten` | `kasten.rs` |

**The database.** It is a class `Store.Db` holding:

- zettel records: nanoid → title, the nanoid unique;
- tag records: nanoid → name and colour;
- a set of (zettel nanoid, tag nanoid) associations.

The association table's composite primary key makes the associations a set. Its
foreign keys are the class invariant `Valid()`, which every operation keeps.

**Loading a note** (`Zettels.FromPath`) proceeds as the code does:

1. derive the id, then read the header;
2. insert the note's record if it is missing;
3. walk the stored tags:
   - a stored tag whose name is still declared uses up one occurrence of that name and is kept;
   - any other stored tag loses its association with the note, while its tag record remains;
4. give every left-over declared name a new tag record and an association;
5. update the stored title when it differs;
6. collect the links.

**Graph ingestion** (`Kasten.Parse`) has three passes:

1. the files that pass the filter become notes, and their canonical paths are indexed;
2. the notes become nodes;
3. every link whose raw target resolves to an ingested note becomes an edge.

**What stands in for what the code calls out to:**

- **Markdown link scan.** A function `scan` from a body to its link targets.
- **File system.** The `Fs.FileSystem` class:
  - its maps of file contents, canonical paths and directory listings stand in for `read_to_string`, `canonicalize` and `read_dir`;
  - `CreateNew` stands in for `OpenOptions::create_new`.
- **Random generation.**
  - A generated id is a parameter `picks`: five indices into the alphabet.
  - The tag nanoids are a parameter `nextId`.
- **Clock.** The current time is a parameter `now`.

## Model

| member | source | states |
|---|---|---|
| Text.StripPrefix | emergence_zk/src/zettel/frontmatter.rs:88 | succeeds exactly when the prefix starts the line; the prefix followed by the result is the line |
| Text.TrimStart | emergence_zk/src/zettel/frontmatter.rs:72 | removes exactly the leading whitespace: what is removed is whitespace, and what is left starts with none |
| Text.TrimEnd | emergence_zk/src/zettel/frontmatter.rs:72 | removes exactly the trailing whitespace |
| Text.SplitWhitespace | emergence_zk/src/zettel/frontmatter.rs:110 | every token is nonempty and holds no whitespace (exactness: the three rows below) |
| Text.SplitDecomposes | emergence_zk/src/zettel/frontmatter.rs:110 | the input is its tokens, in order, with whitespace around them and nonempty whitespace between each two |
| Text.SplitInterleave | emergence_zk/src/zettel/frontmatter.rs:110 | nonempty whitespace-free words with such whitespace between them split back into exactly those words, duplicates kept |
| Text.SplitWhitespaceIff | emergence_zk/src/zettel/frontmatter.rs:110 | the split of a text is a token list exactly when the tokens are nonempty, whitespace-free and, separated by whitespace, make up the text |
| Text.SplitSpaceTerminated | emergence_zk/src/zettel/frontmatter.rs:132-136 | splitting tokens written each followed by a space gives the same tokens back, when they are nonempty and free of whitespace |
| Text.SplitBlank | emergence_zk/src/frontmatter.rs:92 | a blank line splits into no tokens |
| Text.JoinLines | emergence_zk/src/zettel/frontmatter.rs:116 | a text with no carriage return and no final line break is the join of its lines |
| Text.LinesOfTerminated | emergence_zk/src/zettel/frontmatter.rs:125-138 | lines each written with `writeln!`, then any text, read back as those lines, then the text's lines |
| Text.LowerChar | emergence_zk/src/tag.rs:14-16 | the lower case of a character is ASCII exactly when the character is ASCII or the Kelvin sign, and is never an upper-case ASCII letter |
| Text.ToLowercase | emergence_zk/src/tag.rs:14 | lower-cases character by character, keeping the length; exact wherever the result is ASCII |
| Text.CompareEqual | emergence_zk/src/tag.rs:5 | the derived string ordering says `Equal` exactly for equal strings |
| Text.CompareReverse | emergence_zk/src/tag.rs:5 | swapping the operands reverses the ordering |
| Text.AsciiByteSlice | emergence_zk/src/frontmatter.rs:97-98 | on ASCII text, a byte-offset slice is the character slice, and it fails exactly when the bounds are out of range |
| Slices.Sort | emergence_zk/src/zettel/mod.rs:113 | the result is sorted and a permutation of the input |
| Slices.SortedUnique | emergence_zk/src/zettel/mod.rs:113 | two sorted permutations of the same names are equal, so the sorted list is fully determined |
| Slices.BinarySearch | emergence_zk/src/zettel/mod.rs:145 | a found index holds the name; nothing is found exactly when the name is absent |
| Slices.Remove | emergence_zk/src/zettel/mod.rs:147 | removes exactly one occurrence of the element at the index and keeps the list sorted |
| Chrono.Parse | emergence_zk/src/zettel/frontmatter.rs:100 | a parsed date comes from a 22-character text, has a year from 0 to 9999 and no fraction of a second |
| Chrono.ParseFormat | emergence_zk/src/zettel/frontmatter.rs:124-131 | parsing the formatted date gives back the date cut to whole seconds, for years 0 to 9999 |
| Chrono.ParseRejectsDisplay | emergence_zk/src/frontmatter.rs:115 | a date written with `Display` never parses with `%Y-%m-%d %I:%M:%S %p` |
| Chrono.ParseExample | emergence_zk/src/zettel/frontmatter.rs:161 | `2025-01-01 12:50:19 AM` is 0:50:19 on 1 January 2025 |
| Chrono.FormatNoLineBreak | emergence_zk/src/zettel/frontmatter.rs:127-131 | the formatted date stays on one line |
| Chrono.DisplayNoLineBreak | emergence_zk/src/frontmatter.rs:115 | the displayed date stays on one line |
| Paths.ToStrFromStr | emergence_zk/src/id.rs:58 | `to_str` of text made into an `OsStr` is that text |
| Paths.Push | emergence_zk/src/zettel/builder.rs:20 | pushing an absolute path replaces the path; a relative one extends it |
| Paths.PushName | emergence_zk/src/zettel/builder.rs:18-22 | pushing a plain file name adds exactly one component, which is then the file name |
| Paths.FileName | emergence_zk/src/id.rs:70 | a file name exists exactly when the last component is a normal one |
| Paths.NameExtension | emergence_zk/src/id.rs:55-58 | the extension is what follows the last dot of the name, which is not its first character |
| Paths.ExtensionOfMd | emergence_zk/src/id.rs:55-67 | a nonempty stem followed by `.md` has the extension `md` |
| Paths.MdNameEndsWith | emergence_zk/src/id.rs:76-77 | a name whose extension is `md` ends with `.md`, so the suffix strip cannot fail |
| Id.FromText | emergence_zk/src/id.rs:30-34 | `from(s).as_str()` is `s` |
| Id.ZettelId.Display | emergence_zk/src/id.rs:84-88 | writes exactly the wrapped string |
| Id.Default | emergence_zk/src/id.rs:13-16 | a generated id has five characters, each from the 36-symbol alphabet, so it is nonempty and has no `/` |
| Id.NoExtensionRejected | emergence_zk/src/id.rs:55-61 | a name with no extension, or one that is not text, fails with the extension `ParseError` |
| Id.WrongExtensionRejected | emergence_zk/src/id.rs:63-67 | any extension other than `md` fails with the `Wrong extension` `ParseError` naming it |
| Id.UpperCaseRejected | emergence_zk/src/id.rs:63-67 | the extension comparison is case-sensitive: `MD` is rejected |
| Id.NeverPanics | emergence_zk/src/id.rs:76-77 | the `expect` on the suffix strip never fires |
| Id.IdIsStem | emergence_zk/src/id.rs:69-78 | on success the id followed by `.md` is the file name |
| Id.RawFileNameRejected | emergence_zk/src/id.rs:72-75 | a file name that is not text fails with its own `ParseError` |
| Id.OnlyFileNameMatters | emergence_zk/src/id.rs:69-71 | paths with the same file name give the same result, whatever their directories |
| Id.NotePath | emergence_zk/src/zettel/builder.rs:18-22 | the note path of an id has the file name id followed by `.md` |
| Id.FromNotePath | emergence_zk/src/id.rs:51-81 | the id of `root/(id + ".md")` is `id`, for a nonempty id without `/` |
| Id.DefaultShapeNamesFile | emergence_zk/src/id.rs:13-16 | a generated id is nonempty and has no `/` |
| Id.DefaultRoundTrip | emergence_zk/src/id.rs:51-81 | a generated id comes back from the path the builder gives it |
| Tags.New | emergence_zk/src/tag.rs:13-27 | an accepted tag has the lower-cased name and the colour as given; a refusal is the ASCII `ParseError` |
| Tags.NewAccepts | emergence_zk/src/tag.rs:14-18 | a name is accepted exactly when each of its characters is ASCII or the Kelvin sign, i.e. when its lower case is ASCII |
| Tags.NewIsLower | emergence_zk/src/tag.rs:13-27 | an accepted tag's name is ASCII with no upper-case letter |
| Tags.NewIdempotent | emergence_zk/src/tag.rs:13-27 | rebuilding a tag from its own name and colour gives the same tag |
| Tags.NewOfLower | emergence_zk/src/tag.rs:13-27 | a lower-case ASCII name and any colour are taken as they are |
| Tags.Display | emergence_zk/src/tag.rs:30-33 | writes the name and a line break, never the colour |
| Tags.Cmp | emergence_zk/src/tag.rs:5 | the derived ordering says `Equal` exactly for equal tags |
| Tags.CmpByName | emergence_zk/src/tag.rs:5-10 | tags with different names are ordered by name |
| Tags.CmpByColor | emergence_zk/src/tag.rs:5-10 | tags with the same name are ordered by colour |
| Tags.CmpReverse | emergence_zk/src/tag.rs:5-10 | swapping the operands reverses the ordering |
| HeaderText.DelimCheck | emergence_zk/src/zettel/frontmatter.rs:66-79 | passes exactly when the line exists and trims to `---`; a missing line and a corrupted delimiter give their own `ParseError`s |
| HeaderText.Line | emergence_zk/src/zettel/frontmatter.rs:85-87 | gives the line when it exists, else the given `ParseError` |
| HeaderText.PaddedDelimiter | emergence_zk/src/zettel/frontmatter.rs:152 | a delimiter followed by whitespace still trims to `---` |
| ZettelFrontMatter.ExtractFromFile | emergence_zk/src/zettel/frontmatter.rs:41-49 | a read failure is passed on; a parse failure becomes a `ParseError` about the file; otherwise the header and body parsed from the file's text |
| ZettelFrontMatter.Fmt | emergence_zk/src/zettel/frontmatter.rs:122-139 | the loop writes exactly the rendered header |
| ZettelFrontMatter.RenderedPieces | emergence_zk/src/zettel/frontmatter.rs:122-139 | the rendered header is `---`, `Title: t`, `Date: d`, then `Tags: ` with each tag followed by a space, then `---`, each on its own line |
| ZettelFrontMatter.TooFewLinesRejected | emergence_zk/src/zettel/frontmatter.rs:66-82 | fewer than five lines give a `ParseError` |
| ZettelFrontMatter.OpeningDelimiterChecked | emergence_zk/src/zettel/frontmatter.rs:73-82 | a first line that does not trim to `---` gives the corrupted-delimiter `ParseError` |
| ZettelFrontMatter.ExtractFields | emergence_zk/src/zettel/frontmatter.rs:60-119 | an accepted header has five lines with both delimiters, the title after `Title: `, a parsable date after `Date: `, the tags split from after `Tags: `, and the body joined from lines 5 on |
| ZettelFrontMatter.ExtractAccepts | emergence_zk/src/zettel/frontmatter.rs:60-119 | conversely, such lines are accepted |
| ZettelFrontMatter.ExtractExact | emergence_zk/src/zettel/frontmatter.rs:85-118 | what such lines parse to, field by field |
| ZettelFrontMatter.HeaderOnlyBody | emergence_zk/src/zettel/frontmatter.rs:116 | a header with nothing after it has an empty body |
| ZettelFrontMatter.RenderedLines | emergence_zk/src/zettel/frontmatter.rs:122-139 | the rendered header, then any text, reads as the five header lines, then the text's lines |
| ZettelFrontMatter.ExtractHeaderLines | emergence_zk/src/zettel/frontmatter.rs:60-119 | the five header lines and any more parse back to the header, with the date cut to whole seconds, and the join of the rest |
| ZettelFrontMatter.ExtractRendered | emergence_zk/src/zettel/frontmatter.rs:122-139 | round trip: the rendered header and a body read back as both, the date cut to whole seconds, when the title is one line, the tags are nonempty and free of whitespace, the year has four digits, and the body has no `\r` and does not end in a line break (`lines()` drops a final one) |
| ZettelFrontMatter.ExtractRenderedHeader | emergence_zk/src/zettel/frontmatter.rs:60-139 | the rendered header alone reads back with an empty body |
| ZettelFrontMatter.ExtractExample | emergence_zk/src/zettel/frontmatter.rs:151-177 | the unit test's text parses to title `LOL`, the example date, tags `whoa` and `barber`, and an empty body |
| ZettelFrontMatter.ExampleTags | emergence_zk/src/zettel/frontmatter.rs:155 | the example's tag text splits into `whoa`, `barber` |
| LegacyFrontMatter.ParseTag | emergence_zk/src/frontmatter.rs:93-99 | a token without `{` gives the colour `ParseError` |
| LegacyFrontMatter.ParseTags | emergence_zk/src/frontmatter.rs:101 | succeeds exactly when every token does, with one tag per token in order |
| LegacyFrontMatter.ParseTagsFirstError | emergence_zk/src/frontmatter.rs:101 | a failure is that of the first token that fails |
| LegacyFrontMatter.ParseTagsCons | emergence_zk/src/frontmatter.rs:101 | the tags of a token and more are its tag, then theirs |
| LegacyFrontMatter.ExtractFromFile | emergence_zk/src/frontmatter.rs:33-36 | a read failure is passed on; otherwise the header parsed from the file's text, its errors unchanged |
| LegacyFrontMatter.Fmt | emergence_zk/src/frontmatter.rs:111-123 | the loop writes exactly the rendered header |
| LegacyFrontMatter.TagTextSnoc | emergence_zk/src/frontmatter.rs:117-119 | each tag adds `#`, its `Display` and a space |
| LegacyFrontMatter.RenderedPieces | emergence_zk/src/frontmatter.rs:111-123 | the rendered header is `---`, `Name: n`, `Date: ` with the `Display` date, then the tags, then `---` |
| LegacyFrontMatter.TooFewLinesRejected | emergence_zk/src/frontmatter.rs:52-68 | fewer than five lines fail |
| LegacyFrontMatter.ExtractFields | emergence_zk/src/frontmatter.rs:47-108 | an accepted header has five lines with both delimiters, the name after `Name: `, a parsable date, well-formed tokens on line 3, and the body joined from lines 5 on |
| LegacyFrontMatter.ExtractExact | emergence_zk/src/frontmatter.rs:71-107 | what such lines parse to, field by field |
| LegacyFrontMatter.BlankTagLine | emergence_zk/src/frontmatter.rs:89-101 | a blank tag line gives no tags |
| LegacyFrontMatter.LeadingBracePanics | emergence_zk/src/frontmatter.rs:97 | a token starting with `{` makes the name slice panic |
| LegacyFrontMatter.AsciiTag | emergence_zk/src/frontmatter.rs:94-99 | on ASCII text, a token without `{` gives the colour `ParseError`. A token starting with `{`, or with fewer than seven characters after it, panics. Otherwise the tag is built from the name (second character up to `{`) and the seven characters after it |
| LegacyFrontMatter.ParseTagToken | emergence_zk/src/frontmatter.rs:94-99 | `#name{colour}` with a lower-case ASCII name and a 7-character colour reads back as that tag |
| LegacyFrontMatter.RenderedNotReadBack | emergence_zk/src/frontmatter.rs:111-123 | a written header never reads back: its `Display` date does not parse |
| LegacyFrontMatter.DisplayedDateRejected | emergence_zk/src/frontmatter.rs:79-87 | lines whose date line holds a date's `Display` fail with the date parse error |
| LegacyFrontMatter.ParseTagPair | emergence_zk/src/frontmatter.rs:92-101 | two well-formed tokens separated by a space give the two tags in order |
| LegacyFrontMatter.ExtractExample | emergence_zk/src/frontmatter.rs:133-165 | the unit test's text parses to name `LOL`, the example date, tags `penis` `#ffffff` and `barber` `#000000`, and an empty body |
| LegacyFrontMatter.ExampleTags | emergence_zk/src/frontmatter.rs:138 | the example's tag line gives the two tags in order |
| Fs.ReadText | emergence_zk/src/zettel/frontmatter.rs:42 | `read_to_string` succeeds exactly on an existing file holding text, giving that text, and fails with `FileError` otherwise |
| Fs.FileSystem.Canonicalize | emergence_zk/src/kasten.rs:123 | succeeds exactly on a path that resolves, giving its canonical form |
| Fs.FileSystem.ReadDir | emergence_zk/src/kasten.rs:75 | succeeds exactly on a listed directory, giving its entries |
| Fs.FileSystem.CreateNew | emergence_zk/src/zettel/builder.rs:77-81 | creating a file where one exists, or at a refused path (missing parent, no permission, a directory there), fails and changes nothing; otherwise the file holds exactly the text written |
| Store.Db.InsertZettel | emergence_zk/migration/src/m20251104_024116_create_zettel_table.rs:17 | the nanoid is unique: an insert succeeds exactly for a new nanoid, adding that record and nothing else |
| Store.Db.UpdateTitle | emergence_zk/src/zettel/mod.rs:186-194 | updates exactly the title of an existing record |
| Store.Db.InsertTag | emergence_zk/src/zettel/mod.rs:166-174 | succeeds exactly for a new nanoid, adding that record |
| Store.Db.InsertAssoc | emergence_zk/migration/src/m20251104_050736_create_zettel_tag_table.rs:19-39 | succeeds exactly for a new pair whose two sides exist, adding that pair and keeping the foreign keys |
| Store.Db.DeleteAssoc | emergence_zk/src/zettel/mod.rs:152-159 | removes exactly that pair |
| Zettels.New | emergence_zk/src/zettel/mod.rs:32-47 | every field as given, and no links |
| Zettels.DisplayReadBack | emergence_zk/src/zettel/mod.rs:229-234 | a displayed note reads back as its header, with the date cut to whole seconds, and its body, when the header qualifies for the round trip and the body has no `\r` and does not end in a line break |
| Zettels.WithoutAnchor | emergence_zk/src/zettel/mod.rs:71 | the result has no `#`, starts the input, and is the input when it has none |
| Zettels.WithMd | emergence_zk/src/zettel/mod.rs:74-78 | the input when it already ends with `.md`, and otherwise the input with exactly `.md` appended |
| Zettels.NormalizedTarget | emergence_zk/src/zettel/mod.rs:66-79 | every normalised target ends with `.md` and has no `#` |
| Zettels.CutAnchor | emergence_zk/src/zettel/mod.rs:71 | a name followed by an anchor loses exactly the anchor |
| Zettels.NoDotSlash | emergence_zk/src/zettel/mod.rs:68 | a target not starting with `./` is kept |
| Zettels.DotSlash | emergence_zk/src/zettel/mod.rs:68 | one leading `./` is removed |
| Zettels.NormalizedNoteLink | emergence_zk/src/zettel/mod.rs:66-79 | `id.md`, `./id.md` and either with an anchor all normalise to `id.md` |
| Zettels.NoteLinkTarget | emergence_zk/src/zettel/mod.rs:66-83 | such links point at the note's own path |
| Zettels.Resolved | emergence_zk/src/zettel/mod.rs:84-91 | there are no more resolved targets than targets |
| Zettels.LinksOfResolved | emergence_zk/src/zettel/mod.rs:60-101 | the scan succeeds exactly when every resolved target names a note, and then yields one link per resolved target, in order, from the note to that target's id |
| Zettels.LinksFirstError | emergence_zk/src/zettel/mod.rs:93 | a failing id conversion aborts the scan with the first such failure |
| Zettels.LinksFromSource | emergence_zk/src/zettel/mod.rs:93-97 | every link starts at the scanning note, and there are at most as many links as targets |
| Zettels.UnresolvedSkipped | emergence_zk/src/zettel/mod.rs:85-91 | a target that does not resolve is skipped without error |
| Zettels.LinkToNote | emergence_zk/src/zettel/mod.rs:66-97 | a link written `id.md` to an existing note yields one link to that id |
| Zettels.LinksSingle | emergence_zk/src/zettel/mod.rs:93-97 | one resolving target yields one link, from the note to the target's id |
| Zettels.LinksAt | emergence_zk/src/zettel/mod.rs:62-98 | one step of the scan: skip, abort or add one link |
| Zettels.LinksFromContent | emergence_zk/src/zettel/mod.rs:57-102 | the loop computes exactly the scan's result |
| Zettels.TagsOfRecords | emergence_zk/src/zettel/mod.rs:148 | one tag per record, with its name and colour |
| Zettels.KeptAndLeftover | emergence_zk/src/zettel/mod.rs:144-161 | the kept tags' names and the left-over names together are exactly the declared names |
| Zettels.VisitStoredTag | emergence_zk/src/zettel/mod.rs:145-160 | a stored tag is kept exactly when its name is still declared, and then one occurrence is removed; otherwise only its association goes; the list stays sorted |
| Zettels.KeepStoredTags | emergence_zk/src/zettel/mod.rs:144-161 | the kept tags are the stored tags whose names are declared, in store order, each using up one occurrence; the rest is the left-over names, still sorted; only the note's dropped associations are removed, and tag records stay |
| Zettels.InsertNewTags | emergence_zk/src/zettel/mod.rs:165-184 | each left-over name gets a new record with the next fresh nanoid and colour `random`, and an association; this fails exactly when a fresh nanoid is taken; the tag records are then the old ones and the new ids' ones, no others |
| Zettels.ReconcileTags | emergence_zk/src/zettel/mod.rs:111-184 | afterwards the note's tags are the kept tags, then the new ones in sorted order; their names are the declared names as a multiset; the note's associations are exactly these tags; the tag records are the old ones and those of these tags, no others; other notes and existing tag records are untouched |
| Zettels.AssociatedNamesOf | emergence_zk/src/zettel/mod.rs:144-184 | the names associated with the note are the names of its tags |
| Zettels.SyncNote | emergence_zk/src/zettel/mod.rs:118-198 | the store then holds the note with the header's title; the note's tags are the kept stored tags in store order, then the new ones sorted, with the declared names as a multiset; the names associated with the note are exactly the declared ones; the tag records are the old ones and those of the note's tags, no others; the links are the scan's |
| Zettels.FromPath | emergence_zk/src/zettel/mod.rs:104-208 | id errors come first, then header errors, both leaving the store unchanged; on success the note has its path, id, header and body, the store is in line with the header (the tags are the kept stored tags in store order, then the new ones sorted, with the declared names as a multiset, and no tag records other than the old ones and the note's), and the links are the scan's |
| Builder.WrittenReadBack | emergence_zk/src/zettel/builder.rs:83-84 | a built note's file reads back as its header, with the date cut to whole seconds, and its content after one empty line |
| Builder.ZettelBuilder.constructor | emergence_zk/src/zettel/builder.rs:15-37 | a generated id; the path is `root` pushed with `id + ".md"`, which gives the id back; an empty title dated now; no tags, links or content |
| Builder.ZettelBuilder.Name | emergence_zk/src/zettel/builder.rs:41-43 | changes only the title |
| Builder.ZettelBuilder.AddTag | emergence_zk/src/zettel/builder.rs:45-47 | appends to the tags only, not to the header's tag names |
| Builder.ZettelBuilder.Content | emergence_zk/src/zettel/builder.rs:49-51 | replaces the content |
| Builder.ZettelBuilder.WithTitle | emergence_zk/src/zettel/builder.rs:55-58 | as `Name`, returning the builder |
| Builder.ZettelBuilder.WithAdditionalTag | emergence_zk/src/zettel/builder.rs:60-63 | as `AddTag`, returning the builder |
| Builder.ZettelBuilder.WithContent | emergence_zk/src/zettel/builder.rs:65-69 | as `Content`, returning the builder |
| Builder.ZettelBuilder.Build | emergence_zk/src/zettel/builder.rs:71-95 | only the date changes; an existing file or a refused path fails with `FileError`; otherwise the file holds the header and the content, and the record is inserted (a taken id gives `DbError` with the file written); the file reads back as the note |
| LegacyZettel.FromPath | emergence_zk/src/zettel.rs:20-33 | header errors come first, then id errors; on success the path is kept and the id, header and body are set |
| LegacyZettel.WrittenNotReadBack | emergence_zk/src/zettel.rs:105-106 | a file the older builder writes does not read back: its date is refused |
| LegacyZettel.ZettelBuilder.constructor | emergence_zk/src/zettel.rs:41-59 | a generated id; the path is `root` pushed with `id + ".md"`, which gives the id back; an empty name dated now, no tags and no content |
| LegacyZettel.ZettelBuilder.Name | emergence_zk/src/zettel.rs:63-65 | changes only the name |
| LegacyZettel.ZettelBuilder.AddTag | emergence_zk/src/zettel.rs:67-69 | appends to the header's tags |
| LegacyZettel.ZettelBuilder.Content | emergence_zk/src/zettel.rs:71-73 | replaces the content |
| LegacyZettel.ZettelBuilder.WithName | emergence_zk/src/zettel.rs:77-80 | as `Name`, returning the builder |
| LegacyZettel.ZettelBuilder.WithAdditionalTag | emergence_zk/src/zettel.rs:82-85 | as `AddTag`, returning the builder |
| LegacyZettel.ZettelBuilder.WithContent | emergence_zk/src/zettel.rs:87-91 | as `Content`, returning the builder |
| LegacyZettel.ZettelBuilder.Build | emergence_zk/src/zettel.rs:93-109 | only the date changes; an existing file or a refused path fails; otherwise the file holds the header and then the content |
| Kasten.Candidate | emergence_zk/src/kasten.rs:78-111 | an entry is kept exactly when it is a regular file with extension `md` that reads, whose header parses and whose name gives an id; it then carries those |
| Kasten.FilterMapOf | emergence_zk/src/kasten.rs:75-112 | there are no more results than items; every result is what some item gives; and what every kept item gives is among the results |
| Kasten.SurvivorsOfListing | emergence_zk/src/kasten.rs:75-112 | there are no more survivors than entries; every survivor comes from an entry; and every entry that passes the filter yields a survivor |
| Kasten.Nodes | emergence_zk/src/kasten.rs:119-126 | one note per survivor, with no tags |
| Kasten.PathIndexOf | emergence_zk/src/kasten.rs:116-126 | the path index's keys are exactly the notes' canonical paths, and its values are notes' ids |
| Kasten.NodeIndexOf | emergence_zk/src/kasten.rs:132-138 | the node index holds every note's id, at a node with that id |
| Kasten.PlainNoteLinkAgrees | emergence_zk/src/kasten.rs:146-150 | a link written `id.md` resolves the same way under the raw join as under the note scan's normalised one |
| Kasten.AnchoredNoteLinkDiffers | emergence_zk/src/kasten.rs:146-150 | a link `id.md#anchor` names a different path under the raw join from the note's own |
| Kasten.UrlLink | emergence_zk/src/kasten.rs:151-169 | a target adds a link exactly when it resolves to an indexed path, and that link goes from the note to the indexed id |
| Kasten.UrlLinksShape | emergence_zk/src/kasten.rs:143-171 | every link starts at the note and ends at an indexed id; at most one per target |
| Kasten.UnresolvedAddsNothing | emergence_zk/src/kasten.rs:157-162 | a target that does not resolve, or is not ingested, adds nothing |
| Kasten.Kasten.constructor | emergence_zk/src/kasten.rs:34-49 | an empty graph rooted at the destination |
| Kasten.Kasten.AddNode | emergence_zk/src/kasten.rs:136 | appends the node, whose index is the number of nodes before it |
| Kasten.Kasten.AddEdge | emergence_zk/src/kasten.rs:168 | appends the edge, keeping every edge between present nodes with matching ids |
| Kasten.MakeNotes | emergence_zk/src/kasten.rs:114-126 | the notes and the path index, or `FileError` exactly when a survivor's path does not canonicalise |
| Kasten.AddNodes | emergence_zk/src/kasten.rs:132-138 | the nodes are the notes in order, and the id index is the node index |
| Kasten.AddUrlEdge | emergence_zk/src/kasten.rs:144-170 | one target adds its link, if any |
| Kasten.AddUrlEdges | emergence_zk/src/kasten.rs:143-171 | the note's targets add their links in order |
| Kasten.AddEdges | emergence_zk/src/kasten.rs:140-172 | the edges carry exactly the links of every note, note by note |
| Kasten.IndexedIdsHaveNodes | emergence_zk/src/kasten.rs:165-166 | every indexed id has a node, so the two `expect`s never fire |
| Kasten.Parse | emergence_zk/src/kasten.rs:66-177 | a listing error is passed on; a survivor that does not canonicalise fails the parse; otherwise the nodes are the survivors in listing order, every edge joins present nodes, and the edges carry exactly the links to ingested notes |

## Left out

- `Metadata::parse` (emergence_zk/src/metadata.rs) is a stub and is not part of this model, including its error path in `Kasten`'s `try_from`.
- Chrono.Parse: chrono's lenient parsing (unpadded fields, signed years) is not modelled; only the zero-padded form with a 4-digit year parses (with `AM`/`PM` in either case). Leap seconds are not modelled either.
- Chrono.Format: the round trip is stated for years 0 to 9999 only.
- ZettelFrontMatter.ExtractFromFile: the message of the wrapped `ParseError` leaves out the path's `{:#?}` form and the space before it; the rest is as written, including the inner error's `Display`, which is `Parse Error: ` whatever its payload (`error.rs:9`).
- Chrono.ParseErrorText: a date that does not parse gives `ParseError` with this one fixed text, whereas chrono's `to_string` names the kind of failure (premature end of input, invalid characters, out of range, …). `ZettelFrontMatter.ExtractLines`, `LegacyFrontMatter.ExtractLines`, `LegacyFrontMatter.ExtractFromFile`, `LegacyFrontMatter.DisplayedDateRejected`, `LegacyFrontMatter.RenderedNotReadBack`, `LegacyZettel.WrittenNotReadBack` and `LegacyZettel.FromPath` carry that fixed text.
- Text.ToLowercase: only ASCII letters and the Kelvin sign are lower-cased; every other character is kept, so `Ä` stays `Ä`, and `İ`, which Rust expands to two characters, stays one. `Tags.New` is exact all the same, because it refuses any name whose lower case is not ASCII, and those characters are not ASCII either way.
- Text.SplitWhitespace: its own contract says only that the tokens are nonempty and free of whitespace. That they are exactly the input's maximal runs, in order, is proved separately by `Text.SplitDecomposes`, `Text.SplitInterleave` and `Text.SplitWhitespaceIff`, since an existential in the function's own contract would weigh on every proof that splits a line.
- Fs.FileSystem.CreateNew: a `writeln!` that fails after the file is created (`zettel/builder.rs:83-84`, `zettel.rs:105-106`) is not modelled; creation either fails at open, changing nothing, or writes the whole text. The `Build` methods `Builder.ZettelBuilder.Build` and `LegacyZettel.ZettelBuilder.Build` inherit this.
- LegacyFrontMatter.ParseTag: the panic of a bad slice is an `Errors.Panic` value, and its message is a fixed text.
- Kasten.Parse: rayon's `par_bridge` is replaced by the listing's own order. When two survivors share a canonical path, the later one wins the path index; that depends on this order.
- Tag reconciliation always inserts a new tag record for each left-over declared name (`zettel/mod.rs:165-184`); it does not look for an existing record with that name.
- Database errors are one `DbError` kind. Only the failures that key constraints cause are modelled; connections and lost queries are not.
- The `expect`s after the re-query, and the `expect` on the association to delete, are modelled as holding. The model proves the association exists (it is in the stored list) and inserts before it reads.
- The title update goes by nanoid here, not by the row id the code uses; the nanoid is unique, so both pick out the same record.
- `Tag::from` a tag row is taken to copy the name and the colour.
- `Zettel::from_id`, `Zettel::flush` and `Zettel::apply_node_transform` (UI layout) are not modelled; neither is `Kasten::watch`, which is `todo!()`.
- `Kasten::new`: `create_dir_all` of the destination and of `.emergence` is not modelled; only the empty graph is.
- petgraph: the graph is undirected and has capacity hints; the model keeps an ordered node list and edge list.
- The file system maps and the refused paths (`files`, `canonical`, `listings`, `refused`) are independent inputs; the model does not assume that they agree with each other.
- I/O errors are one `FileError` kind.
- The markdown scan is the parameter `scan`. The random generator and the clock are parameters too.
- Logging (`info!`, `error!`, `println!`) is not modelled.
