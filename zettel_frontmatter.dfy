/** The current note header (emergence_zk/src/zettel/frontmatter.rs): five
    lines `---`, `Title: …`, `Date: …`, `Tags: …`, `---`, then the body. */
module ZettelFrontMatter {
  import opened Errors
  import opened Text
  import Chrono
  import opened HeaderText
  import Paths
  import Fs

  /** `FrontMatter`; `FrontMatter::new` is the constructor. */
  datatype FrontMatter = FrontMatter(title: string, createdAt: Chrono.NaiveDateTime, tagStrings: seq<string>)

  const TitleMissing: string := "Title line doesn't exist!"
  const TitlePrefixMessage: string := "Title line doesn't start with \"Title: \" "
  const DateMissing: string := "Date line doesn't exist!"
  const DatePrefixMessage: string := "Date line doesn't start with \"Date: \" "
  const TagMissing: string := "Tag line doesn't exist!"
  const TagPrefixMessage: string := "Tag line doesn't start with \"Tags: \" "

  /** The text of the error `extract_from_file` reports for a header that
      does not parse: the message, then the inner error's `Display`, which
      is `Parse Error: ` whatever its payload. */
  const FileParseMessage: string := "Unable to parse frontmatter from file, reason: Parse Error: "

  /** `FrontMatter::extract_from_file`: a read failure is passed on as it is;
      a parse failure is replaced by one fixed `ParseError`. */
  function ExtractFromFile(fs: Fs.FileSystem, p: Paths.Path): (r: Result<(FrontMatter, string)>)
    reads fs
    ensures fs.ReadToString(p).Err? ==> r == Err(fs.ReadToString(p).error)
    ensures fs.ReadToString(p).Ok? ==> (r.Ok? <==> Extract(fs.ReadToString(p).value).Ok?)
    ensures r.Ok? ==> r == Extract(fs.ReadToString(p).value)
    ensures fs.ReadToString(p).Ok? && r.Err? ==> r == Err(ParseError(FileParseMessage))
  {
    var text :- fs.ReadToString(p);
    match Extract(text)
    case Ok(v) => Ok(v)
    case Err(_) => Err(ParseError(FileParseMessage))
  }

  /** `FrontMatter::extract_from_str`: the header and the body after it. */
  function Extract(s: string): (r: Result<(FrontMatter, string)>)
  {
    ExtractLines(Lines(s))
  }

  /** The same on the lines of the input. */
  function ExtractLines(lines: seq<string>): (r: Result<(FrontMatter, string)>)
  {
    var _ :- DelimCheck(lines, 0);
    var title :- Field(lines, 1, TitleMissing, "Title: ", TitlePrefixMessage);
    var dateText :- Field(lines, 2, DateMissing, "Date: ", DatePrefixMessage);
    var createdAt :- Chrono.Parse(dateText).OkOr(ParseError(Chrono.ParseErrorText));
    var tagText :- Field(lines, 3, TagMissing, "Tags: ", TagPrefixMessage);
    var _ :- DelimCheck(lines, 4);
    Ok((FrontMatter(title, createdAt, SplitWhitespace(tagText)), Join(lines[5..], "\n")))
  }

  /** What `Display` writes: the five header lines, each tag followed by one
      space, every line ended by a line break. */
  function Rendered(fm: FrontMatter): string {
    Terminated(HeaderLines(fm))
  }

  function HeaderLines(fm: FrontMatter): seq<string> {
    [ Delimiter,
      "Title: " + fm.title,
      "Date: " + Chrono.Format(fm.createdAt),
      "Tags: " + SpaceTerminated(fm.tagStrings),
      Delimiter ]
  }

  /** `Display::fmt`: writes the fixed lines and, in a loop, each tag and a space. */
  method Fmt(fm: FrontMatter) returns (out: string)
    ensures out == Rendered(fm)
  {
    var title := "Title: " + fm.title;
    var date := "Date: " + Chrono.Format(fm.createdAt);
    out := Delimiter + "\n";
    out := out + title + "\n";
    out := out + date + "\n";
    out := out + "Tags: ";
    out := WriteTags(out, fm.tagStrings);
    out := out + "\n" + Delimiter + "\n";
    RenderedPieces(fm);
  }

  /** The tag loop of `Display::fmt`: each tag and a space, after what is
      already written. */
  method WriteTags(head: string, tags: seq<string>) returns (out: string)
    ensures out == head + SpaceTerminated(tags)
  {
    out := head;
    for i := 0 to |tags|
      invariant out == head + SpaceTerminated(tags[..i])
    {
      var piece := tags[i] + " ";
      SpaceTerminatedSnoc(tags[..i], tags[i]);
      TakeSnoc(tags, i);
      AppendAssoc(head, SpaceTerminated(tags[..i]), piece);
      out := out + piece;
    }
    TakeAll(tags);
  }

  /** `Rendered` written out in the order `Display::fmt` writes it. */
  lemma RenderedPieces(fm: FrontMatter)
    ensures Rendered(fm) == Delimiter + "\n" + ("Title: " + fm.title) + "\n"
      + ("Date: " + Chrono.Format(fm.createdAt)) + "\n" + "Tags: " + SpaceTerminated(fm.tagStrings)
      + "\n" + Delimiter + "\n"
  {
    var tags := "Tags: " + SpaceTerminated(fm.tagStrings);
    Terminated5(Delimiter, "Title: " + fm.title, "Date: " + Chrono.Format(fm.createdAt), tags, Delimiter);
  }

  // -------------------------------------------------------------- properties

  /** Fewer than five lines never make a header. */
  lemma TooFewLinesRejected(lines: seq<string>)
    requires |lines| < 5
    ensures ExtractLines(lines).Err? && ExtractLines(lines).error.ParseError?
  {
    if DelimCheck(lines, 0).Ok? {
      var title := Field(lines, 1, TitleMissing, "Title: ", TitlePrefixMessage);
      var date := Field(lines, 2, DateMissing, "Date: ", DatePrefixMessage);
      var tags := Field(lines, 3, TagMissing, "Tags: ", TagPrefixMessage);
      if title.Ok? && date.Ok? && Chrono.Parse(date.value).Some? && tags.Ok? {
        assert DelimCheck(lines, 4).Err?;
      }
    }
  }

  /** A first line that does not trim to `---` is a corrupted delimiter. */
  lemma OpeningDelimiterChecked(lines: seq<string>)
    requires lines != [] && Trim(lines[0]) != Delimiter
    ensures ExtractLines(lines) == Err(ParseError(DelimiterMessage))
  {
  }

  /** Everything that a successful extraction implies about the input lines:
      delimiters, the exact title after `Title: `, the parsed date after
      `Date: `, the whitespace tokens after `Tags: `, and the body joined from
      the remaining lines. */
  lemma ExtractFields(lines: seq<string>)
    requires ExtractLines(lines).Ok?
    ensures var (fm, body) := ExtractLines(lines).value;
      && |lines| >= 5
      && Trim(lines[0]) == Delimiter && Trim(lines[4]) == Delimiter
      && lines[1] == "Title: " + fm.title
      && "Date: " <= lines[2] && Chrono.Parse(lines[2][6..]) == Some(fm.createdAt)
      && "Tags: " <= lines[3] && fm.tagStrings == SplitWhitespace(lines[3][6..])
      && body == Join(lines[5..], "\n")
  {
    assert DelimCheck(lines, 0).Ok?;
    var t := StripPrefix(lines[1], "Title: ");
    assert t.Some?;
    var d := StripPrefix(lines[2], "Date: ");
    assert d.Some? && d.value == lines[2][6..];
    var p := Chrono.Parse(d.value);
    assert p.Some?;
    var g := StripPrefix(lines[3], "Tags: ");
    assert g.Some? && g.value == lines[3][6..];
    assert DelimCheck(lines, 4).Ok?;
    assert ExtractLines(lines).value
      == (FrontMatter(t.value, p.value, SplitWhitespace(g.value)), Join(lines[5..], "\n"));
  }

  /** The converse: lines of that shape are accepted. */
  lemma ExtractAccepts(lines: seq<string>)
    requires && |lines| >= 5
      && Trim(lines[0]) == Delimiter && Trim(lines[4]) == Delimiter
      && "Title: " <= lines[1] && "Date: " <= lines[2] && Chrono.Parse(lines[2][6..]).Some?
      && "Tags: " <= lines[3]
    ensures ExtractLines(lines).Ok?
  {
  }

  /** A header with nothing after it has an empty body. */
  lemma HeaderOnlyBody(lines: seq<string>)
    requires ExtractLines(lines).Ok? && |lines| == 5
    ensures ExtractLines(lines).value.1 == ""
  {
    ExtractFields(lines);
    assert lines[5..] == [];
  }

  lemma {:induction false} SpaceTerminatedNoLineBreak(tokens: seq<string>)
    requires forall k :: 0 <= k < |tokens| ==> NoWhitespace(tokens[k])
    ensures NoLineBreak(SpaceTerminated(tokens))
    decreases |tokens|
  {
    if tokens != [] {
      SpaceTerminatedNoLineBreak(tokens[1..]);
      var t := tokens[0];
      assert '\n' !in t && '\r' !in t by {
        assert forall i :: 0 <= i < |t| ==> !IsWhitespace(t[i]);
      }
    }
  }

  /** The values the round trip keeps: a one-line title, nonempty
      whitespace-free tags, and a four-digit year. */
  predicate RoundTrips(fm: FrontMatter) {
    && NoLineBreak(fm.title)
    && (forall k :: 0 <= k < |fm.tagStrings| ==> fm.tagStrings[k] != [] && NoWhitespace(fm.tagStrings[k]))
    && 0 <= fm.createdAt.year <= 9999
  }

  /** A rendered header splits into its five lines followed by the lines of what comes after it. */
  lemma RenderedLines(fm: FrontMatter, rest: string)
    requires RoundTrips(fm)
    ensures Lines(Rendered(fm) + rest) == HeaderLines(fm) + Lines(rest)
  {
    var ls := HeaderLines(fm);
    Chrono.FormatNoLineBreak(fm.createdAt);
    SpaceTerminatedNoLineBreak(fm.tagStrings);
    assert forall k :: 0 <= k < |ls| ==> NoLineBreak(ls[k]);
    LinesOfTerminated(ls, rest);
  }

  /** Lines with an exact title, date text and tag text are extracted into
      those fields. */
  lemma ExtractExact(lines: seq<string>, title: string, dateText: string, tagText: string)
    requires |lines| >= 5 && Trim(lines[0]) == Delimiter && Trim(lines[4]) == Delimiter
    requires lines[1] == "Title: " + title && lines[2] == "Date: " + dateText && lines[3] == "Tags: " + tagText
    requires Chrono.Parse(dateText).Some?
    ensures ExtractLines(lines)
      == Ok((FrontMatter(title, Chrono.Parse(dateText).value, SplitWhitespace(tagText)), Join(lines[5..], "\n")))
  {
    StripAfterPrefix("Title: ", title);
    StripAfterPrefix("Date: ", dateText);
    StripAfterPrefix("Tags: ", tagText);
  }

  /** Extraction reads the rendered header lines back. */
  lemma ExtractHeaderLines(fm: FrontMatter, more: seq<string>)
    requires RoundTrips(fm)
    ensures ExtractLines(HeaderLines(fm) + more)
      == Ok((fm.(createdAt := Chrono.WholeSeconds(fm.createdAt)), Join(more, "\n")))
  {
    var lines := HeaderLines(fm) + more;
    TrimDelimiter();
    Chrono.ParseFormat(fm.createdAt);
    ExtractExact(lines, fm.title, Chrono.Format(fm.createdAt), SpaceTerminated(fm.tagStrings));
    SplitSpaceTerminated(fm.tagStrings);
    DropHeader(HeaderLines(fm), more);
  }

  /** Round trip: extracting a rendered header followed by a body gives the
      header back, with the date cut to whole seconds, and the body, as long
      as the body has no carriage return and does not end in a line break. */
  lemma ExtractRendered(fm: FrontMatter, content: string)
    requires RoundTrips(fm)
    requires '\r' !in content && (content == [] || content[|content| - 1] != '\n')
    ensures Extract(Rendered(fm) + content)
      == Ok((fm.(createdAt := Chrono.WholeSeconds(fm.createdAt)), content))
  {
    RenderedLines(fm, content);
    ExtractHeaderLines(fm, Lines(content));
    JoinLines(content);
  }

  /** The header-only round trip. */
  lemma ExtractRenderedHeader(fm: FrontMatter)
    requires RoundTrips(fm)
    ensures Extract(Rendered(fm)) == Ok((fm.(createdAt := Chrono.WholeSeconds(fm.createdAt)), ""))
  {
    ExtractRendered(fm, "");
    assert Rendered(fm) + "" == Rendered(fm);
  }

  // -------------------------------------------------------------- the example

  const ExampleFirstLine: string := Delimiter + "            "
  const ExampleTitleLine: string := "Title: " + "LOL"
  const ExampleDateLine: string := "Date: " + "2025-01-01 12:50:19 AM"
  const ExampleTagLine: string := "Tags: " + ("whoa" + " " + "barber")

  /** The parser test's input: a delimiter with trailing spaces, `Title: LOL`,
      the date, `Tags: whoa barber` and the closing delimiter. */
  const ExampleText: string :=
    ExampleFirstLine + "\n" + ExampleTitleLine + "\n" + ExampleDateLine + "\n"
      + ExampleTagLine + "\n" + Delimiter + "\n"

  const ExampleLines: seq<string> :=
    [ExampleFirstLine, ExampleTitleLine, ExampleDateLine, ExampleTagLine, Delimiter]

  const ExampleHeader: FrontMatter :=
    FrontMatter("LOL", Chrono.DateTime(2025, 1, 1, 0, 50, 19, 0), ["whoa", "barber"])

  /** The test's input reads as `LOL`, 0:50:19 on 1 January 2025, and the
      tags `whoa` and `barber`, with an empty body; the padded first
      delimiter is accepted. */
  lemma ExtractExample()
    ensures Extract(ExampleText) == Ok((ExampleHeader, ""))
  {
    ExampleTextLines();
    ExampleLinesExtract();
  }

  lemma ExampleTextLines()
    ensures Lines(ExampleText) == ExampleLines
  {
    var ls := ExampleLines;
    Terminated5(ExampleFirstLine, ExampleTitleLine, ExampleDateLine, ExampleTagLine, Delimiter);
    ExampleNoLineBreaks();
    LinesOfTerminated(ls, "");
    assert Terminated(ls) + "" == ExampleText;
    assert ls + [] == ls;
  }

  lemma ExampleNoLineBreaks()
    ensures forall k :: 0 <= k < |ExampleLines| ==> NoLineBreak(ExampleLines[k])
  {
    assert NoWhitespace("whoa") && NoWhitespace("barber");
    SpaceJoinedNoLineBreak("whoa", "barber");
    assert NoLineBreak("Tags: ");
    assert NoLineBreak(ExampleFirstLine) && NoLineBreak(ExampleTitleLine) && NoLineBreak(ExampleDateLine);
    var ls := ExampleLines;
    assert ls == [ExampleFirstLine, ExampleTitleLine, ExampleDateLine, ExampleTagLine, Delimiter];
    forall k | 0 <= k < |ls| ensures NoLineBreak(ls[k]) {
      if k == 3 { assert ls[k] == ExampleTagLine; }
    }
  }

  lemma ExampleLinesExtract()
    ensures ExtractLines(ExampleLines) == Ok((ExampleHeader, ""))
  {
    ExampleLinesShape();
    Chrono.ParseExample();
    ExampleTags();
    ExtractFiveLines(ExampleLines, "LOL", "2025-01-01 12:50:19 AM", "whoa" + " " + "barber");
  }

  lemma ExampleLinesShape()
    ensures |ExampleLines| == 5 && Trim(ExampleLines[0]) == Delimiter && Trim(ExampleLines[4]) == Delimiter
    ensures ExampleLines[1] == "Title: " + "LOL" && ExampleLines[2] == "Date: " + "2025-01-01 12:50:19 AM"
    ensures ExampleLines[3] == "Tags: " + ("whoa" + " " + "barber")
  {
    ExampleDelimiters();
  }

  lemma ExampleDelimiters()
    ensures Trim(ExampleFirstLine) == Delimiter && Trim(Delimiter) == Delimiter
  {
    PaddedDelimiter("            ");
    TrimDelimiter();
  }

  /** A header of exactly five lines has an empty body. */
  lemma ExtractFiveLines(lines: seq<string>, title: string, dateText: string, tagText: string)
    requires |lines| == 5 && Trim(lines[0]) == Delimiter && Trim(lines[4]) == Delimiter
    requires lines[1] == "Title: " + title && lines[2] == "Date: " + dateText && lines[3] == "Tags: " + tagText
    requires Chrono.Parse(dateText).Some?
    ensures ExtractLines(lines)
      == Ok((FrontMatter(title, Chrono.Parse(dateText).value, SplitWhitespace(tagText)), ""))
  {
    ExtractExact(lines, title, dateText, tagText);
    assert lines[5..] == [];
  }

  lemma ExampleTags()
    ensures SplitWhitespace("whoa" + " " + "barber") == ["whoa", "barber"]
  {
    assert NoWhitespace("whoa") && NoWhitespace("barber");
    SplitPair("whoa", "barber");
  }
}
