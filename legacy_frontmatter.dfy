/** The older note header (emergence_zk/src/frontmatter.rs): `---`,
    `Name: …`, `Date: …`, a line of `#name{#colour}` tag tokens, `---`. Its
    `Display` writes a different shape, which the parser does not read back. */
module LegacyFrontMatter {
  import opened Errors
  import opened Text
  import opened HeaderText
  import Chrono
  import Tags
  import Paths
  import Fs

  /** `FrontMatter`; `FrontMatter::new` is the constructor. */
  datatype FrontMatter = FrontMatter(name: string, createdAt: Chrono.NaiveDateTime, tags: seq<Tags.Tag>)

  const NameMissing: string := "Name line doesn't exist!"
  const NamePrefixMessage: string := "Name line doesn't start with \"Name: \" "
  const DateMissing: string := "Date line doesn't exist!"
  const DatePrefixMessage: string := "Date line doesn't start with \"Date: \" "
  const TagMissing: string := "Tag line doesn't exist!"
  const ColorMessage: string := "Unable to find color for Tag!"
  /** Stands for the message of the panic a bad string slice raises. */
  const SliceMessage: string := "byte index out of range or not on a char boundary"

  /** One tag token: the name is the text from byte 1 up to the first `{`,
      the colour the seven bytes after the `{`, and `Tags::New` then checks
      the name. The two slices abort (`Panic`) where `&s[a..b]` would. */
  function ParseTag(tok: string): (r: Result<Tags.Tag>)
    ensures '{' !in tok ==> r == Err(ParseError(ColorMessage))
  {
    var ci := IndexOf(tok, '{');
    if ci == |tok| then Err(ParseError(ColorMessage))
    else
      var par := ByteLength(tok[..ci]);
      match (ByteSlice(tok, 1, par), ByteSlice(tok, par + 1, par + 8))
      case (Some(name), Some(color)) => Tags.New(name, color)
      case _ => Err(Panic(SliceMessage))
  }

  /** `collect::<Result<Vec<_>, _>>()` over the tokens: all tags in order, or
      the error of the first token that fails (later tokens are not looked
      at; see `ParseTagsFirstError`). */
  function ParseTags(tokens: seq<string>): (r: Result<seq<Tags.Tag>>)
    ensures r.Ok? <==> forall k :: 0 <= k < |tokens| ==> ParseTag(tokens[k]).Ok?
    ensures r.Ok? ==> |r.value| == |tokens| && forall k :: 0 <= k < |tokens| ==> ParseTag(tokens[k]) == Ok(r.value[k])
    decreases |tokens|
  {
    if tokens == [] then Ok([])
    else
      match ParseTag(tokens[0])
      case Err(e) => Err(e)
      case Ok(t) =>
        assert forall k :: 0 < k < |tokens| ==> tokens[k] == tokens[1..][k - 1];
        match ParseTags(tokens[1..])
        case Err(e) => Err(e)
        case Ok(rest) => Ok([t] + rest)
  }

  /** A failure is that of the first token that fails. */
  lemma {:induction false} ParseTagsFirstError(tokens: seq<string>)
    requires ParseTags(tokens).Err?
    ensures exists k :: (0 <= k < |tokens| && ParseTag(tokens[k]) == Err(ParseTags(tokens).error)
      && forall j :: 0 <= j < k ==> ParseTag(tokens[j]).Ok?)
    decreases |tokens|
  {
    var e := ParseTags(tokens).error;
    if ParseTag(tokens[0]).Err? {
      assert ParseTag(tokens[0]) == Err(e);
    } else {
      var rest := tokens[1..];
      assert ParseTags(rest) == Err(e);
      ParseTagsFirstError(rest);
      var k :| 0 <= k < |rest| && ParseTag(rest[k]) == Err(e) && forall j :: 0 <= j < k ==> ParseTag(rest[j]).Ok?;
      assert ParseTag(tokens[k + 1]) == Err(e);
      forall j | 0 <= j < k + 1 ensures ParseTag(tokens[j]).Ok? {
        if j > 0 { assert tokens[j] == rest[j - 1]; }
      }
    }
  }

  lemma ParseTagsCons(tok: string, rest: seq<string>)
    requires ParseTag(tok).Ok? && ParseTags(rest).Ok?
    ensures ParseTags([tok] + rest) == Ok([ParseTag(tok).value] + ParseTags(rest).value)
  {
    assert ([tok] + rest)[1..] == rest;
  }

  /** `FrontMatter::extract_from_str`, on the lines of the input. */
  function ExtractLines(lines: seq<string>): (r: Result<(FrontMatter, string)>)
  {
    var _ :- DelimCheck(lines, 0);
    var name :- Field(lines, 1, NameMissing, "Name: ", NamePrefixMessage);
    var dateText :- Field(lines, 2, DateMissing, "Date: ", DatePrefixMessage);
    var createdAt :- Chrono.Parse(dateText).OkOr(ParseError(Chrono.ParseErrorText));
    var tagLine :- Line(lines, 3, TagMissing);
    var tags :- ParseTags(SplitWhitespace(tagLine));
    var _ :- DelimCheck(lines, 4);
    Ok((FrontMatter(name, createdAt, tags), Join(lines[5..], "\n")))
  }

  function Extract(s: string): (r: Result<(FrontMatter, string)>) {
    ExtractLines(Lines(s))
  }

  /** `FrontMatter::extract_from_file`: the file's text, then `Extract`;
      both failures are passed on unchanged. */
  function ExtractFromFile(fs: Fs.FileSystem, p: Paths.Path): (r: Result<(FrontMatter, string)>)
    reads fs
    ensures fs.ReadToString(p).Err? ==> r == Err(fs.ReadToString(p).error)
    ensures fs.ReadToString(p).Ok? ==> r == Extract(fs.ReadToString(p).value)
  {
    var text :- fs.ReadToString(p);
    Extract(text)
  }

  /** What the tag loop of `Display` writes: `#`, the tag's own `Display`
      (its name and a line break), then a space, per tag. */
  function TagText(tags: seq<Tags.Tag>): string
    decreases |tags|
  {
    if tags == [] then "" else "#" + Tags.Display(tags[0]) + " " + TagText(tags[1..])
  }

  /** What `Display` writes: the delimiter, `Name: `, `Date: ` with the date's
      own `Display`, the tags, and the closing delimiter. */
  function Rendered(fm: FrontMatter): string {
    Terminated([Delimiter, "Name: " + fm.name, "Date: " + Chrono.DisplayFormat(fm.createdAt)])
      + TagText(fm.tags) + Delimiter + "\n"
  }

  /** `Display::fmt`. */
  method Fmt(fm: FrontMatter) returns (out: string)
    ensures out == Rendered(fm)
  {
    var name := "Name: " + fm.name;
    var date := "Date: " + Chrono.DisplayFormat(fm.createdAt);
    out := Delimiter + "\n";
    out := out + name + "\n";
    out := out + date + "\n";
    out := WriteTags(out, fm.tags);
    out := out + Delimiter + "\n";
    RenderedPieces(fm);
  }

  /** The tag loop of `Display::fmt`: `#`, the tag's `Display` and a space,
      tag by tag, after what is already written. */
  method WriteTags(head: string, tags: seq<Tags.Tag>) returns (out: string)
    ensures out == head + TagText(tags)
  {
    out := head;
    for i := 0 to |tags|
      invariant out == head + TagText(tags[..i])
    {
      var piece := "#" + Tags.Display(tags[i]) + " ";
      TagTextSnoc(tags[..i], tags[i]);
      TakeSnoc(tags, i);
      AppendAssoc(head, TagText(tags[..i]), piece);
      out := out + piece;
    }
    TakeAll(tags);
  }

  lemma {:induction false} TagTextSnoc(tags: seq<Tags.Tag>, t: Tags.Tag)
    ensures TagText(tags + [t]) == TagText(tags) + ("#" + Tags.Display(t) + " ")
    decreases |tags|
  {
    if tags != [] {
      assert (tags + [t])[1..] == tags[1..] + [t];
      TagTextSnoc(tags[1..], t);
    }
  }

  lemma RenderedPieces(fm: FrontMatter)
    ensures Rendered(fm) == Delimiter + "\n" + ("Name: " + fm.name) + "\n"
      + ("Date: " + Chrono.DisplayFormat(fm.createdAt)) + "\n" + TagText(fm.tags) + Delimiter + "\n"
  {
    Terminated3(Delimiter, "Name: " + fm.name, "Date: " + Chrono.DisplayFormat(fm.createdAt));
  }

  // -------------------------------------------------------------- properties

  /** Fewer than five lines never make a header. */
  lemma TooFewLinesRejected(lines: seq<string>)
    requires |lines| < 5
    ensures ExtractLines(lines).Err?
  {
    if ExtractLines(lines).Ok? { ExtractFields(lines); }
  }

  /** Everything a successful extraction implies about the lines: the
      delimiters, the exact name after `Name: `, the parsed date after
      `Date: `, the tags of the whitespace tokens of line 3, and the body. */
  lemma ExtractFields(lines: seq<string>)
    requires ExtractLines(lines).Ok?
    ensures var (fm, body) := ExtractLines(lines).value;
      && |lines| >= 5
      && Trim(lines[0]) == Delimiter && Trim(lines[4]) == Delimiter
      && lines[1] == "Name: " + fm.name
      && "Date: " <= lines[2] && Chrono.Parse(lines[2][6..]) == Some(fm.createdAt)
      && ParseTags(SplitWhitespace(lines[3])) == Ok(fm.tags)
      && body == Join(lines[5..], "\n")
  {
    assert DelimCheck(lines, 0).Ok?;
    var n := StripPrefix(lines[1], "Name: ");
    assert n.Some?;
    var d := StripPrefix(lines[2], "Date: ");
    assert d.Some? && d.value == lines[2][6..];
    var p := Chrono.Parse(d.value);
    assert p.Some?;
    var g := ParseTags(SplitWhitespace(lines[3]));
    assert g.Ok?;
    assert DelimCheck(lines, 4).Ok?;
    assert ExtractLines(lines).value == (FrontMatter(n.value, p.value, g.value), Join(lines[5..], "\n"));
  }

  /** Lines with an exact name and date text and a tag line whose tokens all
      parse are extracted into those fields. */
  lemma ExtractExact(lines: seq<string>, name: string, dateText: string)
    requires |lines| >= 5 && Trim(lines[0]) == Delimiter && Trim(lines[4]) == Delimiter
    requires lines[1] == "Name: " + name && lines[2] == "Date: " + dateText
    requires Chrono.Parse(dateText).Some? && ParseTags(SplitWhitespace(lines[3])).Ok?
    ensures ExtractLines(lines) == Ok((FrontMatter(name, Chrono.Parse(dateText).value,
      ParseTags(SplitWhitespace(lines[3])).value), Join(lines[5..], "\n")))
  {
    StripAfterPrefix("Name: ", name);
    StripAfterPrefix("Date: ", dateText);
  }

  /** A tag line with no tokens gives no tags. */
  lemma BlankTagLine(line: string)
    requires forall i :: 0 <= i < |line| ==> IsWhitespace(line[i])
    ensures ParseTags(SplitWhitespace(line)) == Ok([])
  {
    SplitBlank(line);
  }

  /** A token that starts with `{` makes the name slice `[1..0]`, which aborts. */
  lemma LeadingBracePanics(tok: string)
    requires tok != [] && tok[0] == '{'
    ensures ParseTag(tok) == Err(Panic(SliceMessage))
  {
    assert IndexOf(tok, '{') == 0;
    assert tok[..0] == [];
  }

  /** On an ASCII token the byte offsets are character indices, so the token
      is read as: no `{` is a `ParseError`; a `{` at the start, or fewer than
      seven characters after it, aborts; otherwise the tag is built from the
      name after the first character and the seven-character colour. */
  lemma AsciiTag(tok: string)
    requires IsAscii(tok)
    ensures var ci := IndexOf(tok, '{');
      ParseTag(tok) ==
        if ci == |tok| then Err(ParseError(ColorMessage))
        else if ci == 0 || ci + 8 > |tok| then Err(Panic(SliceMessage))
        else Tags.New(tok[1..ci], tok[ci + 1..ci + 8])
  {
    var ci := IndexOf(tok, '{');
    if ci < |tok| {
      AsciiSlice(tok, 0, ci);
      assert tok[0..ci] == tok[..ci];
      AsciiByteLength(tok[..ci]);
      AsciiByteSlice(tok, 1, ci);
      AsciiByteSlice(tok, ci + 1, ci + 8);
    }
  }

  /** The token that the source's header comments show, `#name{colour}`. */
  function TagToken(t: Tags.Tag): string {
    "#" + t.name + "{" + t.color + "}"
  }

  /** Reading a token back: a tag with an ASCII lower-case name that has no
      `{` and a seven-character ASCII colour survives `TagToken`. */
  lemma ParseTagToken(t: Tags.Tag)
    requires IsAsciiLower(t.name) && '{' !in t.name
    requires IsAscii(t.color) && |t.color| == 7
    ensures ParseTag(TagToken(t)) == Ok(t)
  {
    var head := "#" + t.name;
    var tail := "{" + t.color + "}";
    var tok := TagToken(t);
    var n := |t.name|;
    assert tok == head + tail;
    assert '{' !in head by {
      forall j | 0 <= j < |head| ensures head[j] != '{' {
        if j > 0 { assert head[j] == t.name[j - 1]; }
      }
    }
    IndexOfAppend(head, tail, '{');
    assert IndexOf(tok, '{') == n + 1;
    assert IsAscii("#") && IsAscii("{") && IsAscii("}");
    AsciiAppend("#", t.name);
    AsciiAppend("{", t.color);
    AsciiAppend("{" + t.color, "}");
    AsciiAppend(head, tail);
    AsciiTag(tok);
    assert tok[1..n + 1] == t.name;
    assert tok[n + 2..n + 9] == t.color;
    Tags.NewOfLower(t);
  }

  /** What `Display` writes for the date is not what `Parse` reads: a
      rendered header (with a one-line name) is refused at its date line, so
      the codec has no inverse. */
  lemma RenderedNotReadBack(fm: FrontMatter, rest: string)
    requires NoLineBreak(fm.name)
    ensures Extract(Rendered(fm) + rest) == Err(ParseError(Chrono.ParseErrorText))
  {
    RenderedFirstLines(fm, rest);
    DisplayedDateRejected(Lines(Rendered(fm) + rest), fm.name, fm.createdAt);
  }

  /** The first three lines of a rendered header: the delimiter, the name line and the date line. */
  lemma RenderedFirstLines(fm: FrontMatter, rest: string)
    requires NoLineBreak(fm.name)
    ensures var lines := Lines(Rendered(fm) + rest);
      && |lines| >= 3 && lines[0] == Delimiter && lines[1] == "Name: " + fm.name
      && lines[2] == "Date: " + Chrono.DisplayFormat(fm.createdAt)
  {
    var ls := [Delimiter, "Name: " + fm.name, "Date: " + Chrono.DisplayFormat(fm.createdAt)];
    var t, a := Terminated(ls), TagText(fm.tags);
    var tail := a + Delimiter + "\n" + rest;
    AppendAssoc(t, a, Delimiter);
    AppendAssoc(t, a + Delimiter, "\n");
    AppendAssoc(t, a + Delimiter + "\n", rest);
    Chrono.DisplayNoLineBreak(fm.createdAt);
    assert forall k :: 0 <= k < |ls| ==> NoLineBreak(ls[k]);
    assert Rendered(fm) + rest == t + tail;
    LinesOfTerminated(ls, tail);
    var lines := Lines(Rendered(fm) + rest);
    assert lines[..3] == ls;
  }

  /** Lines whose date line holds a date's `Display` are refused there. */
  lemma DisplayedDateRejected(lines: seq<string>, name: string, d: Chrono.NaiveDateTime)
    requires |lines| >= 3 && lines[0] == Delimiter && lines[1] == "Name: " + name
    requires lines[2] == "Date: " + Chrono.DisplayFormat(d)
    ensures ExtractLines(lines) == Err(ParseError(Chrono.ParseErrorText))
  {
    TrimDelimiter();
    StripAfterPrefix("Name: ", name);
    StripAfterPrefix("Date: ", Chrono.DisplayFormat(d));
    Chrono.ParseRejectsDisplay(d);
  }

  lemma TagTokenNoWhitespace(t: Tags.Tag)
    requires NoWhitespace(t.name) && NoWhitespace(t.color)
    ensures TagToken(t) != [] && NoWhitespace(TagToken(t))
  {
    assert NoWhitespace("#") && NoWhitespace("{") && NoWhitespace("}");
    NoWhitespaceAppend("#", t.name);
    NoWhitespaceAppend("#" + t.name, "{");
    NoWhitespaceAppend("#" + t.name + "{", t.color);
    NoWhitespaceAppend("#" + t.name + "{" + t.color, "}");
  }

  /** The tags a well-formed tag has: an ASCII lower-case name without `{`
      or whitespace, and a seven-character ASCII colour without whitespace. */
  predicate TokenShaped(t: Tags.Tag) {
    && IsAsciiLower(t.name) && '{' !in t.name && NoWhitespace(t.name)
    && IsAscii(t.color) && |t.color| == 7 && NoWhitespace(t.color)
  }

  /** A tag line of two tokens gives the two tags in order. */
  lemma ParseTagPair(p: Tags.Tag, q: Tags.Tag)
    requires TokenShaped(p) && TokenShaped(q)
    ensures ParseTags(SplitWhitespace(TagToken(p) + " " + TagToken(q))) == Ok([p, q])
  {
    TagTokenNoWhitespace(p);
    TagTokenNoWhitespace(q);
    SplitPair(TagToken(p), TagToken(q));
    ParseTagToken(p);
    ParseTagToken(q);
    ParseTwo(TagToken(p), TagToken(q), p, q);
  }

  lemma ParseTwo(a: string, b: string, p: Tags.Tag, q: Tags.Tag)
    requires ParseTag(a) == Ok(p) && ParseTag(b) == Ok(q)
    ensures ParseTags([a, b]) == Ok([p, q])
  {
    assert ParseTags([b]) == Ok([q]) by {
      ParseTagsCons(b, []);
      assert [b] + [] == [b] && [q] + [] == [q];
    }
    ParseTagsCons(a, [b]);
    assert [a] + [b] == [a, b] && [p] + [q] == [p, q];
  }

  // -------------------------------------------------------------- the example

  const ExamplePenis: Tags.Tag := Tags.Tag("penis", "#ffffff")
  const ExampleBarber: Tags.Tag := Tags.Tag("barber", "#000000")
  const ExampleFirstLine: string := Delimiter + "            "
  const ExampleTagLine: string := TagToken(ExamplePenis) + " " + TagToken(ExampleBarber)
  const ExampleNameLine: string := "Name: " + "LOL"
  const ExampleDateLine: string := "Date: " + "2025-01-01 12:50:19 AM"

  /** The parser test's input: a delimiter with trailing spaces, `Name: LOL`,
      the date, `#penis{#ffffff} #barber{#000000}` and the closing delimiter. */
  const ExampleText: string :=
    ExampleFirstLine + "\n" + ExampleNameLine + "\n" + ExampleDateLine + "\n"
      + ExampleTagLine + "\n" + Delimiter + "\n"

  const ExampleLines: seq<string> :=
    [ExampleFirstLine, ExampleNameLine, ExampleDateLine, ExampleTagLine, Delimiter]

  const ExampleHeader: FrontMatter :=
    FrontMatter("LOL", Chrono.DateTime(2025, 1, 1, 0, 50, 19, 0), [ExamplePenis, ExampleBarber])

  /** The test's input reads as `LOL`, 0:50:19 on 1 January 2025, and the
      tags `penis` (`#ffffff`) and `barber` (`#000000`), with an empty body. */
  lemma ExtractExample()
    ensures Extract(ExampleText) == Ok((ExampleHeader, ""))
  {
    ExampleTextLines();
    ExampleLinesExtract();
  }

  lemma ExampleTextLines()
    ensures Lines(ExampleText) == ExampleLines
  {
    var ls := ExampleLines;
    Terminated5(ExampleFirstLine, ExampleNameLine, ExampleDateLine, ExampleTagLine, Delimiter);
    ExampleNoLineBreaks();
    LinesOfTerminated(ls, "");
    assert Terminated(ls) + "" == ExampleText;
    assert ls + [] == ls;
  }

  lemma ExampleLinesExtract()
    ensures ExtractLines(ExampleLines) == Ok((ExampleHeader, ""))
  {
    ExampleLinesShape();
    Chrono.ParseExample();
    ExampleTags();
    ExtractFiveLines(ExampleLines, "LOL", "2025-01-01 12:50:19 AM");
  }

  /** A header of exactly five lines has an empty body. */
  lemma ExtractFiveLines(lines: seq<string>, name: string, dateText: string)
    requires |lines| == 5 && Trim(lines[0]) == Delimiter && Trim(lines[4]) == Delimiter
    requires lines[1] == "Name: " + name && lines[2] == "Date: " + dateText
    requires Chrono.Parse(dateText).Some? && ParseTags(SplitWhitespace(lines[3])).Ok?
    ensures ExtractLines(lines) == Ok((FrontMatter(name, Chrono.Parse(dateText).value,
      ParseTags(SplitWhitespace(lines[3])).value), ""))
  {
    ExtractExact(lines, name, dateText);
    assert lines[5..] == [];
  }

  lemma ExampleLinesShape()
    ensures |ExampleLines| == 5 && Trim(ExampleLines[0]) == Delimiter && Trim(ExampleLines[4]) == Delimiter
    ensures ExampleLines[1] == "Name: " + "LOL" && ExampleLines[2] == "Date: " + "2025-01-01 12:50:19 AM"
    ensures ExampleLines[3] == ExampleTagLine
  {
    assert ExampleLines[0] == ExampleFirstLine && ExampleLines[4] == Delimiter;
    ExampleFirstLineTrims();
  }

  lemma ExampleFirstLineTrims()
    ensures Trim(ExampleFirstLine) == Delimiter && Trim(Delimiter) == Delimiter
  {
    PaddedDelimiter("            ");
    TrimDelimiter();
  }

  lemma ExampleNoLineBreaks()
    ensures forall k :: 0 <= k < |ExampleLines| ==> NoLineBreak(ExampleLines[k])
  {
    ExampleShapes();
    assert NoLineBreak(ExampleFirstLine);
    assert NoLineBreak(ExampleTagLine) by {
      TagTokenNoWhitespace(ExamplePenis);
      TagTokenNoWhitespace(ExampleBarber);
      SpaceJoinedNoLineBreak(TagToken(ExamplePenis), TagToken(ExampleBarber));
    }
  }

  lemma ExampleShapes()
    ensures TokenShaped(ExamplePenis) && TokenShaped(ExampleBarber)
  {
    PrintableShaped("penis");
    PrintableShaped("barber");
    PrintableShaped("#ffffff");
    PrintableShaped("#000000");
  }

  /** Printable ASCII other than `{` and capitals: ASCII lower case, no `{`, no whitespace. */
  lemma PrintableShaped(w: string)
    requires forall i :: 0 <= i < |w| ==> '!' <= w[i] <= '~' && w[i] != '{' && !('A' <= w[i] <= 'Z')
    ensures IsAsciiLower(w) && '{' !in w && NoWhitespace(w)
  {
  }

  lemma ExampleTags()
    ensures ParseTags(SplitWhitespace(ExampleTagLine)) == Ok([ExamplePenis, ExampleBarber])
  {
    ExampleShapes();
    ParseTagPair(ExamplePenis, ExampleBarber);
  }
}
