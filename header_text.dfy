/** What both header codecs (emergence_zk/src/zettel/frontmatter.rs and
    emergence_zk/src/frontmatter.rs) share: the `---` delimiter check and the
    lookup of a numbered line. */
module HeaderText {
  import opened Errors
  import opened Text
  import Chrono

  const Delimiter: string := "---"
  const DelimiterMessage: string := "FrontMatter Deliminator Corrupted!"

  function LineMissing(n: nat): string {
    "Line Number " + Chrono.Fixed(n, Chrono.NumDigits(n)) + " doesnt exist!"
  }

  /** The `delim_check` closure: line `n` must exist and trim to `---`. */
  function DelimCheck(lines: seq<string>, n: nat): (r: Result<()>)
    ensures r.Ok? <==> n < |lines| && Trim(lines[n]) == Delimiter
    ensures n >= |lines| ==> r == Err(ParseError(LineMissing(n)))
    ensures n < |lines| && r.Err? ==> r == Err(ParseError(DelimiterMessage))
  {
    if n >= |lines| then Err(ParseError(LineMissing(n)))
    else if Trim(lines[n]) != Delimiter then Err(ParseError(DelimiterMessage))
    else Ok(())
  }

  /** `lines.get(n).ok_or(ParseError(missing))`. */
  function Line(lines: seq<string>, n: nat, missing: string): (r: Result<string>)
    ensures r.Ok? <==> n < |lines|
    ensures r.Ok? ==> r.value == lines[n]
    ensures r.Err? ==> r.error == ParseError(missing)
  {
    if n < |lines| then Ok(lines[n]) else Err(ParseError(missing))
  }

  /** A labelled header line: `lines.get(n)`, then `strip_prefix(prefix)`,
      each failure with its own message. */
  function Field(lines: seq<string>, n: nat, missing: string, prefix: string, prefixMessage: string): (r: Result<string>)
    ensures r.Ok? <==> n < |lines| && prefix <= lines[n]
    ensures r.Ok? ==> lines[n] == prefix + r.value
    ensures n >= |lines| ==> r == Err(ParseError(missing))
    ensures n < |lines| && r.Err? ==> r == Err(ParseError(prefixMessage))
  {
    var line :- Line(lines, n, missing);
    StripPrefix(line, prefix).OkOr(ParseError(prefixMessage))
  }

  lemma StripAfterPrefix(p: string, s: string)
    ensures StripPrefix(p + s, p) == Some(s)
  {
    assert (p + s)[|p|..] == s;
  }

  lemma DropHeader<T>(h: seq<T>, more: seq<T>)
    requires |h| == 5
    ensures (h + more)[5..] == more
  {
  }

  /** A delimiter line may carry trailing whitespace. */
  lemma {:induction false} PaddedDelimiter(pad: string)
    requires forall i :: 0 <= i < |pad| ==> IsWhitespace(pad[i])
    ensures Trim(Delimiter + pad) == Delimiter
    decreases |pad|
  {
    if pad == [] {
      assert Delimiter + pad == Delimiter;
      assert TrimEnd(Delimiter) == Delimiter;
      assert TrimStart(Delimiter) == Delimiter;
    } else {
      var shorter := pad[..|pad| - 1];
      assert (Delimiter + pad)[..|Delimiter + pad| - 1] == Delimiter + shorter;
      PaddedDelimiter(shorter);
    }
  }

  lemma TrimDelimiter()
    ensures Trim(Delimiter) == Delimiter
  {
    PaddedDelimiter("");
    assert Delimiter + "" == Delimiter;
  }
}
