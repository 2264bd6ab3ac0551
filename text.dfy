/** The parts of Rust's `str` API that the note library relies on: `lines`,
    `trim`, `split_whitespace`, `strip_prefix`, `ends_with`, `find`,
    `to_lowercase` + `is_ascii`, byte-offset slicing and the `Ord` of `String`.
    Strings are sequences of Unicode scalar values. */
module Text {
  import opened Errors

  // ---------------------------------------------------------------- characters

  /** Unicode `White_Space`, the set that `trim` and `split_whitespace` use. */
  predicate IsWhitespace(c: char) {
    || ('\t' <= c <= '\r')
    || c == ' '
    || c == '\U{0085}'
    || c == '\U{00A0}'
    || c == '\U{1680}'
    || ('\U{2000}' <= c <= '\U{200A}')
    || c == '\U{2028}'
    || c == '\U{2029}'
    || c == '\U{202F}'
    || c == '\U{205F}'
    || c == '\U{3000}'
  }

  predicate NoWhitespace(s: string) {
    forall i :: 0 <= i < |s| ==> !IsWhitespace(s[i])
  }

  /** No line terminator: the string stays one line for `lines`. */
  predicate NoLineBreak(s: string) {
    '\n' !in s && '\r' !in s
  }

  /** `str::find(c)` on characters: the first index of `c`, or `|s|`. */
  function IndexOf(s: string, c: char): (i: nat)
    ensures i <= |s|
    ensures i < |s| ==> s[i] == c
    ensures forall j :: 0 <= j < i ==> s[j] != c
  {
    if s == [] then 0 else if s[0] == c then 0 else 1 + IndexOf(s[1..], c)
  }

  /** The index of the first whitespace character, or `|s|`. */
  function FirstWhitespace(s: string): (i: nat)
    ensures i <= |s|
    ensures i < |s| ==> IsWhitespace(s[i])
    ensures forall j :: 0 <= j < i ==> !IsWhitespace(s[j])
  {
    if s == [] then 0 else if IsWhitespace(s[0]) then 0 else 1 + FirstWhitespace(s[1..])
  }

  // ------------------------------------------------------------ prefix, suffix

  predicate EndsWith(s: string, suffix: string) {
    |suffix| <= |s| && s[|s| - |suffix|..] == suffix
  }

  /** `str::strip_prefix`. */
  function StripPrefix(s: string, prefix: string): (r: Option<string>)
    ensures r.Some? <==> prefix <= s
    ensures r.Some? ==> prefix + r.value == s
  {
    if prefix <= s then Some(s[|prefix|..]) else None
  }

  /** `str::strip_suffix`. */
  function StripSuffix(s: string, suffix: string): (r: Option<string>)
    ensures r.Some? <==> EndsWith(s, suffix)
    ensures r.Some? ==> r.value + suffix == s
  {
    if EndsWith(s, suffix) then Some(s[..|s| - |suffix|]) else None
  }

  // --------------------------------------------------------------------- trim

  /** `str::trim_start`. */
  function TrimStart(s: string): (r: string)
    ensures |r| <= |s| && r == s[|s| - |r|..]
    ensures r == [] || !IsWhitespace(r[0])
    ensures forall i :: 0 <= i < |s| - |r| ==> IsWhitespace(s[i])
  {
    if s != [] && IsWhitespace(s[0]) then TrimStart(s[1..]) else s
  }

  /** `str::trim_end`. */
  function TrimEnd(s: string): (r: string)
    ensures |r| <= |s| && r == s[..|r|]
    ensures r == [] || !IsWhitespace(r[|r| - 1])
    ensures forall i :: |r| <= i < |s| ==> IsWhitespace(s[i])
  {
    if s != [] && IsWhitespace(s[|s| - 1]) then TrimEnd(s[..|s| - 1]) else s
  }

  /** `str::trim`. */
  function Trim(s: string): string {
    TrimStart(TrimEnd(s))
  }

  // --------------------------------------------------------- split_whitespace

  /** `s` holds whitespace only. */
  predicate Blank(s: string) {
    forall i :: 0 <= i < |s| ==> IsWhitespace(s[i])
  }

  /** Tokens as `split_whitespace` yields them: nonempty and whitespace-free. */
  predicate Words(tokens: seq<string>) {
    forall k :: 0 <= k < |tokens| ==> tokens[k] != [] && NoWhitespace(tokens[k])
  }

  /** Whitespace gaps that keep tokens apart: nonempty between two tokens,
      possibly empty before the first and after the last. */
  predicate Separators(gaps: seq<string>) {
    && (forall k :: 0 <= k < |gaps| ==> Blank(gaps[k]))
    && (forall k :: 0 < k < |gaps| - 1 ==> gaps[k] != [])
  }

  /** `gaps[0] + tokens[0] + gaps[1] + … + tokens[n - 1] + gaps[n]`. */
  function Interleave(gaps: seq<string>, tokens: seq<string>): string
    requires |gaps| == |tokens| + 1
    decreases |tokens|
  {
    if tokens == [] then gaps[0] else gaps[0] + tokens[0] + Interleave(gaps[1..], tokens[1..])
  }

  /** `s` is `tokens` with the separating `gaps` around and between them. */
  predicate Decomposes(gaps: seq<string>, tokens: seq<string>, s: string) {
    |gaps| == |tokens| + 1 && Separators(gaps) && Interleave(gaps, tokens) == s
  }

  /** `str::split_whitespace`: the maximal runs of non-whitespace, in order
      (`SplitWhitespaceIff`). */
  function SplitWhitespace(s: string): (r: seq<string>)
    ensures forall k :: 0 <= k < |r| ==> r[k] != [] && NoWhitespace(r[k])
    decreases |s|
  {
    var t := TrimStart(s);
    if t == [] then []
    else
      var i := FirstWhitespace(t);
      FirstToken(t);
      var rest := SplitWhitespace(t[i..]);
      WordsCons(t[..i], rest);
      [t[..i]] + rest
  }

  /** The run up to the first whitespace of a text that starts with a
      non-whitespace character is a word, and shorter than the text. */
  lemma FirstToken(t: string)
    requires t != [] && !IsWhitespace(t[0])
    ensures var i := FirstWhitespace(t); 0 < i && t[..i] != [] && NoWhitespace(t[..i])
  {
  }

  lemma WordsCons(w: string, rest: seq<string>)
    requires w != [] && NoWhitespace(w) && Words(rest)
    ensures Words([w] + rest)
  {
    forall k | 0 <= k < |[w] + rest| ensures ([w] + rest)[k] != [] && NoWhitespace(([w] + rest)[k]) {
      if k > 0 { assert ([w] + rest)[k] == rest[k - 1]; }
    }
  }

  /** Each token followed by one space: what a loop writing `"{} "` per token produces. */
  function SpaceTerminated(tokens: seq<string>): string
    decreases |tokens|
  {
    if tokens == [] then "" else tokens[0] + " " + SpaceTerminated(tokens[1..])
  }

  lemma {:induction false} SpaceTerminatedSnoc(tokens: seq<string>, t: string)
    ensures SpaceTerminated(tokens + [t]) == SpaceTerminated(tokens) + (t + " ")
    decreases |tokens|
  {
    if tokens != [] {
      assert (tokens + [t])[1..] == tokens[1..] + [t];
      SpaceTerminatedSnoc(tokens[1..], t);
    }
  }

  lemma SplitWhitespaceSkip(c: char, s: string)
    requires IsWhitespace(c)
    ensures SplitWhitespace([c] + s) == SplitWhitespace(s)
  {
    assert ([c] + s)[1..] == s;
  }

  lemma TrimStartNoop(s: string)
    requires s == [] || !IsWhitespace(s[0])
    ensures TrimStart(s) == s
  {
  }

  lemma FirstWhitespaceAppend(t: string, rest: string)
    requires NoWhitespace(t)
    requires rest != [] && IsWhitespace(rest[0])
    ensures FirstWhitespace(t + rest) == |t|
  {
    var s := t + rest;
    assert s[|t|] == rest[0];
    assert forall j :: 0 <= j < |t| ==> s[j] == t[j];
  }

  lemma NoWhitespaceAppend(a: string, b: string)
    requires NoWhitespace(a) && NoWhitespace(b)
    ensures NoWhitespace(a + b)
  {
    forall i | 0 <= i < |a + b| ensures !IsWhitespace((a + b)[i]) {
      if i >= |a| { assert (a + b)[i] == b[i - |a|]; }
    }
  }

  /** Two whitespace-free tokens joined by a space stay on one line. */
  lemma SpaceJoinedNoLineBreak(a: string, b: string)
    requires NoWhitespace(a) && NoWhitespace(b)
    ensures NoLineBreak(a + " " + b)
  {
    var s := a + " " + b;
    forall i | 0 <= i < |s| ensures s[i] != '\n' && s[i] != '\r' {
      if i < |a| { assert s[i] == a[i]; }
      else if i > |a| { assert s[i] == b[i - |a| - 1]; }
    }
  }

  /** A single whitespace-free token splits into itself. */
  lemma SplitSingle(t: string)
    requires t != [] && NoWhitespace(t)
    ensures SplitWhitespace(t) == [t]
  {
    TrimStartNoop(t);
    assert t[..|t|] == t;
  }

  /** A whitespace-free token followed by whitespace splits off as the first token. */
  lemma SplitWhitespaceCons(t: string, rest: string)
    requires t != [] && NoWhitespace(t)
    requires rest != [] && IsWhitespace(rest[0])
    ensures SplitWhitespace(t + rest) == [t] + SplitWhitespace(rest)
  {
    var s := t + rest;
    assert s[0] == t[0];
    TrimStartNoop(s);
    FirstWhitespaceAppend(t, rest);
    assert s[..|t|] == t;
    assert s[|t|..] == rest;
  }

  lemma SplitSpaceTerminatedStep(tokens: seq<string>)
    requires tokens != [] && tokens[0] != [] && NoWhitespace(tokens[0])
    ensures SplitWhitespace(SpaceTerminated(tokens)) == [tokens[0]] + SplitWhitespace(SpaceTerminated(tokens[1..]))
  {
    var rest := SpaceTerminated(tokens[1..]);
    assert SpaceTerminated(tokens) == tokens[0] + ([' '] + rest);
    SplitWhitespaceCons(tokens[0], [' '] + rest);
    SplitWhitespaceSkip(' ', rest);
  }

  /** Two tokens separated by one space split into those two tokens. */
  lemma SplitPair(a: string, b: string)
    requires a != [] && NoWhitespace(a) && b != [] && NoWhitespace(b)
    ensures SplitWhitespace(a + " " + b) == [a, b]
  {
    assert a + " " + b == a + (" " + b);
    SplitWhitespaceCons(a, " " + b);
    SplitWhitespaceSkip(' ', b);
    SplitSingle(b);
  }

  /** Splitting space-terminated, whitespace-free, nonempty tokens gives them back. */
  lemma {:induction false} SplitSpaceTerminated(tokens: seq<string>)
    requires forall k :: 0 <= k < |tokens| ==> tokens[k] != [] && NoWhitespace(tokens[k])
    ensures SplitWhitespace(SpaceTerminated(tokens)) == tokens
    decreases |tokens|
  {
    if tokens != [] {
      WordsTail(tokens);
      SplitSpaceTerminated(tokens[1..]);
      SplitSpaceTerminatedCons(tokens);
    }
  }

  lemma WordsTail(tokens: seq<string>)
    requires tokens != [] && Words(tokens)
    ensures Words(tokens[1..])
  {
    assert forall k :: 0 <= k < |tokens[1..]| ==> tokens[1..][k] == tokens[k + 1];
  }

  lemma SplitSpaceTerminatedCons(tokens: seq<string>)
    requires tokens != [] && tokens[0] != [] && NoWhitespace(tokens[0])
    requires SplitWhitespace(SpaceTerminated(tokens[1..])) == tokens[1..]
    ensures SplitWhitespace(SpaceTerminated(tokens)) == tokens
  {
    SplitSpaceTerminatedStep(tokens);
    HeadTail(tokens);
  }

  lemma {:induction false} TrimStartBlank(s: string)
    requires forall i :: 0 <= i < |s| ==> IsWhitespace(s[i])
    ensures TrimStart(s) == []
    decreases |s|
  {
    if s != [] {
      assert forall i :: 0 <= i < |s| - 1 ==> s[1..][i] == s[i + 1];
      TrimStartBlank(s[1..]);
    }
  }
  /** The input is its tokens with separating whitespace around and between them. */
  lemma SplitDecomposes(s: string)
    ensures exists gaps :: Decomposes(gaps, SplitWhitespace(s), s)
  {
    GapsDecompose(s);
  }

  /** The whitespace before, between and after the tokens of `s`. */
  ghost function Gaps(s: string): seq<string>
    decreases |s|
  {
    var t := TrimStart(s);
    if t == [] then [s]
    else
      var i := FirstWhitespace(t);
      assert i > 0;
      [s[..|s| - |t|]] + Gaps(t[i..])
  }

  lemma {:induction false} GapsDecompose(s: string)
    ensures Decomposes(Gaps(s), SplitWhitespace(s), s)
    decreases |s|
  {
    var t := TrimStart(s);
    if t == [] {
      assert SplitWhitespace(s) == [] && Gaps(s) == [s];
      assert Decomposes([s], [], s);
    } else {
      var i := FirstWhitespace(t);
      assert i > 0;
      GapsDecompose(t[i..]);
      GapsStep(s);
    }
  }

  lemma GapsStep(s: string)
    requires TrimStart(s) != []
    requires var t := TrimStart(s); var x := t[FirstWhitespace(t)..];
      Decomposes(Gaps(x), SplitWhitespace(x), x)
    ensures Decomposes(Gaps(s), SplitWhitespace(s), s)
  {
    var t := TrimStart(s);
    var i := FirstWhitespace(t);
    StepParts(s);
    SplitStep(s);
    GapsUnfold(s);
    DecomposeCons(s, s[..|s| - |t|], t[..i], t[i..], SplitWhitespace(t[i..]), Gaps(t[i..]));
  }

  /** Leading whitespace, the first token, and what follows it. */
  lemma StepParts(s: string)
    requires TrimStart(s) != []
    ensures var t := TrimStart(s); var i := FirstWhitespace(t); var lead := s[..|s| - |t|];
      && Blank(lead) && t[..i] != [] && NoWhitespace(t[..i])
      && (t[i..] == [] || IsWhitespace(t[i..][0]))
      && s == lead + (t[..i] + t[i..])
  {
    var t := TrimStart(s);
    var i := FirstWhitespace(t);
    TakeDrop(t, i);
    TakeDrop(s, |s| - |t|);
  }

  lemma GapsUnfold(s: string)
    requires TrimStart(s) != []
    ensures var t := TrimStart(s);
      Gaps(s) == [s[..|s| - |t|]] + Gaps(t[FirstWhitespace(t)..])
  {
  }

  /** One step of the split: the first run after the leading whitespace, then the rest. */
  lemma SplitStep(s: string)
    requires TrimStart(s) != []
    ensures var t := TrimStart(s); var i := FirstWhitespace(t);
      SplitWhitespace(s) == [t[..i]] + SplitWhitespace(t[i..])
  {
  }

  /** A decomposition whose first gap is empty starts with a token's character. */
  lemma InterleaveHead(gaps: seq<string>, tokens: seq<string>, s: string)
    requires Decomposes(gaps, tokens, s) && Words(tokens) && tokens != []
    ensures gaps[0] == [] ==> s != [] && !IsWhitespace(s[0])
  {
    if gaps[0] == [] {
      assert s == gaps[0] + tokens[0] + Interleave(gaps[1..], tokens[1..]);
      assert s[0] == tokens[0][0];
    }
  }

  /** Leading whitespace and a token put in front of a decomposed text that
      starts with whitespace (or is empty) decompose the whole. */
  lemma DecomposeCons(s: string, lead: string, w: string, x: string, rest: seq<string>, g': seq<string>)
    requires s == lead + (w + x)
    requires Blank(lead) && w != [] && NoWhitespace(w)
    requires x == [] || IsWhitespace(x[0])
    requires Words(rest) && Decomposes(g', rest, x)
    ensures Decomposes([lead] + g', [w] + rest, s)
  {
    if rest != [] { InterleaveHead(g', rest, x); }
    var g := [lead] + g';
    var tokens := [w] + rest;
    assert g[1..] == g' && tokens[1..] == rest && tokens[0] == w;
    AppendAssoc(lead, w, x);
    assert Interleave(g, tokens) == s;
    forall k | 0 <= k < |g| ensures Blank(g[k]) {
      if k > 0 { assert g[k] == g'[k - 1]; }
    }
    forall k | 0 < k < |g| - 1 ensures g[k] != [] {
      assert g[k] == g'[k - 1];
    }
  }

  /** A string with no non-whitespace character splits into no tokens. */
  lemma SplitBlank(s: string)
    requires forall i :: 0 <= i < |s| ==> IsWhitespace(s[i])
    ensures SplitWhitespace(s) == []
  {
    TrimStartBlank(s);
  }

  /** Leading whitespace does not change the split. */
  lemma {:induction false} SplitBlankPrefix(w: string, s: string)
    requires Blank(w)
    ensures SplitWhitespace(w + s) == SplitWhitespace(s)
    decreases |w|
  {
    if w != [] {
      var c, more := w[0], w[1..];
      assert w == [c] + more;
      assert IsWhitespace(c) && Blank(more);
      AppendAssoc([c], more, s);
      assert w + s == [c] + (more + s);
      SplitWhitespaceSkip(c, more + s);
      SplitBlankPrefix(more, s);
    } else {
      assert w + s == s;
    }
  }

  /** The converse of `SplitWhitespace`'s decomposition: words interleaved
      with separating whitespace split back into exactly those words. */
  lemma {:induction false} SplitInterleave(gaps: seq<string>, tokens: seq<string>)
    requires |gaps| == |tokens| + 1 && Separators(gaps) && Words(tokens)
    ensures SplitWhitespace(Interleave(gaps, tokens)) == tokens
    decreases |tokens|
  {
    if tokens == [] {
      SplitBlank(gaps[0]);
    } else {
      SeparatorsTail(gaps);
      SplitInterleave(gaps[1..], tokens[1..]);
      SplitInterleaveStep(gaps, tokens);
    }
  }

  lemma SeparatorsTail(gaps: seq<string>)
    requires Separators(gaps) && gaps != []
    ensures Separators(gaps[1..])
  {
    forall k | 0 < k < |gaps[1..]| - 1 ensures gaps[1..][k] != [] {
      assert gaps[1..][k] == gaps[k + 1];
    }
  }

  /** Text that starts with a gap that is nonempty before a token is empty
      or starts with whitespace. */
  lemma InterleaveStartsBlank(gaps: seq<string>, tokens: seq<string>)
    requires |gaps| == |tokens| + 1 && Blank(gaps[0])
    requires tokens != [] ==> gaps[0] != []
    ensures var x := Interleave(gaps, tokens); x == [] || IsWhitespace(x[0])
  {
    if tokens != [] {
      var x := Interleave(gaps, tokens);
      assert x == gaps[0] + tokens[0] + Interleave(gaps[1..], tokens[1..]);
      assert x[0] == gaps[0][0];
    }
  }

  lemma SplitInterleaveStep(gaps: seq<string>, tokens: seq<string>)
    requires |gaps| == |tokens| + 1 && Separators(gaps) && Words(tokens) && tokens != []
    requires SplitWhitespace(Interleave(gaps[1..], tokens[1..])) == tokens[1..]
    ensures SplitWhitespace(Interleave(gaps, tokens)) == tokens
  {
    var w := tokens[0];
    var rest := Interleave(gaps[1..], tokens[1..]);
    assert Interleave(gaps, tokens) == gaps[0] + w + rest;
    AppendAssoc(gaps[0], w, rest);
    SplitBlankPrefix(gaps[0], w + rest);
    assert gaps[1..][0] == gaps[1];
    InterleaveStartsBlank(gaps[1..], tokens[1..]);
    SplitTokenThen(w, rest);
    HeadTail(tokens);
  }

  /** A word followed by nothing or by whitespace splits off first. */
  lemma SplitTokenThen(w: string, rest: string)
    requires w != [] && NoWhitespace(w)
    requires rest == [] || IsWhitespace(rest[0])
    ensures SplitWhitespace(w + rest) == [w] + SplitWhitespace(rest)
  {
    if rest == [] {
      SplitSingle(w);
      SplitTokenLast(w, rest);
    } else {
      SplitWhitespaceCons(w, rest);
    }
  }

  lemma SplitTokenLast(w: string, rest: string)
    requires rest == [] && SplitWhitespace(w) == [w]
    ensures SplitWhitespace(w + rest) == [w] + SplitWhitespace(rest)
  {
    assert w + rest == w;
    assert SplitWhitespace(rest) == [];
  }

  /** `split_whitespace` characterised: `tokens` is the split of `s` exactly
      when they are whitespace-free nonempty words that, with separating
      whitespace around and between them, make up `s`. */
  lemma SplitWhitespaceIff(s: string, tokens: seq<string>)
    ensures SplitWhitespace(s) == tokens <==> Words(tokens) && exists gaps :: Decomposes(gaps, tokens, s)
  {
    if SplitWhitespace(s) == tokens {
      SplitDecomposes(s);
    }
    if Words(tokens) && exists gaps :: Decomposes(gaps, tokens, s) {
      var gaps :| Decomposes(gaps, tokens, s);
      SplitInterleave(gaps, tokens);
    }
  }

  // -------------------------------------------------------------------- lines

  /** What `str::lines` does to one piece: drop a `\r` before the `\n`. */
  function StripCarriageReturn(l: string): string {
    if |l| > 0 && l[|l| - 1] == '\r' then l[..|l| - 1] else l
  }

  /** `str::lines`: split at `\n` (a preceding `\r` is dropped); the final line
      needs no terminator, and an empty string has no lines. */
  function Lines(s: string): seq<string>
    decreases |s|
  {
    if s == [] then []
    else
      var i := IndexOf(s, '\n');
      if i == |s| then [s] else [StripCarriageReturn(s[..i])] + Lines(s[i + 1..])
  }

  /** `[&str]::join`. */
  function Join(parts: seq<string>, sep: string): string
    decreases |parts|
  {
    if |parts| == 0 then ""
    else if |parts| == 1 then parts[0]
    else parts[0] + sep + Join(parts[1..], sep)
  }

  lemma LinesCons(l: string, rest: string)
    requires '\n' !in l
    ensures Lines(l + "\n" + rest) == [StripCarriageReturn(l)] + Lines(rest)
  {
    var s := l + "\n" + rest;
    assert s[|l|] == '\n';
    assert forall j :: 0 <= j < |l| ==> s[j] == l[j];
    assert IndexOf(s, '\n') == |l|;
    assert s[..|l|] == l;
    assert s[|l| + 1..] == rest;
  }

  lemma LinesLast(l: string)
    requires l != [] && '\n' !in l
    ensures Lines(l) == [l]
  {
    assert IndexOf(l, '\n') == |l|;
  }

  /** A text without carriage returns and without a final line break is the
      join of its lines. */
  lemma {:induction false} JoinLines(c: string)
    requires '\r' !in c
    requires c == [] || c[|c| - 1] != '\n'
    ensures Join(Lines(c), "\n") == c
    decreases |c|
  {
    if c != [] {
      var i := IndexOf(c, '\n');
      if i < |c| {
        var rest := c[i + 1..];
        assert c == c[..i] + "\n" + rest;
        assert rest != [];
        LinesCons(c[..i], rest);
        assert '\r' !in c[..i];
        assert StripCarriageReturn(c[..i]) == c[..i];
        JoinLines(rest);
        var ls := [c[..i]] + Lines(rest);
        assert |Lines(rest)| >= 1;
        assert ls[1..] == Lines(rest);
      } else {
        LinesLast(c);
      }
    }
  }

  lemma IndexOfAppend(a: string, b: string, c: char)
    ensures IndexOf(a, c) < |a| ==> IndexOf(a + b, c) == IndexOf(a, c)
    ensures IndexOf(a, c) == |a| ==> IndexOf(a + b, c) == |a| + IndexOf(b, c)
  {
    var s := a + b;
    var i := IndexOf(a, c);
    assert forall j :: 0 <= j < |a| ==> s[j] == a[j];
    assert forall j :: 0 <= j < |b| ==> s[|a| + j] == b[j];
    var k := IndexOf(s, c);
    if i < |a| {
      assert s[i] == c;
    } else {
      var m := IndexOf(b, c);
      if m < |b| { assert s[|a| + m] == c; }
      assert forall j :: |a| <= j < |a| + m ==> s[j] == b[j - |a|];
    }
  }

  /** A final `\n` adds no line when the text ends in an unterminated line. */
  lemma {:induction false} LinesTerminated(c: string)
    requires c != [] && c[|c| - 1] != '\n' && c[|c| - 1] != '\r'
    ensures Lines(c + "\n") == Lines(c)
    decreases |c|
  {
    var s := c + "\n";
    var i := IndexOf(c, '\n');
    IndexOfAppend(c, "\n", '\n');
    if i == |c| {
      assert s[..i] == c;
      assert s[i + 1..] == [];
    } else {
      var rest := c[i + 1..];
      assert s[..i] == c[..i];
      assert s[i + 1..] == rest + "\n";
      LinesTerminated(rest);
    }
  }

  /** The same with one line break appended: `lines` ignores a final `\n`. */
  lemma JoinLinesTerminated(c: string)
    requires '\r' !in c
    requires c == [] || c[|c| - 1] != '\n'
    ensures Join(Lines(c + "\n"), "\n") == c
    ensures Lines(c + "\n") != []
  {
    if c == [] {
      assert c + "\n" == "" + "\n" + "";
      LinesCons("", "");
    } else {
      assert c[|c| - 1] in c;
      LinesTerminated(c);
      JoinLines(c);
    }
  }

  /** Any text without carriage returns, once `writeln!` has ended it with a
      line break, splits into at least one line, and those lines join back
      to the text. */
  lemma {:induction false} JoinWrittenLine(c: string)
    requires '\r' !in c
    ensures Lines(c + "\n") != []
    ensures Join(Lines(c + "\n"), "\n") == c
    decreases |c|
  {
    var i := IndexOf(c, '\n');
    if i == |c| {
      assert c + "\n" == c + "\n" + "";
      LinesCons(c, "");
      assert StripCarriageReturn(c) == c by {
        if c != [] { assert c[|c| - 1] in c; }
      }
    } else {
      var rest := c[i + 1..];
      assert c == c[..i] + "\n" + rest;
      assert c + "\n" == c[..i] + "\n" + (rest + "\n");
      assert '\n' !in c[..i] && '\r' !in c[..i];
      LinesCons(c[..i], rest + "\n");
      assert StripCarriageReturn(c[..i]) == c[..i] by {
        if i > 0 { assert c[..i][i - 1] in c; }
      }
      JoinWrittenLine(rest);
      var ls := [c[..i]] + Lines(rest + "\n");
      assert ls[1..] == Lines(rest + "\n");
    }
  }

  /** Each line followed by a line break: what a run of `writeln!` produces. */
  function Terminated(ls: seq<string>): string
    decreases |ls|
  {
    if ls == [] then "" else ls[0] + "\n" + Terminated(ls[1..])
  }

  /** `lines` splits a run of one-line `writeln!` output back into its lines. */
  lemma LinesOfTerminatedStep(ls: seq<string>, rest: string)
    requires ls != [] && NoLineBreak(ls[0])
    ensures Lines(Terminated(ls) + rest) == [ls[0]] + Lines(Terminated(ls[1..]) + rest)
  {
    var h := ls[0];
    var tail := Terminated(ls[1..]) + rest;
    assert Terminated(ls) + rest == h + "\n" + tail;
    LinesCons(h, tail);
    assert StripCarriageReturn(h) == h by {
      if |h| > 0 { assert h[|h| - 1] in h; }
    }
  }

  lemma AppendAssoc<T>(a: seq<T>, b: seq<T>, c: seq<T>)
    ensures (a + b) + c == a + (b + c)
  {
  }

  lemma TakeSnoc<T>(s: seq<T>, i: nat)
    requires i < |s|
    ensures s[..i + 1] == s[..i] + [s[i]]
  {
  }

  lemma TakeDrop<T>(s: seq<T>, i: nat)
    requires i <= |s|
    ensures s[..i] + s[i..] == s
  {
  }

  lemma HeadTail<T>(s: seq<T>)
    requires s != []
    ensures s == [s[0]] + s[1..]
  {
  }

  lemma TakeAll<T>(s: seq<T>)
    ensures s[..|s|] == s
  {
  }

  lemma ConsAppend<T>(s: seq<T>, t: seq<T>)
    requires s != []
    ensures [s[0]] + (s[1..] + t) == s + t
  {
    assert s == [s[0]] + s[1..];
  }

  lemma TerminatedCons(h: string, t: seq<string>)
    ensures Terminated([h] + t) == h + "\n" + Terminated(t)
  {
    assert ([h] + t)[1..] == t;
  }

  /** Five `writeln!` calls in a row. */
  lemma Terminated5(a: string, b: string, c: string, d: string, e: string)
    ensures Terminated([a, b, c, d, e]) == a + "\n" + b + "\n" + c + "\n" + d + "\n" + e + "\n"
  {
    var nl := "\n";
    TerminatedCons(e, []);
    assert [e] == [e] + [];
    assert Terminated([]) == "";
    assert Terminated([e]) == e + nl;
    TerminatedCons(d, [e]);
    assert [d, e] == [d] + [e];
    assert Terminated([d, e]) == d + nl + e + nl;
    TerminatedCons(c, [d, e]);
    assert [c, d, e] == [c] + [d, e];
    assert Terminated([c, d, e]) == c + nl + d + nl + e + nl;
    TerminatedCons(b, [c, d, e]);
    assert [b, c, d, e] == [b] + [c, d, e];
    assert Terminated([b, c, d, e]) == b + nl + c + nl + d + nl + e + nl;
    TerminatedCons(a, [b, c, d, e]);
    assert [a, b, c, d, e] == [a] + [b, c, d, e];
  }

  /** Three `writeln!` calls in a row. */
  lemma Terminated3(a: string, b: string, c: string)
    ensures Terminated([a, b, c]) == a + "\n" + b + "\n" + c + "\n"
  {
    var nl := "\n";
    TerminatedCons(c, []);
    assert [c] == [c] + [];
    assert Terminated([]) == "";
    assert Terminated([c]) == c + nl;
    TerminatedCons(b, [c]);
    assert [b, c] == [b] + [c];
    assert Terminated([b, c]) == b + nl + c + nl;
    TerminatedCons(a, [b, c]);
    assert [a, b, c] == [a] + [b, c];
  }

  lemma LinesOfTerminatedNil(rest: string)
    ensures Lines(Terminated([]) + rest) == [] + Lines(rest)
  {
    assert Terminated([]) + rest == rest;
    assert [] + Lines(rest) == Lines(rest);
  }

  lemma {:induction false} LinesOfTerminated(ls: seq<string>, rest: string)
    requires forall k :: 0 <= k < |ls| ==> NoLineBreak(ls[k])
    ensures Lines(Terminated(ls) + rest) == ls + Lines(rest)
    decreases |ls|
  {
    if ls != [] {
      LinesOfTerminatedStep(ls, rest);
      assert forall k :: 0 <= k < |ls[1..]| ==> NoLineBreak(ls[1..][k]) by {
        forall k | 0 <= k < |ls[1..]| ensures NoLineBreak(ls[1..][k]) { assert ls[1..][k] == ls[k + 1]; }
      }
      LinesOfTerminated(ls[1..], rest);
      var tailLines := Lines(rest);
      ConsAppend(ls, tailLines);
    } else {
      LinesOfTerminatedNil(rest);
    }
  }

  // ------------------------------------------------- to_lowercase + is_ascii

  /** KELVIN SIGN, the one non-ASCII character whose lower case is ASCII (`k`). */
  const KelvinSign: char := '\U{212A}'

  predicate IsAsciiChar(c: char) {
    c as int < 0x80
  }

  /** `str::is_ascii`. */
  predicate IsAscii(s: string) {
    forall i :: 0 <= i < |s| ==> IsAsciiChar(s[i])
  }

  lemma AsciiAppend(a: string, b: string)
    requires IsAscii(a) && IsAscii(b)
    ensures IsAscii(a + b)
  {
    forall i | 0 <= i < |a + b| ensures IsAsciiChar((a + b)[i]) {
      if i >= |a| { assert (a + b)[i] == b[i - |a|]; }
    }
  }

  lemma AsciiSlice(s: string, i: nat, j: nat)
    requires IsAscii(s) && i <= j <= |s|
    ensures IsAscii(s[i..j])
  {
    forall k | 0 <= k < j - i ensures IsAsciiChar(s[i..j][k]) { assert s[i..j][k] == s[i + k]; }
  }

  /** Lower case of one character, exact wherever the result is ASCII: ASCII
      upper-case letters and KELVIN SIGN map to ASCII letters, every other
      ASCII character is its own lower case, and every other non-ASCII
      character is kept (its lower case contains a non-ASCII character too). */
  function LowerChar(c: char): (r: char)
    ensures IsAsciiChar(r) <==> IsAsciiChar(c) || c == KelvinSign
    ensures !('A' <= r <= 'Z')
  {
    if 'A' <= c <= 'Z' then (c as int + 32) as char
    else if c == KelvinSign then 'k'
    else c
  }

  /** `str::to_lowercase`, character by character (see `LowerChar`). */
  function ToLowercase(s: string): (r: string)
    ensures |r| == |s|
    ensures forall i :: 0 <= i < |s| ==> r[i] == LowerChar(s[i])
  {
    seq(|s|, i requires 0 <= i < |s| => LowerChar(s[i]))
  }

  /** ASCII text with no upper-case letter. */
  predicate IsAsciiLower(s: string) {
    IsAscii(s) && forall i :: 0 <= i < |s| ==> !('A' <= s[i] <= 'Z')
  }

  // ----------------------------------------------------- Ord for String / str

  datatype Ordering = Less | Equal | Greater {
    function Reverse(): Ordering {
      match this
      case Less => Greater
      case Equal => Equal
      case Greater => Less
    }
  }

  /** `Ord::cmp` on strings: lexicographic by code point, which is the byte
      order of their UTF-8 encodings. */
  function Compare(a: string, b: string): Ordering
    decreases |a|
  {
    if a == [] then (if b == [] then Equal else Less)
    else if b == [] then Greater
    else if a[0] < b[0] then Less
    else if a[0] > b[0] then Greater
    else Compare(a[1..], b[1..])
  }

  predicate Below(a: string, b: string) { Compare(a, b) == Less }

  predicate AtMost(a: string, b: string) { Compare(a, b) != Greater }

  lemma {:induction false} CompareEqual(a: string, b: string)
    ensures Compare(a, b) == Equal <==> a == b
    decreases |a|
  {
    if a != [] && b != [] && a[0] == b[0] {
      CompareEqual(a[1..], b[1..]);
      assert a == [a[0]] + a[1..] && b == [b[0]] + b[1..];
    }
  }

  lemma {:induction false} CompareReverse(a: string, b: string)
    ensures Compare(b, a) == Compare(a, b).Reverse()
    decreases |a|
  {
    if a != [] && b != [] && a[0] == b[0] {
      CompareReverse(a[1..], b[1..]);
    }
  }

  lemma {:induction false} CompareTransitive(a: string, b: string, c: string)
    requires Compare(a, b) == Less && Compare(b, c) == Less
    ensures Compare(a, c) == Less
    decreases |a|
  {
    if a != [] && b != [] && c != [] && a[0] == b[0] && b[0] == c[0] {
      CompareTransitive(a[1..], b[1..], c[1..]);
    }
  }

  /** `AtMost` is a total preorder that only relates equal strings both ways. */
  lemma AtMostFacts(a: string, b: string, c: string)
    ensures AtMost(a, b) || AtMost(b, a)
    ensures AtMost(a, b) && AtMost(b, a) ==> a == b
    ensures AtMost(a, b) && AtMost(b, c) ==> AtMost(a, c)
    ensures Below(a, b) ==> a != b
    ensures AtMost(a, b) && Below(b, c) ==> Below(a, c)
    ensures Below(a, b) && AtMost(b, c) ==> Below(a, c)
  {
    CompareEqual(a, b);
    CompareEqual(b, c);
    CompareEqual(a, c);
    CompareReverse(a, b);
    if Below(a, b) && Below(b, c) { CompareTransitive(a, b, c); }
  }

  // ------------------------------------------------- UTF-8 byte offsets

  /** The number of bytes `c` takes in UTF-8. */
  function Utf8Width(c: char): (w: nat)
    ensures 1 <= w <= 4
    ensures w == 1 <==> IsAsciiChar(c)
  {
    if c as int < 0x80 then 1
    else if c as int < 0x800 then 2
    else if c as int < 0x10000 then 3
    else 4
  }

  /** The length of `s` in UTF-8 bytes, as Rust's `str::len`. */
  function ByteLength(s: string): nat {
    if s == [] then 0 else Utf8Width(s[0]) + ByteLength(s[1..])
  }

  /** The character index that starts at byte offset `b`, if `b` is a
      character boundary of `s` (`str::is_char_boundary`). */
  function CharIndexOfByte(s: string, b: nat): (r: Option<nat>)
    ensures r.Some? ==> r.value <= |s| && ByteLength(s[..r.value]) == b
  {
    if b == 0 then Some(0)
    else if s == [] then None
    else if b < Utf8Width(s[0]) then None
    else
      match CharIndexOfByte(s[1..], b - Utf8Width(s[0]))
      case None => None
      case Some(k) =>
        assert s[..k + 1][1..] == s[1..][..k];
        Some(k + 1)
  }

  lemma {:induction false} ByteLengthMonotone(s: string, i: nat, j: nat)
    requires i <= j <= |s|
    ensures ByteLength(s[..i]) <= ByteLength(s[..j])
    decreases i
  {
    if i > 0 {
      assert s[..i][1..] == s[1..][..i - 1];
      assert s[..j][1..] == s[1..][..j - 1];
      ByteLengthMonotone(s[1..], i - 1, j - 1);
    }
  }

  /** `&s[lo..hi]` on byte offsets: `None` where Rust panics, i.e. when
      `lo > hi`, `hi > s.len()` or either offset is not a character boundary. */
  function ByteSlice(s: string, lo: nat, hi: nat): (r: Option<string>)
  {
    if lo > hi then None
    else
      match (CharIndexOfByte(s, lo), CharIndexOfByte(s, hi))
      case (Some(i), Some(j)) =>
        if i <= j then Some(s[i..j])
        else
          ByteLengthMonotone(s, j, i);
          assert false;
          None
      case _ => None
  }

  /** On ASCII text byte offsets are character indices. */
  lemma {:induction false} AsciiCharIndex(s: string, b: nat)
    requires IsAscii(s)
    ensures CharIndexOfByte(s, b) == if b <= |s| then Some(b) else None
    decreases |s|
  {
    if b != 0 && s != [] {
      assert IsAscii(s[1..]) by {
        forall i | 0 <= i < |s| - 1 ensures IsAsciiChar(s[1..][i]) { assert s[1..][i] == s[i + 1]; }
      }
      assert IsAsciiChar(s[0]);
      AsciiCharIndex(s[1..], b - 1);
    }
  }

  lemma AsciiByteSlice(s: string, lo: nat, hi: nat)
    requires IsAscii(s)
    ensures ByteSlice(s, lo, hi) == if lo <= hi <= |s| then Some(s[lo..hi]) else None
  {
    AsciiCharIndex(s, lo);
    AsciiCharIndex(s, hi);
  }

  lemma {:induction false} AsciiByteLength(s: string)
    requires IsAscii(s)
    ensures ByteLength(s) == |s|
    decreases |s|
  {
    if s != [] {
      assert IsAscii(s[1..]) by {
        forall i | 0 <= i < |s| - 1 ensures IsAsciiChar(s[1..][i]) { assert s[1..][i] == s[i + 1]; }
      }
      assert IsAsciiChar(s[0]);
      AsciiByteLength(s[1..]);
    }
  }
}
