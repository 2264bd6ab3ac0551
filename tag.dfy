/** `Tag` (emergence_zk/src/tag.rs): a lower-case ASCII name and a colour. */
module Tags {
  import opened Errors
  import opened Text

  datatype Tag = Tag(name: string, color: string)

  const NotAsciiMessage: string := "Name isn't valid ascii!"

  /** `Tag::new`: lower-cases the name and refuses it unless it is ASCII; the
      colour is kept as given. */
  function New(name: string, color: string): (r: Result<Tag>)
    ensures r.Ok? ==> r.value == Tag(ToLowercase(name), color)
    ensures r.Err? ==> r.error == ParseError(NotAsciiMessage)
  {
    var lower := ToLowercase(name);
    if !IsAscii(lower) then Err(ParseError(NotAsciiMessage))
    else Ok(Tag(lower, color))
  }

  /** `Display`: the name and a line break; the colour is not written. */
  function Display(t: Tag): (r: string)
    ensures |r| == |t.name| + 1 && r[..|t.name|] == t.name && r[|t.name|] == '\n'
  {
    t.name + "\n"
  }

  /** The derived `Ord`: by name, then by colour. */
  function Cmp(a: Tag, b: Tag): (r: Ordering)
    ensures r == Equal <==> a == b
  {
    if a.name != b.name then
      CompareEqual(a.name, b.name);
      Compare(a.name, b.name)
    else
      CompareEqual(a.color, b.color);
      Compare(a.color, b.color)
  }

  // -------------------------------------------------------------- properties

  /** `Tag::new` accepts exactly the names whose every character is ASCII or
      the KELVIN SIGN (the one non-ASCII character whose lower case is ASCII). */
  lemma NewAccepts(name: string, color: string)
    ensures New(name, color).Ok? <==> forall i :: 0 <= i < |name| ==> IsAsciiChar(name[i]) || name[i] == KelvinSign
  {
    var lower := ToLowercase(name);
    if New(name, color).Ok? {
      forall i | 0 <= i < |name| ensures IsAsciiChar(name[i]) || name[i] == KelvinSign {
        assert IsAsciiChar(lower[i]);
      }
    }
  }

  /** Every constructed tag has an ASCII lower-case name. */
  lemma NewIsLower(name: string, color: string)
    requires New(name, color).Ok?
    ensures IsAsciiLower(New(name, color).value.name)
  {
  }

  /** Rebuilding a constructed tag from its own name and colour gives the same tag. */
  lemma NewIdempotent(name: string, color: string)
    requires New(name, color).Ok?
    ensures var t := New(name, color).value; New(t.name, t.color) == Ok(t)
  {
    NewOfLower(New(name, color).value);
  }

  /** A tag whose name is already ASCII lower case is rebuilt unchanged. */
  lemma NewOfLower(t: Tag)
    requires IsAsciiLower(t.name)
    ensures New(t.name, t.color) == Ok(t)
  {
    assert forall i :: 0 <= i < |t.name| ==> LowerChar(t.name[i]) == t.name[i];
    assert ToLowercase(t.name) == t.name;
  }

  /** Names are compared before colours. */
  lemma CmpByName(a: Tag, b: Tag)
    requires a.name != b.name
    ensures Cmp(a, b) == Compare(a.name, b.name)
  {
  }

  lemma CmpByColor(a: Tag, b: Tag)
    requires a.name == b.name
    ensures Cmp(a, b) == Compare(a.color, b.color)
  {
  }

  /** The order is antisymmetric. */
  lemma CmpReverse(a: Tag, b: Tag)
    ensures Cmp(b, a) == Cmp(a, b).Reverse()
  {
    CompareReverse(a.name, b.name);
    CompareReverse(a.color, b.color);
  }
}
