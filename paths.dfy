/** The part of `std::path` (Unix flavour) that the note library uses: a path
    as its components, `push`, `file_name`, `extension`, and the conversion of
    an `OsStr` to `str`. */
module Paths {
  import opened Errors
  import opened Text

  newtype byte = b: int | 0 <= b < 256

  /** One unit of an `OsStr`: a character, or a byte that is not part of
      well-formed UTF-8 (such a byte is never `/` or `.`). */
  datatype OsUnit = Char(c: char) | Byte(b: byte)

  type OsStr = seq<OsUnit>

  function FromStr(s: string): (o: OsStr)
    ensures |o| == |s|
    ensures forall i :: 0 <= i < |s| ==> o[i] == Char(s[i])
  {
    seq(|s|, i requires 0 <= i < |s| => Char(s[i]))
  }

  /** `OsStr::to_str`: `Some` exactly when every unit is a character. */
  function ToStr(o: OsStr): (r: Option<string>)
    ensures r.Some? <==> forall i :: 0 <= i < |o| ==> o[i].Char?
    ensures r.Some? ==> FromStr(r.value) == o
  {
    if forall i :: 0 <= i < |o| ==> o[i].Char? then
      Some(seq(|o|, i requires 0 <= i < |o| => o[i].c))
    else None
  }

  lemma ToStrFromStr(s: string)
    ensures ToStr(FromStr(s)) == Some(s)
  {
    var r := ToStr(FromStr(s));
    assert r.value == s;
  }

  lemma FromStrAppend(a: string, b: string)
    ensures FromStr(a + b) == FromStr(a) + FromStr(b)
  {
  }

  const Slash: OsUnit := Char('/')
  const Dot: OsUnit := Char('.')

  // --------------------------------------------------------------- components

  /** A component as `Path::components` yields it. `Normal` names are
      nonempty and contain no `/`, and are neither `.` nor `..`. */
  datatype Component = CurDir | ParentDir | Normal(name: OsStr)

  /** A path, identified with its components as `PartialEq for Path` does;
      `absolute` stands for a leading `RootDir`. */
  datatype Path = Path(absolute: bool, comps: seq<Component>)

  predicate IsNormalName(name: OsStr) {
    name != [] && Slash !in name && name != [Dot] && name != [Dot, Dot]
  }

  predicate WellFormed(p: Path) {
    forall i :: 0 <= i < |p.comps| ==>
      match p.comps[i]
      case Normal(n) => IsNormalName(n)
      case CurDir => i == 0 && !p.absolute
      case ParentDir => true
  }

  /** A path whose components are as `Path::components` yields them. */
  type PathBuf = p: Path | WellFormed(p) witness Path(false, [])

  /** The index of the first `/`, or `|s|`. */
  function SlashIndex(s: OsStr): (i: nat)
    ensures i <= |s|
    ensures i < |s| ==> s[i] == Slash
    ensures forall j :: 0 <= j < i ==> s[j] != Slash
  {
    if s == [] then 0 else if s[0] == Slash then 0 else 1 + SlashIndex(s[1..])
  }

  /** The components of a relative run of text, with empty parts and `.`
      dropped and `..` kept as `ParentDir`. */
  function Parts(s: OsStr): (r: seq<Component>)
    ensures forall i :: 0 <= i < |r| ==> r[i] != CurDir && (r[i].Normal? ==> IsNormalName(r[i].name))
    decreases |s|
  {
    if s == [] then []
    else
      var i := SlashIndex(s);
      var part := s[..i];
      var here :=
        if part == [] || part == [Dot] then []
        else if part == [Dot, Dot] then [ParentDir]
        else [Normal(part)];
      here + (if i == |s| then [] else Parts(s[i + 1..]))
  }

  /** `Path::new(s)` seen through its components: a leading `/` makes it
      absolute, and a relative path that starts with `.` followed by `/` or
      the end keeps a leading `CurDir`. */
  function Parse(s: OsStr): (p: PathBuf)
  {
    if s != [] && s[0] == Slash then Path(true, Parts(s))
    else if s == [Dot] || (|s| >= 2 && s[0] == Dot && s[1] == Slash) then Path(false, [CurDir] + Parts(s))
    else Path(false, Parts(s))
  }

  /** `PathBuf::push(s)`: an absolute `s` replaces the path; otherwise its
      components are appended (a leading `CurDir` of `s` only survives on an
      empty path). */
  function Push(p: PathBuf, s: OsStr): (r: PathBuf)
    ensures Parse(s).absolute ==> r == Parse(s)
    ensures !Parse(s).absolute ==> r.absolute == p.absolute && p.comps <= r.comps
  {
    var q := Parse(s);
    if q.absolute then q
    else if !p.absolute && p.comps == [] then q
    else
      var tail := if q.comps != [] && q.comps[0] == CurDir then q.comps[1..] else q.comps;
      var r := Path(p.absolute, p.comps + tail);
      assert forall i :: |p.comps| <= i < |r.comps| ==> r.comps[i] == tail[i - |p.comps|];
      var b: PathBuf := r;
      b
  }

  function PushStr(p: PathBuf, s: string): (r: PathBuf)
  {
    Push(p, FromStr(s))
  }

  // ---------------------------------------------------- file name, extension

  /** `Path::file_name`: the last component when it is a normal one. */
  function FileName(p: Path): (r: Option<OsStr>)
    ensures r.Some? <==> p.comps != [] && p.comps[|p.comps| - 1].Normal?
  {
    if p.comps != [] && p.comps[|p.comps| - 1].Normal? then Some(p.comps[|p.comps| - 1].name)
    else None
  }

  /** The index of the last `.` of `name`, if it has one. */
  function LastDot(name: OsStr): (r: Option<nat>)
    ensures r.Some? ==>
      && r.value < |name| && name[r.value] == Dot
      && forall j :: r.value < j < |name| ==> name[j] != Dot
    ensures r.None? ==> Dot !in name
  {
    if name == [] then None
    else if name[|name| - 1] == Dot then Some(|name| - 1)
    else LastDot(name[..|name| - 1])
  }

  /** `Path::extension` of a file name: the text after the last `.`, unless
      there is no dot, the only dot leads the name, or the name is `..`. */
  function NameExtension(name: OsStr): (r: Option<OsStr>)
    ensures r.Some? ==> exists k :: 0 < k < |name| && name[k] == Dot && name[k + 1..] == r.value && Dot !in r.value
    ensures r.None? ==> name == [Dot, Dot] || Dot !in name || (name[0] == Dot && Dot !in name[1..])
  {
    if name == [Dot, Dot] then None
    else match LastDot(name)
      case None => None
      case Some(k) =>
        if k == 0 then None
        else
          Some(name[k + 1..])
  }

  function Extension(p: Path): (r: Option<OsStr>)
    ensures FileName(p).None? ==> r.None?
  {
    match FileName(p)
    case None => None
    case Some(name) => NameExtension(name)
  }

  // -------------------------------------------------------------- properties

  /** A name without `/` parses into exactly one normal component. */
  lemma PartsOfName(name: OsStr)
    requires IsNormalName(name)
    ensures Parts(name) == [Normal(name)]
  {
    assert SlashIndex(name) == |name|;
    assert name[..|name|] == name;
  }

  /** Pushing a plain file name onto a path appends it as the last component,
      so it becomes the file name. */
  lemma PushName(p: PathBuf, name: OsStr)
    requires IsNormalName(name)
    ensures Push(p, name) == Path(p.absolute, p.comps + [Normal(name)])
    ensures FileName(Push(p, name)) == Some(name)
  {
    PartsOfName(name);
  }

  /** The extension of `stem + ".md"` is `md` for any nonempty stem. */
  lemma ExtensionOfMd(stem: OsStr)
    requires stem != []
    ensures NameExtension(stem + FromStr(".md")) == Some(FromStr("md"))
  {
    var name := stem + FromStr(".md");
    assert name[|name| - 3] == Dot;
    assert LastDot(name) == Some(|name| - 3) by {
      assert name[|name| - 1] != Dot && name[|name| - 2] != Dot;
      assert name[..|name| - 1][..|name| - 2] == name[..|name| - 2];
    }
    assert name[|name| - 1] == Char('d');
    assert name[|name| - 2..] == FromStr("md");
  }

  /** A file name ends with a dot and its extension. */
  lemma NameExtensionSuffix(name: OsStr)
    requires NameExtension(name).Some?
    ensures var ext := NameExtension(name).value;
      |ext| + 1 <= |name| && name[|name| - |ext| - 1..] == [Dot] + ext
  {
    var ext := NameExtension(name).value;
    var k :| 0 < k < |name| && name[k] == Dot && name[k + 1..] == ext && Dot !in ext;
    assert name[k..] == [Dot] + ext;
  }

  /** A text whose units end with those of `t` ends with `t`. */
  lemma FromStrEndsWith(s: string, t: string)
    requires |t| <= |s| && FromStr(s)[|s| - |t|..] == FromStr(t)
    ensures EndsWith(s, t)
  {
    forall i | 0 <= i < |t| ensures s[|s| - |t| + i] == t[i] {
      assert FromStr(s)[|s| - |t|..][i] == FromStr(t)[i];
    }
  }

  /** A text file name whose extension is `md` ends with `.md`. */
  lemma MdNameEndsWith(s: string)
    requires NameExtension(FromStr(s)) == Some(FromStr("md"))
    ensures EndsWith(s, ".md")
  {
    var name := FromStr(s);
    NameExtensionSuffix(name);
    assert |s| >= 3;
    assert name[|s| - 3] == Dot;
    assert name[|s| - 2] == Char('m') && name[|s| - 1] == Char('d');
    assert s[|s| - 3..] == ".md";
  }
}
