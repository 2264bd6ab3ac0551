/** `ZettelId` (emergence_zk/src/id.rs): a note's identifier, the stem of its
    `.md` file name. */
module Id {
  import opened Errors
  import opened Text
  import opened Paths

  datatype ZettelId = ZettelId(s: string) {
    /** `as_str`. */
    function AsStr(): (r: string)
      ensures r == s
    {
      s
    }

    /** `Display`: writes exactly the wrapped string. */
    function Display(): (r: string)
      ensures r == AsStr()
    {
      s
    }
  }

  /** `From<&str>`. */
  function FromText(value: string): (id: ZettelId)
    ensures id.AsStr() == value
  {
    ZettelId(value)
  }

  /** The 36 symbols of generated ids. */
  const Alphabet: string := "abcdefghijklmnopqrstuvwxyz0123456789"

  /** The shape of a generated id: five symbols of `Alphabet`. */
  predicate IsDefaultShape(id: ZettelId) {
    |id.s| == 5 && forall i :: 0 <= i < 5 ==> id.s[i] in Alphabet
  }

  /** `Default`: `nanoid!(5, &ALPHABET)`. The random generator is replaced by
      the five alphabet positions it picks. */
  function Default(picks: seq<nat>): (id: ZettelId)
    requires |picks| == 5 && forall i :: 0 <= i < 5 ==> picks[i] < |Alphabet|
    ensures IsDefaultShape(id)
    ensures id.s != [] && '/' !in id.s
  {
    var id := ZettelId(seq(5, i requires 0 <= i < 5 => Alphabet[picks[i]]));
    DefaultShapeNamesFile(id);
    id
  }

  const ExtensionMessage: string := "Unable to turn file extension into string"
  const FileNameMessage: string := "Invalid File Name!"
  const FileNameTextMessage: string := "File Name cannot be translated into str!"
  const SuffixMessage: string := "we statically verify this right above"

  function WrongExtensionMessage(ext: string): string {
    "Wrong extension: " + ext + ", expected .md"
  }

  /** `TryFrom<&Path>` (and `TryFrom<PathBuf>`, which borrows and calls it).
      The `expect` on `strip_suffix` is an abort, returned as `Panic`. */
  function FromPath(p: PathBuf): (r: Result<ZettelId>)
  {
    var extOs :- Extension(p).OkOr(ParseError(ExtensionMessage));
    var ext :- ToStr(extOs).OkOr(ParseError(ExtensionMessage));
    if ext != "md" then Err(ParseError(WrongExtensionMessage(ext)))
    else
      var nameOs :- FileName(p).OkOr(ParseError(FileNameMessage));
      var name :- ToStr(nameOs).OkOr(ParseError(FileNameTextMessage));
      var stem :- StripSuffix(name, ".md").OkOr(Panic(SuffixMessage));
      Ok(FromText(stem))
  }

  // -------------------------------------------------------------- properties

  /** A file name without an extension, or with one that is not text, is
      rejected with `ParseError`. */
  lemma NoExtensionRejected(p: PathBuf)
    requires Extension(p).None? || ToStr(Extension(p).value).None?
    ensures FromPath(p) == Err(ParseError(ExtensionMessage))
  {
  }

  /** The extension check is exact: any text extension other than `md`,
      `MD` included, is rejected with `ParseError` naming it. */
  lemma WrongExtensionRejected(p: PathBuf, ext: string)
    requires Extension(p) == Some(FromStr(ext)) && ext != "md"
    ensures FromPath(p) == Err(ParseError(WrongExtensionMessage(ext)))
  {
    ToStrFromStr(ext);
  }

  lemma UpperCaseRejected(p: PathBuf)
    requires Extension(p) == Some(FromStr("MD"))
    ensures FromPath(p).Err? && FromPath(p).error.ParseError?
  {
    WrongExtensionRejected(p, "MD");
  }

  /** The `expect` never fires: a name whose extension is `md` ends in `.md`. */
  lemma NeverPanics(p: PathBuf)
    ensures !(FromPath(p).Err? && FromPath(p).error.Panic?)
  {
    var e := Extension(p);
    if e.Some? && ToStr(e.value) == Some("md") && FileName(p).Some? && ToStr(FileName(p).value).Some? {
      MdNameReaches(p);
    }
  }

  /** The one path that reaches `strip_suffix` finds the suffix. */
  lemma MdNameReaches(p: PathBuf)
    requires Extension(p).Some? && ToStr(Extension(p).value) == Some("md")
    requires FileName(p).Some? && ToStr(FileName(p).value).Some?
    ensures FromPath(p) == Ok(FromText(StripSuffix(ToStr(FileName(p).value).value, ".md").value))
  {
    var t := ToStr(FileName(p).value).value;
    MdNameEndsWith(t);
    assert StripSuffix(t, ".md").Some?;
  }

  /** On success the id is the file name without its `.md`: appending `.md`
      to the id gives the file name back. */
  lemma IdIsStem(p: PathBuf)
    requires FromPath(p).Ok?
    ensures FileName(p) == Some(FromStr(FromPath(p).value.s + ".md"))
  {
    var name := ToStr(FileName(p).value).value;
    assert StripSuffix(name, ".md").value + ".md" == name;
  }

  /** A stored file name that is not text is rejected even with an `md`
      extension. */
  lemma RawFileNameRejected(p: PathBuf)
    requires Extension(p) == Some(FromStr("md"))
    requires ToStr(FileName(p).value).None?
    ensures FromPath(p) == Err(ParseError(FileNameTextMessage))
  {
    ToStrFromStr("md");
  }

  /** Only the last component matters: paths with the same file name give
      the same result, whatever their directories. */
  lemma OnlyFileNameMatters(p: PathBuf, q: PathBuf)
    requires FileName(p) == FileName(q)
    ensures FromPath(p) == FromPath(q)
  {
  }

  /** `root/(id + ".md")`, the path the builders give a note. */
  function NotePath(root: PathBuf, id: ZettelId): (p: PathBuf)
    requires id.s != [] && '/' !in id.s
    ensures FileName(p) == Some(FromStr(id.s + ".md"))
  {
    var name := FromStr(id.s + ".md");
    assert Slash !in name by {
      forall i | 0 <= i < |name| ensures name[i] != Slash {
        if i < |id.s| { assert name[i] == Char(id.s[i]); }
      }
    }
    assert name != [Dot] && name != [Dot, Dot] by { assert |name| > 3; }
    PushName(root, name);
    PushStr(root, id.s + ".md")
  }

  /** Round trip with the builders' path: deriving the id from
      `root/(id + ".md")` gives the id back. */
  lemma FromNotePath(root: PathBuf, id: ZettelId)
    requires id.s != [] && '/' !in id.s
    ensures FromPath(NotePath(root, id)) == Ok(id)
  {
    var p := NotePath(root, id);
    var name := id.s + ".md";
    FromStrAppend(id.s, ".md");
    ExtensionOfMd(FromStr(id.s));
    ToStrFromStr("md");
    ToStrFromStr(name);
    assert StripSuffix(name, ".md") == Some(id.s);
  }

  /** A generated id is a nonempty file stem without a separator. */
  lemma DefaultShapeNamesFile(id: ZettelId)
    requires IsDefaultShape(id)
    ensures id.s != [] && '/' !in id.s
  {
    assert '/' !in Alphabet;
    forall i | 0 <= i < 5 ensures id.s[i] != '/' { assert id.s[i] in Alphabet; }
  }

  /** Generated ids qualify for the round trip. */
  lemma DefaultRoundTrip(root: PathBuf, picks: seq<nat>)
    requires |picks| == 5 && forall i :: 0 <= i < 5 ==> picks[i] < |Alphabet|
    ensures FromPath(NotePath(root, Default(picks))) == Ok(Default(picks))
  {
    FromNotePath(root, Default(picks));
  }
}
