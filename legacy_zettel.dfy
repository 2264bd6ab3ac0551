/** The older note (emergence_zk/src/zettel.rs): a path, an id, a header of
    the older revision and a body, read from a file or built and written. */
module LegacyZettel {
  import opened Errors
  import opened Text
  import opened Paths
  import Id
  import Tags
  import Chrono
  import LFM = LegacyFrontMatter
  import Fs

  datatype Zettel = Zettel(path: PathBuf, id: Id.ZettelId, meta: LFM.FrontMatter, content: string)

  /** `TryFrom<&Path> for Zettel`: the header is read first, then the id is
      derived from the path; either failure is returned as it is. */
  function FromPath(fs: Fs.FileSystem, p: PathBuf): (r: Result<Zettel>)
    reads fs
    ensures LFM.ExtractFromFile(fs, p).Err? ==> r == Err(LFM.ExtractFromFile(fs, p).error)
    ensures LFM.ExtractFromFile(fs, p).Ok? && Id.FromPath(p).Err? ==> r == Err(Id.FromPath(p).error)
    ensures r.Ok? <==> LFM.ExtractFromFile(fs, p).Ok? && Id.FromPath(p).Ok?
    ensures r.Ok? ==>
      && r.value.path == p
      && r.value.id == Id.FromPath(p).value
      && (r.value.meta, r.value.content) == LFM.ExtractFromFile(fs, p).value
  {
    var (meta, content) :- LFM.ExtractFromFile(fs, p);
    var id :- Id.FromPath(p);
    Ok(Zettel(p, id, meta, content))
  }

  /** What `build` writes: `writeln!` of the header, then `writeln!` of the body. */
  function WrittenText(meta: LFM.FrontMatter, content: string): (r: string) {
    LFM.Rendered(meta) + "\n" + content + "\n"
  }

  /** A built note cannot be read back: the header it writes dates itself
      with the date's `Display`, which the date line's parser refuses. */
  lemma WrittenNotReadBack(meta: LFM.FrontMatter, content: string)
    requires NoLineBreak(meta.name)
    ensures LFM.Extract(WrittenText(meta, content)) == Err(ParseError(Chrono.ParseErrorText))
  {
    assert WrittenText(meta, content) == LFM.Rendered(meta) + ("\n" + content + "\n");
    LFM.RenderedNotReadBack(meta, "\n" + content + "\n");
  }

  /** The older `ZettelBuilder`. */
  class ZettelBuilder {
    var inner: Zettel

    /** `ZettelBuilder::new`: a generated id (the `picks` stand for the
        random generator), the path `root/(id + ".md")`, an empty name dated
        `now`, no tags and no content. */
    constructor (root: PathBuf, picks: seq<nat>, now: Chrono.NaiveDateTime)
      requires |picks| == 5 && forall i :: 0 <= i < 5 ==> picks[i] < |Id.Alphabet|
      ensures Id.IsDefaultShape(inner.id) && inner.id == Id.Default(picks)
      ensures inner.path == Id.NotePath(root, inner.id)
      ensures Id.FromPath(inner.path) == Ok(inner.id)
      ensures inner.meta == LFM.FrontMatter("", now, [])
      ensures inner.content == ""
    {
      var id := Id.Default(picks);
      Id.DefaultShapeNamesFile(id);
      Id.FromNotePath(root, id);
      inner := Zettel(Id.NotePath(root, id), id, LFM.FrontMatter("", now, []), "");
    }

    /** `name`: only the header's name changes. */
    method Name(name: string)
      modifies this
      ensures inner == old(inner).(meta := old(inner).meta.(name := name))
    {
      inner := inner.(meta := inner.meta.(name := name));
    }

    /** `add_tag`: the tag is appended to the header's tags, which are
        written out in this revision. */
    method AddTag(tag: Tags.Tag)
      modifies this
      ensures inner == old(inner).(meta := old(inner).meta.(tags := old(inner).meta.tags + [tag]))
    {
      inner := inner.(meta := inner.meta.(tags := inner.meta.tags + [tag]));
    }

    /** `content`: the body is replaced wholesale. */
    method Content(content: string)
      modifies this
      ensures inner == old(inner).(content := content)
    {
      inner := inner.(content := content);
    }

    /** `with_name`: `name`, returning the builder. */
    method WithName(name: string) returns (b: ZettelBuilder)
      modifies this
      ensures b == this
      ensures inner == old(inner).(meta := old(inner).meta.(name := name))
    {
      Name(name);
      b := this;
    }

    /** `with_additional_tag`: `add_tag`, returning the builder. */
    method WithAdditionalTag(tag: Tags.Tag) returns (b: ZettelBuilder)
      modifies this
      ensures b == this
      ensures inner == old(inner).(meta := old(inner).meta.(tags := old(inner).meta.tags + [tag]))
    {
      AddTag(tag);
      b := this;
    }

    /** `with_content`: `content`, returning the builder. */
    method WithContent(content: string) returns (b: ZettelBuilder)
      modifies this
      ensures b == this
      ensures inner == old(inner).(content := content)
    {
      Content(content);
      b := this;
    }

    /** `build`: the creation date becomes `now`, and the note is written to
        a new file at its path, header first; an existing file or a refused
        path is a `FileError`. */
    method Build(fs: Fs.FileSystem, now: Chrono.NaiveDateTime) returns (r: Result<Zettel>)
      modifies this, fs
      ensures inner == old(inner).(meta := old(inner).meta.(createdAt := now))
      ensures old(inner).path in old(fs.files) || old(inner).path in old(fs.refused) ==>
        r == Err(FileError(Fs.IoFailure)) && fs.files == old(fs.files)
      ensures old(inner).path !in old(fs.files) && old(inner).path !in old(fs.refused) ==>
        && r == Ok(inner)
        && fs.files == old(fs.files)[inner.path := Fs.Text(WrittenText(inner.meta, inner.content))]
      ensures r.Ok? && NoLineBreak(inner.meta.name) ==>
        LFM.ExtractFromFile(fs, inner.path) == Err(ParseError(Chrono.ParseErrorText))
      ensures fs.canonical == old(fs.canonical) && fs.listings == old(fs.listings) && fs.refused == old(fs.refused)
    {
      inner := inner.(meta := inner.meta.(createdAt := now));
      var created := fs.CreateNew(inner.path, WrittenText(inner.meta, inner.content));
      if created.Err? {
        return Err(created.error);
      }
      if NoLineBreak(inner.meta.name) {
        WrittenNotReadBack(inner.meta, inner.content);
      }
      r := Ok(inner);
    }
  }
}
