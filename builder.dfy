/** `ZettelBuilder` (emergence_zk/src/zettel/builder.rs): a new note put
    together field by field, then written to its own new file and recorded
    in the store. */
module Builder {
  import opened Errors
  import opened Text
  import opened Paths
  import Id
  import Tags
  import Chrono
  import FM = ZettelFrontMatter
  import Zettels
  import Fs
  import Store

  /** What `build` writes: `writeln!` of the header, then `writeln!` of the body. */
  function WrittenText(fm: FM.FrontMatter, content: string): (r: string) {
    FM.Rendered(fm) + "\n" + content + "\n"
  }

  /** The written file reads back as the header, with the date cut to whole
      seconds, and a body that is the note's content after one empty line,
      the line the first `writeln!` adds after the header. */
  lemma WrittenReadBack(fm: FM.FrontMatter, content: string)
    requires FM.RoundTrips(fm) && '\r' !in content
    ensures FM.Extract(WrittenText(fm, content))
      == Ok((fm.(createdAt := Chrono.WholeSeconds(fm.createdAt)), "\n" + content))
  {
    var rest := "\n" + content + "\n";
    var text := WrittenText(fm, content);
    assert text == FM.Rendered(fm) + rest;
    FM.RenderedLines(fm, rest);
    var tail := Lines(content + "\n");
    EmptyLineFirst(content);
    FM.ExtractHeaderLines(fm, [""] + tail);
    assert FM.Extract(text) == FM.ExtractLines(FM.HeaderLines(fm) + ([""] + tail));
  }

  /** The text after a header written by `writeln!`: an empty line, then
      the content's lines, which join back to a line break and the content. */
  lemma EmptyLineFirst(content: string)
    requires '\r' !in content
    ensures Lines("\n" + content + "\n") == [""] + Lines(content + "\n")
    ensures Join([""] + Lines(content + "\n"), "\n") == "\n" + content
  {
    assert "\n" + content + "\n" == "" + "\n" + (content + "\n");
    LinesCons("", content + "\n");
    JoinWrittenLine(content);
    var tail := Lines(content + "\n");
    var more := [""] + tail;
    assert more[1..] == tail;
  }

  class ZettelBuilder {
    var inner: Zettels.Zettel

    /** `ZettelBuilder::new`: a generated id (the `picks` stand for the
        random generator), the path `root/(id + ".md")`, an empty title
        dated `now`, and no tags, links or content. */
    constructor (root: PathBuf, picks: seq<nat>, now: Chrono.NaiveDateTime)
      requires |picks| == 5 && forall i :: 0 <= i < 5 ==> picks[i] < |Id.Alphabet|
      ensures Id.IsDefaultShape(inner.id) && inner.id == Id.Default(picks)
      ensures inner.path == Id.NotePath(root, inner.id)
      ensures Id.FromPath(inner.path) == Ok(inner.id)
      ensures FileName(inner.path) == Some(FromStr(inner.id.s + ".md"))
      ensures inner.frontMatter == FM.FrontMatter("", now, [])
      ensures inner.tags == [] && inner.links == [] && inner.content == ""
    {
      var id := Id.Default(picks);
      Id.DefaultShapeNamesFile(id);
      Id.FromNotePath(root, id);
      inner := Zettels.Zettel(Id.NotePath(root, id), id, FM.FrontMatter("", now, []), [], [], "");
    }

    /** `name`: only the title changes. */
    method Name(name: string)
      modifies this
      ensures inner == old(inner).(frontMatter := old(inner).frontMatter.(title := name))
    {
      inner := inner.(frontMatter := inner.frontMatter.(title := name));
    }

    /** `add_tag`: the tag is appended to the note's tags only; the header's
        tag names stay as they are. */
    method AddTag(tag: Tags.Tag)
      modifies this
      ensures inner == old(inner).(tags := old(inner).tags + [tag])
    {
      inner := inner.(tags := inner.tags + [tag]);
    }

    /** `content`: the body is replaced wholesale. */
    method Content(content: string)
      modifies this
      ensures inner == old(inner).(content := content)
    {
      inner := inner.(content := content);
    }

    /** `with_title`: `name`, returning the builder. */
    method WithTitle(name: string) returns (b: ZettelBuilder)
      modifies this
      ensures b == this
      ensures inner == old(inner).(frontMatter := old(inner).frontMatter.(title := name))
    {
      Name(name);
      b := this;
    }

    /** `with_additional_tag`: `add_tag`, returning the builder. */
    method WithAdditionalTag(tag: Tags.Tag) returns (b: ZettelBuilder)
      modifies this
      ensures b == this
      ensures inner == old(inner).(tags := old(inner).tags + [tag])
    {
      AddTag(tag);
      b := this;
    }

    /** `with_content`: `content`, returning the builder. */
    method WithContent(content: string) returns (b: ZettelBuilder)
      modifies this
      ensures b == this
      ensures inner == old(inner).(content := content)
    {
      Content(content);
      b := this;
    }

    /** `build`: the creation date becomes `now`; the note is written to a
        new file at its path (an existing file or a refused path is a
        `FileError` and stops the build), then its id and title are recorded in the store (an id
        already there is a `DbError`, the file staying written). */
    method Build(fs: Fs.FileSystem, db: Store.Db, now: Chrono.NaiveDateTime) returns (r: Result<Zettels.Zettel>)
      requires db.Valid()
      modifies this, fs, db
      ensures db.Valid()
      ensures inner == old(inner).(frontMatter := old(inner).frontMatter.(createdAt := now))
      ensures old(inner).path in old(fs.files) || old(inner).path in old(fs.refused) ==>
        r == Err(FileError(Fs.IoFailure)) && fs.files == old(fs.files) && db.zettels == old(db.zettels)
      ensures old(inner).path !in old(fs.files) && old(inner).path !in old(fs.refused) ==>
        fs.files == old(fs.files)[inner.path := Fs.Text(WrittenText(inner.frontMatter, inner.content))]
      ensures old(inner).path !in old(fs.files) && old(inner).path !in old(fs.refused) ==>
        (r.Ok? <==> inner.id.s !in old(db.zettels))
      ensures old(inner).path !in old(fs.files) && old(inner).path !in old(fs.refused) && r.Err? ==>
        r.error == DbError(Store.SqlFailure) && db.zettels == old(db.zettels)
      ensures r.Ok? ==> r.value == inner && db.zettels == old(db.zettels)[inner.id.s := inner.frontMatter.title]
      ensures r.Ok? && FM.RoundTrips(inner.frontMatter) && '\r' !in inner.content ==>
        FM.ExtractFromFile(fs, inner.path)
          == Ok((inner.frontMatter.(createdAt := Chrono.WholeSeconds(now)), "\n" + inner.content))
      ensures db.tags == old(db.tags) && db.assoc == old(db.assoc)
      ensures fs.canonical == old(fs.canonical) && fs.listings == old(fs.listings) && fs.refused == old(fs.refused)
    {
      inner := inner.(frontMatter := inner.frontMatter.(createdAt := now));
      var text := WrittenText(inner.frontMatter, inner.content);
      var created := fs.CreateNew(inner.path, text);
      if created.Err? {
        return Err(created.error);
      }
      var recorded := db.InsertZettel(inner.id.s, inner.frontMatter.title);
      if recorded.Err? {
        return Err(recorded.error);
      }
      if FM.RoundTrips(inner.frontMatter) && '\r' !in inner.content {
        WrittenReadBack(inner.frontMatter, inner.content);
      }
      r := Ok(inner);
    }
  }
}
