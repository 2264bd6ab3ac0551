/** A note (emergence_zk/src/zettel/mod.rs): the value, its text, the scan
    of its links, and its loading from disk, which brings the store in step
    with the note's header. */
module Zettels {
  import opened Errors
  import opened Text
  import opened Paths
  import Id
  import Tags
  import Links
  import Slices
  import FM = ZettelFrontMatter
  import Fs
  import Store
  import Chrono

  /** `Zettel`. */
  datatype Zettel = Zettel(
    path: PathBuf,
    id: Id.ZettelId,
    frontMatter: FM.FrontMatter,
    tags: seq<Tags.Tag>,
    links: seq<Links.Link>,
    content: string)

  /** `Zettel::new`: a note with no links yet. */
  function New(id: Id.ZettelId, path: PathBuf, frontMatter: FM.FrontMatter, tags: seq<Tags.Tag>, content: string): (z: Zettel)
    ensures z.links == []
    ensures z.id == id && z.path == path && z.frontMatter == frontMatter && z.tags == tags && z.content == content
  {
    Zettel(path, id, frontMatter, tags, [], content)
  }

  /** `Display for Zettel`: the header, then the body. */
  function Display(z: Zettel): (r: string) {
    FM.Rendered(z.frontMatter) + z.content
  }

  /** What `Display` writes is what the header parser reads: the header (with
      the date cut to whole seconds) and the body come back. */
  lemma DisplayReadBack(z: Zettel)
    requires FM.RoundTrips(z.frontMatter)
    requires '\r' !in z.content && (z.content == [] || z.content[|z.content| - 1] != '\n')
    ensures FM.Extract(Display(z))
      == Ok((z.frontMatter.(createdAt := Chrono.WholeSeconds(z.frontMatter.createdAt)), z.content))
  {
    FM.ExtractRendered(z.frontMatter, z.content);
  }

  // ------------------------------------------------------------------ links

  /** `strip_prefix("./").unwrap_or(dest_url)`. */
  function WithoutDotSlash(url: string): (r: string) {
    match StripPrefix(url, "./") case Some(rest) => rest case None => url
  }

  /** `split('#').next().unwrap()`: everything before the first `#`. */
  function WithoutAnchor(s: string): (r: string)
    ensures '#' !in r && r <= s
    ensures '#' !in s ==> r == s
  {
    s[..IndexOf(s, '#')]
  }

  /** The target with `.md` added unless it already ends with it. */
  function WithMd(s: string): (r: string)
    ensures EndsWith(r, ".md")
    ensures EndsWith(s, ".md") ==> r == s
    ensures !EndsWith(s, ".md") ==> r == s + ".md"
    ensures '#' !in s ==> '#' !in r
  {
    if EndsWith(s, ".md") then s
    else
      var r := s + ".md";
      assert r[|r| - 3..] == ".md";
      r
  }

  /** The normalisation of a link's `dest_url`: one leading `./` removed,
      the first `#` and all after it removed, `.md` added unless present. */
  function NormalizedTarget(url: string): (r: string)
    ensures EndsWith(r, ".md")
    ensures '#' !in r
  {
    WithMd(WithoutAnchor(WithoutDotSlash(url)))
  }

  /** The path a link points at: the normalised target under the root. */
  function Target(root: PathBuf, url: string): (p: PathBuf) {
    PushStr(root, NormalizedTarget(url))
  }

  lemma CutAnchor(name: string, anchor: string)
    requires '#' !in name
    requires anchor == [] || anchor[0] == '#'
    ensures WithoutAnchor(name + anchor) == name
  {
    IndexOfAppend(name, anchor, '#');
    assert (name + anchor)[..|name|] == name;
  }

  /** A target that does not start with `./` is kept. */
  lemma NoDotSlash(s: string)
    requires !(|s| >= 2 && s[..2] == "./")
    ensures WithoutDotSlash(s) == s
  {
  }

  lemma DotSlash(s: string)
    ensures WithoutDotSlash("./" + s) == s
  {
    assert ("./" + s)[2..] == s;
  }

  /** A target `name` with an anchor, `name` already ending in `.md`,
      loses only the anchor. */
  lemma NormalizedPlain(name: string, anchor: string)
    requires '#' !in name && '/' !in name && |name| >= 2 && EndsWith(name, ".md")
    requires anchor == [] || anchor[0] == '#'
    ensures NormalizedTarget(name + anchor) == name
  {
    var url := name + anchor;
    assert url[1] == name[1] && name[1] in name;
    NoDotSlash(url);
    CutAnchor(name, anchor);
  }

  /** The same target written `./name` loses the `./` as well. */
  lemma NormalizedDotSlash(name: string, anchor: string)
    requires '#' !in name && EndsWith(name, ".md")
    requires anchor == [] || anchor[0] == '#'
    ensures NormalizedTarget("./" + name + anchor) == name
  {
    AppendAssoc("./", name, anchor);
    DotSlash(name + anchor);
    CutAnchor(name, anchor);
  }

  /** A link written `id.md` or `./id.md`, either with an anchor, is
      normalised to `id.md`. */
  lemma NormalizedNoteLink(id: Id.ZettelId, anchor: string)
    requires '/' !in id.s && '#' !in id.s
    requires anchor == [] || anchor[0] == '#'
    ensures NormalizedTarget(id.s + ".md" + anchor) == id.s + ".md"
    ensures NormalizedTarget("./" + id.s + ".md" + anchor) == id.s + ".md"
  {
    var name := id.s + ".md";
    assert '#' !in name && '/' !in name;
    assert EndsWith(name, ".md") by { assert name[|name| - 3..] == ".md"; }
    NormalizedPlain(name, anchor);
    NormalizedDotSlash(name, anchor);
    AppendAssoc("./", id.s, ".md");
  }

  /** A link `id.md` or `./id.md` points at the note's own path. */
  lemma NoteLinkTarget(root: PathBuf, id: Id.ZettelId, anchor: string)
    requires id.s != [] && '/' !in id.s && '#' !in id.s
    requires anchor == [] || anchor[0] == '#'
    ensures Target(root, id.s + ".md" + anchor) == Id.NotePath(root, id)
    ensures Target(root, "./" + id.s + ".md" + anchor) == Id.NotePath(root, id)
  {
    NormalizedNoteLink(id, anchor);
  }

  /** How the scan looks a target up: the canonical form of the path the
      target points at, when that path resolves. */
  function Resolver(root: PathBuf, canonical: map<Path, PathBuf>): string -> Option<PathBuf> {
    url => var t := Target(root, url); if t in canonical then Some(canonical[t]) else None
  }

  /** What the link scan returns for the targets `dests`, in scan order,
      given how targets resolve and how a resolved path becomes an id. */
  function LinksSpec(src: Id.ZettelId, dests: seq<string>, resolve: string -> Option<PathBuf>,
                     toId: PathBuf -> Result<Id.ZettelId>): (r: Result<seq<Links.Link>>)
    decreases |dests|
  {
    if dests == [] then Ok([])
    else
      match resolve(dests[0])
      case None => LinksSpec(src, dests[1..], resolve, toId)
      case Some(canon) =>
        match toId(canon)
        case Err(e) => Err(e)
        case Ok(dst) =>
          match LinksSpec(src, dests[1..], resolve, toId)
          case Err(e) => Err(e)
          case Ok(rest) => Ok([Links.Link(src, dst)] + rest)
  }

  /** The resolved forms of the targets that resolve, in scan order. */
  function Resolved(dests: seq<string>, resolve: string -> Option<PathBuf>): (r: seq<PathBuf>)
    ensures |r| <= |dests|
    decreases |dests|
  {
    if dests == [] then []
    else
      (match resolve(dests[0]) case Some(canon) => [canon] case None => []) + Resolved(dests[1..], resolve)
  }

  /** Every path converts to an id. */
  predicate AllConvert(paths: seq<PathBuf>, toId: PathBuf -> Result<Id.ZettelId>) {
    forall k :: 0 <= k < |paths| ==> toId(paths[k]).Ok?
  }

  /** `links` has one link per path, from `src` to the path's id. */
  predicate LinkedTo(links: seq<Links.Link>, src: Id.ZettelId, paths: seq<PathBuf>, toId: PathBuf -> Result<Id.ZettelId>)
    requires AllConvert(paths, toId)
  {
    |links| == |paths| && forall k :: 0 <= k < |paths| ==> links[k] == Links.Link(src, toId(paths[k]).value)
  }

  /** The scan succeeds when every resolved target names a note, and then
      yields one link per resolved target, in order, from `src` to that note. */
  lemma {:induction false} LinksOfResolved(src: Id.ZettelId, dests: seq<string>, resolve: string -> Option<PathBuf>,
                                           toId: PathBuf -> Result<Id.ZettelId>)
    ensures var res := Resolved(dests, resolve);
      var r := LinksSpec(src, dests, resolve, toId);
      && (r.Ok? <==> AllConvert(res, toId))
      && (r.Ok? ==> LinkedTo(r.value, src, res, toId))
    decreases |dests|
  {
    if dests != [] {
      LinksOfResolved(src, dests[1..], resolve, toId);
      var res := Resolved(dests, resolve);
      var tail := Resolved(dests[1..], resolve);
      if resolve(dests[0]).None? {
        assert res == tail;
        assert LinksSpec(src, dests, resolve, toId) == LinksSpec(src, dests[1..], resolve, toId);
      } else {
        var canon := resolve(dests[0]).value;
        assert res == [canon] + tail;
        assert forall k :: 0 <= k < |tail| ==> res[k + 1] == tail[k];
        if toId(canon).Ok? {
          if AllConvert(tail, toId) {
            forall k | 0 <= k < |res| ensures toId(res[k]).Ok? {
              if k > 0 { assert res[k] == tail[k - 1]; }
            }
          }
        } else {
          assert !toId(res[0]).Ok?;
        }
      }
    }
  }

  /** Converting `paths[k]` fails with `e`, and converting each path before it succeeds. */
  predicate FirstFailure(paths: seq<PathBuf>, toId: PathBuf -> Result<Id.ZettelId>, k: nat, e: ZkError) {
    k < |paths| && toId(paths[k]) == Err(e) && forall j :: 0 <= j < k ==> toId(paths[j]).Ok?
  }

  /** A failing id conversion aborts the scan with the first such failure. */
  lemma {:induction false} LinksFirstError(src: Id.ZettelId, dests: seq<string>, resolve: string -> Option<PathBuf>,
                                           toId: PathBuf -> Result<Id.ZettelId>)
    requires LinksSpec(src, dests, resolve, toId).Err?
    ensures exists k :: FirstFailure(Resolved(dests, resolve), toId, k, LinksSpec(src, dests, resolve, toId).error)
    decreases |dests|
  {
    var res := Resolved(dests, resolve);
    var tail := Resolved(dests[1..], resolve);
    var e := LinksSpec(src, dests, resolve, toId).error;
    if resolve(dests[0]).None? {
      assert res == tail;
      LinksFirstError(src, dests[1..], resolve, toId);
      var k: nat :| FirstFailure(tail, toId, k, e);
      assert FirstFailure(res, toId, k, e);
    } else {
      var canon := resolve(dests[0]).value;
      assert res == [canon] + tail;
      if toId(canon).Err? {
        assert LinksSpec(src, dests, resolve, toId) == Err(toId(canon).error);
        assert res[0] == canon;
        assert FirstFailure(res, toId, 0, e);
      } else {
        LinksFirstError(src, dests[1..], resolve, toId);
        assert LinksSpec(src, dests, resolve, toId) == LinksSpec(src, dests[1..], resolve, toId);
        var k: nat :| FirstFailure(tail, toId, k, e);
        assert res[k + 1] == tail[k];
        forall j | 0 <= j < k + 1 ensures toId(res[j]).Ok? {
          if j > 0 { assert res[j] == tail[j - 1]; }
        }
        assert FirstFailure(res, toId, k + 1, e);
      }
    }
  }

  /** Every link comes from `src`, and there are at most as many links as targets. */
  lemma LinksFromSource(src: Id.ZettelId, dests: seq<string>, resolve: string -> Option<PathBuf>,
                        toId: PathBuf -> Result<Id.ZettelId>)
    requires LinksSpec(src, dests, resolve, toId).Ok?
    ensures var links := LinksSpec(src, dests, resolve, toId).value;
      |links| <= |dests| && forall k :: 0 <= k < |links| ==> links[k].source == src
  {
    LinksOfResolved(src, dests, resolve, toId);
  }

  /** A target that does not resolve adds nothing. */
  lemma UnresolvedSkipped(src: Id.ZettelId, url: string, rest: seq<string>, resolve: string -> Option<PathBuf>,
                          toId: PathBuf -> Result<Id.ZettelId>)
    requires resolve(url).None?
    ensures LinksSpec(src, [url] + rest, resolve, toId) == LinksSpec(src, rest, resolve, toId)
  {
    assert ([url] + rest)[1..] == rest;
  }

  /** A link `id.md` to a note whose path is its own canonical form yields
      exactly the link from `src` to `id`. */
  lemma LinkToNote(src: Id.ZettelId, root: PathBuf, id: Id.ZettelId, canonical: map<Path, PathBuf>)
    requires id.s != [] && '/' !in id.s && '#' !in id.s
    requires Id.NotePath(root, id) in canonical && canonical[Id.NotePath(root, id)] == Id.NotePath(root, id)
    ensures LinksSpec(src, [id.s + ".md"], Resolver(root, canonical), Id.FromPath) == Ok([Links.Link(src, id)])
  {
    var url := id.s + ".md";
    var resolve := Resolver(root, canonical);
    assert resolve(url) == Some(Id.NotePath(root, id)) by {
      NoteLinkTarget(root, id, "");
      assert url + "" == url;
    }
    assert Id.FromPath(Id.NotePath(root, id)) == Ok(id) by {
      Id.FromNotePath(root, id);
    }
    LinksSingle(src, url, resolve, Id.FromPath, Id.NotePath(root, id), id);
  }

  lemma LinksSingle(src: Id.ZettelId, url: string, resolve: string -> Option<PathBuf>,
                    toId: PathBuf -> Result<Id.ZettelId>, canon: PathBuf, dst: Id.ZettelId)
    requires resolve(url) == Some(canon) && toId(canon) == Ok(dst)
    ensures LinksSpec(src, [url], resolve, toId) == Ok([Links.Link(src, dst)])
  {
    assert [url][0] == url && [url][1..] == [];
    assert LinksSpec(src, [], resolve, toId) == Ok([]);
    assert [Links.Link(src, dst)] + [] == [Links.Link(src, dst)];
  }

  /** `links` put in front of what `r` holds. */
  function Prepend(links: seq<Links.Link>, r: Result<seq<Links.Link>>): Result<seq<Links.Link>> {
    match r
    case Ok(v) => Ok(links + v)
    case Err(e) => Err(e)
  }

  lemma PrependPrepend(a: seq<Links.Link>, b: seq<Links.Link>, r: Result<seq<Links.Link>>)
    ensures Prepend(a, Prepend(b, r)) == Prepend(a + b, r)
  {
    if r.Ok? { assert a + (b + r.value) == a + b + r.value; }
  }

  /** One step of the scan, at target `i`. */
  lemma LinksAt(src: Id.ZettelId, dests: seq<string>, i: nat, resolve: string -> Option<PathBuf>,
                toId: PathBuf -> Result<Id.ZettelId>)
    requires i < |dests|
    ensures resolve(dests[i]).None? ==>
      LinksSpec(src, dests[i..], resolve, toId) == LinksSpec(src, dests[i + 1..], resolve, toId)
    ensures resolve(dests[i]).Some? && toId(resolve(dests[i]).value).Err? ==>
      LinksSpec(src, dests[i..], resolve, toId) == Err(toId(resolve(dests[i]).value).error)
    ensures resolve(dests[i]).Some? && toId(resolve(dests[i]).value).Ok? ==>
      LinksSpec(src, dests[i..], resolve, toId)
        == Prepend([Links.Link(src, toId(resolve(dests[i]).value).value)], LinksSpec(src, dests[i + 1..], resolve, toId))
  {
    assert dests[i..][0] == dests[i] && dests[i..][1..] == dests[i + 1..];
  }

  /** `Zettel::links_from_content`, the loop over the link events of the
      body; `dests` are their `dest_url`s in order. */
  method LinksFromContent(src: Id.ZettelId, dests: seq<string>, root: PathBuf, fs: Fs.FileSystem) returns (r: Result<seq<Links.Link>>)
    ensures r == LinksSpec(src, dests, Resolver(root, fs.canonical), Id.FromPath)
  {
    ghost var resolve := Resolver(root, fs.canonical);
    ghost var spec := LinksSpec(src, dests, resolve, Id.FromPath);
    var links: seq<Links.Link> := [];
    var i := 0;
    assert dests[0..] == dests;
    assert forall v: seq<Links.Link> :: [] + v == v;
    while i < |dests|
      invariant 0 <= i <= |dests|
      invariant spec == Prepend(links, LinksSpec(src, dests[i..], resolve, Id.FromPath))
    {
      LinksAt(src, dests, i, resolve, Id.FromPath);
      var target := Target(root, dests[i]);
      var canon := fs.Canonicalize(target);
      assert resolve(dests[i]) == if canon.Ok? then Some(canon.value) else None;
      if canon.Err? {
        i := i + 1;
      } else {
        var dst := Id.FromPath(canon.value);
        if dst.Err? {
          return Err(dst.error);
        }
        PrependPrepend(links, [Links.Link(src, dst.value)], LinksSpec(src, dests[i + 1..], resolve, Id.FromPath));
        links := links + [Links.Link(src, dst.value)];
        i := i + 1;
      }
    }
    assert links + [] == links;
    return Ok(links);
  }

  // ------------------------------------------------------ tag reconciliation

  /** The colour given to a tag first seen in a header. */
  const NewTagColor: string := "random"

  /** `Tag::from` a stored tag record. */
  function TagOf(rec: Store.TagRecord): Tags.Tag {
    Tags.Tag(rec.name, rec.color)
  }

  function TagsOfRecords(recs: seq<Store.TagRecord>): (r: seq<Tags.Tag>)
    ensures |r| == |recs| && forall k :: 0 <= k < |recs| ==> r[k] == TagOf(recs[k])
  {
    seq(|recs|, k requires 0 <= k < |recs| => TagOf(recs[k]))
  }

  lemma TagsOfRecordsSnoc(recs: seq<Store.TagRecord>, rec: Store.TagRecord)
    ensures TagsOfRecords(recs + [rec]) == TagsOfRecords(recs) + [TagOf(rec)]
  {
  }

  function Names(tags: seq<Tags.Tag>): (r: seq<string>)
    ensures |r| == |tags| && forall k :: 0 <= k < |tags| ==> r[k] == tags[k].name
  {
    seq(|tags|, k requires 0 <= k < |tags| => tags[k].name)
  }

  lemma NamesAppend(a: seq<Tags.Tag>, b: seq<Tags.Tag>)
    ensures Names(a + b) == Names(a) + Names(b)
  {
  }

  /** The records of the tags `ids`. */
  function Records(records: map<string, Store.TagRecord>, ids: seq<string>): (r: seq<Store.TagRecord>)
    requires forall k :: 0 <= k < |ids| ==> ids[k] in records
    ensures |r| == |ids| && forall k :: 0 <= k < |ids| ==> r[k] == records[ids[k]]
  {
    seq(|ids|, k requires 0 <= k < |ids| => records[ids[k]])
  }

  /** The stored tags, in store order, whose names are still declared; each
      one kept uses up one declared occurrence of its name. */
  function Kept(pending: multiset<string>, recs: seq<Store.TagRecord>): (r: seq<Store.TagRecord>)
    decreases |recs|
  {
    if recs == [] then []
    else if recs[0].name in pending then [recs[0]] + Kept(pending - multiset{recs[0].name}, recs[1..])
    else Kept(pending, recs[1..])
  }

  /** The declared names left once the stored tags have used up theirs. */
  function Leftover(pending: multiset<string>, recs: seq<Store.TagRecord>): (r: multiset<string>)
    decreases |recs|
  {
    if recs == [] then pending
    else if recs[0].name in pending then Leftover(pending - multiset{recs[0].name}, recs[1..])
    else Leftover(pending, recs[1..])
  }

  /** The kept tags' names and the left-over names are the declared names. */
  lemma {:induction false} KeptAndLeftover(pending: multiset<string>, recs: seq<Store.TagRecord>)
    ensures multiset(Names(TagsOfRecords(Kept(pending, recs)))) + Leftover(pending, recs) == pending
    decreases |recs|
  {
    if recs != [] {
      var n := recs[0].name;
      if n in pending {
        KeptAndLeftover(pending - multiset{n}, recs[1..]);
        var rest := Kept(pending - multiset{n}, recs[1..]);
        assert Names(TagsOfRecords([recs[0]] + rest)) == [n] + Names(TagsOfRecords(rest));
      } else {
        KeptAndLeftover(pending, recs[1..]);
      }
    }
  }

  /** One step of the walk over the stored tags, at position `i`, with
      `keptRecs` kept so far and `m` the names still pending. */
  lemma KeptStep(pending: multiset<string>, recs: seq<Store.TagRecord>, keptRecs: seq<Store.TagRecord>, m: multiset<string>, i: nat)
    requires i < |recs|
    requires Kept(pending, recs) == keptRecs + Kept(m, recs[i..])
    requires Leftover(pending, recs) == Leftover(m, recs[i..])
    ensures recs[i].name in m ==>
      && Kept(pending, recs) == (keptRecs + [recs[i]]) + Kept(m - multiset{recs[i].name}, recs[i + 1..])
      && Leftover(pending, recs) == Leftover(m - multiset{recs[i].name}, recs[i + 1..])
    ensures recs[i].name !in m ==>
      && Kept(pending, recs) == keptRecs + Kept(m, recs[i + 1..])
      && Leftover(pending, recs) == Leftover(m, recs[i + 1..])
  {
    assert recs[i..][0] == recs[i] && recs[i..][1..] == recs[i + 1..];
    if recs[i].name in m {
      var rest := Kept(m - multiset{recs[i].name}, recs[i + 1..]);
      assert keptRecs + ([recs[i]] + rest) == (keptRecs + [recs[i]]) + rest;
    }
  }

  /** The associations once the stored tags `seen` have been visited: those
      of other notes as before; of the note's own, the unvisited and the kept. */
  ghost predicate AssocAfter(assoc: set<(string, string)>, before: set<(string, string)>, id: string,
                             seen: seq<string>, keptIds: seq<string>) {
    && (forall t :: (id, t) in assoc <==> (id, t) in before && (t !in seen || t in keptIds))
    && (forall z, t :: z != id ==> ((z, t) in assoc <==> (z, t) in before))
  }

  lemma AssocKeep(assoc: set<(string, string)>, before: set<(string, string)>, id: string,
                  seen: seq<string>, keptIds: seq<string>, t: string)
    requires AssocAfter(assoc, before, id, seen, keptIds) && t !in seen
    ensures AssocAfter(assoc, before, id, seen + [t], keptIds + [t])
  {
  }

  lemma AssocDrop(assoc: set<(string, string)>, before: set<(string, string)>, id: string,
                  seen: seq<string>, keptIds: seq<string>, t: string)
    requires AssocAfter(assoc, before, id, seen, keptIds) && t !in seen && t !in keptIds
    ensures AssocAfter(assoc - {(id, t)}, before, id, seen + [t], keptIds)
  {
  }

  /** `keptIds` are distinct tags among `seen`, whose records give `kept`. */
  ghost predicate KeptIdsOf(keptIds: seq<string>, kept: seq<Tags.Tag>, tags: map<string, Store.TagRecord>, seen: seq<string>) {
    && |keptIds| == |kept| && Store.Distinct(keptIds)
    && forall k :: 0 <= k < |keptIds| ==>
      keptIds[k] in seen && keptIds[k] in tags && TagOf(tags[keptIds[k]]) == kept[k]
  }

  /** At step `i` of the walk over distinct stored tags, the tag there has
      been seen neither before nor among the kept ones; keeping it or not
      keeps the kept ids in step. */
  lemma KeptIdsStep(stored: seq<string>, i: nat, keptIds: seq<string>, kept: seq<Tags.Tag>, tags: map<string, Store.TagRecord>)
    requires Store.Distinct(stored) && i < |stored| && stored[i] in tags
    requires KeptIdsOf(keptIds, kept, tags, stored[..i])
    ensures stored[i] !in stored[..i] && stored[i] !in keptIds
    ensures stored[..i + 1] == stored[..i] + [stored[i]]
    ensures KeptIdsOf(keptIds, kept, tags, stored[..i + 1])
    ensures KeptIdsOf(keptIds + [stored[i]], kept + [TagOf(tags[stored[i]])], tags, stored[..i + 1])
  {
    assert stored[..i + 1] == stored[..i] + [stored[i]];
  }

  /** One step of the first loop: the stored tag `t` of the note is kept
      when its name is still in the sorted list, which then loses one
      occurrence of it; otherwise the association is deleted. */
  method VisitStoredTag(db: Store.Db, id: string, t: string, leftover: seq<string>) returns (rest: seq<string>, keep: bool)
    requires db.Valid() && Slices.Sorted(leftover)
    requires t in db.tags && (id, t) in db.assoc
    modifies db
    ensures db.Valid()
    ensures db.zettels == old(db.zettels) && db.tags == old(db.tags)
    ensures Slices.Sorted(rest)
    ensures keep <==> db.tags[t].name in multiset(leftover)
    ensures keep ==> multiset(rest) == multiset(leftover) - multiset{db.tags[t].name} && db.assoc == old(db.assoc)
    ensures !keep ==> rest == leftover && db.assoc == old(db.assoc) - {(id, t)}
  {
    var idx := Slices.BinarySearch(leftover, db.tags[t].name);
    if idx.Some? {
      rest := Slices.Remove(leftover, idx.value);
      keep := true;
    } else {
      // The association being deleted is there: `expect("this link must exist")` holds.
      db.DeleteAssoc(id, t);
      rest := leftover;
      keep := false;
    }
  }

  /** The first loop of the reconciliation in `Zettel::from_path`: each
      stored tag of the note whose name is still declared is kept and its
      name removed from the sorted list; for any other, only the association
      with the note is deleted. */
  method KeepStoredTags(db: Store.Db, id: string, names: seq<string>, stored: seq<string>)
    returns (leftover: seq<string>, kept: seq<Tags.Tag>, keptIds: seq<string>)
    requires db.Valid()
    requires Slices.Sorted(names)
    requires Store.Distinct(stored)
    requires forall k :: 0 <= k < |stored| ==> (id, stored[k]) in db.assoc
    modifies db
    ensures db.Valid()
    ensures db.zettels == old(db.zettels) && db.tags == old(db.tags)
    ensures forall k :: 0 <= k < |stored| ==> stored[k] in db.tags
    ensures Slices.Sorted(leftover)
    ensures var recs := Records(db.tags, stored);
      && kept == TagsOfRecords(Kept(multiset(names), recs))
      && multiset(leftover) == Leftover(multiset(names), recs)
    ensures |keptIds| == |kept| && Store.Distinct(keptIds)
    ensures forall k :: 0 <= k < |keptIds| ==>
      keptIds[k] in stored && keptIds[k] in db.tags && TagOf(db.tags[keptIds[k]]) == kept[k]
    ensures AssocAfter(db.assoc, old(db.assoc), id, stored, keptIds)
  {
    ghost var recs := Records(db.tags, stored);
    ghost var pending := multiset(names);
    ghost var keptRecs: seq<Store.TagRecord> := [];
    leftover := names;
    kept := [];
    keptIds := [];
    var i := 0;
    assert recs[0..] == recs;
    while i < |stored|
      invariant 0 <= i <= |stored|
      invariant db.Valid()
      invariant db.zettels == old(db.zettels) && db.tags == old(db.tags)
      invariant Slices.Sorted(leftover)
      invariant Kept(pending, recs) == keptRecs + Kept(multiset(leftover), recs[i..])
      invariant Leftover(pending, recs) == Leftover(multiset(leftover), recs[i..])
      invariant kept == TagsOfRecords(keptRecs)
      invariant KeptIdsOf(keptIds, kept, db.tags, stored[..i])
      invariant AssocAfter(db.assoc, old(db.assoc), id, stored[..i], keptIds)
    {
      KeptStep(pending, recs, keptRecs, multiset(leftover), i);
      KeptIdsStep(stored, i, keptIds, kept, db.tags);
      var rec := db.tags[stored[i]];
      ghost var assocBefore := db.assoc;
      var keep;
      leftover, keep := VisitStoredTag(db, id, stored[i], leftover);
      if keep {
        AssocKeep(db.assoc, old(db.assoc), id, stored[..i], keptIds, stored[i]);
        TagsOfRecordsSnoc(keptRecs, rec);
        kept := kept + [TagOf(rec)];
        keptIds := keptIds + [stored[i]];
        keptRecs := keptRecs + [rec];
      } else {
        AssocDrop(assocBefore, old(db.assoc), id, stored[..i], keptIds, stored[i]);
      }
      i := i + 1;
    }
    assert stored[..|stored|] == stored;
    assert keptRecs + [] == keptRecs;
  }

  /** The ids a fresh-id source hands out for `n` requests. */
  function FreshIds(nextId: nat -> string, n: nat): (r: seq<string>)
    ensures |r| == n && forall k :: 0 <= k < n ==> r[k] == nextId(k)
  {
    seq(n, k requires 0 <= k < n => nextId(k))
  }

  /** The second loop: each left-over name gets a new tag record (the `k`th
      fresh nanoid, colour `random`) and an association with the note. An
      insert fails when the fresh nanoid already names a tag. */
  method InsertNewTags(db: Store.Db, id: string, names: seq<string>, nextId: nat -> string)
    returns (r: Result<seq<Tags.Tag>>, newIds: seq<string>)
    requires db.Valid() && id in db.zettels
    modifies db
    ensures db.Valid()
    ensures db.zettels == old(db.zettels)
    ensures forall t :: t in old(db.tags) ==> t in db.tags && db.tags[t] == old(db.tags)[t]
    ensures forall z, t :: z != id ==> ((z, t) in db.assoc <==> (z, t) in old(db.assoc))
    ensures r.Ok? <==> Store.Distinct(FreshIds(nextId, |names|)) && forall k :: 0 <= k < |names| ==> nextId(k) !in old(db.tags)
    ensures r.Err? ==> r.error == DbError(Store.SqlFailure)
    ensures r.Ok? ==> |r.value| == |names| && forall k :: 0 <= k < |names| ==> r.value[k] == Tags.Tag(names[k], NewTagColor)
    ensures r.Ok? ==> newIds == FreshIds(nextId, |names|)
    ensures r.Ok? ==> forall k :: 0 <= k < |names| ==> newIds[k] in db.tags && db.tags[newIds[k]] == Store.TagRecord(names[k], NewTagColor)
    ensures r.Ok? ==> forall t :: (id, t) in db.assoc <==> (id, t) in old(db.assoc) || t in newIds
    ensures forall t :: t in db.tags <==> t in old(db.tags) || t in newIds
  {
    var added: seq<Tags.Tag> := [];
    newIds := [];
    var k := 0;
    while k < |names|
      invariant 0 <= k <= |names|
      invariant db.Valid() && db.zettels == old(db.zettels)
      invariant newIds == FreshIds(nextId, k) && Store.Distinct(newIds)
      invariant forall j :: 0 <= j < k ==> nextId(j) !in old(db.tags)
      invariant forall t :: t in db.tags <==> t in old(db.tags) || t in newIds
      invariant forall t :: t in old(db.tags) ==> db.tags[t] == old(db.tags)[t]
      invariant forall j :: 0 <= j < k ==> db.tags[newIds[j]] == Store.TagRecord(names[j], NewTagColor)
      invariant |added| == k && forall j :: 0 <= j < k ==> added[j] == Tags.Tag(names[j], NewTagColor)
      invariant forall t :: (id, t) in db.assoc <==> (id, t) in old(db.assoc) || t in newIds
      invariant forall z, t :: z != id ==> ((z, t) in db.assoc <==> (z, t) in old(db.assoc))
    {
      var nid := nextId(k);
      var record := Store.TagRecord(names[k], NewTagColor);
      var inserted := db.InsertTag(nid, record);
      if inserted.Err? {
        assert FreshIds(nextId, |names|)[k] == nid;
        if nid !in old(db.tags) {
          var j :| 0 <= j < k && newIds[j] == nid;
          assert FreshIds(nextId, |names|)[j] == nid;
        }
        return Err(inserted.error), newIds;
      }
      // No association names the new tag yet, so this insert succeeds.
      var linked := db.InsertAssoc(id, nid);
      assert linked.Ok?;
      added := added + [Tags.Tag(names[k], NewTagColor)];
      newIds := newIds + [nid];
      k := k + 1;
    }
    r := Ok(added);
  }

  /** The order `from_path` leaves a note's tags in: the stored tags that
      are still declared, in store order, then the left-over declared names
      sorted, each as a new tag of colour `random`. */
  ghost predicate ReconciledOrder(declared: seq<string>, recs: seq<Store.TagRecord>, tags: seq<Tags.Tag>) {
    var keptPart := TagsOfRecords(Kept(multiset(declared), recs));
    && |keptPart| <= |tags|
    && tags[..|keptPart|] == keptPart
    && Slices.Sorted(Names(tags[|keptPart|..]))
    && multiset(Names(tags[|keptPart|..])) == Leftover(multiset(declared), recs)
    && forall k :: |keptPart| <= k < |tags| ==> tags[k].color == NewTagColor
  }

  /** The ids of the kept tags followed by the new ones: distinct, each
      naming its tag's record, and together with the old records all the
      records there are. */
  lemma JoinIds(before: map<string, Store.TagRecord>, after: map<string, Store.TagRecord>,
                keptIds: seq<string>, kept: seq<Tags.Tag>,
                names: seq<string>, newIds: seq<string>, added: seq<Tags.Tag>, nextId: nat -> string)
    requires |keptIds| == |kept| && Store.Distinct(keptIds)
    requires forall k :: 0 <= k < |keptIds| ==> keptIds[k] in before && TagOf(before[keptIds[k]]) == kept[k]
    requires newIds == FreshIds(nextId, |names|) && Store.Distinct(FreshIds(nextId, |names|))
    requires forall k :: 0 <= k < |names| ==> nextId(k) !in before
    requires |added| == |names| && forall k :: 0 <= k < |names| ==> added[k] == Tags.Tag(names[k], NewTagColor)
    requires forall k :: 0 <= k < |names| ==> newIds[k] in after && after[newIds[k]] == Store.TagRecord(names[k], NewTagColor)
    requires forall t :: t in before ==> t in after && after[t] == before[t]
    requires forall t :: t in after <==> t in before || t in newIds
    ensures var ids := keptIds + newIds;
      && Store.Distinct(ids)
      && (forall k :: 0 <= k < |ids| ==> ids[k] in after && TagOf(after[ids[k]]) == (kept + added)[k])
      && (forall t :: t in after <==> t in before || t in ids)
  {
    var ids := keptIds + newIds;
    forall k | 0 <= k < |ids| ensures ids[k] in after && TagOf(after[ids[k]]) == (kept + added)[k] {
      if k >= |keptIds| {
        assert ids[k] == newIds[k - |keptIds|];
        assert (kept + added)[k] == added[k - |keptIds|];
      } else {
        assert (kept + added)[k] == kept[k];
      }
    }
    forall a, b | 0 <= a < b < |ids| ensures ids[a] != ids[b] {
      if a < |keptIds| && b >= |keptIds| {
        assert ids[a] in before;
        assert ids[b] == nextId(b - |keptIds|);
      }
    }
  }

  /** The reconciliation of the note's stored tags with the header's
      declared names (`Zettel::from_path`, the two loops after sorting):
      `stored` is the order in which the store returns the note's tags. */
  method ReconcileTags(db: Store.Db, id: string, declared: seq<string>, stored: seq<string>, nextId: nat -> string)
    returns (r: Result<seq<Tags.Tag>>, ids: seq<string>)
    requires db.Valid() && id in db.zettels && db.Enumerates(id, stored)
    modifies db
    ensures db.Valid()
    ensures db.zettels == old(db.zettels)
    ensures forall t :: t in old(db.tags) ==> t in db.tags && db.tags[t] == old(db.tags)[t]
    ensures forall z, t :: z != id ==> ((z, t) in db.assoc <==> (z, t) in old(db.assoc))
    ensures forall k :: 0 <= k < |stored| ==> stored[k] in old(db.tags)
    ensures r.Err? ==> r.error == DbError(Store.SqlFailure)
    ensures r.Ok? ==> ReconciledOrder(declared, Records(old(db.tags), stored), r.value)
    ensures r.Ok? ==> multiset(Names(r.value)) == multiset(declared)
    ensures r.Ok? ==> |ids| == |r.value| && db.Enumerates(id, ids)
    ensures r.Ok? ==> forall t :: t in db.tags <==> t in old(db.tags) || t in ids
    ensures r.Ok? ==> forall k :: 0 <= k < |ids| ==> ids[k] in db.tags && TagOf(db.tags[ids[k]]) == r.value[k]
  {
    var names := Slices.Sort(declared);
    var leftover, kept, keptIds := KeepStoredTags(db, id, names, stored);
    ghost var recs := Records(old(db.tags), stored);
    KeptAndLeftover(multiset(declared), recs);
    var added, newIds := InsertNewTags(db, id, leftover, nextId);
    if added.Err? {
      return Err(added.error), [];
    }
    r := Ok(kept + added.value);
    ids := keptIds + newIds;
    assert r.value[..|kept|] == kept && r.value[|kept|..] == added.value;
    assert Names(added.value) == leftover;
    NamesAppend(kept, added.value);
    JoinIds(old(db.tags), db.tags, keptIds, kept, leftover, newIds, added.value, nextId);
  }

  // --------------------------------------------------------------- loading

  /** The names of the tags the store associates with note `id`. */
  ghost function AssociatedNames(assoc: set<(string, string)>, tags: map<string, Store.TagRecord>, id: string): set<string> {
    set a | a in assoc && a.0 == id && a.1 in tags :: tags[a.1].name
  }

  /** When `ids` enumerates the note's associations and their records give
      `noteTags`, the associated names are the names of `noteTags`. */
  lemma AssociatedNamesOf(assoc: set<(string, string)>, tags: map<string, Store.TagRecord>, id: string,
                          ids: seq<string>, noteTags: seq<Tags.Tag>)
    requires forall t :: (id, t) in assoc <==> t in ids
    requires |ids| == |noteTags|
    requires forall k :: 0 <= k < |ids| ==> ids[k] in tags && TagOf(tags[ids[k]]) == noteTags[k]
    ensures AssociatedNames(assoc, tags, id) == set n | n in Names(noteTags)
  {
    var names := Names(noteTags);
    forall n | n in AssociatedNames(assoc, tags, id) ensures n in names {
      var a :| a in assoc && a.0 == id && a.1 in tags && tags[a.1].name == n;
      assert (id, a.1) == a;
      var k :| 0 <= k < |ids| && ids[k] == a.1;
      assert names[k] == n;
    }
    forall n | n in names ensures n in AssociatedNames(assoc, tags, id) {
      var k :| 0 <= k < |names| && names[k] == n;
      assert (id, ids[k]) in assoc;
    }
  }

  /** The store side of `Zettel::from_path`, once the id and the header
      are known: the note's record is inserted when missing, its tags are
      reconciled with the header, its title brought in step, and its links
      read from the body. */
  method SyncNote(fs: Fs.FileSystem, db: Store.Db, root: PathBuf, id: Id.ZettelId, fm: FM.FrontMatter, content: string,
                  scan: string -> seq<string>, stored: seq<string>, nextId: nat -> string)
    returns (r: Result<(seq<Tags.Tag>, seq<Links.Link>)>, ghost ids: seq<string>)
    requires db.Valid() && db.Enumerates(id.s, stored)
    modifies db
    ensures db.Valid()
    ensures forall k :: 0 <= k < |stored| ==> stored[k] in old(db.tags)
    ensures forall t :: t in old(db.tags) ==> t in db.tags && db.tags[t] == old(db.tags)[t]
    ensures forall z, t :: z != id.s ==> ((z, t) in db.assoc <==> (z, t) in old(db.assoc))
    ensures r.Ok? ==>
      var (tags, links) := r.value;
      && db.zettels == old(db.zettels)[id.s := fm.title]
      && LinksSpec(id, scan(content), Resolver(root, fs.canonical), Id.FromPath) == Ok(links)
      && multiset(Names(tags)) == multiset(fm.tagStrings)
      && ReconciledOrder(fm.tagStrings, Records(old(db.tags), stored), tags)
      && (forall t :: t in db.tags <==> t in old(db.tags) || t in ids)
      && AssociatedNames(db.assoc, db.tags, id.s) == set n | n in fm.tagStrings
      && |ids| == |tags| && db.Enumerates(id.s, ids)
      && (forall k :: 0 <= k < |ids| ==> ids[k] in db.tags && TagOf(db.tags[ids[k]]) == tags[k])
  {
    var dbTitle;
    if id.s in db.zettels {
      dbTitle := db.zettels[id.s];
    } else {
      var inserted := db.InsertZettel(id.s, fm.title);
      assert inserted.Ok?;
      dbTitle := fm.title;
    }
    assert db.zettels == old(db.zettels)[id.s := dbTitle];
    var tags;
    tags, ids := ReconcileTags(db, id.s, fm.tagStrings, stored, nextId);
    if tags.Err? {
      return Err(tags.error), ids;
    }
    if fm.title != dbTitle {
      var updated := db.UpdateTitle(id.s, fm.title);
      assert updated.Ok?;
    }
    var links := LinksFromContent(id, scan(content), root, fs);
    if links.Err? {
      return Err(links.error), ids;
    }
    AssociatedNamesOf(db.assoc, db.tags, id.s, ids, tags.value);
    SameElements(Names(tags.value), fm.tagStrings);
    r := Ok((tags.value, links.value));
  }

  lemma SameElements(a: seq<string>, b: seq<string>)
    requires multiset(a) == multiset(b)
    ensures (set n | n in a) == (set n | n in b)
  {
    assert forall n :: n in a <==> n in multiset(b);
  }

  /** Every tag the store associates with a note has a record. */
  lemma StoredHaveRecords(db: Store.Db, id: string, stored: seq<string>)
    requires db.Valid() && db.Enumerates(id, stored)
    ensures forall k :: 0 <= k < |stored| ==> stored[k] in db.tags
  {
    forall k | 0 <= k < |stored| ensures stored[k] in db.tags {
      assert (id, stored[k]) in db.assoc;
    }
  }

  /** `Zettel::from_path`: the id comes from the path, then the header and
      body from the file (either failure returns at once, the store
      untouched), then the store is brought in step with the note.
      `scan` stands for the markdown scan that yields the body's link
      targets, and `stored` for the order in which the store returns the
      note's tags. */
  method FromPath(fs: Fs.FileSystem, db: Store.Db, root: PathBuf, p: PathBuf, scan: string -> seq<string>,
                  stored: seq<string>, nextId: nat -> string)
    returns (r: Result<Zettel>, ghost ids: seq<string>)
    requires db.Valid()
    requires Id.FromPath(p).Ok? ==> db.Enumerates(Id.FromPath(p).value.s, stored)
    modifies db
    ensures db.Valid()
    ensures Id.FromPath(p).Ok? ==> forall k :: 0 <= k < |stored| ==> stored[k] in old(db.tags)
    ensures Id.FromPath(p).Err? ==>
      r == Err(Id.FromPath(p).error) && db.zettels == old(db.zettels) && db.tags == old(db.tags) && db.assoc == old(db.assoc)
    ensures Id.FromPath(p).Ok? && FM.ExtractFromFile(fs, p).Err? ==>
      r == Err(FM.ExtractFromFile(fs, p).error) && db.zettels == old(db.zettels) && db.tags == old(db.tags) && db.assoc == old(db.assoc)
    ensures r.Ok? ==> Id.FromPath(p).Ok? && FM.ExtractFromFile(fs, p).Ok?
    ensures r.Ok? ==>
      var id := Id.FromPath(p).value;
      var (fm, content) := FM.ExtractFromFile(fs, p).value;
      && r.value.path == p && r.value.id == id && r.value.frontMatter == fm && r.value.content == content
      && db.zettels == old(db.zettels)[id.s := fm.title]
      && LinksSpec(id, scan(content), Resolver(root, fs.canonical), Id.FromPath) == Ok(r.value.links)
      && multiset(Names(r.value.tags)) == multiset(fm.tagStrings)
      && ReconciledOrder(fm.tagStrings, Records(old(db.tags), stored), r.value.tags)
      && (forall t :: t in db.tags <==> t in old(db.tags) || t in ids)
      && AssociatedNames(db.assoc, db.tags, id.s) == set n | n in fm.tagStrings
      && |ids| == |r.value.tags| && db.Enumerates(id.s, ids)
      && (forall k :: 0 <= k < |ids| ==> ids[k] in db.tags && TagOf(db.tags[ids[k]]) == r.value.tags[k])
    ensures forall t :: t in old(db.tags) ==> t in db.tags && db.tags[t] == old(db.tags)[t]
    ensures Id.FromPath(p).Ok? ==>
      forall z, t :: z != Id.FromPath(p).value.s ==> ((z, t) in db.assoc <==> (z, t) in old(db.assoc))
  {
    ids := [];
    var idr := Id.FromPath(p);
    if idr.Err? {
      return Err(idr.error), ids;
    }
    var id := idr.value;
    StoredHaveRecords(db, id.s, stored);
    var extracted := FM.ExtractFromFile(fs, p);
    if extracted.Err? {
      return Err(extracted.error), ids;
    }
    var fm := extracted.value.0;
    var content := extracted.value.1;
    var synced;
    synced, ids := SyncNote(fs, db, root, id, fm, content, scan, stored, nextId);
    if synced.Err? {
      return Err(synced.error), ids;
    }
    r := Ok(Zettel(p, id, fm, synced.value.0, synced.value.1, content));
  }
}
