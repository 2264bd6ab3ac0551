/** The note graph (emergence_zk/src/kasten.rs): every note of a directory
    that reads and parses becomes a node, and each link of one note to
    another ingested note an edge. */
module Kasten {
  import opened Errors
  import opened Paths
  import Text
  import Id
  import Links
  import Fs
  import Zettels
  import FM = ZettelFrontMatter

  // ------------------------------------------------------- the file filter

  /** What the filter keeps of a note file. */
  datatype Parsed = Parsed(frontMatter: FM.FrontMatter, content: string, path: PathBuf, id: Id.ZettelId)

  /** The extension is, as text, exactly `md`. */
  predicate IsMd(p: Path) {
    Extension(p).Some? && ToStr(Extension(p).value) == Some("md")
  }

  /** The filter on one directory entry, over the file contents `files`: a
      regular file named `*.md` whose text reads, whose header parses and
      whose name gives an id; any other entry, or any failure, drops it. */
  function Candidate(files: map<Path, Fs.Contents>, entry: Fs.DirEntry): (r: Option<Parsed>)
    ensures r.Some? <==>
      && entry.fileType == Some(Fs.File) && IsMd(entry.path)
      && Fs.ReadText(files, entry.path).Ok?
      && FM.Extract(Fs.ReadText(files, entry.path).value).Ok?
      && Id.FromPath(entry.path).Ok?
    ensures r.Some? ==>
      && r.value.path == entry.path
      && r.value.id == Id.FromPath(entry.path).value
      && (r.value.frontMatter, r.value.content) == FM.Extract(Fs.ReadText(files, entry.path).value).value
  {
    if entry.fileType == Some(Fs.File) && IsMd(entry.path) then
      match Fs.ReadText(files, entry.path)
      case Err(_) => None
      case Ok(text) =>
        match FM.Extract(text)
        case Err(_) => None
        case Ok(parsed) =>
          match Id.FromPath(entry.path)
          case Err(_) => None
          case Ok(id) => Some(Parsed(parsed.0, parsed.1, entry.path, id))
    else None
  }

  /** What an item of a listing gives, if anything; an entry whose reading
      failed (`None`) is dropped by `flatten`. */
  function Kept(files: map<Path, Fs.Contents>, e: Option<Fs.DirEntry>): Option<Parsed> {
    if e.Some? then Candidate(files, e.value) else None
  }

  /** `filter_map`, in order. */
  function FilterMap<A, B>(f: A -> Option<B>, s: seq<A>): (r: seq<B>)
    decreases |s|
  {
    if s == [] then []
    else
      var rest := FilterMap(f, s[1..]);
      if f(s[0]).Some? then [f(s[0]).value] + rest else rest
  }

  /** `filter_map` keeps exactly what `f` gives, and no more items than it
      is given. */
  lemma {:induction false} FilterMapOf<A, B>(f: A -> Option<B>, s: seq<A>)
    ensures |FilterMap(f, s)| <= |s|
    ensures forall k :: 0 <= k < |FilterMap(f, s)| ==> exists j :: 0 <= j < |s| && f(s[j]) == Some(FilterMap(f, s)[k])
    ensures forall j :: 0 <= j < |s| && f(s[j]).Some? ==> f(s[j]).value in FilterMap(f, s)
    decreases |s|
  {
    if s != [] {
      var tail := s[1..];
      FilterMapOf(f, tail);
      var r := FilterMap(f, s);
      var rest := FilterMap(f, tail);
      var off := if f(s[0]).Some? then 1 else 0;
      assert r[off..] == rest;
      forall k | 0 <= k < |r| ensures exists j :: 0 <= j < |s| && f(s[j]) == Some(r[k]) {
        if k < off {
          assert f(s[0]) == Some(r[k]);
        } else {
          assert r[k] == rest[k - off];
          var j :| 0 <= j < |tail| && f(tail[j]) == Some(rest[k - off]);
          assert s[j + 1] == tail[j];
        }
      }
      forall j | 0 <= j < |s| && f(s[j]).Some? ensures f(s[j]).value in r {
        if j > 0 {
          assert s[j] == tail[j - 1];
        }
      }
    }
  }

  /** The filter over a directory listing, in listing order. */
  function Survivors(files: map<Path, Fs.Contents>, entries: seq<Option<Fs.DirEntry>>): (r: seq<Parsed>) {
    FilterMap(e => Kept(files, e), entries)
  }

  /** The survivors are exactly what the entries that pass the filter give,
      and there are no more of them than entries. */
  lemma SurvivorsOfListing(files: map<Path, Fs.Contents>, entries: seq<Option<Fs.DirEntry>>)
    ensures |Survivors(files, entries)| <= |entries|
    ensures forall k :: 0 <= k < |Survivors(files, entries)| ==>
      exists j :: 0 <= j < |entries| && Kept(files, entries[j]) == Some(Survivors(files, entries)[k])
    ensures forall j :: 0 <= j < |entries| && Kept(files, entries[j]).Some? ==>
      Kept(files, entries[j]).value in Survivors(files, entries)
  {
    FilterMapOf(e => Kept(files, e), entries);
  }

  /** The nodes made of the survivors: `Zettel::new` with no tags. */
  function Nodes(ps: seq<Parsed>): (r: seq<Zettels.Zettel>)
    ensures |r| == |ps|
    ensures forall k :: 0 <= k < |ps| ==>
      r[k] == Zettels.New(ps[k].id, ps[k].path, ps[k].frontMatter, [], ps[k].content)
  {
    seq(|ps|, k requires 0 <= k < |ps| => Zettels.New(ps[k].id, ps[k].path, ps[k].frontMatter, [], ps[k].content))
  }

  // --------------------------------------------------------- the two maps

  predicate AllCanonical(zs: seq<Zettels.Zettel>, canonical: map<Path, PathBuf>) {
    forall k :: 0 <= k < |zs| ==> zs[k].path in canonical
  }

  /** `path_to_zid` once the notes `zs` are in: each note's canonical path
      maps to its id, a later note overwriting an earlier one. */
  function PathIndex(zs: seq<Zettels.Zettel>, canonical: map<Path, PathBuf>): (m: map<PathBuf, Id.ZettelId>)
    requires AllCanonical(zs, canonical)
    decreases |zs|
  {
    if zs == [] then map[]
    else
      var last := zs[|zs| - 1];
      PathIndex(zs[..|zs| - 1], canonical)[canonical[last.path] := last.id]
  }

  ghost predicate IsNodeId(zs: seq<Zettels.Zettel>, id: Id.ZettelId) {
    exists k :: 0 <= k < |zs| && zs[k].id == id
  }

  ghost predicate IsCanonicalOf(zs: seq<Zettels.Zettel>, canonical: map<Path, PathBuf>, c: PathBuf)
    requires AllCanonical(zs, canonical)
  {
    exists k :: 0 <= k < |zs| && canonical[zs[k].path] == c
  }

  /** The keys of `path_to_zid` are the notes' canonical paths, and its
      values are the notes' ids. */
  lemma {:induction false} PathIndexOf(zs: seq<Zettels.Zettel>, canonical: map<Path, PathBuf>)
    requires AllCanonical(zs, canonical)
    ensures forall c :: c in PathIndex(zs, canonical) <==> IsCanonicalOf(zs, canonical, c)
    ensures forall c :: c in PathIndex(zs, canonical) ==> IsNodeId(zs, PathIndex(zs, canonical)[c])
    decreases |zs|
  {
    if zs != [] {
      var front := zs[..|zs| - 1];
      var n := |zs| - 1;
      assert forall k :: 0 <= k < n ==> front[k] == zs[k];
      PathIndexOf(front, canonical);
      var m0 := PathIndex(front, canonical);
      var m := PathIndex(zs, canonical);
      assert m == m0[canonical[zs[n].path] := zs[n].id];
      forall c | c in m ensures IsCanonicalOf(zs, canonical, c) && IsNodeId(zs, m[c]) {
        if c == canonical[zs[n].path] {
          assert zs[n].id == m[c];
        } else {
          assert c in m0 && m[c] == m0[c];
          var k :| 0 <= k < n && canonical[front[k].path] == c;
          assert canonical[zs[k].path] == c;
          var k' :| 0 <= k' < n && front[k'].id == m[c];
          assert zs[k'].id == m[c];
        }
      }
      forall c | IsCanonicalOf(zs, canonical, c) ensures c in m {
        var k :| 0 <= k < |zs| && canonical[zs[k].path] == c;
        if k < n {
          assert canonical[front[k].path] == c;
          assert IsCanonicalOf(front, canonical, c);
        }
      }
    }
  }

  /** `zid_to_nodeidx` once the nodes `zs` are added in order: each id maps
      to its node's index, a later node overwriting an earlier one. */
  function NodeIndex(zs: seq<Zettels.Zettel>): (m: map<Id.ZettelId, nat>)
    decreases |zs|
  {
    if zs == [] then map[] else NodeIndex(zs[..|zs| - 1])[zs[|zs| - 1].id := |zs| - 1]
  }

  /** `m` sends each id it holds to a node with that id. */
  predicate Indexes(m: map<Id.ZettelId, nat>, nodes: seq<Zettels.Zettel>) {
    forall id :: id in m ==> m[id] < |nodes| && nodes[m[id]].id == id
  }

  /** The node index holds every node's id, at a node with that id. */
  lemma {:induction false} NodeIndexOf(zs: seq<Zettels.Zettel>)
    ensures Indexes(NodeIndex(zs), zs)
    ensures forall k :: 0 <= k < |zs| ==> zs[k].id in NodeIndex(zs)
    decreases |zs|
  {
    if zs != [] {
      var front := zs[..|zs| - 1];
      NodeIndexOf(front);
      assert forall k :: 0 <= k < |front| ==> front[k] == zs[k];
    }
  }

  // ------------------------------------------------------------ the edges

  /** How the second pass looks a target up: the canonical form of root
      joined with the raw target, with none of the note scan's `./`, `#`
      and `.md` normalisation. */
  function RawResolver(root: PathBuf, canonical: map<Path, PathBuf>): string -> Option<PathBuf> {
    url => var t := PushStr(root, url); if t in canonical then Some(canonical[t]) else None
  }

  /** A link written as the bare file name `id.md` resolves the same way
      under the raw join as under the note scan's normalised one. */
  lemma PlainNoteLinkAgrees(root: PathBuf, id: Id.ZettelId, canonical: map<Path, PathBuf>)
    requires id.s != [] && '/' !in id.s && '#' !in id.s
    ensures RawResolver(root, canonical)(id.s + ".md") == Zettels.Resolver(root, canonical)(id.s + ".md")
  {
    Zettels.NoteLinkTarget(root, id, "");
    assert id.s + ".md" + "" == id.s + ".md";
  }

  /** A link to a heading, `id.md#anchor`, names a different file under the
      raw join than the note it points at: the anchor stays in the name. */
  lemma AnchoredNoteLinkDiffers(root: PathBuf, id: Id.ZettelId, anchor: string)
    requires id.s != [] && '/' !in id.s && '#' !in id.s
    requires anchor != [] && anchor[0] == '#' && '/' !in anchor
    ensures PushStr(root, id.s + ".md" + anchor) != Zettels.Target(root, id.s + ".md" + anchor)
  {
    Zettels.NoteLinkTarget(root, id, anchor);
    var long := id.s + ".md" + anchor;
    var short := id.s + ".md";
    assert IsNormalName(FromStr(long)) && IsNormalName(FromStr(short));
    PushName(root, FromStr(long));
    PushName(root, FromStr(short));
    assert |FromStr(long)| != |FromStr(short)|;
  }

  /** The link one target gives: only a target that resolves to an
      ingested note's canonical path gives one. */
  function UrlLink(src: Id.ZettelId, url: string, resolve: string -> Option<PathBuf>,
                   index: map<PathBuf, Id.ZettelId>): (r: seq<Links.Link>)
    ensures |r| <= 1
    ensures r != [] <==> resolve(url).Some? && resolve(url).value in index
    ensures r != [] ==> r[0] == Links.Link(src, index[resolve(url).value])
  {
    match resolve(url)
    case None => []
    case Some(c) => if c in index then [Links.Link(src, index[c])] else []
  }

  /** The links the targets `urls` of note `src` give, in scan order. */
  function UrlLinks(src: Id.ZettelId, urls: seq<string>, resolve: string -> Option<PathBuf>,
                    index: map<PathBuf, Id.ZettelId>): (r: seq<Links.Link>)
    decreases |urls|
  {
    if urls == [] then []
    else UrlLinks(src, urls[..|urls| - 1], resolve, index) + UrlLink(src, urls[|urls| - 1], resolve, index)
  }

  /** The links of all the notes `zs`, note by note. */
  function EdgeLinks(zs: seq<Zettels.Zettel>, scan: string -> seq<string>, resolve: string -> Option<PathBuf>,
                     index: map<PathBuf, Id.ZettelId>): (r: seq<Links.Link>)
    decreases |zs|
  {
    if zs == [] then []
    else
      var last := zs[|zs| - 1];
      EdgeLinks(zs[..|zs| - 1], scan, resolve, index) + UrlLinks(last.id, scan(last.content), resolve, index)
  }

  /** Every link of a note's targets starts at the note, ends at an id the
      index holds, and there is at most one per target. */
  lemma {:induction false} UrlLinksShape(src: Id.ZettelId, urls: seq<string>, resolve: string -> Option<PathBuf>,
                                         index: map<PathBuf, Id.ZettelId>)
    ensures |UrlLinks(src, urls, resolve, index)| <= |urls|
    ensures forall k :: 0 <= k < |UrlLinks(src, urls, resolve, index)| ==>
      UrlLinks(src, urls, resolve, index)[k].source == src
      && UrlLinks(src, urls, resolve, index)[k].dest in index.Values
    decreases |urls|
  {
    if urls != [] {
      var front := urls[..|urls| - 1];
      UrlLinksShape(src, front, resolve, index);
      var a := UrlLinks(src, front, resolve, index);
      var b := UrlLink(src, urls[|urls| - 1], resolve, index);
      assert forall k :: |a| <= k < |a| + |b| ==> (a + b)[k] == b[k - |a|];
    }
  }

  /** A target that does not resolve adds no link. */
  lemma UnresolvedAddsNothing(src: Id.ZettelId, urls: seq<string>, url: string, resolve: string -> Option<PathBuf>,
                              index: map<PathBuf, Id.ZettelId>)
    requires resolve(url).None? || resolve(url).value !in index
    ensures UrlLinks(src, urls + [url], resolve, index) == UrlLinks(src, urls, resolve, index)
  {
    assert (urls + [url])[..|urls|] == urls;
  }

  // ------------------------------------------------------------ the graph

  /** An edge of the graph: two node indices and the link it carries. */
  datatype Edge = Edge(src: nat, dst: nat, link: Links.Link)

  /** The links the edges carry, in order. */
  function LinksOf(edges: seq<Edge>): (r: seq<Links.Link>)
    decreases |edges|
  {
    if edges == [] then [] else LinksOf(edges[..|edges| - 1]) + [edges[|edges| - 1].link]
  }

  /** The graph and its root: a node list, whose positions are the node
      indices, and an edge list. */
  class Kasten {
    var nodes: seq<Zettels.Zettel>
    var edges: seq<Edge>
    var root: PathBuf

    /** Every edge joins two present nodes, whose ids are its link's source
        and destination. */
    predicate Linked()
      reads this
    {
      forall k :: 0 <= k < |edges| ==>
        && edges[k].src < |nodes| && edges[k].dst < |nodes|
        && nodes[edges[k].src].id == edges[k].link.source
        && nodes[edges[k].dst].id == edges[k].link.dest
    }

    /** `Kasten::new`: an empty graph at `dest`. */
    constructor (dest: PathBuf)
      ensures nodes == [] && edges == [] && root == dest
      ensures Linked()
    {
      nodes := [];
      edges := [];
      root := dest;
    }

    /** `add_node`: the new node's index is the number of nodes before it. */
    method AddNode(z: Zettels.Zettel) returns (idx: nat)
      requires Linked()
      modifies this
      ensures Linked()
      ensures nodes == old(nodes) + [z] && idx == |old(nodes)|
      ensures edges == old(edges) && root == old(root)
    {
      idx := |nodes|;
      nodes := nodes + [z];
    }

    /** `add_edge`. */
    method AddEdge(src: nat, dst: nat, link: Links.Link)
      requires Linked() && src < |nodes| && dst < |nodes|
      requires nodes[src].id == link.source && nodes[dst].id == link.dest
      modifies this
      ensures Linked()
      ensures edges == old(edges) + [Edge(src, dst, link)]
      ensures nodes == old(nodes) && root == old(root)
    {
      edges := edges + [Edge(src, dst, link)];
    }
  }

  // ------------------------------------------------------------ ingestion

  /** The first pass: each survivor becomes a note with no tags, and its
      canonical path is entered in the path index; a survivor whose path
      does not canonicalise fails the whole parse. */
  method MakeNotes(fs: Fs.FileSystem, parsed: seq<Parsed>)
    returns (r: Result<(seq<Zettels.Zettel>, map<PathBuf, Id.ZettelId>)>)
    ensures r.Ok? <==> AllCanonical(Nodes(parsed), fs.canonical)
    ensures r.Err? ==> r.error == FileError(Fs.IoFailure)
    ensures r.Ok? ==> r.value.0 == Nodes(parsed) && r.value.1 == PathIndex(Nodes(parsed), fs.canonical)
  {
    ghost var all := Nodes(parsed);
    var valid: seq<Zettels.Zettel> := [];
    var pathToZid: map<PathBuf, Id.ZettelId> := map[];
    var i := 0;
    while i < |parsed|
      invariant 0 <= i <= |parsed|
      invariant valid == all[..i] && AllCanonical(valid, fs.canonical)
      invariant pathToZid == PathIndex(valid, fs.canonical)
    {
      var p := parsed[i];
      var z := Zettels.New(p.id, p.path, p.frontMatter, [], p.content);
      var canon := fs.Canonicalize(z.path);
      if canon.Err? {
        assert all[i].path !in fs.canonical;
        return Err(canon.error);
      }
      assert all[..i + 1] == valid + [z];
      assert (valid + [z])[..|valid|] == valid;
      pathToZid := pathToZid[canon.value := z.id];
      valid := valid + [z];
      i := i + 1;
    }
    assert all[..i] == all;
    r := Ok((valid, pathToZid));
  }

  /** One more target of note `src`. */
  lemma UrlLinksSnoc(src: Id.ZettelId, urls: seq<string>, j: nat, resolve: string -> Option<PathBuf>,
                     index: map<PathBuf, Id.ZettelId>)
    requires j < |urls|
    ensures UrlLinks(src, urls[..j + 1], resolve, index) == UrlLinks(src, urls[..j], resolve, index) + UrlLink(src, urls[j], resolve, index)
  {
    assert urls[..j + 1][..j] == urls[..j];
  }

  /** One more note. */
  lemma EdgeLinksSnoc(zs: seq<Zettels.Zettel>, i: nat, scan: string -> seq<string>, resolve: string -> Option<PathBuf>,
                      index: map<PathBuf, Id.ZettelId>)
    requires i < |zs|
    ensures EdgeLinks(zs[..i + 1], scan, resolve, index)
      == EdgeLinks(zs[..i], scan, resolve, index) + UrlLinks(zs[i].id, scan(zs[i].content), resolve, index)
  {
    assert zs[..i + 1][..i] == zs[..i];
  }

  /** One target of the note `src`: when it resolves to an ingested note,
      an edge from the note's node to that note's is added. */
  method AddUrlEdge(k: Kasten, src: Id.ZettelId, url: string, fs: Fs.FileSystem,
                    pathToZid: map<PathBuf, Id.ZettelId>, zidToNode: map<Id.ZettelId, nat>)
    requires k.Linked() && Indexes(zidToNode, k.nodes) && src in zidToNode
    requires forall c :: c in pathToZid ==> pathToZid[c] in zidToNode
    modifies k
    ensures k.Linked()
    ensures k.nodes == old(k.nodes) && k.root == old(k.root)
    ensures LinksOf(k.edges) == LinksOf(old(k.edges)) + UrlLink(src, url, RawResolver(k.root, fs.canonical), pathToZid)
  {
    var canon := fs.Canonicalize(PushStr(k.root, url));
    ghost var step := UrlLink(src, url, RawResolver(k.root, fs.canonical), pathToZid);
    if canon.Ok? && canon.value in pathToZid {
      var destId := pathToZid[canon.value];
      var link := Links.Link(src, destId);
      var e := Edge(zidToNode[src], zidToNode[destId], link);
      LinksSnoc(k.edges, e);
      k.AddEdge(e.src, e.dst, link);
      assert step == [link];
    } else {
      assert step == [];
      assert LinksOf(k.edges) + step == LinksOf(k.edges);
    }
  }

  /** The last pass for one note: each of its targets in turn. */
  method AddUrlEdges(k: Kasten, src: Id.ZettelId, urls: seq<string>, fs: Fs.FileSystem,
                     pathToZid: map<PathBuf, Id.ZettelId>, zidToNode: map<Id.ZettelId, nat>)
    requires k.Linked() && Indexes(zidToNode, k.nodes) && src in zidToNode
    requires forall c :: c in pathToZid ==> pathToZid[c] in zidToNode
    modifies k
    ensures k.Linked()
    ensures k.nodes == old(k.nodes) && k.root == old(k.root)
    ensures LinksOf(k.edges) == LinksOf(old(k.edges)) + UrlLinks(src, urls, RawResolver(k.root, fs.canonical), pathToZid)
  {
    ghost var resolve := RawResolver(k.root, fs.canonical);
    ghost var before := LinksOf(k.edges);
    var j := 0;
    while j < |urls|
      invariant 0 <= j <= |urls|
      invariant k.Linked() && k.nodes == old(k.nodes) && k.root == old(k.root)
      invariant LinksOf(k.edges) == before + UrlLinks(src, urls[..j], resolve, pathToZid)
    {
      UrlLinksSnoc(src, urls, j, resolve, pathToZid);
      Text.AppendAssoc(before, UrlLinks(src, urls[..j], resolve, pathToZid), UrlLink(src, urls[j], resolve, pathToZid));
      AddUrlEdge(k, src, urls[j], fs, pathToZid, zidToNode);
      j := j + 1;
    }
    assert urls[..j] == urls;
  }

  lemma LinksSnoc(edges: seq<Edge>, e: Edge)
    ensures LinksOf(edges + [e]) == LinksOf(edges) + [e.link]
  {
    assert (edges + [e])[..|edges|] == edges;
  }

  /** The second pass: one node per note, in order, and the id index. */
  method AddNodes(k: Kasten, valid: seq<Zettels.Zettel>) returns (zidToNode: map<Id.ZettelId, nat>)
    requires k.Linked() && k.nodes == [] && k.edges == []
    modifies k
    ensures k.Linked() && k.nodes == valid && k.edges == [] && k.root == old(k.root)
    ensures zidToNode == NodeIndex(valid)
  {
    zidToNode := map[];
    var i := 0;
    while i < |valid|
      invariant 0 <= i <= |valid|
      invariant k.nodes == valid[..i] && k.edges == [] && k.root == old(k.root) && k.Linked()
      invariant zidToNode == NodeIndex(valid[..i])
    {
      assert valid[..i + 1][..i] == valid[..i];
      var nid := k.AddNode(valid[i]);
      zidToNode := zidToNode[valid[i].id := nid];
      i := i + 1;
    }
    assert valid[..i] == valid;
  }

  /** The last pass: the edges of every note, note by note. */
  method AddEdges(k: Kasten, scan: string -> seq<string>, fs: Fs.FileSystem,
                  pathToZid: map<PathBuf, Id.ZettelId>, zidToNode: map<Id.ZettelId, nat>)
    requires k.Linked() && Indexes(zidToNode, k.nodes) && k.edges == []
    requires forall n :: 0 <= n < |k.nodes| ==> k.nodes[n].id in zidToNode
    requires forall c :: c in pathToZid ==> pathToZid[c] in zidToNode
    modifies k
    ensures k.Linked() && k.nodes == old(k.nodes) && k.root == old(k.root)
    ensures LinksOf(k.edges) == EdgeLinks(k.nodes, scan, RawResolver(k.root, fs.canonical), pathToZid)
  {
    ghost var resolve := RawResolver(k.root, fs.canonical);
    ghost var valid := k.nodes;
    var i := 0;
    while i < |k.nodes|
      invariant 0 <= i <= |valid|
      invariant k.nodes == valid && k.root == old(k.root) && k.Linked()
      invariant LinksOf(k.edges) == EdgeLinks(valid[..i], scan, resolve, pathToZid)
    {
      EdgeLinksSnoc(valid, i, scan, resolve, pathToZid);
      AddUrlEdges(k, k.nodes[i].id, scan(k.nodes[i].content), fs, pathToZid, zidToNode);
      i := i + 1;
    }
    assert valid[..i] == valid;
  }

  /** Every id in the path index has a node. */
  lemma IndexedIdsHaveNodes(valid: seq<Zettels.Zettel>, canonical: map<Path, PathBuf>)
    requires AllCanonical(valid, canonical)
    ensures forall c :: c in PathIndex(valid, canonical) ==> PathIndex(valid, canonical)[c] in NodeIndex(valid)
  {
    PathIndexOf(valid, canonical);
    NodeIndexOf(valid);
    var m := PathIndex(valid, canonical);
    forall c | c in m ensures m[c] in NodeIndex(valid) {
      var n :| 0 <= n < |valid| && valid[n].id == m[c];
    }
  }

  /** `TryFrom<PathBuf> for Kasten` (`Kasten::parse`): the survivors of the
      directory listing become the nodes, in listing order; then each link
      of a note to an ingested note becomes an edge. `scan` stands for the
      markdown scan that yields a body's link targets. */
  method Parse(fs: Fs.FileSystem, root: PathBuf, scan: string -> seq<string>) returns (r: Result<Kasten>)
    ensures fs.ReadDir(root).Err? ==> r == Err(fs.ReadDir(root).error)
    ensures fs.ReadDir(root).Ok? ==>
      var zs := Nodes(Survivors(fs.files, fs.ReadDir(root).value));
      && (r.Ok? <==> AllCanonical(zs, fs.canonical))
      && (r.Err? ==> r.error == FileError(Fs.IoFailure))
      && (r.Ok? ==>
        && fresh(r.value) && r.value.root == root && r.value.nodes == zs && r.value.Linked()
        && LinksOf(r.value.edges) == EdgeLinks(zs, scan, RawResolver(root, fs.canonical), PathIndex(zs, fs.canonical)))
  {
    var listing :- fs.ReadDir(root);
    var made := MakeNotes(fs, Survivors(fs.files, listing));
    if made.Err? {
      return Err(made.error);
    }
    var valid := made.value.0;
    var pathToZid := made.value.1;
    NodeIndexOf(valid);
    IndexedIdsHaveNodes(valid, fs.canonical);
    var k := new Kasten(root);
    var zidToNode := AddNodes(k, valid);
    AddEdges(k, scan, fs, pathToZid, zidToNode);
    r := Ok(k);
  }
}
