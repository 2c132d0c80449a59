/** The note-link graph (`getGraphData` in the note service and its copy
    `generateGraphData` in the notes route): one node per note, sized by the
    length of its content and coloured by its tags, and a list of links.
    Explicit `linkedNoteIds` give links of strength 1; `[[Title]]`
    references in the content give links of strength 0.8, unless the
    referenced note is the note itself or some earlier link already joins
    the two notes in either direction.

    The specification of the link list is a left fold that follows the
    source's loops exactly: notes in order, then for each note its
    `linkedNoteIds` in order, then its extracted titles in order. */
module NoteGraph {
  import Seqs
  import Backlinks

  /** A stored note. Timestamps are kept as opaque numbers. */
  datatype Note = Note(
    id: string,
    title: string,
    content: string,
    tags: seq<string>,
    linkedNoteIds: seq<string>,
    createdAt: int,
    updatedAt: int)

  datatype GraphNode = GraphNode(id: string, title: string, tags: seq<string>, size: real, color: string)

  datatype Link = Link(source: string, target: string, strength: real)

  datatype GraphData = GraphData(nodes: seq<GraphNode>, links: seq<Link>)

  const ExplicitStrength: real := 1.0
  const BacklinkStrength: real := 0.8

  /** `Math.max(10, Math.min(30, length / 50))`. */
  function NodeSize(length: nat): (r: real)
    ensures 10.0 <= r <= 30.0
    ensures length <= 500 ==> r == 10.0
    ensures length >= 1500 ==> r == 30.0
    ensures 500 <= length <= 1500 ==> r * 50.0 == length as real
  {
    var q := length as real / 50.0;
    var m := if q < 30.0 then q else 30.0;
    if 10.0 < m then m else 10.0
  }

  /** The colour table, highest priority first. */
  const Palette: seq<(string, string)> := [
    ("project", "#10b981"),
    ("meeting", "#3b82f6"),
    ("idea", "#8b5cf6"),
    ("important", "#ef4444"),
    ("daily", "#f59e0b")
  ]

  const DefaultColor: string := "#06b6d4"

  /** `getNodeColor`: the colour of the first tag of the table that the
      note carries, or teal. */
  function NodeColor(tags: seq<string>): (r: string)
  {
    if "project" in tags then "#10b981"
    else if "meeting" in tags then "#3b82f6"
    else if "idea" in tags then "#8b5cf6"
    else if "important" in tags then "#ef4444"
    else if "daily" in tags then "#f59e0b"
    else DefaultColor
  }

  /** The colour chosen by scanning the table from position `k`. */
  function PaletteColor(tags: seq<string>, k: nat): string
    requires k <= |Palette|
    decreases |Palette| - k
  {
    if k == |Palette| then DefaultColor
    else if Palette[k].0 in tags then Palette[k].1
    else PaletteColor(tags, k + 1)
  }

  /** The chain of `if`s is the table read by priority: a note gets the
      colour of entry `k` exactly when it carries that entry's tag and none
      of a higher priority, and the default exactly when it carries none. */
  lemma NodeColorByPriority(tags: seq<string>)
    ensures NodeColor(tags) == PaletteColor(tags, 0)
    ensures forall k :: 0 <= k < |Palette| ==>
      (NodeColor(tags) == Palette[k].1 <==>
        Palette[k].0 in tags && forall m :: 0 <= m < k ==> Palette[m].0 !in tags)
    ensures NodeColor(tags) == DefaultColor <==> forall m :: 0 <= m < |Palette| ==> Palette[m].0 !in tags
  {
    assert Palette[0].0 == "project" && Palette[1].0 == "meeting" && Palette[2].0 == "idea";
    assert Palette[3].0 == "important" && Palette[4].0 == "daily";
  }

  /** The node drawn for a note. */
  function NodeOf(n: Note): GraphNode {
    GraphNode(n.id, n.title, n.tags, NodeSize(|n.content|), NodeColor(n.tags))
  }

  /** `notes.map(...)`: one node per note, in note order. */
  function Nodes(notes: seq<Note>): (r: seq<GraphNode>)
    ensures |r| == |notes|
    ensures forall i :: 0 <= i < |r| ==>
      r[i].id == notes[i].id && r[i].title == notes[i].title && r[i].tags == notes[i].tags
      && r[i].size == NodeSize(|notes[i].content|) && 10.0 <= r[i].size <= 30.0
      && r[i].color == NodeColor(notes[i].tags)
  {
    seq(|notes|, i requires 0 <= i < |notes| => NodeOf(notes[i]))
  }

  /** `notes.find(n => n.id === id)` is truthy. */
  predicate HasId(notes: seq<Note>, id: string) {
    exists i | 0 <= i < |notes| :: notes[i].id == id
  }

  /** `notes.findIndex(n => n.id === id)`. */
  function IndexOfId(notes: seq<Note>, id: string): (r: int)
    ensures -1 <= r < |notes|
    ensures 0 <= r ==> notes[r].id == id && forall j :: 0 <= j < r ==> notes[j].id != id
    ensures r == -1 <==> !HasId(notes, id)
  {
    Seqs.FindIndex(notes, (n: Note) => n.id == id)
  }

  /** `notes.find(n => n.id === id)`: the first note with that id. */
  function FindById(notes: seq<Note>, id: string): (r: Seqs.Option<Note>)
    ensures r.Some? ==>
      r.value.id == id && exists k :: 0 <= k < |notes| && notes[k] == r.value && forall j :: 0 <= j < k ==> notes[j].id != id
    ensures r.None? <==> !HasId(notes, id)
  {
    var k := IndexOfId(notes, id);
    if k == -1 then Seqs.None else Seqs.Some(notes[k])
  }

  /** `notes.find(n => n.title === title)`: the first note with that title. */
  function FindByTitle(notes: seq<Note>, title: string): (r: Seqs.Option<Note>)
    ensures r.Some? ==>
      r.value.title == title && exists k :: 0 <= k < |notes| && notes[k] == r.value && forall j :: 0 <= j < k ==> notes[j].title != title
    ensures r.None? <==> forall n :: n in notes ==> n.title != title
  {
    Seqs.Find(notes, (n: Note) => n.title == title)
  }

  /** The link joins `a` and `b`, in either direction. */
  predicate Joins(l: Link, a: string, b: string) {
    (l.source == a && l.target == b) || (l.source == b && l.target == a)
  }

  /** `links.find(...)` for a link joining `a` and `b` is truthy. */
  predicate HasLinkBetween(links: seq<Link>, a: string, b: string) {
    exists i | 0 <= i < |links| :: Joins(links[i], a, b)
  }

  /** One round of the `linkedNoteIds` loop of the note `srcId`. */
  function ExplicitStep(notes: seq<Note>, srcId: string, links: seq<Link>, linkedId: string): seq<Link> {
    if HasId(notes, linkedId) then links + [Link(srcId, linkedId, ExplicitStrength)] else links
  }

  /** The `linkedNoteIds` loop over `ids`, starting from `links`. */
  function AddExplicit(notes: seq<Note>, srcId: string, ids: seq<string>, links: seq<Link>): seq<Link>
    decreases |ids|
  {
    if ids == [] then links
    else ExplicitStep(notes, srcId, AddExplicit(notes, srcId, ids[..|ids| - 1], links), ids[|ids| - 1])
  }

  /** One round of the extracted-titles loop of the note `srcId`. */
  function BacklinkStep(notes: seq<Note>, srcId: string, links: seq<Link>, title: string): seq<Link> {
    match FindByTitle(notes, title)
    case None => links
    case Some(t) =>
      if t.id != srcId && !HasLinkBetween(links, srcId, t.id)
      then links + [Link(srcId, t.id, BacklinkStrength)]
      else links
  }

  /** The extracted-titles loop over `titles`, starting from `links`. */
  function AddBacklinks(notes: seq<Note>, srcId: string, titles: seq<string>, links: seq<Link>): seq<Link>
    decreases |titles|
  {
    if titles == [] then links
    else BacklinkStep(notes, srcId, AddBacklinks(notes, srcId, titles[..|titles| - 1], links), titles[|titles| - 1])
  }

  /** Both inner loops for one note. */
  function NoteLinks(notes: seq<Note>, n: Note, links: seq<Link>): seq<Link> {
    AddBacklinks(notes, n.id, Backlinks.Extract(n.content), AddExplicit(notes, n.id, n.linkedNoteIds, links))
  }

  /** The links after the outer loop has handled the first `k` notes. */
  function LinksUpTo(notes: seq<Note>, k: nat): seq<Link>
    requires k <= |notes|
  {
    if k == 0 then [] else NoteLinks(notes, notes[k - 1], LinksUpTo(notes, k - 1))
  }

  /** The link list of the whole graph. */
  function AllLinks(notes: seq<Note>): seq<Link> {
    LinksUpTo(notes, |notes|)
  }

  /** What `getGraphData` returns for the stored notes. */
  function GraphOf(notes: seq<Note>): GraphData {
    GraphData(Nodes(notes), AllLinks(notes))
  }

  /** The loop over one note's `linkedNoteIds`: an id that names a stored
      note is pushed as a link of strength 1, with no other check. */
  method PushExplicitLinks(notes: seq<Note>, note: Note, links0: seq<Link>) returns (links: seq<Link>)
    ensures links == AddExplicit(notes, note.id, note.linkedNoteIds, links0)
  {
    var ids := note.linkedNoteIds;
    links := links0;
    for m := 0 to |ids|
      invariant links == AddExplicit(notes, note.id, ids[..m], links0)
    {
      var linkedId := ids[m];
      if HasId(notes, linkedId) {
        links := links + [Link(note.id, linkedId, ExplicitStrength)];
      }
      assert ids[..m + 1][..m] == ids[..m];
    }
    assert ids[..|ids|] == ids;
  }

  /** The titles extracted from one note's content, then the loop over
      them. */
  method PushBacklinks(notes: seq<Note>, note: Note, links0: seq<Link>) returns (links: seq<Link>)
    ensures links == AddBacklinks(notes, note.id, Backlinks.Extract(note.content), links0)
  {
    var backlinks := Backlinks.ExtractBacklinks(note.content);
    links := PushTitleLinks(notes, note.id, backlinks, links0);
  }

  /** The loop over extracted titles: a title that resolves to another note
      is pushed as a link of strength 0.8 unless a link already joins the
      two notes. */
  method PushTitleLinks(notes: seq<Note>, id: string, titles: seq<string>, links0: seq<Link>)
    returns (links: seq<Link>)
    ensures links == AddBacklinks(notes, id, titles, links0)
  {
    links := links0;
    for m := 0 to |titles|
      invariant links == AddBacklinks(notes, id, titles[..m], links0)
    {
      var target := FindByTitle(notes, titles[m]);
      if target.Some? && target.value.id != id {
        if !HasLinkBetween(links, id, target.value.id) {
          links := links + [Link(id, target.value.id, BacklinkStrength)];
        }
      }
      assert titles[..m + 1][..m] == titles[..m];
    }
    assert titles[..|titles|] == titles;
  }

  /** `getGraphData` / `generateGraphData`: nodes by `map`, then the outer
      loop over the notes. */
  method BuildGraph(notes: seq<Note>) returns (g: GraphData)
    ensures g == GraphOf(notes)
  {
    var nodes := Nodes(notes);
    var links: seq<Link> := [];
    for k := 0 to |notes|
      invariant links == LinksUpTo(notes, k)
    {
      links := PushExplicitLinks(notes, notes[k], links);
      links := PushBacklinks(notes, notes[k], links);
    }
    g := GraphData(nodes, links);
  }

  // ----- What every link list built by the loops satisfies -----

  /** The link was pushed by the `linkedNoteIds` loop of some note. */
  predicate ExplicitOrigin(notes: seq<Note>, l: Link) {
    exists n :: n in notes && n.id == l.source && l.target in n.linkedNoteIds
  }

  /** The link was pushed by the titles loop of some note. */
  predicate BacklinkOrigin(notes: seq<Note>, l: Link) {
    exists n, t :: n in notes && t in Backlinks.Extract(n.content) && n.id == l.source
      && FindByTitle(notes, t) != Seqs.None && FindByTitle(notes, t).value.id == l.target
  }

  /** A link may follow the links `earlier`: both its ends are ids of
      stored notes, and it is either explicit (strength 1) and explained by
      a `linkedNoteIds` entry, or a backlink (strength 0.8) that is explained
      by an extracted title, is not a self-loop and joins a pair that no
      earlier link joins. */
  predicate LinkOk(notes: seq<Note>, earlier: seq<Link>, l: Link) {
    HasId(notes, l.source) && HasId(notes, l.target)
    && ((l.strength == ExplicitStrength && ExplicitOrigin(notes, l))
        || (l.strength == BacklinkStrength && l.source != l.target && BacklinkOrigin(notes, l)
            && !HasLinkBetween(earlier, l.source, l.target)))
  }

  /** The invariant of the link list: every link may follow the ones before it. */
  predicate LinksValid(notes: seq<Note>, links: seq<Link>)
    decreases |links|
  {
    links == [] || (LinksValid(notes, links[..|links| - 1]) && LinkOk(notes, links[..|links| - 1], links[|links| - 1]))
  }

  lemma LinksValidAppend(notes: seq<Note>, links: seq<Link>, l: Link)
    requires LinksValid(notes, links) && LinkOk(notes, links, l)
    ensures LinksValid(notes, links + [l])
  {
    assert (links + [l])[..|links|] == links;
  }

  /** The recursive invariant, position by position. */
  lemma {:induction false} LinksValidAt(notes: seq<Note>, links: seq<Link>)
    requires LinksValid(notes, links)
    ensures forall i :: 0 <= i < |links| ==> LinkOk(notes, links[..i], links[i])
    decreases |links|
  {
    if links != [] {
      var init := links[..|links| - 1];
      LinksValidAt(notes, init);
      forall i | 0 <= i < |init|
        ensures LinkOk(notes, links[..i], links[i])
      {
        assert init[..i] == links[..i] && init[i] == links[i];
      }
    }
  }

  lemma {:induction false} AddExplicitValid(notes: seq<Note>, n: Note, ids: seq<string>, links: seq<Link>)
    requires n in notes && LinksValid(notes, links)
    requires forall id :: id in ids ==> id in n.linkedNoteIds
    ensures LinksValid(notes, AddExplicit(notes, n.id, ids, links))
    ensures links <= AddExplicit(notes, n.id, ids, links)
    decreases |ids|
  {
    if ids != [] {
      var prefix := ids[..|ids| - 1];
      var id := ids[|ids| - 1];
      assert forall x :: x in prefix ==> x in ids;
      AddExplicitValid(notes, n, prefix, links);
      var before := AddExplicit(notes, n.id, prefix, links);
      if HasId(notes, id) {
        var l := Link(n.id, id, ExplicitStrength);
        assert ExplicitOrigin(notes, l);
        assert HasId(notes, n.id) by {
          var i :| 0 <= i < |notes| && notes[i] == n;
        }
        LinksValidAppend(notes, before, l);
      }
    }
  }

  lemma BacklinkStepValid(notes: seq<Note>, n: Note, t: string, links: seq<Link>)
    requires n in notes && t in Backlinks.Extract(n.content) && LinksValid(notes, links)
    ensures LinksValid(notes, BacklinkStep(notes, n.id, links, t))
    ensures links <= BacklinkStep(notes, n.id, links, t)
  {
    var found := FindByTitle(notes, t);
    if found.Some? && found.value.id != n.id && !HasLinkBetween(links, n.id, found.value.id) {
      var target := found.value;
      var l := Link(n.id, target.id, BacklinkStrength);
      assert BacklinkOrigin(notes, l);
      assert HasId(notes, n.id) by {
        var i :| 0 <= i < |notes| && notes[i] == n;
      }
      assert HasId(notes, target.id) by {
        var i :| 0 <= i < |notes| && notes[i] == target;
      }
      LinksValidAppend(notes, links, l);
    }
  }

  lemma {:induction false} AddBacklinksValid(notes: seq<Note>, n: Note, titles: seq<string>, links: seq<Link>)
    requires n in notes && LinksValid(notes, links)
    requires forall t :: t in titles ==> t in Backlinks.Extract(n.content)
    ensures LinksValid(notes, AddBacklinks(notes, n.id, titles, links))
    ensures links <= AddBacklinks(notes, n.id, titles, links)
    decreases |titles|
  {
    if titles != [] {
      var prefix := titles[..|titles| - 1];
      assert forall x :: x in prefix ==> x in titles;
      AddBacklinksValid(notes, n, prefix, links);
      BacklinkStepValid(notes, n, titles[|titles| - 1], AddBacklinks(notes, n.id, prefix, links));
    }
  }

  lemma NoteLinksValid(notes: seq<Note>, n: Note, links: seq<Link>)
    requires n in notes && LinksValid(notes, links)
    ensures LinksValid(notes, NoteLinks(notes, n, links))
    ensures links <= NoteLinks(notes, n, links)
  {
    AddExplicitValid(notes, n, n.linkedNoteIds, links);
    AddBacklinksValid(notes, n, Backlinks.Extract(n.content), AddExplicit(notes, n.id, n.linkedNoteIds, links));
  }

  lemma {:induction false} LinksUpToValid(notes: seq<Note>, k: nat)
    requires k <= |notes|
    ensures LinksValid(notes, LinksUpTo(notes, k))
  {
    if k > 0 {
      LinksUpToValid(notes, k - 1);
      NoteLinksValid(notes, notes[k - 1], LinksUpTo(notes, k - 1));
    }
  }

  lemma {:induction false} AddExplicitGrows(notes: seq<Note>, srcId: string, ids: seq<string>, links: seq<Link>)
    ensures links <= AddExplicit(notes, srcId, ids, links)
    decreases |ids|
  {
    if ids != [] {
      AddExplicitGrows(notes, srcId, ids[..|ids| - 1], links);
    }
  }

  lemma {:induction false} AddBacklinksGrows(notes: seq<Note>, srcId: string, titles: seq<string>, links: seq<Link>)
    ensures links <= AddBacklinks(notes, srcId, titles, links)
    decreases |titles|
  {
    if titles != [] {
      AddBacklinksGrows(notes, srcId, titles[..|titles| - 1], links);
    }
  }

  /** Links only ever get appended: the list after `k` notes is a prefix of
      the list after `k'` notes. */
  lemma {:induction false} LinksUpToGrows(notes: seq<Note>, k: nat, k': nat)
    requires k <= k' <= |notes|
    ensures LinksUpTo(notes, k) <= LinksUpTo(notes, k')
    decreases k' - k
  {
    if k < k' {
      LinksUpToGrows(notes, k, k' - 1);
      NoteLinksGrows(notes, notes[k' - 1], LinksUpTo(notes, k' - 1));
    }
  }

  /** One note's round only appends. */
  lemma NoteLinksGrows(notes: seq<Note>, n: Note, links: seq<Link>)
    ensures links <= NoteLinks(notes, n, links)
  {
    AddExplicitGrows(notes, n.id, n.linkedNoteIds, links);
    AddBacklinksGrows(notes, n.id, Backlinks.Extract(n.content), AddExplicit(notes, n.id, n.linkedNoteIds, links));
  }

  /** What the graph's links satisfy, on every note list:
      both ends are stored ids; strengths are 1 or 0.8; a 0.8 link is never
      a self-loop and no earlier link joins its pair; every link is
      explained by a `linkedNoteIds` entry or an extracted title. */
  lemma GraphLinksValid(notes: seq<Note>)
    ensures var links := AllLinks(notes);
      (forall l :: l in links ==> HasId(notes, l.source) && HasId(notes, l.target))
      && (forall l :: l in links ==> l.strength == ExplicitStrength || l.strength == BacklinkStrength)
      && (forall l :: l in links && l.strength == ExplicitStrength ==> ExplicitOrigin(notes, l))
      && (forall l :: l in links && l.strength == BacklinkStrength ==>
            l.source != l.target && BacklinkOrigin(notes, l))
      && (forall i, j :: 0 <= j < i < |links| && links[i].strength == BacklinkStrength ==>
            !Joins(links[j], links[i].source, links[i].target))
  {
    var links := AllLinks(notes);
    LinksUpToValid(notes, |notes|);
    LinksValidAt(notes, links);
    forall l | l in links
      ensures LinkOk(notes, [], l)
    {
      var i :| 0 <= i < |links| && links[i] == l;
      assert LinkOk(notes, links[..i], l);
    }
    forall i, j | 0 <= j < i < |links| && links[i].strength == BacklinkStrength
      ensures !Joins(links[j], links[i].source, links[i].target)
    {
      assert LinkOk(notes, links[..i], links[i]);
      assert links[..i][j] == links[j];
    }
  }

  // ----- Completeness: every reference that should produce a link does -----

  lemma {:induction false} AddExplicitComplete(notes: seq<Note>, srcId: string, ids: seq<string>, links: seq<Link>, id: string)
    requires id in ids && HasId(notes, id)
    ensures Link(srcId, id, ExplicitStrength) in AddExplicit(notes, srcId, ids, links)
    decreases |ids|
  {
    var prefix := ids[..|ids| - 1];
    var before := AddExplicit(notes, srcId, prefix, links);
    if id == ids[|ids| - 1] {
      assert AddExplicit(notes, srcId, ids, links) == before + [Link(srcId, id, ExplicitStrength)];
    } else {
      assert id in prefix by {
        var i :| 0 <= i < |ids| && ids[i] == id;
        assert prefix[i] == id;
      }
      AddExplicitComplete(notes, srcId, prefix, links, id);
    }
  }

  /** Membership survives appending. */
  lemma InPrefix<T>(x: T, a: seq<T>, b: seq<T>)
    requires x in a && a <= b
    ensures x in b
  {
    var i :| 0 <= i < |a| && a[i] == x;
    assert b[i] == x;
  }

  /** Every `linkedNoteIds` entry that names a stored note becomes a link of
      strength 1 — including a note's link to itself. */
  lemma ExplicitLinkPresent(notes: seq<Note>, k: nat, id: string)
    requires k < |notes| && id in notes[k].linkedNoteIds && HasId(notes, id)
    ensures Link(notes[k].id, id, ExplicitStrength) in AllLinks(notes)
  {
    var n := notes[k];
    var l := Link(n.id, id, ExplicitStrength);
    var base := LinksUpTo(notes, k);
    AddExplicitComplete(notes, n.id, n.linkedNoteIds, base, id);
    var mid := AddExplicit(notes, n.id, n.linkedNoteIds, base);
    AddBacklinksGrows(notes, n.id, Backlinks.Extract(n.content), mid);
    InPrefix(l, mid, LinksUpTo(notes, k + 1));
    LinksUpToGrows(notes, k + 1, |notes|);
    InPrefix(l, LinksUpTo(notes, k + 1), LinksUpTo(notes, |notes|));
  }

  /** After the titles loop, every title that resolves to another note has
      a link joining the two notes (pushed now or already there). */
  lemma {:induction false} AddBacklinksComplete(notes: seq<Note>, srcId: string, titles: seq<string>, links: seq<Link>, t: string)
    requires t in titles
    requires FindByTitle(notes, t).Some? && FindByTitle(notes, t).value.id != srcId
    ensures HasLinkBetween(AddBacklinks(notes, srcId, titles, links), srcId, FindByTitle(notes, t).value.id)
    decreases |titles|
  {
    var target := FindByTitle(notes, t).value.id;
    var prefix := titles[..|titles| - 1];
    var before := AddBacklinks(notes, srcId, prefix, links);
    var after := AddBacklinks(notes, srcId, titles, links);
    if t == titles[|titles| - 1] {
      if HasLinkBetween(before, srcId, target) {
        var i :| 0 <= i < |before| && Joins(before[i], srcId, target);
        assert after[i] == before[i];
      } else {
        assert after[|before|] == Link(srcId, target, BacklinkStrength);
      }
    } else {
      assert t in prefix by {
        var i :| 0 <= i < |titles| && titles[i] == t;
        assert prefix[i] == t;
      }
      AddBacklinksComplete(notes, srcId, prefix, links, t);
      var i :| 0 <= i < |before| && Joins(before[i], srcId, target);
      assert after[i] == before[i];
    }
  }

  /** A `[[Title]]` reference in a note's content that resolves (first note
      with that title) to a different note leaves a link joining the two, in
      one direction or the other and of either strength. */
  lemma BacklinkJoined(notes: seq<Note>, k: nat, t: string)
    requires k < |notes| && t in Backlinks.Extract(notes[k].content)
    requires FindByTitle(notes, t).Some? && FindByTitle(notes, t).value.id != notes[k].id
    ensures HasLinkBetween(AllLinks(notes), notes[k].id, FindByTitle(notes, t).value.id)
  {
    var n := notes[k];
    var target := FindByTitle(notes, t).value.id;
    var mid := AddExplicit(notes, n.id, n.linkedNoteIds, LinksUpTo(notes, k));
    AddBacklinksComplete(notes, n.id, Backlinks.Extract(n.content), mid, t);
    assert LinksUpTo(notes, k + 1) == AddBacklinks(notes, n.id, Backlinks.Extract(n.content), mid);
    LinksUpToGrows(notes, k + 1, |notes|);
    JoinedKept(LinksUpTo(notes, k + 1), AllLinks(notes), n.id, target);
  }

  /** Appending links keeps every pair that was joined. */
  lemma JoinedKept(links: seq<Link>, more: seq<Link>, a: string, b: string)
    requires links <= more && HasLinkBetween(links, a, b)
    ensures HasLinkBetween(more, a, b)
  {
    var i :| 0 <= i < |links| && Joins(links[i], a, b);
    assert more[i] == links[i];
  }

  // ----- Where the code does not deduplicate -----

  /** The number of strength-1 links in a list. */
  function CountExplicit(links: seq<Link>): nat {
    if links == [] then 0
    else CountExplicit(links[..|links| - 1]) + (if links[|links| - 1].strength == ExplicitStrength then 1 else 0)
  }

  /** The number of entries of `ids` that name a stored note, repeats counted. */
  function CountPresent(notes: seq<Note>, ids: seq<string>): nat {
    if ids == [] then 0
    else CountPresent(notes, ids[..|ids| - 1]) + (if HasId(notes, ids[|ids| - 1]) then 1 else 0)
  }

  /** The entries of the first `k` notes' `linkedNoteIds` that name a stored note. */
  function ExplicitEntries(notes: seq<Note>, k: nat): nat
    requires k <= |notes|
  {
    if k == 0 then 0 else ExplicitEntries(notes, k - 1) + CountPresent(notes, notes[k - 1].linkedNoteIds)
  }

  lemma {:induction false} CountExplicitAppend(a: seq<Link>, l: Link)
    ensures CountExplicit(a + [l]) == CountExplicit(a) + (if l.strength == ExplicitStrength then 1 else 0)
  {
    assert (a + [l])[..|a|] == a;
  }

  lemma {:induction false} AddExplicitCount(notes: seq<Note>, srcId: string, ids: seq<string>, links: seq<Link>)
    ensures CountExplicit(AddExplicit(notes, srcId, ids, links)) == CountExplicit(links) + CountPresent(notes, ids)
    decreases |ids|
  {
    if ids != [] {
      var prefix := ids[..|ids| - 1];
      AddExplicitCount(notes, srcId, prefix, links);
      var before := AddExplicit(notes, srcId, prefix, links);
      if HasId(notes, ids[|ids| - 1]) {
        CountExplicitAppend(before, Link(srcId, ids[|ids| - 1], ExplicitStrength));
      }
    }
  }

  lemma {:induction false} AddBacklinksCount(notes: seq<Note>, srcId: string, titles: seq<string>, links: seq<Link>)
    ensures CountExplicit(AddBacklinks(notes, srcId, titles, links)) == CountExplicit(links)
    decreases |titles|
  {
    if titles != [] {
      var prefix := titles[..|titles| - 1];
      AddBacklinksCount(notes, srcId, prefix, links);
      var before := AddBacklinks(notes, srcId, prefix, links);
      var found := FindByTitle(notes, titles[|titles| - 1]);
      if found.Some? && found.value.id != srcId && !HasLinkBetween(before, srcId, found.value.id) {
        CountExplicitAppend(before, Link(srcId, found.value.id, BacklinkStrength));
      }
    }
  }

  /** Explicit links are never deduplicated: there is one strength-1 link
      per `linkedNoteIds` entry that names a stored note, so a repeated
      entry gives repeated links, an entry naming the note itself gives a
      self-loop, and an entry duplicating an earlier backlink is still
      pushed. */
  lemma {:induction false} ExplicitLinkCount(notes: seq<Note>, k: nat)
    requires k <= |notes|
    ensures CountExplicit(LinksUpTo(notes, k)) == ExplicitEntries(notes, k)
  {
    if k > 0 {
      ExplicitLinkCount(notes, k - 1);
      NoteLinksCount(notes, notes[k - 1], LinksUpTo(notes, k - 1));
    }
  }

  /** One note's round adds one strength-1 link per entry that names a
      stored note, and no other. */
  lemma NoteLinksCount(notes: seq<Note>, n: Note, links: seq<Link>)
    ensures CountExplicit(NoteLinks(notes, n, links)) == CountExplicit(links) + CountPresent(notes, n.linkedNoteIds)
  {
    AddExplicitCount(notes, n.id, n.linkedNoteIds, links);
    AddBacklinksCount(notes, n.id, Backlinks.Extract(n.content), AddExplicit(notes, n.id, n.linkedNoteIds, links));
  }
}
