/** The notes route's `GET` handler and its helpers. Query parameters
    that are absent are `None`; `search` and `tag` are used only when
    present and non-empty (JavaScript truthiness), `graph` only when it is
    exactly `"true"`. The helpers `generateGraphData`, `extractBacklinks` and
    `getNodeColor` of this file are line-for-line copies of the note
    service's; each is modelled by calling the shared definition, and its
    contract ties it to the same specification. */
module NotesRoute {
  import Seqs
  import Text
  import Backlinks
  import NoteGraph
  import NoteService

  type Note = NoteGraph.Note

  /** The JSON body of a successful response. */
  datatype Response = GraphResponse(graph: NoteGraph.GraphData) | NotesResponse(notes: seq<Note>)

  /** A query parameter that is present and non-empty. */
  predicate Truthy(param: Seqs.Option<string>) {
    param.Some? && param.value != []
  }

  /** The search step: all notes, or those matching the search. */
  function SearchStep(notes: seq<Note>, search: Seqs.Option<string>): seq<Note>
  {
    if Truthy(search) then NoteService.SearchByContent(notes, search.value) else notes
  }

  /** The list branch of `GET`: the search filter, then the exact tag filter. */
  function FilterNotes(notes: seq<Note>, search: Seqs.Option<string>, tag: Seqs.Option<string>): (r: seq<Note>)
    ensures Seqs.IsSubseq(r, notes)
    ensures forall n :: n in r <==>
      n in notes
      && (Truthy(search) ==> Text.RecordMatches(n.title, n.content, n.tags, search.value))
      && (Truthy(tag) ==> tag.value in n.tags)
    ensures forall n :: n in notes ==>
      multiset(r)[n] == if (Truthy(search) ==> Text.RecordMatches(n.title, n.content, n.tags, search.value))
        && (Truthy(tag) ==> tag.value in n.tags) then multiset(notes)[n] else 0
    ensures !Truthy(search) && !Truthy(tag) ==> r == notes
  {
    var afterSearch := SearchStep(notes, search);
    Seqs.SubseqRefl(notes);
    var r := if Truthy(tag) then NoteService.GetByTag(afterSearch, tag.value) else afterSearch;
    Seqs.SubseqRefl(afterSearch);
    Seqs.SubseqTransitive(r, afterSearch, notes);
    r
  }

  /** `generateGraphData`. */
  method GenerateGraphData(notes: seq<Note>) returns (g: NoteGraph.GraphData)
    ensures g == NoteGraph.GraphOf(notes)
    ensures |g.nodes| == |notes|
    ensures forall i :: 0 <= i < |g.nodes| ==> 10.0 <= g.nodes[i].size <= 30.0
    ensures forall l :: l in g.links ==> NoteGraph.HasId(notes, l.source) && NoteGraph.HasId(notes, l.target)
  {
    g := NoteGraph.BuildGraph(notes);
    NoteGraph.GraphLinksValid(notes);
  }

  /** This file's `extractBacklinks`: the same scan as the note service's. */
  method ExtractBacklinks(content: string) returns (matches: seq<string>)
    ensures matches == Backlinks.Extract(content)
    ensures forall t :: t in matches ==> ']' !in t
  {
    matches := Backlinks.ExtractBacklinks(content);
    Backlinks.NoCloseBracket(content);
  }

  /** This file's `getNodeColor`: the same chain of tag tests as the note
      service's, which reads the colour table by priority. */
  function NodeColor(tags: seq<string>): (r: string)
    ensures r == NoteGraph.PaletteColor(tags, 0)
    ensures r == NoteGraph.NodeColor(tags)
  {
    NoteGraph.NodeColorByPriority(tags);
    if "project" in tags then "#10b981"
    else if "meeting" in tags then "#3b82f6"
    else if "idea" in tags then "#8b5cf6"
    else if "important" in tags then "#ef4444"
    else if "daily" in tags then "#f59e0b"
    else "#06b6d4"
  }

  /** `GET /api/notes`: with `graph=true` the graph of all notes, whatever
      the filters say; otherwise the notes filtered by `search`, then by
      `tag`. */
  method Get(notes: seq<Note>, search: Seqs.Option<string>, tag: Seqs.Option<string>, graph: Seqs.Option<string>)
    returns (r: Response)
    ensures graph == Seqs.Some("true") ==> r == GraphResponse(NoteGraph.GraphOf(notes))
    ensures graph != Seqs.Some("true") ==> r == NotesResponse(FilterNotes(notes, search, tag))
  {
    if graph == Seqs.Some("true") {
      var g := GenerateGraphData(notes);
      return GraphResponse(g);
    }
    var filtered := notes;
    if Truthy(search) {
      filtered := NoteService.SearchByContent(notes, search.value);
    }
    if Truthy(tag) {
      filtered := NoteService.GetByTag(filtered, tag.value);
    }
    r := NotesResponse(filtered);
  }
}
