/** The graph view's own logic: the tag list offered for filtering, the
    projection of the graph onto the nodes that pass the search and tag
    filters, and the state changes made by the drag handlers and the reheat
    button. The force simulation itself is not modelled; its alpha,
    alpha target and running timer, and each node's position and pin, are
    fields. */
module NotesGraphView {
  import Seqs
  import Text
  import NoteGraph

  type GraphNode = NoteGraph.GraphNode
  type Link = NoteGraph.Link

  /** `nodes.flatMap(node => node.tags)`. */
  function AllTagOccurrences(nodes: seq<GraphNode>): (r: seq<string>)
    ensures forall t :: t in r <==> exists i :: 0 <= i < |nodes| && t in nodes[i].tags
    decreases |nodes|
  {
    if nodes == [] then []
    else
      var rest := AllTagOccurrences(nodes[1..]);
      assert forall i :: 1 <= i < |nodes| ==> nodes[i] == nodes[1..][i - 1];
      nodes[0].tags + rest
  }

  /** The flat map is a homomorphism: the occurrences of a concatenation are
      the concatenated occurrences, and a single node contributes its own tags
      in their order. Together with the empty case these fix `AllTagOccurrences` on every input. */
  lemma {:induction false} AllTagOccurrencesAppend(a: seq<GraphNode>, b: seq<GraphNode>)
    ensures AllTagOccurrences(a + b) == AllTagOccurrences(a) + AllTagOccurrences(b)
    ensures |a| == 1 ==> AllTagOccurrences(a) == a[0].tags
    decreases |a|
  {
    if a == [] {
      assert a + b == b;
    } else {
      var ab := a + b;
      assert ab[0] == a[0] && ab[1..] == a[1..] + b;
      AllTagOccurrencesAppend(a[1..], b);
      calc {
        AllTagOccurrences(ab);
        a[0].tags + AllTagOccurrences(a[1..] + b);
        a[0].tags + (AllTagOccurrences(a[1..]) + AllTagOccurrences(b));
        AllTagOccurrences(a) + AllTagOccurrences(b);
      }
      if |a| == 1 {
        assert a[1..] == [];
      }
    }
  }

  /** `allTags`: every tag of every node, each exactly once, in the order in
      which the nodes first mention them. */
  function AllTags(nodes: seq<GraphNode>): (r: seq<string>)
    ensures Seqs.NoDup(r)
    ensures Seqs.FirstOccurrenceOrder(r, AllTagOccurrences(nodes))
    ensures forall t :: t in r <==> exists i :: 0 <= i < |nodes| && t in nodes[i].tags
  {
    var occurrences := AllTagOccurrences(nodes);
    var r := Seqs.Dedup(occurrences);
    assert forall t :: t in r <==> t in occurrences by {
      forall t | t in r ensures t in occurrences {
        var i :| 0 <= i < |r| && r[i] == t;
      }
      forall t | t in occurrences ensures t in r {
        var i :| 0 <= i < |occurrences| && occurrences[i] == t;
      }
    }
    r
  }

  /** The node filter: the search term is empty or found, ignoring case, in
      the title or in some tag (content is not searched); and the selected
      tag is empty or one of the node's tags. */
  predicate NodeMatches(n: GraphNode, searchTerm: string, selectedTag: string) {
    (searchTerm == []
      || Text.MatchesIgnoringCase(n.title, searchTerm)
      || exists t :: t in n.tags && Text.MatchesIgnoringCase(t, searchTerm))
    && (selectedTag == [] || selectedTag in n.tags)
  }

  /** `filteredNodes`. */
  function FilteredNodes(nodes: seq<GraphNode>, searchTerm: string, selectedTag: string): (r: seq<GraphNode>)
    ensures Seqs.IsSubseq(r, nodes)
    ensures forall n :: n in r <==> n in nodes && NodeMatches(n, searchTerm, selectedTag)
    ensures forall n :: n in nodes ==>
      multiset(r)[n] == if NodeMatches(n, searchTerm, selectedTag) then multiset(nodes)[n] else 0
  {
    Seqs.Filter(nodes, (n: GraphNode) => NodeMatches(n, searchTerm, selectedTag))
  }

  /** With an empty search and no selected tag every node is shown. */
  lemma NoFilterKeepsAll(nodes: seq<GraphNode>)
    ensures FilteredNodes(nodes, [], []) == nodes
  {
    Seqs.FilterAll(nodes, (n: GraphNode) => NodeMatches(n, [], []));
  }

  /** Some node of the list has this id (`filteredNodeIds.has(id)`). */
  predicate HasNodeId(nodes: seq<GraphNode>, id: string) {
    exists i | 0 <= i < |nodes| :: nodes[i].id == id
  }

  /** `filteredLinks`: the links whose two ends are both shown. */
  function FilteredLinks(links: seq<Link>, shown: seq<GraphNode>): (r: seq<Link>)
    ensures Seqs.IsSubseq(r, links)
    ensures forall l :: l in r <==> l in links && HasNodeId(shown, l.source) && HasNodeId(shown, l.target)
    ensures forall l :: l in links ==>
      multiset(r)[l] == if HasNodeId(shown, l.source) && HasNodeId(shown, l.target) then multiset(links)[l] else 0
  {
    var ids := set n | n in shown :: n.id;
    assert forall id :: id in ids <==> HasNodeId(shown, id) by {
      forall id | HasNodeId(shown, id) ensures id in ids {
        var i :| 0 <= i < |shown| && shown[i].id == id;
        assert shown[i] in shown;
      }
    }
    Seqs.Filter(links, (l: Link) => l.source in ids && l.target in ids)
  }

  /** Unfiltered, the view draws every link of the note graph: both ends of
      each are nodes of the graph. */
  lemma UnfilteredGraphKeepsLinks(notes: seq<NoteGraph.Note>)
    ensures var g := NoteGraph.GraphOf(notes);
      FilteredLinks(g.links, FilteredNodes(g.nodes, [], [])) == g.links
  {
    var g := NoteGraph.GraphOf(notes);
    NoFilterKeepsAll(g.nodes);
    NoteGraph.GraphLinksValid(notes);
    var ids := set n | n in g.nodes :: n.id;
    forall l | l in g.links
      ensures l.source in ids && l.target in ids
    {
      var i :| 0 <= i < |notes| && notes[i].id == l.source;
      var j :| 0 <= j < |notes| && notes[j].id == l.target;
      assert g.nodes[i] in g.nodes && g.nodes[j] in g.nodes;
    }
    Seqs.FilterAll(g.links, (l: Link) => l.source in ids && l.target in ids);
  }

  /** Both ends of the link are nodes that pass the filters. */
  predicate ShownEnds(nodes: seq<GraphNode>, l: Link, searchTerm: string, selectedTag: string) {
    exists a, b ::
      a in nodes && b in nodes && a.id == l.source && b.id == l.target
      && NodeMatches(a, searchTerm, selectedTag) && NodeMatches(b, searchTerm, selectedTag)
  }

  /** The shown links only join shown nodes. */
  lemma FilteredLinksClosed(links: seq<Link>, nodes: seq<GraphNode>, searchTerm: string, selectedTag: string)
    ensures var shown := FilteredNodes(nodes, searchTerm, selectedTag);
      forall l :: l in FilteredLinks(links, shown) ==> ShownEnds(nodes, l, searchTerm, selectedTag)
  {
    var shown := FilteredNodes(nodes, searchTerm, selectedTag);
    forall l | l in FilteredLinks(links, shown)
      ensures ShownEnds(nodes, l, searchTerm, selectedTag)
    {
      var i :| 0 <= i < |shown| && shown[i].id == l.source;
      var j :| 0 <= j < |shown| && shown[j].id == l.target;
      assert shown[i] in shown && shown[j] in shown;
    }
  }

  /** A node as the simulation sees it: its position and its pin
      (`fx`/`fy`, `null` when free). */
  class SimNode {
    var x: real
    var y: real
    var fx: Seqs.Option<real>
    var fy: Seqs.Option<real>

    constructor(x0: real, y0: real)
      ensures x == x0 && y == y0 && fx.None? && fy.None?
    {
      x, y := x0, y0;
      fx, fy := Seqs.None, Seqs.None;
    }
  }

  /** The force simulation's cooling state. */
  class Simulation {
    var alpha: real
    var alphaTarget: real
    var running: bool

    constructor()
      ensures alpha == 1.0 && alphaTarget == 0.0 && running
    {
      alpha, alphaTarget, running := 1.0, 0.0, true;
    }

    /** Drag start. `active` counts the other drag gestures in progress:
        only the first one warms the simulation (alpha target 0.3) and
        restarts its timer. The node is pinned where it stands. */
    method DragStarted(d: SimNode, active: nat)
      modifies this, d
      ensures active == 0 ==> alphaTarget == 0.3 && running
      ensures active != 0 ==> alphaTarget == old(alphaTarget) && running == old(running)
      ensures alpha == old(alpha)
      ensures d.fx == Seqs.Some(old(d.x)) && d.fy == Seqs.Some(old(d.y))
      ensures d.x == old(d.x) && d.y == old(d.y)
    {
      if active == 0 {
        alphaTarget := 0.3;
        running := true;
      }
      d.fx := Seqs.Some(d.x);
      d.fy := Seqs.Some(d.y);
    }

    /** Drag: the pin follows the pointer. */
    method Dragged(d: SimNode, pointerX: real, pointerY: real)
      modifies d
      ensures d.fx == Seqs.Some(pointerX) && d.fy == Seqs.Some(pointerY)
      ensures d.x == old(d.x) && d.y == old(d.y)
    {
      d.fx := Seqs.Some(pointerX);
      d.fy := Seqs.Some(pointerY);
    }

    /** Drag end: the last gesture lets the simulation cool (alpha target
        0); the node is released. */
    method DragEnded(d: SimNode, active: nat)
      modifies this, d
      ensures active == 0 ==> alphaTarget == 0.0
      ensures active != 0 ==> alphaTarget == old(alphaTarget)
      ensures alpha == old(alpha) && running == old(running)
      ensures d.fx.None? && d.fy.None?
      ensures d.x == old(d.x) && d.y == old(d.y)
    {
      if active == 0 {
        alphaTarget := 0.0;
      }
      d.fx := Seqs.None;
      d.fy := Seqs.None;
    }
  }

  /** The component's reference to the running simulation (`null` before
      the first render). */
  class GraphView {
    var simulation: Simulation?

    constructor()
      ensures simulation == null
    {
      simulation := null;
    }

    /** `handleReheat`: with a simulation, alpha is reset to 1 and the timer
        restarted; without one, nothing happens. */
    method Reheat()
      modifies simulation
      ensures simulation == old(simulation)
      ensures simulation != null ==>
        simulation.alpha == 1.0 && simulation.running && simulation.alphaTarget == old(simulation.alphaTarget)
    {
      if simulation != null {
        simulation.alpha := 1.0;
        simulation.running := true;
      }
    }
  }
}
