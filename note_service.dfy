/** The note service: the stored note list and its queries (search, tag
    filter, backlinks), the partial update, delete, and
    `updateWithBacklinks`, which merges the notes referenced by `[[Title]]`
    markers into a note's `linkedNoteIds`. The JSON file behind `db.read` /
    `db.write` is the field `notes` of `NoteStore`. */
module NoteService {
  import Seqs
  import Text
  import Backlinks
  import NoteGraph

  type Note = NoteGraph.Note

  /** The fields a caller may supply to `create`; `tags` and
      `linkedNoteIds` may be missing. */
  datatype NoteDraft = NoteDraft(
    title: string,
    content: string,
    tags: Seqs.Option<seq<string>>,
    linkedNoteIds: Seqs.Option<seq<string>>)

  /** `Partial<Note>`: every field may be missing. */
  datatype NotePatch = NotePatch(
    id: Seqs.Option<string>,
    title: Seqs.Option<string>,
    content: Seqs.Option<string>,
    tags: Seqs.Option<seq<string>>,
    linkedNoteIds: Seqs.Option<seq<string>>,
    createdAt: Seqs.Option<int>)

  /** `{ ...note, ...updates, updatedAt: now }`: a field the patch supplies
      wins, a missing one keeps the note's value, and `updatedAt` is always
      the current time. */
  function Merge(n: Note, p: NotePatch, now: int): (r: Note)
    ensures r.updatedAt == now
    ensures (p.id.Some? ==> r.id == p.id.value) && (p.id.None? ==> r.id == n.id)
    ensures (p.title.Some? ==> r.title == p.title.value) && (p.title.None? ==> r.title == n.title)
    ensures (p.content.Some? ==> r.content == p.content.value) && (p.content.None? ==> r.content == n.content)
    ensures (p.tags.Some? ==> r.tags == p.tags.value) && (p.tags.None? ==> r.tags == n.tags)
    ensures (p.linkedNoteIds.Some? ==> r.linkedNoteIds == p.linkedNoteIds.value) && (p.linkedNoteIds.None? ==> r.linkedNoteIds == n.linkedNoteIds)
    ensures (p.createdAt.Some? ==> r.createdAt == p.createdAt.value) && (p.createdAt.None? ==> r.createdAt == n.createdAt)
  {
    NoteGraph.Note(
      Seqs.Or(p.id, n.id), Seqs.Or(p.title, n.title), Seqs.Or(p.content, n.content), Seqs.Or(p.tags, n.tags),
      Seqs.Or(p.linkedNoteIds, n.linkedNoteIds), Seqs.Or(p.createdAt, n.createdAt), now)
  }

  /** `searchByContent`: the notes whose title, content or some tag
      contains the query, ignoring case, in stored order. */
  function SearchByContent(notes: seq<Note>, query: string): (r: seq<Note>)
    ensures Seqs.IsSubseq(r, notes)
    ensures forall n :: n in r <==> n in notes && Text.RecordMatches(n.title, n.content, n.tags, query)
    ensures forall n :: n in notes ==>
      multiset(r)[n] == if Text.RecordMatches(n.title, n.content, n.tags, query) then multiset(notes)[n] else 0
  {
    Seqs.Filter(notes, (n: Note) => Text.RecordMatches(n.title, n.content, n.tags, query))
  }

  /** `getByTag`: the notes carrying exactly this tag, in stored order. */
  function GetByTag(notes: seq<Note>, tag: string): (r: seq<Note>)
    ensures Seqs.IsSubseq(r, notes)
    ensures forall n :: n in r <==> n in notes && tag in n.tags
    ensures forall n :: n in notes ==> multiset(r)[n] == if tag in n.tags then multiset(notes)[n] else 0
  {
    Seqs.Filter(notes, (n: Note) => tag in n.tags)
  }

  /** `note` points at the note `target`: by id in its `linkedNoteIds`, or
      by the target's exact title in a `[[Title]]` marker of its content. */
  predicate PointsAt(note: Note, target: Note, targetId: string) {
    targetId in note.linkedNoteIds || target.title in Backlinks.Extract(note.content)
  }

  /** `getBacklinks`: nothing when the id is unknown; otherwise the notes
      that point at the target, in stored order. The target itself is not
      excluded. */
  function GetBacklinks(notes: seq<Note>, noteId: string): (r: seq<Note>)
    ensures NoteGraph.FindById(notes, noteId).None? ==> r == []
    ensures NoteGraph.FindById(notes, noteId).Some? ==>
      var target := NoteGraph.FindById(notes, noteId).value;
      Seqs.IsSubseq(r, notes) && (forall n :: n in r <==> n in notes && PointsAt(n, target, noteId))
      && forall n :: n in notes ==> multiset(r)[n] == if PointsAt(n, target, noteId) then multiset(notes)[n] else 0
  {
    match NoteGraph.FindById(notes, noteId)
    case None => []
    case Some(target) => Seqs.Filter(notes, (n: Note) => PointsAt(n, target, noteId))
  }

  /** A note that references its own title is among its own backlinks. */
  lemma SelfReferenceIsBacklink(notes: seq<Note>, noteId: string)
    requires NoteGraph.FindById(notes, noteId).Some?
    requires var t := NoteGraph.FindById(notes, noteId).value; t.title in Backlinks.Extract(t.content)
    ensures NoteGraph.FindById(notes, noteId).value in GetBacklinks(notes, noteId)
  {
  }

  /** The backlinks query and the graph agree: a note that points at the
      target, other than the target itself, is joined to it by a link of
      the graph, provided that the target is the first note with its title
      (the graph resolves titles with `find`). */
  lemma BacklinkHasEdge(notes: seq<Note>, noteId: string, n: Note)
    requires NoteGraph.FindById(notes, noteId).Some?
    requires var t := NoteGraph.FindById(notes, noteId).value; NoteGraph.FindByTitle(notes, t.title) == Seqs.Some(t)
    requires n in GetBacklinks(notes, noteId) && n.id != noteId
    ensures NoteGraph.HasLinkBetween(NoteGraph.AllLinks(notes), n.id, noteId)
  {
    var t := NoteGraph.FindById(notes, noteId).value;
    var k :| 0 <= k < |notes| && notes[k] == n;
    if noteId in n.linkedNoteIds {
      NoteGraph.ExplicitLinkPresent(notes, k, noteId);
      var links := NoteGraph.AllLinks(notes);
      var i :| 0 <= i < |links| && links[i] == NoteGraph.Link(n.id, noteId, NoteGraph.ExplicitStrength);
      assert NoteGraph.Joins(links[i], n.id, noteId);
    } else {
      NoteGraph.BacklinkJoined(notes, k, t.title);
    }
  }

  // ----- Merging referenced notes into linkedNoteIds -----

  /** One round of the loop: the first note with the title is appended
      unless its id is already present. */
  function MergeStep(notes: seq<Note>, ids: seq<string>, title: string): seq<string> {
    match NoteGraph.FindByTitle(notes, title)
    case None => ids
    case Some(t) => if t.id in ids then ids else ids + [t.id]
  }

  /** The loop over `titles`, starting from `ids`. */
  function MergeTitles(notes: seq<Note>, ids: seq<string>, titles: seq<string>): seq<string>
    decreases |titles|
  {
    if titles == [] then ids
    else MergeStep(notes, MergeTitles(notes, ids, titles[..|titles| - 1]), titles[|titles| - 1])
  }

  /** The `for (const backlinkTitle of backlinks)` loop over a copy of the
      prior list. */
  method MergeTitleLinks(notes: seq<Note>, base: seq<string>, titles: seq<string>) returns (ids: seq<string>)
    ensures ids == MergeTitles(notes, base, titles)
  {
    ids := base;
    for m := 0 to |titles|
      invariant ids == MergeTitles(notes, base, titles[..m])
    {
      var target := NoteGraph.FindByTitle(notes, titles[m]);
      if target.Some? && target.value.id !in ids {
        ids := ids + [target.value.id];
      }
      assert titles[..m + 1][..m] == titles[..m];
    }
    assert titles[..|titles|] == titles;
  }

  /** The id a title resolves to, if any. */
  predicate Resolves(notes: seq<Note>, title: string, id: string) {
    NoteGraph.FindByTitle(notes, title).Some? && NoteGraph.FindByTitle(notes, title).value.id == id
  }

  /** The prior list is kept as a prefix, and every added id is the id of
      the first note bearing one of the titles and was not in the prior
      list. */
  lemma {:induction false} MergeTitlesAdds(notes: seq<Note>, base: seq<string>, titles: seq<string>)
    ensures var r := MergeTitles(notes, base, titles);
      base <= r
      && forall i :: |base| <= i < |r| ==> r[i] !in base && exists t :: t in titles && Resolves(notes, t, r[i])
    decreases |titles|
  {
    if titles != [] {
      var init := titles[..|titles| - 1];
      var last := titles[|titles| - 1];
      MergeTitlesAdds(notes, base, init);
      var before := MergeTitles(notes, base, init);
      var r := MergeTitles(notes, base, titles);
      var found := NoteGraph.FindByTitle(notes, last);
      if found.Some? && found.value.id !in before {
        assert r == before + [found.value.id];
        assert Resolves(notes, last, found.value.id);
        forall i | |base| <= i < |r|
          ensures r[i] !in base && exists t :: t in titles && Resolves(notes, t, r[i])
        {
          if i < |before| {
            assert r[i] == before[i];
            var t :| t in init && Resolves(notes, t, r[i]);
            assert t in titles;
          } else {
            assert r[i] == found.value.id;
            assert forall x :: x in base ==> x in before;
          }
        }
      }
    }
  }

  /** Every title that resolves has its note's id in the result. */
  lemma {:induction false} MergeTitlesCovers(notes: seq<Note>, base: seq<string>, titles: seq<string>)
    ensures forall t :: t in titles && NoteGraph.FindByTitle(notes, t).Some? ==>
      NoteGraph.FindByTitle(notes, t).value.id in MergeTitles(notes, base, titles)
    decreases |titles|
  {
    if titles != [] {
      var init := titles[..|titles| - 1];
      var last := titles[|titles| - 1];
      MergeTitlesCovers(notes, base, init);
      var before := MergeTitles(notes, base, init);
      var r := MergeTitles(notes, base, titles);
      assert forall x :: x in before ==> x in r;
      forall t | t in titles && NoteGraph.FindByTitle(notes, t).Some?
        ensures NoteGraph.FindByTitle(notes, t).value.id in r
      {
        if t != last {
          var i :| 0 <= i < |titles| && titles[i] == t;
          assert init[i] == t;
        }
      }
    }
  }

  /** A prior list without duplicates stays without duplicates. */
  lemma {:induction false} MergeTitlesNoDup(notes: seq<Note>, base: seq<string>, titles: seq<string>)
    requires Seqs.NoDup(base)
    ensures Seqs.NoDup(MergeTitles(notes, base, titles))
    decreases |titles|
  {
    if titles != [] {
      var init := titles[..|titles| - 1];
      MergeTitlesNoDup(notes, base, init);
      var before := MergeTitles(notes, base, init);
      var found := NoteGraph.FindByTitle(notes, titles[|titles| - 1]);
      if found.Some? && found.value.id !in before {
        var r := before + [found.value.id];
        forall i, j | 0 <= i < j < |r|
          ensures r[i] != r[j]
        {
          if j == |before| {
            assert r[i] == before[i];
          }
        }
      }
    }
  }

  /** Merging a second time with the same titles changes nothing. */
  lemma {:induction false} MergeTitlesStable(notes: seq<Note>, ids: seq<string>, titles: seq<string>)
    requires forall t :: t in titles && NoteGraph.FindByTitle(notes, t).Some? ==> NoteGraph.FindByTitle(notes, t).value.id in ids
    ensures MergeTitles(notes, ids, titles) == ids
    decreases |titles|
  {
    if titles != [] {
      var init := titles[..|titles| - 1];
      assert forall t :: t in init ==> t in titles;
      MergeTitlesStable(notes, ids, init);
      assert titles[|titles| - 1] in titles;
    }
  }

  lemma MergeTitlesIdempotent(notes: seq<Note>, base: seq<string>, titles: seq<string>)
    ensures MergeTitles(notes, MergeTitles(notes, base, titles), titles) == MergeTitles(notes, base, titles)
  {
    MergeTitlesCovers(notes, base, titles);
    MergeTitlesStable(notes, MergeTitles(notes, base, titles), titles);
  }

  /** The patch `updateWithBacklinks` passes on to `update`. A patch
      without non-empty content goes through untouched. Otherwise only its
      `linkedNoteIds` changes: the prior list (the patch's own, else the
      note's) is kept as a prefix, every id appended after it is new and is
      the id of the first note bearing a title referenced in the content,
      every referenced title that names a note has that note's id in the
      list, and a prior list without duplicates gains none. */
  function PatchWithBacklinks(notes: seq<Note>, n: Note, p: NotePatch): (r: NotePatch)
    ensures p.content.None? || p.content.value == [] ==> r == p
    ensures p.content.Some? && p.content.value != [] ==>
      var base := Seqs.Or(p.linkedNoteIds, n.linkedNoteIds);
      var titles := Backlinks.Extract(p.content.value);
      r.linkedNoteIds.Some? && r == p.(linkedNoteIds := r.linkedNoteIds)
      && base <= r.linkedNoteIds.value
      && (forall i :: |base| <= i < |r.linkedNoteIds.value| ==>
            r.linkedNoteIds.value[i] !in base
            && exists t :: t in titles && Resolves(notes, t, r.linkedNoteIds.value[i]))
      && (forall t :: t in titles && NoteGraph.FindByTitle(notes, t).Some? ==>
            NoteGraph.FindByTitle(notes, t).value.id in r.linkedNoteIds.value)
      && (Seqs.NoDup(base) ==> Seqs.NoDup(r.linkedNoteIds.value))
  {
    if p.content.Some? && p.content.value != [] then
      var base := Seqs.Or(p.linkedNoteIds, n.linkedNoteIds);
      var titles := Backlinks.Extract(p.content.value);
      MergeTitlesAdds(notes, base, titles);
      MergeTitlesCovers(notes, base, titles);
      assert Seqs.NoDup(base) ==> Seqs.NoDup(MergeTitles(notes, base, titles)) by {
        if Seqs.NoDup(base) {
          MergeTitlesNoDup(notes, base, titles);
        }
      }
      p.(linkedNoteIds := Seqs.Some(MergeTitles(notes, base, titles)))
    else p
  }

  /** The stored notes. */
  class NoteStore {
    var notes: seq<Note>

    constructor(initial: seq<Note>)
      ensures notes == initial
    {
      notes := initial;
    }

    /** `create`: appends a note with a fresh id and the current time;
        missing `tags` and `linkedNoteIds` become empty lists. */
    method Create(draft: NoteDraft, freshId: string, now: int) returns (n: Note)
      modifies this
      ensures n == NoteGraph.Note(freshId, draft.title, draft.content, Seqs.Or(draft.tags, []),
        Seqs.Or(draft.linkedNoteIds, []), now, now)
      ensures notes == old(notes) + [n]
    {
      n := NoteGraph.Note(freshId, draft.title, draft.content, Seqs.Or(draft.tags, []),
        Seqs.Or(draft.linkedNoteIds, []), now, now);
      notes := notes + [n];
    }

    /** `update`: nothing for an unknown id; otherwise the first note with
        the id is replaced by its merge with the patch and nothing else
        changes. */
    method Update(id: string, p: NotePatch, now: int) returns (r: Seqs.Option<Note>)
      modifies this
      ensures var idx := NoteGraph.IndexOfId(old(notes), id);
        if idx == -1 then r.None? && notes == old(notes)
        else r == Seqs.Some(Merge(old(notes)[idx], p, now)) && notes == old(notes)[idx := r.value]
    {
      var idx := NoteGraph.IndexOfId(notes, id);
      if idx == -1 {
        return Seqs.None;
      }
      var updated := Merge(notes[idx], p, now);
      notes := notes[idx := updated];
      r := Seqs.Some(updated);
    }

    /** `delete`: drops every note with the id and reports whether the list
        got shorter, which is exactly whether some note had the id. */
    method Delete(id: string) returns (removed: bool)
      modifies this
      ensures notes == Seqs.Filter(old(notes), (n: Note) => n.id != id)
      ensures removed <==> NoteGraph.HasId(old(notes), id)
    {
      var filtered := Seqs.Filter(notes, (n: Note) => n.id != id);
      Seqs.FilterShorter(notes, (n: Note) => n.id != id);
      removed := |filtered| < |notes|;
      if removed {
        var x :| x in notes && x.id == id;
        var i :| 0 <= i < |notes| && notes[i] == x;
      } else {
        forall i | 0 <= i < |notes|
          ensures notes[i].id != id
        {
          assert notes[i] in notes;
        }
      }
      notes := filtered;
    }

    /** `updateWithBacklinks`: nothing for an unknown id; otherwise, when
        the patch carries non-empty content, the notes its markers
        reference are merged into the patch's `linkedNoteIds` before the
        ordinary update. */
    method UpdateWithBacklinks(id: string, p: NotePatch, now: int) returns (r: Seqs.Option<Note>)
      modifies this
      ensures NoteGraph.FindById(old(notes), id).None? ==> r.None? && notes == old(notes)
      ensures NoteGraph.FindById(old(notes), id).Some? ==>
        var idx := NoteGraph.IndexOfId(old(notes), id);
        var p' := PatchWithBacklinks(old(notes), old(notes)[idx], p);
        0 <= idx && r == Seqs.Some(Merge(old(notes)[idx], p', now)) && notes == old(notes)[idx := r.value]
    {
      var found := NoteGraph.FindById(notes, id);
      if found.None? {
        return Seqs.None;
      }
      var note := found.value;
      var patch := p;
      if p.content.Some? && p.content.value != [] {
        var backlinks := Backlinks.ExtractBacklinks(p.content.value);
        var linked := MergeTitleLinks(notes, Seqs.Or(p.linkedNoteIds, note.linkedNoteIds), backlinks);
        patch := p.(linkedNoteIds := Seqs.Some(linked));
      }
      r := Update(id, patch, now);
    }
  }
}
