/** The web diary store: the entry list that `db.read`/`db.write` load and
    save is the field `entries`. `create` and `update` validate the new
    entry against the entry schema and, when it fails, throw before
    writing; here that is a result that reports the rejection and leaves
    the list unchanged. */
module DiaryServer {
  import Seqs
  import Diary

  type DiaryEntry = Diary.DiaryEntry

  datatype UpdateResult = NotFound | Invalid | Updated(entry: DiaryEntry)

  class DiaryStore {
    var entries: seq<DiaryEntry>

    constructor(initial: seq<DiaryEntry>)
      ensures entries == initial
    {
      entries := initial;
    }

    /** `create`: the new entry gets a fresh id, the current time and empty
        lists for missing tags and links; it is appended only when its
        title and content are non-empty. */
    method Create(draft: Diary.EntryDraft, freshId: string, now: int) returns (r: Seqs.Option<DiaryEntry>)
      modifies this
      ensures |draft.title| >= 1 && |draft.content| >= 1 ==>
        r == Seqs.Some(Diary.NewEntry(draft, freshId, now)) && entries == old(entries) + [r.value]
      ensures draft.title == [] || draft.content == [] ==> r.None? && entries == old(entries)
      ensures r.Some? ==> draft.tags.None? ==> r.value.tags == []
      ensures r.Some? ==> draft.linkedNoteIds.None? ==> r.value.linkedNoteIds == []
    {
      var e := Diary.NewEntry(draft, freshId, now);
      if !Diary.SchemaValid(e) {
        return Seqs.None;
      }
      entries := entries + [e];
      r := Seqs.Some(e);
    }

    /** `update`: `NotFound` for an unknown id; `Invalid`, with nothing
        written, when the merged entry has an empty title or content;
        otherwise only the first entry with the id is replaced. */
    method Update(id: string, p: Diary.EntryPatch, now: int) returns (r: UpdateResult)
      modifies this
      ensures var idx := Diary.IndexOfId(old(entries), id);
        if idx == -1 then r == NotFound && entries == old(entries)
        else
          var merged := Diary.Merge(old(entries)[idx], p, now);
          if !Diary.SchemaValid(merged) then r == Invalid && entries == old(entries)
          else r == Updated(merged) && entries == old(entries)[idx := merged]
    {
      var index := Diary.IndexOfId(entries, id);
      if index == -1 {
        return NotFound;
      }
      var updated := Diary.Merge(entries[index], p, now);
      if !Diary.SchemaValid(updated) {
        return Invalid;
      }
      entries := entries[index := updated];
      r := Updated(updated);
    }

    /** `delete`: false, with nothing written, when no entry has the id;
        otherwise every entry with the id is removed and the answer is true. */
    method Delete(id: string) returns (removed: bool)
      modifies this
      ensures removed <==> Diary.HasId(old(entries), id)
      ensures !removed ==> entries == old(entries)
      ensures removed ==> entries == Diary.WithoutId(old(entries), id)
    {
      var filtered := Diary.WithoutId(entries, id);
      if |filtered| == |entries| {
        return false;
      }
      entries := filtered;
      removed := true;
    }
  }
}
