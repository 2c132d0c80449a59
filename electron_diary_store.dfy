/** The desktop diary store. Unlike the web store it validates nothing,
    and `update` answers `null` rather than `undefined` for an unknown id;
    the queries are the shared `Diary.ByDate`, `Diary.ByMood` and
    `Diary.Search`. */
module ElectronDiaryService {
  import Seqs
  import Diary

  type DiaryEntry = Diary.DiaryEntry

  /** What `update` answers: `null`, or the updated entry. */
  datatype UpdateReply = Null | Updated(entry: DiaryEntry)

  class DiaryStore {
    var entries: seq<DiaryEntry>

    constructor(initial: seq<DiaryEntry>)
      ensures entries == initial
    {
      entries := initial;
    }

    /** `create`: appends the new entry whatever its title and content. */
    method Create(draft: Diary.EntryDraft, freshId: string, now: int) returns (e: DiaryEntry)
      modifies this
      ensures e == Diary.NewEntry(draft, freshId, now)
      ensures draft.tags.None? ==> e.tags == []
      ensures draft.linkedNoteIds.None? ==> e.linkedNoteIds == []
      ensures entries == old(entries) + [e]
    {
      e := Diary.NewEntry(draft, freshId, now);
      entries := entries + [e];
    }

    /** `update`: `null` for an unknown id; otherwise only the first entry
        with the id is replaced by its merge with the patch, valid or not. */
    method Update(id: string, p: Diary.EntryPatch, now: int) returns (r: UpdateReply)
      modifies this
      ensures var idx := Diary.IndexOfId(old(entries), id);
        if idx == -1 then r == Null && entries == old(entries)
        else r == Updated(Diary.Merge(old(entries)[idx], p, now)) && entries == old(entries)[idx := r.entry]
    {
      var index := Diary.IndexOfId(entries, id);
      if index == -1 {
        return Null;
      }
      var updated := Diary.Merge(entries[index], p, now);
      entries := entries[index := updated];
      r := Updated(updated);
    }

    /** `delete`: false, with nothing written, when no entry has the id;
        otherwise every entry with the id is removed and the answer is true. */
    method Delete(id: string) returns (removed: bool)
      modifies this
      ensures removed <==> Diary.HasId(old(entries), id)
      ensures !removed ==> entries == old(entries)
      ensures removed ==> entries == Diary.WithoutId(old(entries), id)
    {
      var filtered := Diary.WithoutId(entries, id);
      if |filtered| == |entries| {
        return false;
      }
      entries := filtered;
      removed := true;
    }
  }
}
