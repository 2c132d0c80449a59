/** The diary entry record shared by both diary stores, and the list
    operations they have in common: lookup by id, the patch merge of
    `update`, the filter of `delete` and the three queries. */
module Diary {
  import Seqs
  import Text

  /** The moods the entry schema admits. */
  datatype EntryMood = Happy | Neutral | Sad | Excited

  datatype DiaryEntry = DiaryEntry(
    id: string,
    title: string,
    content: string,
    mood: EntryMood,
    date: string,
    tags: seq<string>,
    linkedNoteIds: seq<string>,
    createdAt: int,
    updatedAt: int)

  /** The caller's data for `create`; `tags` and `linkedNoteIds` may be
      missing. */
  datatype EntryDraft = EntryDraft(
    title: string,
    content: string,
    mood: EntryMood,
    date: string,
    tags: Seqs.Option<seq<string>>,
    linkedNoteIds: Seqs.Option<seq<string>>)

  /** The fields an `update` carries; `None` means the field is absent. */
  datatype EntryPatch = EntryPatch(
    id: Seqs.Option<string>,
    title: Seqs.Option<string>,
    content: Seqs.Option<string>,
    mood: Seqs.Option<EntryMood>,
    date: Seqs.Option<string>,
    tags: Seqs.Option<seq<string>>,
    linkedNoteIds: Seqs.Option<seq<string>>,
    createdAt: Seqs.Option<int>)

  /** The entry built by `create`. */
  function NewEntry(d: EntryDraft, id: string, now: int): DiaryEntry {
    DiaryEntry(id, d.title, d.content, d.mood, d.date, Seqs.Or(d.tags, []), Seqs.Or(d.linkedNoteIds, []), now, now)
  }

  /** `{ ...entry, ...updates, updatedAt: now }`. */
  function Merge(e: DiaryEntry, p: EntryPatch, now: int): DiaryEntry {
    DiaryEntry(Seqs.Or(p.id, e.id), Seqs.Or(p.title, e.title), Seqs.Or(p.content, e.content), Seqs.Or(p.mood, e.mood),
      Seqs.Or(p.date, e.date), Seqs.Or(p.tags, e.tags), Seqs.Or(p.linkedNoteIds, e.linkedNoteIds),
      Seqs.Or(p.createdAt, e.createdAt), now)
  }

  /** The rules of the entry schema that the types do not already enforce:
      a non-empty title and a non-empty content. */
  predicate SchemaValid(e: DiaryEntry) {
    |e.title| >= 1 && |e.content| >= 1
  }

  /** A patch that sets neither title nor content keeps a valid entry valid;
      one that empties either makes it invalid. */
  lemma MergeValidity(e: DiaryEntry, p: EntryPatch, now: int)
    ensures SchemaValid(e) && p.title.None? && p.content.None? ==> SchemaValid(Merge(e, p, now))
    ensures p.title == Seqs.Some([]) || p.content == Seqs.Some([]) ==> !SchemaValid(Merge(e, p, now))
  {
  }

  predicate HasId(entries: seq<DiaryEntry>, id: string) {
    exists i :: 0 <= i < |entries| && entries[i].id == id
  }

  /** `entries.findIndex(entry => entry.id === id)`. */
  function IndexOfId(entries: seq<DiaryEntry>, id: string): (r: int)
    ensures -1 <= r < |entries|
    ensures 0 <= r ==> entries[r].id == id && forall j :: 0 <= j < r ==> entries[j].id != id
    ensures r == -1 <==> !HasId(entries, id)
  {
    Seqs.FindIndex(entries, (e: DiaryEntry) => e.id == id)
  }

  /** `entries.filter(entry => entry.id !== id)`: every entry with the id is
      gone, the others stay in order, the list is shorter exactly when some
      entry had the id, and otherwise it is the same list. */
  function WithoutId(entries: seq<DiaryEntry>, id: string): (r: seq<DiaryEntry>)
    ensures Seqs.IsSubseq(r, entries)
    ensures forall e :: e in r <==> e in entries && e.id != id
    ensures forall e :: e in entries ==> multiset(r)[e] == if e.id != id then multiset(entries)[e] else 0
    ensures |r| < |entries| <==> HasId(entries, id)
    ensures !HasId(entries, id) ==> r == entries
  {
    var p := (e: DiaryEntry) => e.id != id;
    Seqs.FilterShorter(entries, p);
    assert HasId(entries, id) ==> exists e :: e in entries && !p(e) by {
      if HasId(entries, id) {
        var i :| 0 <= i < |entries| && entries[i].id == id;
        assert entries[i] in entries;
      }
    }
    assert !HasId(entries, id) ==> Seqs.Filter(entries, p) == entries by {
      if !HasId(entries, id) {
        forall e | e in entries
          ensures p(e)
        {
          var i :| 0 <= i < |entries| && entries[i] == e;
        }
        Seqs.FilterAll(entries, p);
      }
    }
    Seqs.Filter(entries, p)
  }

  /** `getByDate`: the entries of that date, in order. */
  function ByDate(entries: seq<DiaryEntry>, date: string): (r: seq<DiaryEntry>)
    ensures Seqs.IsSubseq(r, entries)
    ensures forall e :: e in r <==> e in entries && e.date == date
    ensures forall e :: e in entries ==> multiset(r)[e] == if e.date == date then multiset(entries)[e] else 0
  {
    Seqs.Filter(entries, (e: DiaryEntry) => e.date == date)
  }

  /** `getByMood`: the entries with that mood, in order. */
  function ByMood(entries: seq<DiaryEntry>, mood: EntryMood): (r: seq<DiaryEntry>)
    ensures Seqs.IsSubseq(r, entries)
    ensures forall e :: e in r <==> e in entries && e.mood == mood
    ensures forall e :: e in entries ==> multiset(r)[e] == if e.mood == mood then multiset(entries)[e] else 0
  {
    Seqs.Filter(entries, (e: DiaryEntry) => e.mood == mood)
  }

  /** `searchEntries`: the entries whose title, content or some tag contains
      the query, ignoring case, in order. */
  function Search(entries: seq<DiaryEntry>, query: string): (r: seq<DiaryEntry>)
    ensures Seqs.IsSubseq(r, entries)
    ensures forall e :: e in r <==> e in entries && Text.RecordMatches(e.title, e.content, e.tags, query)
    ensures forall e :: e in entries ==>
      multiset(r)[e] == if Text.RecordMatches(e.title, e.content, e.tags, query) then multiset(entries)[e] else 0
  {
    Seqs.Filter(entries, (e: DiaryEntry) => Text.RecordMatches(e.title, e.content, e.tags, query))
  }

  /** The empty query keeps every entry. */
  lemma EmptySearchKeepsAll(entries: seq<DiaryEntry>)
    ensures Search(entries, "") == entries
  {
    forall e | e in entries
      ensures Text.RecordMatches(e.title, e.content, e.tags, "")
    {
      Text.EmptyQueryMatches(e.title, e.content, e.tags);
    }
    Seqs.FilterAll(entries, (e: DiaryEntry) => Text.RecordMatches(e.title, e.content, e.tags, ""));
  }
}
