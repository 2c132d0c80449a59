/** The task record shared by both task stores, and the list operations
    they have in common: lookup by id, the patch merge of `update`, the
    idempotent note link of `linkToNote`, the filter of `delete` and the
    two exact-match queries. */
module Tasks {
  import Seqs

  datatype Priority = Low | Medium | High

  datatype Quadrant = Do | Schedule | Delegate | Delete

  /** A task; optional fields are `Option`s, timestamps are whole numbers. */
  datatype Task = Task(
    id: string,
    title: string,
    description: Seqs.Option<string>,
    createdAt: int,
    dueDate: Seqs.Option<string>,
    completed: bool,
    priority: Priority,
    eisenhowerQuadrant: Seqs.Option<Quadrant>,
    linkedNoteIds: seq<string>,
    tags: seq<string>,
    pomodoroCount: Seqs.Option<int>,
    calendarDate: Seqs.Option<string>,
    habitId: Seqs.Option<string>,
    updatedAt: int)

  /** The caller's data for `create`: everything but the id and the
      timestamps; `completed`, `linkedNoteIds` and `tags` may be missing. */
  datatype TaskDraft = TaskDraft(
    title: string,
    description: Seqs.Option<string>,
    dueDate: Seqs.Option<string>,
    completed: Seqs.Option<bool>,
    priority: Priority,
    eisenhowerQuadrant: Seqs.Option<Quadrant>,
    linkedNoteIds: Seqs.Option<seq<string>>,
    tags: Seqs.Option<seq<string>>,
    pomodoroCount: Seqs.Option<int>,
    calendarDate: Seqs.Option<string>,
    habitId: Seqs.Option<string>)

  /** The fields an `update` carries; `None` means the field is absent. */
  datatype TaskPatch = TaskPatch(
    id: Seqs.Option<string>,
    title: Seqs.Option<string>,
    description: Seqs.Option<string>,
    createdAt: Seqs.Option<int>,
    dueDate: Seqs.Option<string>,
    completed: Seqs.Option<bool>,
    priority: Seqs.Option<Priority>,
    eisenhowerQuadrant: Seqs.Option<Quadrant>,
    linkedNoteIds: Seqs.Option<seq<string>>,
    tags: Seqs.Option<seq<string>>,
    pomodoroCount: Seqs.Option<int>,
    calendarDate: Seqs.Option<string>,
    habitId: Seqs.Option<string>)

  /** A present optional field of the patch replaces the task's. */
  function OrOpt<T>(a: Seqs.Option<T>, b: Seqs.Option<T>): Seqs.Option<T> {
    if a.Some? then a else b
  }

  /** The task built by `create`, given how `completed` is chosen. */
  function NewTask(d: TaskDraft, id: string, now: int, completed: bool): Task {
    Task(id, d.title, d.description, now, d.dueDate, completed, d.priority, d.eisenhowerQuadrant,
      Seqs.Or(d.linkedNoteIds, []), Seqs.Or(d.tags, []), d.pomodoroCount, d.calendarDate, d.habitId, now)
  }

  /** `{ ...task, ...updates, updatedAt: now }`. */
  function Merge(t: Task, p: TaskPatch, now: int): Task {
    Task(Seqs.Or(p.id, t.id), Seqs.Or(p.title, t.title), OrOpt(p.description, t.description),
      Seqs.Or(p.createdAt, t.createdAt), OrOpt(p.dueDate, t.dueDate), Seqs.Or(p.completed, t.completed),
      Seqs.Or(p.priority, t.priority), OrOpt(p.eisenhowerQuadrant, t.eisenhowerQuadrant),
      Seqs.Or(p.linkedNoteIds, t.linkedNoteIds), Seqs.Or(p.tags, t.tags), OrOpt(p.pomodoroCount, t.pomodoroCount),
      OrOpt(p.calendarDate, t.calendarDate), OrOpt(p.habitId, t.habitId), now)
  }

  const NoChanges := TaskPatch(Seqs.None, Seqs.None, Seqs.None, Seqs.None, Seqs.None, Seqs.None,
    Seqs.None, Seqs.None, Seqs.None, Seqs.None, Seqs.None, Seqs.None, Seqs.None)

  /** An empty patch only refreshes `updatedAt`; applying the same patch a
      second time at the same moment changes nothing more. */
  lemma MergeLaws(t: Task, p: TaskPatch, now: int)
    ensures Merge(t, NoChanges, now) == t.(updatedAt := now)
    ensures Merge(Merge(t, p, now), p, now) == Merge(t, p, now)
  {
  }

  predicate HasId(tasks: seq<Task>, id: string) {
    exists i :: 0 <= i < |tasks| && tasks[i].id == id
  }

  /** `tasks.findIndex(t => t.id === id)`. */
  function IndexOfId(tasks: seq<Task>, id: string): (r: int)
    ensures -1 <= r < |tasks|
    ensures 0 <= r ==> tasks[r].id == id && forall j :: 0 <= j < r ==> tasks[j].id != id
    ensures r == -1 <==> !HasId(tasks, id)
  {
    Seqs.FindIndex(tasks, (t: Task) => t.id == id)
  }

  /** `tasks.filter(t => t.id !== id)`: every task with the id is gone, the
      others stay in order, and the list is shorter exactly when some task
      had the id. */
  function WithoutId(tasks: seq<Task>, id: string): (r: seq<Task>)
    ensures Seqs.IsSubseq(r, tasks)
    ensures forall t :: t in r <==> t in tasks && t.id != id
    ensures forall t :: t in tasks ==> multiset(r)[t] == if t.id != id then multiset(tasks)[t] else 0
    ensures |r| < |tasks| <==> HasId(tasks, id)
    ensures !HasId(tasks, id) ==> r == tasks
  {
    var p := (t: Task) => t.id != id;
    Seqs.FilterShorter(tasks, p);
    assert HasId(tasks, id) ==> exists t :: t in tasks && !p(t) by {
      if HasId(tasks, id) {
        var i :| 0 <= i < |tasks| && tasks[i].id == id;
        assert tasks[i] in tasks;
      }
    }
    assert !HasId(tasks, id) ==> Seqs.Filter(tasks, p) == tasks by {
      if !HasId(tasks, id) {
        forall t | t in tasks
          ensures p(t)
        {
          var i :| 0 <= i < |tasks| && tasks[i] == t;
        }
        Seqs.FilterAll(tasks, p);
      }
    }
    Seqs.Filter(tasks, p)
  }

  /** `getByDate`: the tasks planned on `date`, in order. */
  function ByDate(tasks: seq<Task>, date: string): (r: seq<Task>)
    ensures Seqs.IsSubseq(r, tasks)
    ensures forall t :: t in r <==> t in tasks && t.calendarDate == Seqs.Some(date)
    ensures forall t :: t in tasks ==>
      multiset(r)[t] == if t.calendarDate == Seqs.Some(date) then multiset(tasks)[t] else 0
  {
    Seqs.Filter(tasks, (t: Task) => t.calendarDate == Seqs.Some(date))
  }

  /** `getByQuadrant`: the tasks in `quadrant`, in order; asking for no
      quadrant gives the tasks that have none. */
  function ByQuadrant(tasks: seq<Task>, quadrant: Seqs.Option<Quadrant>): (r: seq<Task>)
    ensures Seqs.IsSubseq(r, tasks)
    ensures forall t :: t in r <==> t in tasks && t.eisenhowerQuadrant == quadrant
    ensures forall t :: t in tasks ==>
      multiset(r)[t] == if t.eisenhowerQuadrant == quadrant then multiset(tasks)[t] else 0
  {
    Seqs.Filter(tasks, (t: Task) => t.eisenhowerQuadrant == quadrant)
  }

  /** The task after `linkToNote`: `noteId` appended to its links when it
      is not there yet (with a new `updatedAt`), otherwise the task as it
      was. */
  function LinkNote(t: Task, noteId: string, now: int): Task {
    if noteId in t.linkedNoteIds then t
    else t.(linkedNoteIds := t.linkedNoteIds + [noteId], updatedAt := now)
  }

  /** After a link the note is linked, the earlier links are a prefix, at
      most one id was added, and a list without repeats stays so. */
  lemma LinkNoteAdds(t: Task, noteId: string, now: int)
    ensures noteId in LinkNote(t, noteId, now).linkedNoteIds
    ensures var l := LinkNote(t, noteId, now).linkedNoteIds;
      |t.linkedNoteIds| <= |l| <= |t.linkedNoteIds| + 1 && l[..|t.linkedNoteIds|] == t.linkedNoteIds
    ensures Seqs.NoDup(t.linkedNoteIds) ==> Seqs.NoDup(LinkNote(t, noteId, now).linkedNoteIds)
    ensures LinkNote(t, noteId, now).(updatedAt := t.updatedAt, linkedNoteIds := t.linkedNoteIds) == t
  {
    var l := LinkNote(t, noteId, now).linkedNoteIds;
    if noteId !in t.linkedNoteIds {
      assert l[|l| - 1] == noteId;
    }
  }

  /** Linking the same note twice is the same as linking it once. */
  lemma LinkNoteIdempotent(t: Task, noteId: string, now: int, later: int)
    ensures LinkNote(LinkNote(t, noteId, now), noteId, later) == LinkNote(t, noteId, now)
  {
    LinkNoteAdds(t, noteId, now);
  }
}
