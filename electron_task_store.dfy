/** The desktop task store. It differs from the web store in `create`,
    which keeps a `completed` flag the caller set, and in doing no schema
    validation; the queries are the shared `Tasks.ByDate` and
    `Tasks.ByQuadrant`. */
module ElectronTaskService {
  import Seqs
  import Tasks

  type Task = Tasks.Task

  class TaskStore {
    var tasks: seq<Task>

    constructor(initial: seq<Task>)
      ensures tasks == initial
    {
      tasks := initial;
    }

    /** `create`: appends one task; it is completed only when the caller
        said so, and missing link and tag lists are empty. */
    method Create(draft: Tasks.TaskDraft, freshId: string, now: int) returns (t: Task)
      modifies this
      ensures t == Tasks.NewTask(draft, freshId, now, draft.completed == Seqs.Some(true))
      ensures t.completed <==> draft.completed == Seqs.Some(true)
      ensures draft.linkedNoteIds.None? ==> t.linkedNoteIds == []
      ensures draft.tags.None? ==> t.tags == []
      ensures tasks == old(tasks) + [t]
    {
      var completed := Seqs.Or(draft.completed, false);
      t := Tasks.NewTask(draft, freshId, now, completed);
      tasks := tasks + [t];
    }

    /** `update`: `undefined` for an unknown id; otherwise only the first
        matching position changes, to the merge of the task and the patch. */
    method Update(id: string, p: Tasks.TaskPatch, now: int) returns (r: Seqs.Option<Task>)
      modifies this
      ensures var idx := Tasks.IndexOfId(old(tasks), id);
        if idx == -1 then r.None? && tasks == old(tasks)
        else r == Seqs.Some(Tasks.Merge(old(tasks)[idx], p, now)) && tasks == old(tasks)[idx := r.value]
    {
      var idx := Tasks.IndexOfId(tasks, id);
      if idx == -1 {
        return Seqs.None;
      }
      var updated := Tasks.Merge(tasks[idx], p, now);
      tasks := tasks[idx := updated];
      r := Seqs.Some(updated);
    }

    /** `delete`: removes all tasks with the id; true iff the length fell. */
    method Delete(id: string) returns (removed: bool)
      modifies this
      ensures tasks == Tasks.WithoutId(old(tasks), id)
      ensures removed <==> Tasks.HasId(old(tasks), id)
    {
      var filtered := Tasks.WithoutId(tasks, id);
      removed := |filtered| < |tasks|;
      tasks := filtered;
    }

    /** `linkToNote`: the same idempotent append as the web store's. */
    method LinkToNote(taskId: string, noteId: string, now: int) returns (r: Seqs.Option<Task>)
      modifies this
      ensures var idx := Tasks.IndexOfId(old(tasks), taskId);
        if idx == -1 then r.None? && tasks == old(tasks)
        else r == Seqs.Some(Tasks.LinkNote(old(tasks)[idx], noteId, now)) && tasks == old(tasks)[idx := r.value]
      ensures r.Some? ==> noteId in r.value.linkedNoteIds
    {
      var idx := Tasks.IndexOfId(tasks, taskId);
      if idx == -1 {
        return Seqs.None;
      }
      var task := tasks[idx];
      Tasks.LinkNoteAdds(task, noteId, now);
      if noteId !in task.linkedNoteIds {
        task := task.(linkedNoteIds := task.linkedNoteIds + [noteId], updatedAt := now);
        tasks := tasks[idx := task];
      }
      r := Seqs.Some(task);
    }
  }
}
