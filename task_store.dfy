/** The web task store: the task list that `db.read`/`db.write` load and
    save is the field `tasks`. Schema validation cannot fail on this typed
    model, so it does not appear. */
module TaskService {
  import Seqs
  import Tasks

  type Task = Tasks.Task

  class TaskStore {
    var tasks: seq<Task>

    constructor(initial: seq<Task>)
      ensures tasks == initial
    {
      tasks := initial;
    }

    /** `create`: appends one task with a fresh id and the current time;
        it is never completed, and missing link and tag lists are empty. */
    method Create(draft: Tasks.TaskDraft, freshId: string, now: int) returns (t: Task)
      modifies this
      ensures t == Tasks.NewTask(draft, freshId, now, false)
      ensures !t.completed && t.id == freshId && t.createdAt == now && t.updatedAt == now
      ensures draft.linkedNoteIds.None? ==> t.linkedNoteIds == []
      ensures draft.tags.None? ==> t.tags == []
      ensures tasks == old(tasks) + [t]
    {
      t := Tasks.NewTask(draft, freshId, now, false);
      tasks := tasks + [t];
    }

    /** `update`: nothing for an unknown id; otherwise the first task with
        the id is replaced by its merge with the patch and every other
        position is unchanged. */
    method Update(id: string, p: Tasks.TaskPatch, now: int) returns (r: Seqs.Option<Task>)
      modifies this
      ensures var idx := Tasks.IndexOfId(old(tasks), id);
        if idx == -1 then r.None? && tasks == old(tasks)
        else r == Seqs.Some(Tasks.Merge(old(tasks)[idx], p, now)) && tasks == old(tasks)[idx := r.value]
    {
      var idx := Tasks.IndexOfId(tasks, id);
      if idx == -1 {
        return Seqs.None;
      }
      var updated := Tasks.Merge(tasks[idx], p, now);
      tasks := tasks[idx := updated];
      r := Seqs.Some(updated);
    }

    /** `delete`: drops every task with the id and reports whether the list
        got shorter, which is exactly whether some task had the id. */
    method Delete(id: string) returns (removed: bool)
      modifies this
      ensures tasks == Tasks.WithoutId(old(tasks), id)
      ensures removed <==> Tasks.HasId(old(tasks), id)
    {
      var filtered := Tasks.WithoutId(tasks, id);
      removed := |filtered| < |tasks|;
      tasks := filtered;
    }

    /** `linkToNote`: nothing for a missing task; otherwise the first task
        with the id gains `noteId` unless it already has it, in which case
        the list is left as it was. */
    method LinkToNote(taskId: string, noteId: string, now: int) returns (r: Seqs.Option<Task>)
      modifies this
      ensures var idx := Tasks.IndexOfId(old(tasks), taskId);
        if idx == -1 then r.None? && tasks == old(tasks)
        else r == Seqs.Some(Tasks.LinkNote(old(tasks)[idx], noteId, now)) && tasks == old(tasks)[idx := r.value]
      ensures r.Some? ==> noteId in r.value.linkedNoteIds
      ensures r.Some? && noteId in old(tasks)[Tasks.IndexOfId(old(tasks), taskId)].linkedNoteIds ==> tasks == old(tasks)
    {
      var idx := Tasks.IndexOfId(tasks, taskId);
      if idx == -1 {
        return Seqs.None;
      }
      var task := tasks[idx];
      Tasks.LinkNoteAdds(task, noteId, now);
      if noteId !in task.linkedNoteIds {
        task := task.(linkedNoteIds := task.linkedNoteIds + [noteId], updatedAt := now);
        tasks := tasks[idx := task];
      }
      r := Seqs.Some(task);
    }
  }
}
