/** The task-list operations `add_task`, `done_task`, `undone_task` and `delete_task`:
    first as functions giving the effect of one call, then as the methods of a
    `TaskList` that update the list in place. `saved` stands for the contents of
    `tasks.json`, which each operation rewrites in full when it saves. */
module Operations {
  import opened Text
  import opened Tasks
  import opened Prompt
  import opened Display

  /** What an operation reports (the message it prints), or `Pending` while its
      prompt is still waiting for input. */
  datatype Outcome =
    | Added(task: Task)                    // "Task added successfully!"
    | Listed(lines: seq<string>)           // the listing
    | Marked(index: int32)                 // flag changed, list shown again
    | AlreadyMarked(index: int32)          // "Task is already marked as done." / "... undone."
    | Deleted(index: int32, task: Task)    // "{index}. {description} [{status}] Was deleted"
    | InvalidIndex(index: int32)           // "Invalid index!"
    | NothingToDelete                      // "No tasks to delete."
    | MenuShown
    | UnknownCommand                       // "No commands found re renter command"
    | Pending

  /** One call's effect: the new list, the outcome, how many input lines the call
      read, and whether it rewrote the file. */
  datatype Effect = Effect(tasks: seq<Task>, outcome: Outcome, consumed: nat, saves: bool)

  /** `add_task` given the line typed as the description. */
  function AddEffect(tasks: seq<Task>, line: string): Effect {
    var task := Task(Trim(line), false);
    Effect(tasks + [task], Added(task), 1, true)
  }

  /** Adding appends exactly one task, not done, whose description is the line without
      its surrounding whitespace; the earlier tasks stay as they were, and the list is saved. */
  lemma AddEffectSpec(tasks: seq<Task>, line: string)
    ensures var e := AddEffect(tasks, line);
            && |e.tasks| == |tasks| + 1 && e.tasks[..|tasks|] == tasks
            && e.tasks[|tasks|] == Task(Trim(line), false) && !e.tasks[|tasks|].done
            && e.outcome == Added(e.tasks[|tasks|]) && e.consumed == 1 && e.saves
            && var d := e.tasks[|tasks|].description;
               (d != [] ==> !IsWhitespace(d[0]) && !IsWhitespace(d[|d| - 1]))
  {
    TrimSpec(line);
  }

  /** `done_task` (`flag` true) and `undone_task` (`flag` false) given the entries typed
      at the index prompt. */
  function MarkEffect(tasks: seq<Task>, inputs: seq<Option<int32>>, flag: bool): (e: Effect)
    ensures e.consumed <= |inputs|
  {
    match FirstPositive(inputs)
    case Waiting => Effect(tasks, Pending, |inputs|, false)
    case Selected(k, n) =>
      if !InRange(tasks, k as int) then Effect(tasks, InvalidIndex(k), n, true)
      else if tasks[k - 1].done == flag then Effect(tasks, AlreadyMarked(k), n, true)
      else Effect(SetDone(tasks, k as int, flag), Marked(k), n, true)
  }

  /** What marking does: with no positive entry the prompt is still waiting and nothing
      changed; otherwise it acted on the first positive entry and saved, leaving the list
      as it was for an index past the end or a task that already had the flag, and
      setting the flag otherwise. */
  lemma MarkEffectSpec(tasks: seq<Task>, inputs: seq<Option<int32>>, flag: bool)
    ensures var e := MarkEffect(tasks, inputs, flag);
            && |e.tasks| == |tasks|
            && (e.outcome.Pending? <==> forall i :: 0 <= i < |inputs| ==> !IsPositive(inputs[i]))
            && (e.outcome.Pending? ==> e.tasks == tasks && !e.saves && e.consumed == |inputs|)
            && (!e.outcome.Pending? ==> e.saves && (e.outcome.Marked? || e.outcome.AlreadyMarked? || e.outcome.InvalidIndex?))
            && (!e.outcome.Pending? ==> FirstPositive(inputs) == Selected(e.outcome.index, e.consumed))
            && (e.outcome.InvalidIndex? ==> !InRange(tasks, e.outcome.index as int) && e.tasks == tasks)
            && (e.outcome.AlreadyMarked? ==>
                  InRange(tasks, e.outcome.index as int) && tasks[e.outcome.index - 1].done == flag
                  && e.tasks == tasks)
            && (e.outcome.Marked? ==>
                  InRange(tasks, e.outcome.index as int) && tasks[e.outcome.index - 1].done != flag
                  && e.tasks == SetDone(tasks, e.outcome.index as int, flag))
  {
  }

  /** `delete_task` given the entries typed at the index prompt. */
  function DeleteEffect(tasks: seq<Task>, inputs: seq<Option<int32>>): (e: Effect)
    ensures e.consumed <= |inputs|
  {
    if tasks == [] then Effect(tasks, NothingToDelete, 0, false)
    else match FirstPositive(inputs)
      case Waiting => Effect(tasks, Pending, |inputs|, false)
      case Selected(k, n) =>
        if InRange(tasks, k as int) then Effect(Remove(tasks, k as int), Deleted(k, tasks[k - 1]), n, true)
        else Effect(tasks, InvalidIndex(k), n, true)
  }

  /** What deleting does: on an empty list it returns at once without prompting or
      saving; otherwise, with no positive entry the prompt is still waiting, and with one
      it saves and either removes that task (reporting it) or, past the end, leaves
      the list as it was. */
  lemma DeleteEffectSpec(tasks: seq<Task>, inputs: seq<Option<int32>>)
    ensures var e := DeleteEffect(tasks, inputs);
            && (tasks == [] ==> e == Effect(tasks, NothingToDelete, 0, false))
            && (e.outcome.Pending? <==> tasks != [] && forall i :: 0 <= i < |inputs| ==> !IsPositive(inputs[i]))
            && (e.outcome.Pending? ==> e.tasks == tasks && !e.saves && e.consumed == |inputs|)
            && (e.outcome.InvalidIndex? || e.outcome.Deleted? ==>
                  e.saves && FirstPositive(inputs) == Selected(e.outcome.index, e.consumed))
            && (e.outcome.InvalidIndex? ==> !InRange(tasks, e.outcome.index as int) && e.tasks == tasks)
            && (e.outcome.Deleted? ==>
                  InRange(tasks, e.outcome.index as int) && e.outcome.task == tasks[e.outcome.index - 1]
                  && e.tasks == Remove(tasks, e.outcome.index as int))
            && (e.outcome.Pending? || e.outcome.NothingToDelete? || e.outcome.InvalidIndex? || e.outcome.Deleted?)
  {
  }

  /** A mark that has acted on an index is not affected by entries typed after it. */
  lemma MarkIgnoresLaterInput(tasks: seq<Task>, inputs: seq<Option<int32>>, more: seq<Option<int32>>, flag: bool)
    requires !MarkEffect(tasks, inputs, flag).outcome.Pending?
    ensures MarkEffect(tasks, inputs + more, flag) == MarkEffect(tasks, inputs, flag)
  {
    SelectionIgnoresLaterInput(inputs, more);
  }

  /** A delete that has finished is not affected by entries typed after it. */
  lemma DeleteIgnoresLaterInput(tasks: seq<Task>, inputs: seq<Option<int32>>, more: seq<Option<int32>>)
    requires !DeleteEffect(tasks, inputs).outcome.Pending?
    ensures DeleteEffect(tasks, inputs + more) == DeleteEffect(tasks, inputs)
  {
    if tasks != [] {
      SelectionIgnoresLaterInput(inputs, more);
    }
  }

  /** Marking the same index twice in a row has the effect of marking it once; the
      second call reports "already marked". */
  lemma {:induction false} MarkTwice(tasks: seq<Task>, inputs: seq<Option<int32>>, flag: bool)
    requires MarkEffect(tasks, inputs, flag).outcome.Marked?
    ensures var once := MarkEffect(tasks, inputs, flag);
            var twice := MarkEffect(once.tasks, inputs, flag);
            twice.outcome == AlreadyMarked(once.outcome.index) && twice.tasks == once.tasks
  {
    var once := MarkEffect(tasks, inputs, flag);
    MarkEffectSpec(tasks, inputs, flag);
    MarkEffectSpec(once.tasks, inputs, flag);
    var k := once.outcome.index as int;
    assert once.tasks[k - 1].done == flag;
    SetDoneIdempotent(tasks, k, flag);
  }

  /** The in-memory list that `main` owns and passes by `&mut` to each operation. */
  class TaskList {
    var tasks: seq<Task>
    /** What `tasks.json` holds: the list as of the last save. */
    ghost var saved: seq<Task>

    ghost predicate Synced()
      reads this
    {
      saved == tasks
    }

    /** The list as `get_tasks` loaded it from the file. */
    constructor (loaded: seq<Task>)
      ensures tasks == loaded && Synced()
    {
      tasks := loaded;
      saved := loaded;
    }

    /** `add_task`: push the trimmed description as a not-done task, then save. */
    method AddTask(line: string) returns (outcome: Outcome)
      modifies this
      ensures var e := AddEffect(old(tasks), line); tasks == e.tasks && outcome == e.outcome
      ensures |tasks| == |old(tasks)| + 1 && tasks[..|old(tasks)|] == old(tasks)
      ensures Synced()
    {
      var description := Trim(line);
      var task := Task(description, false);
      tasks := tasks + [task];
      saved := tasks;
      outcome := Added(task);
    }

    /** The shared body of `done_task` and `undone_task`. */
    method MarkTask(inputs: seq<Option<int32>>, flag: bool) returns (outcome: Outcome, consumed: nat)
      modifies this
      ensures var e := MarkEffect(old(tasks), inputs, flag);
              tasks == e.tasks && outcome == e.outcome && consumed == e.consumed
              && saved == (if e.saves then tasks else old(saved))
    {
      var sel := PromptIndex(inputs);
      match sel
      case Waiting =>
        outcome, consumed := Pending, |inputs|;
      case Selected(index, n) =>
        consumed := n;
        if index > 0 && index as int <= |tasks| {
          if tasks[index - 1].done == flag {
            outcome := AlreadyMarked(index);
          } else {
            tasks := tasks[index - 1 := tasks[index - 1].(done := flag)];
            outcome := Marked(index);
          }
        } else {
          outcome := InvalidIndex(index);
        }
        saved := tasks;
    }

    /** `done_task`. */
    method DoneTask(inputs: seq<Option<int32>>) returns (outcome: Outcome, consumed: nat)
      modifies this
      ensures var e := MarkEffect(old(tasks), inputs, true);
              tasks == e.tasks && outcome == e.outcome && consumed == e.consumed
              && saved == (if e.saves then tasks else old(saved))
    {
      outcome, consumed := MarkTask(inputs, true);
    }

    /** `undone_task`. */
    method UndoneTask(inputs: seq<Option<int32>>) returns (outcome: Outcome, consumed: nat)
      modifies this
      ensures var e := MarkEffect(old(tasks), inputs, false);
              tasks == e.tasks && outcome == e.outcome && consumed == e.consumed
              && saved == (if e.saves then tasks else old(saved))
    {
      outcome, consumed := MarkTask(inputs, false);
    }

    /** `delete_task`: returns at once on an empty list, otherwise prompts for one
        index and removes that task if it is in range, then saves. */
    method DeleteTask(inputs: seq<Option<int32>>) returns (outcome: Outcome, consumed: nat)
      modifies this
      ensures var e := DeleteEffect(old(tasks), inputs);
              tasks == e.tasks && outcome == e.outcome && consumed == e.consumed
              && saved == (if e.saves then tasks else old(saved))
    {
      if |tasks| == 0 {
        return NothingToDelete, 0;
      }
      var sel := PromptIndex(inputs);
      match sel
      case Waiting =>
        outcome, consumed := Pending, |inputs|;
      case Selected(index, n) =>
        consumed := n;
        if index > 0 && index as int <= |tasks| {
          var deleted := tasks[index - 1];
          tasks := tasks[..index - 1] + tasks[index..];
          outcome := Deleted(index, deleted);
        } else {
          outcome := InvalidIndex(index);
        }
        saved := tasks;
    }
  }
}
