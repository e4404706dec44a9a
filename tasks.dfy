/** The `Task` record and the two list updates behind `done_task`, `undone_task`
    and `delete_task`, each guarded by `index > 0 && index as usize <= tasks.len()`. */
module Tasks {

  /** The `i32` that `str::parse` yields for an index. */
  newtype int32 = x: int | -0x8000_0000 <= x < 0x8000_0000

  datatype Option<+T> = None | Some(value: T)

  datatype Task = Task(description: string, done: bool)

  /** The bounds check shared by done, undone and delete (1-based positions). */
  predicate InRange(tasks: seq<Task>, index: int) {
    0 < index <= |tasks|
  }

  /** `tasks[(index - 1) as usize].done = flag` behind the bounds check: the flag at
      `index` becomes `flag`, the description stays, every other task and the length stay. */
  function SetDone(tasks: seq<Task>, index: int, flag: bool): (r: seq<Task>)
    ensures |r| == |tasks|
    ensures InRange(tasks, index) ==> r[index - 1] == Task(tasks[index - 1].description, flag)
    ensures forall i {:trigger r[i]} :: 0 <= i < |tasks| && i != index - 1 ==> r[i] == tasks[i]
  {
    if InRange(tasks, index) then tasks[index - 1 := tasks[index - 1].(done := flag)] else tasks
  }

  /** `tasks.remove((index - 1) as usize)` behind the bounds check: the task at `index`
      is gone and the later ones move down one place, in the same order. */
  function Remove(tasks: seq<Task>, index: int): (r: seq<Task>)
    ensures InRange(tasks, index) ==> |r| == |tasks| - 1
    ensures InRange(tasks, index) ==> forall i {:trigger r[i]} :: 0 <= i < index - 1 ==> r[i] == tasks[i]
    ensures InRange(tasks, index) ==> forall i :: index - 1 <= i < |r| ==> r[i] == tasks[i + 1]
    ensures !InRange(tasks, index) ==> r == tasks
  {
    if InRange(tasks, index) then tasks[..index - 1] + tasks[index..] else tasks
  }

  /** Putting `t` back at position `index`: the inverse of `Remove`. */
  function Insert(tasks: seq<Task>, index: int, t: Task): seq<Task>
    requires 0 < index <= |tasks| + 1
  {
    tasks[..index - 1] + [t] + tasks[index - 1..]
  }

  /** A positive index beyond the end leaves the list as it was. */
  lemma SetDoneOutOfRange(tasks: seq<Task>, index: int, flag: bool)
    requires !InRange(tasks, index)
    ensures SetDone(tasks, index, flag) == tasks
  {
    assert forall i :: 0 <= i < |tasks| ==> SetDone(tasks, index, flag)[i] == tasks[i];
  }

  /** Re-marking a task that already has the requested flag changes nothing
      (the "already marked" branch). */
  lemma SetDoneAlreadyMarked(tasks: seq<Task>, index: int, flag: bool)
    requires InRange(tasks, index) && tasks[index - 1].done == flag
    ensures SetDone(tasks, index, flag) == tasks
  {
    var r := SetDone(tasks, index, flag);
    assert forall i :: 0 <= i < |tasks| ==> r[i] == tasks[i];
  }

  /** Marking is idempotent. */
  lemma SetDoneIdempotent(tasks: seq<Task>, index: int, flag: bool)
    ensures SetDone(SetDone(tasks, index, flag), index, flag) == SetDone(tasks, index, flag)
  {
    var once := SetDone(tasks, index, flag);
    if InRange(tasks, index) {
      SetDoneAlreadyMarked(once, index, flag);
    } else {
      SetDoneOutOfRange(once, index, flag);
    }
  }

  /** Undone after done (or done after undone) restores the list: the two operations
      are inverse on a task that had the other flag. */
  lemma SetDoneUndo(tasks: seq<Task>, index: int)
    requires InRange(tasks, index)
    ensures SetDone(SetDone(tasks, index, !tasks[index - 1].done), index, tasks[index - 1].done) == tasks
  {
    var r := SetDone(SetDone(tasks, index, !tasks[index - 1].done), index, tasks[index - 1].done);
    assert forall i :: 0 <= i < |tasks| ==> r[i] == tasks[i];
  }

  /** Re-inserting the removed task at its old position restores the list. */
  lemma RemoveInsert(tasks: seq<Task>, index: int)
    requires InRange(tasks, index)
    ensures Insert(Remove(tasks, index), index, tasks[index - 1]) == tasks
  {
    var r := Insert(Remove(tasks, index), index, tasks[index - 1]);
    assert forall i :: 0 <= i < |tasks| ==> r[i] == tasks[i];
  }

  /** Deleting loses exactly the removed task: the survivors and it make up the old list. */
  lemma RemoveIsPermutation(tasks: seq<Task>, index: int)
    requires InRange(tasks, index)
    ensures multiset(Remove(tasks, index)) + multiset{tasks[index - 1]} == multiset(tasks)
  {
    assert tasks == tasks[..index - 1] + [tasks[index - 1]] + tasks[index..];
  }
}
