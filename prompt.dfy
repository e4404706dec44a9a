/** The index prompt loop of `done_task`, `undone_task` and `delete_task`. Each entry of
    `inputs` is one line the user typed, already run through `trim().parse::<i32>()`:
    `None` for text that is not an `i32`. A non-numeric entry prints a complaint and
    asks again; a zero or negative one asks again silently; the first positive one is
    acted on and ends the loop, whether or not it is in range. */
module Prompt {
  import opened Tasks

  predicate IsPositive(entry: Option<int32>) {
    entry.Some? && entry.value > 0
  }

  /** `Selected(k, n)`: the loop acts on `k`, read as the `n`-th entry.
      `Waiting`: every entry was rejected and the loop is still prompting. */
  datatype Selection = Selected(index: int32, consumed: nat) | Waiting

  /** The entry the prompt loop acts on: the first positive one. */
  function FirstPositive(inputs: seq<Option<int32>>): (sel: Selection)
    ensures sel.Selected? ==> 0 < sel.consumed <= |inputs| && sel.index > 0
                              && inputs[sel.consumed - 1] == Some(sel.index)
    ensures sel.Selected? ==> forall i :: 0 <= i < sel.consumed - 1 ==> !IsPositive(inputs[i])
    ensures sel.Waiting? <==> forall i :: 0 <= i < |inputs| ==> !IsPositive(inputs[i])
  {
    if inputs == [] then Waiting
    else if IsPositive(inputs[0]) then Selected(inputs[0].value, 1)
    else match FirstPositive(inputs[1..])
      case Waiting => Waiting
      case Selected(k, n) => Selected(k, n + 1)
  }

  /** The prompt loop itself, reading one entry per iteration. */
  method PromptIndex(inputs: seq<Option<int32>>) returns (sel: Selection)
    ensures sel == FirstPositive(inputs)
  {
    var i := 0;
    while i < |inputs|
      invariant 0 <= i <= |inputs|
      invariant forall j :: 0 <= j < i ==> !IsPositive(inputs[j])
    {
      match inputs[i]
      case None =>
        // "Invalid index please input a number", then `continue`
        i := i + 1;
      case Some(index) =>
        if index > 0 {
          return Selected(index, i + 1);
        }
        i := i + 1;
    }
    return Waiting;
  }

  /** Once the loop has acted on an index it reads nothing more: entries typed after
      the chosen one do not change the selection. */
  lemma {:induction false} SelectionIgnoresLaterInput(inputs: seq<Option<int32>>, more: seq<Option<int32>>)
    requires FirstPositive(inputs).Selected?
    ensures FirstPositive(inputs + more) == FirstPositive(inputs)
  {
    if !IsPositive(inputs[0]) {
      assert (inputs + more)[1..] == inputs[1..] + more;
      SelectionIgnoresLaterInput(inputs[1..], more);
    }
  }

  /** Rejected entries in front of the input only delay the selection. */
  lemma {:induction false} SkippedEntries(rejected: seq<Option<int32>>, inputs: seq<Option<int32>>)
    requires forall i :: 0 <= i < |rejected| ==> !IsPositive(rejected[i])
    ensures FirstPositive(rejected + inputs) ==
            match FirstPositive(inputs)
            case Waiting => Waiting
            case Selected(k, n) => Selected(k, n + |rejected|)
  {
    if rejected != [] {
      assert (rejected + inputs)[1..] == rejected[1..] + inputs;
      SkippedEntries(rejected[1..], inputs);
    } else {
      assert rejected + inputs == inputs;
    }
  }
}
