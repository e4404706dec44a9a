/** `main`: the Running/Terminated loop that reads a line, normalises it, parses it
    into a command and dispatches. The console is the sequence `lines` of lines typed
    so far; the operations read their own input (a description, index entries) from
    the same sequence. `parse` stands for `str::parse::<i32>` on a trimmed line. */
module App {
  import opened Text
  import opened Commands
  import opened Tasks
  import opened Prompt
  import opened Display
  import opened Operations

  datatype State = Running | Terminated

  /** Where the loop stands after the input: its state, the list, and how many lines
      it has read. */
  datatype Session = Session(state: State, tasks: seq<Task>, consumed: nat)

  /** Each line as the index prompt sees it. */
  function Parsed(lines: seq<string>, parse: string -> Option<int32>): (inputs: seq<Option<int32>>)
    ensures |inputs| == |lines|
    ensures forall i {:trigger inputs[i]} :: 0 <= i < |lines| ==> inputs[i] == parse(Trim(lines[i]))
  {
    if lines == [] then [] else [parse(Trim(lines[0]))] + Parsed(lines[1..], parse)
  }

  /** One dispatched command other than `exit`, reading its own input from `rest`. */
  function Execute(command: Command, tasks: seq<Task>, rest: seq<string>,
                   parse: string -> Option<int32>): (e: Effect)
    requires !command.Exit?
    ensures e.consumed <= |rest|
  {
    match command
    case Add => if rest == [] then Effect(tasks, Pending, 0, false) else AddEffect(tasks, rest[0])
    case List => Effect(tasks, Listed(Listing(tasks)), 0, false)
    case Done => MarkEffect(tasks, Parsed(rest, parse), true)
    case Undone => MarkEffect(tasks, Parsed(rest, parse), false)
    case Delete => DeleteEffect(tasks, Parsed(rest, parse))
    case Menu => Effect(tasks, MenuShown, 0, false)
    case Empty => Effect(tasks, UnknownCommand, 0, false)
  }

  function Shift(s: Session, n: nat): Session {
    Session(s.state, s.tasks, s.consumed + n)
  }

  /** The loop over all the input: it ends only on a line that normalises to `exit`,
      and otherwise reads everything and is still running (at the command prompt or
      inside an operation's prompt). */
  function Drive(tasks: seq<Task>, lines: seq<string>, parse: string -> Option<int32>): (s: Session)
    ensures s.consumed <= |lines|
    ensures s.state.Running? ==> s.consumed == |lines|
    ensures s.state.Terminated? ==> 0 < s.consumed
    decreases |lines|
  {
    if lines == [] then Session(Running, tasks, 0)
    else
      var command := ParseCommand(Normalize(lines[0]));
      if command.Exit? then Session(Terminated, tasks, 1)
      else
        var e := Execute(command, tasks, lines[1..], parse);
        if e.outcome.Pending? then Session(Running, e.tasks, |lines|)
        else
          var s := Drive(e.tasks, lines[1 + e.consumed..], parse);
          Shift(s, 1 + e.consumed)
  }

  /** The file is rewritten after every change: a command that does not save leaves
      the list as it was. */
  lemma EveryChangeIsSaved(command: Command, tasks: seq<Task>, rest: seq<string>, parse: string -> Option<int32>)
    requires !command.Exit?
    ensures var e := Execute(command, tasks, rest, parse); !e.saves ==> e.tasks == tasks
  {
    match command
    case Done => MarkEffectSpec(tasks, Parsed(rest, parse), true);
    case Undone => MarkEffectSpec(tasks, Parsed(rest, parse), false);
    case Delete => DeleteEffectSpec(tasks, Parsed(rest, parse));
    case _ =>
  }

  /** The loop ends only on `exit`: when it has terminated, the last line it read
      normalises to `exit`. */
  lemma {:induction false} DriveEndsOnExit(tasks: seq<Task>, lines: seq<string>, parse: string -> Option<int32>)
    ensures var s := Drive(tasks, lines, parse);
            s.state.Terminated? ==> ParseCommand(Normalize(lines[s.consumed - 1])).Exit?
    decreases |lines|
  {
    if lines != [] {
      var command := ParseCommand(Normalize(lines[0]));
      var e := if command.Exit? then Effect([], Pending, 0, false) else Execute(command, tasks, lines[1..], parse);
      Turn(tasks, lines, parse, command, e);
      if !command.Exit? && !e.outcome.Pending? {
        var rest := lines[1 + e.consumed..];
        DriveEndsOnExit(e.tasks, rest, parse);
        var s := Drive(e.tasks, rest, parse);
        if s.state.Terminated? {
          assert lines[1 + e.consumed + s.consumed - 1] == rest[s.consumed - 1];
        }
      }
    }
  }

  /** One turn of the loop, on the first line: `exit` terminates, an operation still
      prompting leaves the loop waiting, any other command hands the input after what
      it read to the next turn. */
  lemma Turn(tasks: seq<Task>, lines: seq<string>, parse: string -> Option<int32>, command: Command, e: Effect)
    requires lines != [] && command == ParseCommand(Normalize(lines[0]))
    requires !command.Exit? ==> e == Execute(command, tasks, lines[1..], parse)
    ensures command.Exit? ==> Drive(tasks, lines, parse) == Session(Terminated, tasks, 1)
    ensures !command.Exit? && e.outcome.Pending? ==> Drive(tasks, lines, parse) == Session(Running, e.tasks, |lines|)
    ensures !command.Exit? && !e.outcome.Pending? ==>
              Drive(tasks, lines, parse) == Shift(Drive(e.tasks, lines[1 + e.consumed..], parse), 1 + e.consumed)
  {
  }

  /** `list` and `menu` and an unknown command read no input and leave the list and
      the file alone; `list` reports the listing of the current tasks. */
  lemma ReadOnlyCommands(tasks: seq<Task>, rest: seq<string>, parse: string -> Option<int32>)
    ensures Execute(List, tasks, rest, parse) == Effect(tasks, Listed(Listing(tasks)), 0, false)
    ensures Execute(Menu, tasks, rest, parse) == Effect(tasks, MenuShown, 0, false)
    ensures Execute(Empty, tasks, rest, parse) == Effect(tasks, UnknownCommand, 0, false)
  {
  }

  lemma {:induction false} ParsedAppend(a: seq<string>, b: seq<string>, parse: string -> Option<int32>)
    ensures Parsed(a + b, parse) == Parsed(a, parse) + Parsed(b, parse)
  {
    var l, r := Parsed(a + b, parse), Parsed(a, parse) + Parsed(b, parse);
    assert forall i :: 0 <= i < |a + b| ==> l[i] == r[i] by {
      forall i | 0 <= i < |a + b| ensures l[i] == r[i] {
        if i < |a| {
          assert (a + b)[i] == a[i];
        } else {
          assert (a + b)[i] == b[i - |a|];
        }
      }
    }
  }

  /** A command that has finished has read all it will read: more typed input does not
      change what it does. */
  lemma ExecuteIgnoresLaterInput(command: Command, tasks: seq<Task>, rest: seq<string>, more: seq<string>,
                                 parse: string -> Option<int32>)
    requires !command.Exit? && !Execute(command, tasks, rest, parse).outcome.Pending?
    ensures Execute(command, tasks, rest + more, parse) == Execute(command, tasks, rest, parse)
  {
    ParsedAppend(rest, more, parse);
    match command
    case Add =>
      assert (rest + more)[0] == rest[0];
    case Done =>
      MarkIgnoresLaterInput(tasks, Parsed(rest, parse), Parsed(more, parse), true);
    case Undone =>
      MarkIgnoresLaterInput(tasks, Parsed(rest, parse), Parsed(more, parse), false);
    case Delete =>
      DeleteIgnoresLaterInput(tasks, Parsed(rest, parse), Parsed(more, parse));
    case _ =>
  }

  /** One turn that has finished reads the same from longer input. */
  lemma TurnIgnoresLaterInput(tasks: seq<Task>, lines: seq<string>, more: seq<string>,
                              parse: string -> Option<int32>, command: Command, e: Effect)
    requires lines != [] && !command.Exit?
    requires e == Execute(command, tasks, lines[1..], parse) && !e.outcome.Pending?
    ensures Execute(command, tasks, (lines + more)[1..], parse) == e
    ensures 1 + e.consumed <= |lines| && (lines + more)[1 + e.consumed..] == lines[1 + e.consumed..] + more
  {
    assert (lines + more)[1..] == lines[1..] + more;
    ExecuteIgnoresLaterInput(command, tasks, lines[1..], more, parse);
  }

  /** After `exit` the program reads nothing more: lines typed after the one that ended
      the loop change nothing. */
  lemma {:induction false} ExitIgnoresLaterInput(tasks: seq<Task>, lines: seq<string>, more: seq<string>,
                                                 parse: string -> Option<int32>)
    requires Drive(tasks, lines, parse).state.Terminated?
    ensures Drive(tasks, lines + more, parse) == Drive(tasks, lines, parse)
    decreases |lines|
  {
    var command := ParseCommand(Normalize(lines[0]));
    assert (lines + more)[0] == lines[0];
    if command.Exit? {
      Turn(tasks, lines, parse, command, Effect([], Pending, 0, false));
      Turn(tasks, lines + more, parse, command, Effect([], Pending, 0, false));
    } else {
      var e := Execute(command, tasks, lines[1..], parse);
      Turn(tasks, lines, parse, command, e);
      TurnIgnoresLaterInput(tasks, lines, more, parse, command, e);
      Turn(tasks, lines + more, parse, command, e);
      ExitIgnoresLaterInput(e.tasks, lines[1 + e.consumed..], more, parse);
    }
  }

  /** The `match command` of `main` for every command but `exit`. */
  method Dispatch(list: TaskList, command: Command, rest: seq<string>, parse: string -> Option<int32>)
    returns (outcome: Outcome, used: nat)
    requires !command.Exit?
    modifies list
    ensures var e := Execute(command, old(list.tasks), rest, parse);
            list.tasks == e.tasks && outcome == e.outcome && used == e.consumed
            && list.saved == (if e.saves then list.tasks else old(list.saved))
  {
    match command
    case Add =>
      if rest == [] {
        // waiting for the description
        outcome, used := Pending, 0;
      } else {
        outcome := list.AddTask(rest[0]);
        used := 1;
      }
    case List =>
      var out := ListTask(list.tasks);
      outcome, used := Listed(out), 0;
    case Done =>
      outcome, used := list.DoneTask(Parsed(rest, parse));
    case Undone =>
      outcome, used := list.UndoneTask(Parsed(rest, parse));
    case Delete =>
      outcome, used := list.DeleteTask(Parsed(rest, parse));
    case Menu =>
      outcome, used := MenuShown, 0;
    case Empty =>
      outcome, used := UnknownCommand, 0;
  }

  /** One turn of `main`'s loop on the input `lines` still to be read: `stop` when the
      loop has ended or waits, with its final state; otherwise `used` lines were read
      and the rest of the input drives the loop from the new list. */
  method Step(list: TaskList, lines: seq<string>, parse: string -> Option<int32>)
    returns (stop: bool, state: State, used: nat)
    requires lines != []
    modifies list
    ensures stop ==> Drive(old(list.tasks), lines, parse) == Session(state, list.tasks, used)
    ensures !stop ==> 0 < used <= |lines|
                      && Drive(old(list.tasks), lines, parse) == Shift(Drive(list.tasks, lines[used..], parse), used)
    ensures old(list.Synced()) ==> list.Synced()
  {
    var command := ParseCommand(Normalize(lines[0]));
    var rest := lines[1..];
    ghost var e := if command.Exit? then Effect([], Pending, 0, false) else Execute(command, list.tasks, rest, parse);
    Turn(list.tasks, lines, parse, command, e);
    if command.Exit? {
      return true, Terminated, 1;
    }
    EveryChangeIsSaved(command, list.tasks, rest, parse);
    var outcome, n := Dispatch(list, command, rest, parse);
    if outcome.Pending? {
      return true, Running, |lines|;
    }
    return false, Running, 1 + n;
  }

  /** `main`'s loop; `list` holds the tasks `get_tasks` loaded. */
  method Run(list: TaskList, lines: seq<string>, parse: string -> Option<int32>) returns (state: State, consumed: nat)
    modifies list
    ensures var s := Drive(old(list.tasks), lines, parse);
            state == s.state && consumed == s.consumed && list.tasks == s.tasks
    ensures old(list.Synced()) ==> list.Synced()
  {
    state, consumed := Running, 0;
    ghost var goal := Drive(list.tasks, lines, parse);
    assert lines[0..] == lines;
    while consumed < |lines|
      invariant consumed <= |lines|
      invariant Shift(Drive(list.tasks, lines[consumed..], parse), consumed) == goal
      invariant old(list.Synced()) ==> list.Synced()
      decreases |lines| - consumed
    {
      ghost var here := lines[consumed..];
      var stop, final, used := Step(list, lines[consumed..], parse);
      if stop {
        state, consumed := final, consumed + used;
        return;
      }
      var after := consumed + used;
      assert here[used..] == lines[after..];
      consumed := after;
    }
  }
}
