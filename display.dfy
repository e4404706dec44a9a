/** `list_task`: what the listing prints, as lines (the first, empty line is the
    `\n` at the start of the first `println!`). */
module Display {
  import opened Text
  import opened Tasks

  /** The status marker: `[✓]` for done, `[✖]` for not done. */
  function Glyph(done: bool): (g: string)
    ensures |g| == 3 && g[0] == '[' && g[2] == ']'
  {
    if done then "[\U{2713}]" else "[\U{2716}]"
  }

  /** `"{i+1} {status} - {description}"`. */
  function TaskLine(number: nat, t: Task): string {
    NatToString(number) + " " + Glyph(t.done) + " - " + t.description
  }

  const Header: seq<string> := ["", "Your Tasks:", "-----------"]
  const EmptyNotice: seq<string> := ["", "No tasks available."]

  /** One line per task, numbered from `first`. */
  function TaskLines(tasks: seq<Task>, first: nat): (lines: seq<string>)
    ensures |lines| == |tasks|
    ensures forall i {:trigger lines[i]} :: 0 <= i < |tasks| ==> lines[i] == TaskLine(first + i, tasks[i])
  {
    if tasks == [] then [] else [TaskLine(first, tasks[0])] + TaskLines(tasks[1..], first + 1)
  }

  /** The whole listing: the notice for an empty list, otherwise the header and
      line `i` (from 0) showing task `i` under the number `i + 1`. */
  function Listing(tasks: seq<Task>): (out: seq<string>)
    ensures tasks == [] ==> out == EmptyNotice
    ensures tasks != [] ==> |out| == |tasks| + 3 && out[..3] == Header
    ensures tasks != [] ==> forall i :: 3 <= i < |out| ==> out[i] == TaskLine(i - 2, tasks[i - 3])
  {
    if tasks == [] then EmptyNotice else Header + TaskLines(tasks, 1)
  }

  /** `list_task` with its `for` loop over `tasks.iter().enumerate()`; it only reads the list. */
  method ListTask(tasks: seq<Task>) returns (out: seq<string>)
    ensures out == Listing(tasks)
  {
    if |tasks| == 0 {
      out := EmptyNotice;
    } else {
      out := Header;
      for i := 0 to |tasks|
        invariant |out| == i + 3 && out[..3] == Header
        invariant forall j :: 0 <= j < i ==> out[j + 3] == TaskLine(j + 1, tasks[j])
      {
        var status := Glyph(tasks[i].done);
        out := out + [NatToString(i + 1) + " " + status + " - " + tasks[i].description];
      }
    }
  }

  /** Reads a listing line back into its number and task. */
  function ParseTaskLine(line: string): Option<(nat, Task)> {
    var k := DigitRun(line);
    if k == 0 || |line| < k + 7 || line[k] != ' ' || line[k + 4..k + 7] != " - " then None
    else if line[k + 1..k + 4] == Glyph(true) then Some((DecimalValue(line[..k]), Task(line[k + 7..], true)))
    else if line[k + 1..k + 4] == Glyph(false) then Some((DecimalValue(line[..k]), Task(line[k + 7..], false)))
    else None
  }

  /** The digits in front of a non-digit are exactly the leading digit run. */
  lemma DigitRunOf(digits: string, rest: string)
    requires AllDigits(digits) && rest != [] && !IsDigit(rest[0])
    ensures DigitRun(digits + rest) == |digits|
  {
    var s := digits + rest;
    assert s[..|digits|] == digits;
    assert s[|digits|] == rest[0];
  }

  /** Where the parts of a listing line sit. */
  lemma TaskLineShape(number: nat, t: Task)
    ensures var line, k := TaskLine(number, t), |NatToString(number)|;
            && 0 < k && k + 7 <= |line| && DigitRun(line) == k
            && line[..k] == NatToString(number) && line[k] == ' '
            && line[k + 1..k + 4] == Glyph(t.done) && line[k + 4..k + 7] == " - "
            && line[k + 7..] == t.description
  {
    var digits := NatToString(number);
    var g := Glyph(t.done);
    var head := " " + g + " - ";
    assert |head| == 7 && head[0] == ' ' && head[1..4] == g && head[4..7] == " - ";
    var tail := head + t.description;
    var line := TaskLine(number, t);
    assert line == digits + tail;
    DigitRunOf(digits, tail);
    var k := |digits|;
    assert line[..k] == digits;
    assert line[k..] == tail;
    assert line[k] == ' ';
    assert line[k + 1..k + 4] == tail[1..4] == g;
    assert line[k + 4..k + 7] == tail[4..7] == " - ";
    assert line[k + 7..] == tail[7..] == t.description;
  }

  /** The layout loses nothing: each element of `Listing` (the text of one `println!`)
      determines its number, the task's status and its whole description. */
  lemma TaskLineRoundTrip(number: nat, t: Task)
    ensures ParseTaskLine(TaskLine(number, t)) == Some((number, t))
  {
    TaskLineShape(number, t);
    assert Glyph(true) != Glyph(false) by {
      assert Glyph(true)[1] != Glyph(false)[1];
    }
  }
}
