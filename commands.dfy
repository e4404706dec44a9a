/** The command table of the main loop: `Command` and `parse_command`, and the
    trim-then-lowercase normalisation the loop applies to each line first. */
module Commands {
  import opened Text

  datatype Command = Add | List | Done | Undone | Delete | Menu | Exit | Empty

  /** The word that selects each command (the ones the menu lists). */
  function Token(c: Command): (w: string)
    requires !c.Empty?
    ensures w != [] && IsLowerWord(w)
  {
    match c
    case Add => "add"
    case List => "list"
    case Done => "done"
    case Undone => "undone"
    case Delete => "delete"
    case Menu => "menu"
    case Exit => "exit"
  }

  /** `parse_command`: exact match against the table, `Empty` for everything else.
      It is the inverse of `Token`, extended by `Empty` outside the table. */
  function ParseCommand(input: string): (c: Command)
    ensures !c.Empty? ==> Token(c) == input
    ensures c.Empty? <==> forall k: Command :: !k.Empty? ==> Token(k) != input
  {
    match input
    case "add" => Add
    case "list" => List
    case "done" => Done
    case "undone" => Undone
    case "delete" => Delete
    case "menu" => Menu
    case "exit" => Exit
    case _ => Empty
  }

  /** `input.trim().to_lowercase()` in the main loop. */
  function Normalize(line: string): string {
    ToLower(Trim(line))
  }

  /** Every command word is read back as its command. */
  lemma {:induction false} ParseToken(c: Command)
    requires !c.Empty?
    ensures ParseCommand(Token(c)) == c
  {
    var p := ParseCommand(Token(c));
    match c
    case Add => assert Token(p) == "add";
    case List => assert Token(p) == "list";
    case Done => assert Token(p) == "done";
    case Undone => assert Token(p) == "undone";
    case Delete => assert Token(p) == "delete";
    case Menu => assert Token(p) == "menu";
    case Exit => assert Token(p) == "exit";
  }

  /** Dispatch ignores surrounding whitespace and ASCII case: a line selects command `c`
      exactly when its trimmed text equals `c`'s word up to case. */
  lemma DispatchIgnoresCase(line: string, c: Command)
    requires !c.Empty?
    ensures ParseCommand(Normalize(line)) == c <==> EqualsIgnoreCase(Trim(line), Token(c))
  {
    ToLowerMatches(Trim(line), Token(c));
    if EqualsIgnoreCase(Trim(line), Token(c)) {
      ParseToken(c);
    }
  }
}
