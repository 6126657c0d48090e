/** The interactive command prompt (src/cli/input.rs). */
module CliInput {
  import opened Wrappers
  import Text

  datatype InputType = ServiceList | Exit

  /** The command table, searched from the front. */
  const CMD_LIST: seq<(string, InputType)> :=
    [("list", ServiceList), ("exit", Exit), ("quit", Exit), ("q", Exit)]

  /** `iter().find` on the table: the first entry whose name is `cmd`. */
  function Find(table: seq<(string, InputType)>, cmd: string): (r: Option<InputType>)
    ensures r.None? <==> forall i :: 0 <= i < |table| ==> table[i].0 != cmd
    ensures r.Some? ==> exists i :: 0 <= i < |table| && table[i] == (cmd, r.value)
                          && forall j :: 0 <= j < i ==> table[j].0 != cmd
  {
    if table == [] then None
    else if table[0].0 == cmd then Some(table[0].1)
    else
      var r := Find(table[1..], cmd);
      assert r.Some? ==> exists i :: 1 <= i < |table| && table[i] == (cmd, r.value)
                           && forall j :: 0 <= j < i ==> table[j].0 != cmd by {
        if r.Some? {
          var i :| 0 <= i < |table[1..]| && table[1..][i] == (cmd, r.value)
                   && forall j :: 0 <= j < i ==> table[1..][j].0 != cmd;
          assert table[i + 1] == (cmd, r.value);
          forall j | 0 <= j < i + 1 ensures table[j].0 != cmd {
            if j > 0 { assert table[j] == table[1..][j - 1]; }
          }
        }
      }
      r
  }

  /** The command a line stands for: "list" lists, "exit", "quit" and "q" exit,
      anything else is no command. */
  function Lookup(cmd: string): (r: Option<InputType>)
    ensures r == Some(ServiceList) <==> cmd == "list"
    ensures r == Some(Exit) <==> cmd in ["exit", "quit", "q"]
    ensures r == None <==> cmd !in ["list", "exit", "quit", "q"]
  {
    Find(CMD_LIST, cmd)
  }

  /** What the line is compared with: trimmed, then lower-cased. */
  function Normalize(line: string): (r: string)
    ensures |r| <= |line|
    ensures forall i :: 0 <= i < |r| ==> !('A' <= r[i] <= 'Z')
    ensures r == [] || (!Text.IsWhitespace(r[0]) && !Text.IsWhitespace(r[|r| - 1]))
  {
    var t := Text.Trim(line);
    var r := Text.ToLower(t);
    Text.ToLowerHasNoUpper(t);
    if r == [] then r
    else
      Text.LowerKeepsWhitespace(t[0]);
      Text.LowerKeepsWhitespace(t[|t| - 1]);
      r
  }

  /** The value `parse` returns for a line it read: false only for exit. */
  function KeepRunning(line: string): (r: bool)
    ensures !r <==> Lookup(Normalize(line)) == Some(Exit)
  {
    match Lookup(Normalize(line))
    case Some(Exit) => false
    case Some(ServiceList) => true
    case None => true
  }

  /** Case and surrounding whitespace do not matter: " LIST\n" lists. */
  lemma PaddedUpperCaseList()
    ensures Normalize(" LIST\n") == "list"
    ensures Lookup(Normalize(" LIST\n")) == Some(ServiceList) && KeepRunning(" LIST\n")
  {
    assert Text.TrimStart("LIST\n") == "LIST\n";
    assert Text.TrimStart(" LIST\n") == "LIST\n";
    assert Text.TrimEnd("LIST") == "LIST";
    assert Text.TrimEnd("LIST\n") == "LIST";
    assert Text.ToLower("LIST") == "list";
  }

  /** A typed "Quit" line ends the prompt loop. */
  lemma QuitLineExits()
    ensures Normalize("Quit\n") == "quit" && !KeepRunning("Quit\n")
  {
    assert Text.TrimStart("Quit\n") == "Quit\n";
    assert Text.TrimEnd("Quit") == "Quit";
    assert Text.TrimEnd("Quit\n") == "Quit";
    assert Text.ToLower("Quit") == "quit";
  }

  class UserInput {
    /** The buffer the last line was read into. */
    var input: string
    var inputLast: Option<string>

    constructor ()
      ensures input == [] && inputLast == None
    {
      input := [];
      inputLast := None;
    }

    /** `UserInput::parse`. `flush` is the outcome of flushing the prompt and
        `read` that of reading a line from standard input. On success the
        buffer holds exactly the line read, and the result is false only for
        an exit command; listing the services prints and is not modelled. */
    method Parse(flush: Outcome<string>, read: Result<string, string>) returns (r: Result<bool, string>)
      modifies this
      ensures inputLast == old(inputLast)
      ensures flush.Fail? ==> r == Err(flush.error) && input == old(input)
      ensures flush.Pass? && read.Err? ==> r == Err(read.error) && input == []
      ensures flush.Pass? && read.Ok? ==> r == Ok(KeepRunning(read.value)) && input == read.value
    {
      if flush.Fail? {
        return Err(flush.error);
      }
      input := [];
      match read {
        case Err(e) =>
          return Err(e);
        case Ok(line) =>
          input := input + line;
          assert input == line;
      }
      var cmd := Normalize(input);
      var inputType := Lookup(cmd);
      match inputType {
        case Some(ServiceList) =>
        case Some(Exit) => return Ok(false);
        case None =>
      }
      r := Ok(true);
    }
  }
}
