/**
 * `fiberous.fi.example.NestedCommands`: a command whose `execute` opens a
 * menu on a fresh `FiInputParser("?")` with exit and back both enabled and
 * one command, "add". Before each line it prints "Menu > "; EXIT ends the
 * whole session (`System.exit`), BACK returns to the caller, and an INVALID
 * line prints "Invalid command". The lines are a finite sequence; when they
 * run out first, the menu is left waiting after its last prompt. What the
 * "add" command's `execute` prints is left out.
 */
module ParserMenu {
  import opened Text
  import opened Tokenizer
  import opened Dispatch
  import opened Listing
  import opened States
  import opened Console
  import opened FiberousCommand
  import opened FiParser

  const MenuCaret: string := "Menu > "

  /** The description `AddCommand` gives itself. */
  const AddDescription: string := "Usage example: add 5 9"

  /** What `println("Invalid command")` writes. */
  const Complaint: string := "Invalid command" + "\n"

  /** The reserved strings of the menu: "?" lists, "exit" and "back" are both on. */
  const MenuControls: Controls := Controls("?", true, "exit", true, "back")

  /** How the menu's parser resolves a line. */
  function MenuResolution(line: string): (r: Resolution)
    ensures r == Listed <==> line == "?"
    ensures r == ExitSignal <==> line == "exit"
    ensures r == BackSignal <==> line == "back"
    ensures r.Ran? <==> line != "?" && line != "exit" && line != "back" && Matches("add", line)
    ensures r.Ran? ==> r.index == 0
  {
    Resolve(MenuControls, ["add"], line)
  }

  /** What the menu lists for "?": the exit, back and "add" lines, tab-separated. */
  function MenuListing(): seq<string>
  {
    TabListing(true, Entry("exit", "Exits the application"),
               true, Entry("back", "Exits this menu"), [Entry("add", AddDescription)])
  }

  /** The output for one line: the prompt, the listing for "?", "Invalid command" for an INVALID line. */
  function Reply(line: string): seq<string>
  {
    var r := MenuResolution(line);
    [MenuCaret] + (if r == Listed then MenuListing() else []) + (if r == NoMatch then [Complaint] else [])
  }

  /** The output for a run of lines. */
  function Transcript(lines: seq<string>): seq<string>
  {
    if lines == [] then [] else Transcript(lines[..|lines| - 1]) + Reply(lines[|lines| - 1])
  }

  /** The commands run for a run of lines: index 0, "add", for every line it accepts. */
  function Runs(lines: seq<string>): seq<nat>
  {
    if lines == [] then []
    else Runs(lines[..|lines| - 1]) + (if MenuResolution(lines[|lines| - 1]).Ran? then [0] else [])
  }

  /** The index of the first "exit" or "back", or the end. */
  function StopAt(lines: seq<string>): (k: nat)
    ensures k <= |lines|
    ensures forall j :: 0 <= j < k ==> lines[j] != "exit" && lines[j] != "back"
    ensures k < |lines| ==> lines[k] == "exit" || lines[k] == "back"
  {
    if lines == [] || lines[0] == "exit" || lines[0] == "back" then 0 else 1 + StopAt(lines[1..])
  }

  /** The menu's parser as `execute` sets it up, with its one command. */
  ghost predicate Ready(menu: FiInputParser, add: FiCommand, console: Sink)
    reads menu, add`commandString, add`commandDescription
  {
    menu.commands == [add] && add.commandString == "add" && add.commandDescription == AddDescription
    && menu.listCommandsString == "?" && menu.oStream == console
    && menu.canUseExit && menu.exitString == "exit" && menu.exitDescription == "Exits the application"
    && menu.canUseBack && menu.backString == "back" && menu.backDescription == "Exits this menu"
  }

  /** A ready parser resolves and lists as the menu's functions say. */
  lemma ReadyResolves(menu: FiInputParser, add: FiCommand, console: Sink, line: string)
    requires Ready(menu, add, console)
    ensures menu.Resolution(line) == MenuResolution(line)
    ensures menu.ListingText() == MenuListing()
  {
    assert Names(menu.commands) == ["add"];
    assert Entries(menu.commands) == [Entry("add", AddDescription)];
  }

  /** `AddCommand(commandString)`: a command with the usage line as its description. */
  method NewAddCommand(commandString: string) returns (c: FiCommand)
    ensures fresh(c) && c.commandString == commandString && c.arguments == []
    ensures c.commandDescription == AddDescription
  {
    c := new FiCommand(commandString);
    c.commandDescription := AddDescription;
  }

  /** `NestedCommands(commandString, s)`: a command with the menu's description; the scanner is the input. */
  method NewNestedCommands(commandString: string) returns (c: FiCommand)
    ensures fresh(c) && c.commandString == commandString && c.arguments == []
    ensures c.commandDescription == "Puts you into a menu with more commands"
  {
    c := new FiCommand(commandString);
    c.commandDescription := "Puts you into a menu with more commands";
  }

  /** The set-up part of `execute`: a fresh parser with exit and back on and "add" registered. */
  method NewMenu(console: Sink) returns (menu: FiInputParser, add: FiCommand)
    ensures fresh(menu) && fresh(add)
    ensures Ready(menu, add, console) && menu.executed == []
  {
    menu := new FiInputParser(console, "?");
    menu.AllowAdditionalStates(true, true);
    add := NewAddCommand("add");
    menu.AddCommand(add);
    assert menu.commands == [add];
  }

  /** One pass of the loop: the prompt, the dispatch of the line, and the complaint for INVALID. */
  method Step(menu: FiInputParser, add: FiCommand, console: Sink, line: string) returns (state: FiParserState)
    requires Ready(menu, add, console)
    modifies menu`executed, console`written, add`arguments
    ensures Ready(menu, add, console)
    ensures state == ParserState(MenuResolution(line))
    ensures console.written == old(console.written) + Reply(line)
    ensures menu.executed == old(menu.executed) + if MenuResolution(line).Ran? then [0] else []
  {
    ghost var r := MenuResolution(line);
    ghost var listed := if r == Listed then MenuListing() else [];
    ghost var complaint := if r == NoMatch then [Complaint] else [];
    AppendAssoc(console.written, [MenuCaret] + listed, complaint);
    AppendAssoc(console.written, [MenuCaret], listed);
    console.Print(MenuCaret);
    state := Answer(menu, add, console, line);
  }

  /** `doCommand` on the line just read, then the complaint for an INVALID line. */
  method Answer(menu: FiInputParser, add: FiCommand, console: Sink, line: string) returns (state: FiParserState)
    requires Ready(menu, add, console)
    modifies menu`executed, console`written, add`arguments
    ensures Ready(menu, add, console)
    ensures state == ParserState(MenuResolution(line))
    ensures console.written == old(console.written)
                               + (if MenuResolution(line) == Listed then MenuListing() else [])
                               + (if MenuResolution(line) == NoMatch then [Complaint] else [])
    ensures menu.executed == old(menu.executed) + if MenuResolution(line).Ran? then [0] else []
  {
    ReadyResolves(menu, add, console, line);
    assert menu.commands == [add] && menu.oStream == console;
    state := menu.DoCommand(line);
    if state == Invalid {
      console.Println("Invalid command");
    }
  }

  /**
   * `execute`: the lines up to and including the first "exit" or "back" are
   * consumed; "exit" ends the session and "back" returns to the caller.
   * Without either, every line is consumed and the menu waits after a last
   * prompt. The parser is a fresh one that runs "add" once for every line
   * it accepts.
   */
  method Execute(console: Sink, input: seq<string>)
    returns (outcome: MenuOutcome, consumed: nat, ghost menu: FiInputParser)
    modifies console`written
    ensures var k := StopAt(input);
      (outcome == SessionExit <==> k < |input| && input[k] == "exit")
      && (outcome == Returned <==> k < |input| && input[k] == "back")
      && (outcome == InputExhausted <==> k == |input|)
      && consumed == if k < |input| then k + 1 else |input|
    ensures console.written == old(console.written) + Transcript(input[..consumed])
                               + if outcome == InputExhausted then [MenuCaret] else []
    ensures fresh(menu) && menu.executed == Runs(input[..consumed])
    ensures Names(menu.commands) == ["add"] && menu.canUseExit && menu.canUseBack
  {
    var nested, add := NewMenu(console);
    menu := nested;
    outcome, consumed := Loop(nested, add, console, input);
    assert Names(nested.commands) == ["add"];
  }

  /** The `while (true)` loop of `execute`, on a ready parser. */
  method Loop(menu: FiInputParser, add: FiCommand, console: Sink, input: seq<string>)
    returns (outcome: MenuOutcome, consumed: nat)
    requires Ready(menu, add, console)
    modifies menu`executed, console`written, add`arguments
    ensures Ready(menu, add, console)
    ensures var k := StopAt(input);
      (outcome == SessionExit <==> k < |input| && input[k] == "exit")
      && (outcome == Returned <==> k < |input| && input[k] == "back")
      && (outcome == InputExhausted <==> k == |input|)
      && consumed == if k < |input| then k + 1 else |input|
    ensures console.written == old(console.written) + Transcript(input[..consumed])
                               + if outcome == InputExhausted then [MenuCaret] else []
    ensures menu.executed == old(menu.executed) + Runs(input[..consumed])
  {
    ghost var start := console.written;
    ghost var ran := menu.executed;
    outcome := InputExhausted;
    consumed := 0;
    while consumed < |input|
      invariant consumed <= |input|
      invariant forall j :: 0 <= j < consumed ==> input[j] != "exit" && input[j] != "back"
      invariant Ready(menu, add, console)
      invariant console.written == start + Transcript(input[..consumed])
      invariant menu.executed == ran + Runs(input[..consumed])
    {
      var state := Step(menu, add, console, input[consumed]);
      assert input[..consumed + 1][..consumed] == input[..consumed];
      AppendAssoc(start, Transcript(input[..consumed]), Reply(input[consumed]));
      AppendAssoc(ran, Runs(input[..consumed]), if MenuResolution(input[consumed]).Ran? then [0] else []);
      consumed := consumed + 1;
      if state == Exit {
        // `System.exit(0)`: the whole session ends here
        assert StopAt(input) == consumed - 1;
        outcome := SessionExit;
        break;
      }
      if state == Back {
        assert StopAt(input) == consumed - 1;
        outcome := Returned;
        break;
      }
    }
    if outcome == InputExhausted {
      console.Print(MenuCaret);
    }
  }

  /** The listing: the header, then one tab-separated line each for exit, back and "add", in that order. */
  lemma MenuListingLines()
    ensures MenuListing() == [Header, TabLine(Entry("exit", "Exits the application")),
                              TabLine(Entry("back", "Exits this menu")), TabLine(Entry("add", AddDescription))]
  {
    assert TabLines([Entry("add", AddDescription)]) == [TabLine(Entry("add", AddDescription))];
  }
}
