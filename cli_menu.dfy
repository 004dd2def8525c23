/**
 * `fiberous.example.NestedCommands`: a command whose `execute` opens a menu.
 * It builds a fresh `FiCLI` with exit disabled, back enabled, the caret
 * "Menu > " and one command, "add", then reads and dispatches lines until
 * one resolves to BACK, complaining about every INVALID line. The lines are
 * a finite sequence; when they run out first, the menu is left waiting at
 * its prompt. The `AddCommand` class it registers is not part of this model:
 * its description is a parameter, and what its `execute` prints is left out.
 */
module CliMenu {
  import opened Text
  import opened Tokenizer
  import opened Dispatch
  import opened Listing
  import opened States
  import opened Console
  import opened FiberousCommand
  import opened FiberousCLI

  const MenuCaret: string := "Menu > "

  /** The reserved strings of the menu: "?" lists, exit is off, "back" is on. */
  const MenuControls: Controls := Controls("?", false, "exit", true, "back")

  /** How the menu's dispatcher resolves a line. */
  function MenuResolution(line: string): (r: Resolution)
    ensures r != ExitSignal
    ensures r == Listed <==> line == "?"
    ensures r == BackSignal <==> line == "back"
    ensures r.Ran? <==> line != "?" && line != "back" && Matches("add", line)
    ensures r.Ran? ==> r.index == 0
  {
    Resolve(MenuControls, ["add"], line)
  }

  /** What the menu lists for "?": the back line and the "add" line, both aligned at column 9. */
  function MenuListing(addDescription: string): seq<string>
  {
    PaddedListing(9, false, Entry("exit", "Exits the application"),
                  true, Entry("back", "Exits this menu"), [Entry("add", addDescription)])
  }

  /** The complaint printed after an INVALID line. */
  function InvalidMessage(line: string): string
  {
    "\"" + line + "\" is an invalid command"
  }

  /** The output for one line: the caret, the listing for "?", the complaint for an INVALID line. */
  function Reply(addDescription: string, line: string): seq<string>
  {
    var r := MenuResolution(line);
    [MenuCaret] + (if r == Listed then MenuListing(addDescription) else [])
    + (if r == NoMatch then [InvalidMessage(line) + "\n"] else [])
  }

  /** The output for a run of lines. */
  function Transcript(addDescription: string, lines: seq<string>): seq<string>
  {
    if lines == [] then []
    else Transcript(addDescription, lines[..|lines| - 1]) + Reply(addDescription, lines[|lines| - 1])
  }

  /** The commands run for a run of lines: index 0, "add", for every line it accepts. */
  function Runs(lines: seq<string>): seq<nat>
  {
    if lines == [] then []
    else Runs(lines[..|lines| - 1]) + (if MenuResolution(lines[|lines| - 1]).Ran? then [0] else [])
  }

  /** The index of the first "back", or the end. */
  function BackAt(lines: seq<string>): (k: nat)
    ensures k <= |lines|
    ensures forall j :: 0 <= j < k ==> lines[j] != "back"
    ensures k < |lines| ==> lines[k] == "back"
  {
    if lines == [] || lines[0] == "back" then 0 else 1 + BackAt(lines[1..])
  }

  /** The reserved strings and flags of the menu's dispatcher, with the default descriptions. */
  ghost predicate Configured(menu: FiCLI, console: Sink)
    reads menu`listCommandsString, menu`canUseExit, menu`exitString, menu`exitDescription,
          menu`canUseBack, menu`backString, menu`backDescription
  {
    menu.listCommandsString == "?" && menu.oStream == console
    && !menu.canUseExit && menu.exitString == "exit" && menu.exitDescription == "Exits the application"
    && menu.canUseBack && menu.backString == "back" && menu.backDescription == "Exits this menu"
  }

  /** The menu's dispatcher as `execute` sets it up, with its one command. */
  ghost predicate Ready(menu: FiCLI, add: FiCommand, console: Sink, addDescription: string)
    reads menu, add`commandString, add`commandDescription
  {
    menu.commands == [add] && add.commandString == "add" && add.commandDescription == addDescription
    && Configured(menu, console) && menu.spacing == 9 && menu.caret == MenuCaret
  }

  /** A ready dispatcher resolves and lists as the menu's functions say. */
  lemma ReadyResolves(menu: FiCLI, add: FiCommand, console: Sink, addDescription: string, line: string)
    requires Ready(menu, add, console, addDescription)
    ensures menu.Resolution(line) == MenuResolution(line)
    ensures menu.ListingText() == MenuListing(addDescription)
  {
    assert Names(menu.commands) == ["add"];
    assert Entries(menu.commands) == [Entry("add", addDescription)];
  }

  /** `NestedCommands(commandString)`: a command with the menu's description. */
  method NewNestedCommands(commandString: string) returns (c: FiCommand)
    ensures fresh(c) && c.commandString == commandString && c.arguments == []
    ensures c.commandDescription == "Puts you into a menu with more commands"
  {
    c := new FiCommand(commandString);
    c.commandDescription := "Puts you into a menu with more commands";
  }

  /** `addCommand` on the empty dispatcher: the list becomes the one command, and a name as short as "add" leaves the width at 9. */
  method AddFirst(menu: FiCLI, add: FiCommand)
    requires menu.Valid() && menu.commands == [] && menu.spacing == 9 && add.commandString == "add"
    modifies menu`commands, menu`spacing
    ensures menu.commands == [add] && menu.spacing == 9 && menu.Valid()
  {
    menu.AddCommand(add);
    assert Names([] + [add]) == ["add"];
  }

  /** The set-up part of `execute`: a fresh dispatcher with "add" registered and the menu caret. */
  method NewMenu(console: Sink, addDescription: string) returns (menu: FiCLI, add: FiCommand)
    ensures fresh(menu) && fresh(add)
    ensures Ready(menu, add, console, addDescription) && menu.executed == []
  {
    menu := new FiCLI.Default(console);
    menu.AllowAdditionalStates(false, true);
    assert Configured(menu, console);
    add := new FiCommand("add");
    add.commandDescription := addDescription;
    AddFirst(menu, add);
    menu.SetCaret(MenuCaret);
  }

  /** One pass of the loop: dispatch the line, then complain if it was INVALID. */
  method Step(menu: FiCLI, add: FiCommand, console: Sink, addDescription: string, line: string)
    returns (state: FiState)
    requires Ready(menu, add, console, addDescription)
    modifies menu`executed, console`written, add`arguments
    ensures Ready(menu, add, console, addDescription)
    ensures state.state == StateCode(MenuResolution(line)) && state.input == line
    ensures console.written == old(console.written) + Reply(addDescription, line)
    ensures menu.executed == old(menu.executed) + if MenuResolution(line).Ran? then [0] else []
  {
    ReadyResolves(menu, add, console, addDescription, line);
    ghost var r := MenuResolution(line);
    ghost var listed := if r == Listed then MenuListing(addDescription) else [];
    ghost var complaint := if r == NoMatch then [InvalidMessage(line) + "\n"] else [];
    AppendAssoc(console.written, [MenuCaret] + listed, complaint);
    AppendAssoc(console.written, [MenuCaret], listed);
    state := menu.ProcessCommand(line);
    if state.state == INVALID {
      console.Println("\"" + state.input + "\" is an invalid command");
    }
  }

  /**
   * `execute`: the lines up to and including the first "back" are consumed
   * and the menu returns to its caller; without a "back" every line is
   * consumed and the menu waits at a last prompt. "exit" is an ordinary
   * INVALID line here. The dispatcher is a fresh one that runs "add" once
   * for every line it accepts.
   */
  method Execute(console: Sink, addDescription: string, input: seq<string>)
    returns (outcome: MenuOutcome, consumed: nat, ghost menu: FiCLI)
    modifies console`written
    ensures var k := BackAt(input);
      (outcome == Returned <==> k < |input|) && (outcome == InputExhausted <==> k == |input|)
      && consumed == if k < |input| then k + 1 else |input|
    ensures console.written == old(console.written) + Transcript(addDescription, input[..consumed])
                               + if outcome == InputExhausted then [MenuCaret] else []
    ensures fresh(menu) && menu.executed == Runs(input[..consumed])
    ensures Names(menu.commands) == ["add"] && !menu.canUseExit && menu.canUseBack
  {
    var nested, add := NewMenu(console, addDescription);
    menu := nested;
    outcome, consumed := Loop(nested, add, console, addDescription, input);
    assert Names(nested.commands) == ["add"];
  }

  /** The `while (true)` loop of `execute`, on a ready dispatcher. */
  method Loop(menu: FiCLI, add: FiCommand, console: Sink, addDescription: string, input: seq<string>)
    returns (outcome: MenuOutcome, consumed: nat)
    requires Ready(menu, add, console, addDescription)
    modifies menu`executed, console`written, add`arguments
    ensures Ready(menu, add, console, addDescription)
    ensures var k := BackAt(input);
      (outcome == Returned <==> k < |input|) && (outcome == InputExhausted <==> k == |input|)
      && consumed == if k < |input| then k + 1 else |input|
    ensures console.written == old(console.written) + Transcript(addDescription, input[..consumed])
                               + if outcome == InputExhausted then [MenuCaret] else []
    ensures menu.executed == old(menu.executed) + Runs(input[..consumed])
  {
    ghost var start := console.written;
    ghost var ran := menu.executed;
    outcome := InputExhausted;
    consumed := 0;
    while consumed < |input|
      invariant consumed <= |input|
      invariant forall j :: 0 <= j < consumed ==> input[j] != "back"
      invariant Ready(menu, add, console, addDescription)
      invariant console.written == start + Transcript(addDescription, input[..consumed])
      invariant menu.executed == ran + Runs(input[..consumed])
    {
      var state := Step(menu, add, console, addDescription, input[consumed]);
      assert input[..consumed + 1][..consumed] == input[..consumed];
      AppendAssoc(start, Transcript(addDescription, input[..consumed]), Reply(addDescription, input[consumed]));
      AppendAssoc(ran, Runs(input[..consumed]), if MenuResolution(input[consumed]).Ran? then [0] else []);
      consumed := consumed + 1;
      if state.state == BACK {
        outcome := Returned;
        break;
      }
    }
    if outcome == InputExhausted {
      menu.PrintCaret();
    }
  }

  /** "exit" is not a signal in this menu and "add" does not accept it. */
  lemma ExitNoMatch()
    ensures MenuResolution("exit") == NoMatch
  {
    assert !Matches("add", "exit") by { assert "exit"[..3][0] == 'e' && "add"[0] == 'a'; }
  }

  /** The complaint about "exit", spelled out. */
  lemma ExitComplaint()
    ensures InvalidMessage("exit") + "\n" == "\"exit\" is an invalid command\n"
  {
  }

  /** "exit" is not a signal in this menu: it is an INVALID line and is complained about. */
  lemma ExitIsInvalidHere(addDescription: string)
    ensures MenuResolution("exit") == NoMatch
    ensures Reply(addDescription, "exit") == [MenuCaret, "\"exit\" is an invalid command\n"]
  {
    ExitNoMatch();
    assert Reply(addDescription, "exit") == [MenuCaret] + [] + [InvalidMessage("exit") + "\n"];
    ExitComplaint();
  }

  /** The listing, spelled out: the header, the back line, then "add", all aligned at column 9. */
  lemma MenuListingLines(addDescription: string)
    ensures MenuListing(addDescription) ==
              ["\nAvailable Commands:\n", "back     Exits this menu\n", "add      " + addDescription + "\n"]
  {
    assert Spaces(5) == "     " by {
      assert Spaces(1) == " " && Spaces(2) == "  " && Spaces(3) == "   " && Spaces(4) == "    ";
    }
    assert Spaces(6) == "      ";
    assert PaddedLine(9, Entry("back", "Exits this menu")) == "back     Exits this menu\n";
    assert PaddedLine(9, Entry("add", addDescription)) == "add      " + addDescription + "\n";
  }
}
