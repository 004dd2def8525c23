/**
 * `fiberous.fi.FiInputParser`, the dispatcher before `FiCLI`: the line is
 * handed to `doCommand`, which answers with a `FiParserState`; there is no
 * caret and no `spacing`, the listing separates name and description with a
 * tab, and an added command is kept only when the list is empty or some
 * present name is strictly greater than its own (see `Registry.DropAdd`).
 * Running a command is recorded by appending its index to `executed`.
 */
module FiParser {
  import opened Text
  import opened Tokenizer
  import opened Registry
  import opened Dispatch
  import opened Listing
  import opened States
  import opened Console
  import opened FiberousCommand

  class FiInputParser {
    var commands: seq<FiCommand>
    var listCommandsString: string
    const oStream: Sink

    var exitString: string
    var backString: string
    var exitDescription: string
    var backDescription: string
    var canUseExit: bool
    var canUseBack: bool

    /** The indices of the commands run so far, in order. */
    ghost var executed: seq<nat>

    /** The list is sorted by name. */
    ghost predicate Valid()
      reads this`commands, commands`commandString
    {
      Sorted(Names(commands))
    }

    /** `FiInputParser(os, listCommandsString)`: an empty list, exit enabled, back disabled. */
    constructor(os: Sink, listCommandsString: string)
      ensures commands == [] && this.listCommandsString == listCommandsString && oStream == os
      ensures exitString == "exit" && backString == "back"
      ensures exitDescription == "Exits the application" && backDescription == "Exits this menu"
      ensures canUseExit && !canUseBack
      ensures executed == [] && Valid()
    {
      commands := [];
      this.listCommandsString := listCommandsString;
      oStream := os;
      exitString := "exit";
      backString := "back";
      exitDescription := "Exits the application";
      backDescription := "Exits this menu";
      canUseExit := true;
      canUseBack := false;
      executed := [];
    }

    /** `FiInputParser()`: the list string is "?". */
    constructor Default(os: Sink)
      ensures commands == [] && listCommandsString == "?" && oStream == os
      ensures exitString == "exit" && backString == "back"
      ensures exitDescription == "Exits the application" && backDescription == "Exits this menu"
      ensures canUseExit && !canUseBack
      ensures executed == [] && Valid()
    {
      commands := [];
      listCommandsString := "?";
      oStream := os;
      exitString := "exit";
      backString := "back";
      exitDescription := "Exits the application";
      backDescription := "Exits this menu";
      canUseExit := true;
      canUseBack := false;
      executed := [];
    }

    /** The reserved strings and flags `doCommand` checks before the commands. */
    function Reserved(): Controls
      reads this
    {
      Controls(listCommandsString, canUseExit, exitString, canUseBack, backString)
    }

    /** How `doCommand` resolves a line against the current configuration. */
    function Resolution(line: string): Resolution
      reads this, commands`commandString
    {
      Resolve(Reserved(), Names(commands), line)
    }

    /** What `listCommands` prints. */
    function ListingText(): seq<string>
      reads this`canUseExit, this`exitString, this`exitDescription,
            this`canUseBack, this`backString, this`backDescription, this`commands,
            commands`commandString, commands`commandDescription
    {
      TabListing(canUseExit, Entry(exitString, exitDescription),
                 canUseBack, Entry(backString, backDescription), Entries(commands))
    }

    /** `addCommand`. */
    method AddCommand(c: FiCommand)
      requires Valid()
      modifies this`commands
      ensures commands == InsertOrDrop(old(commands), InsertionPoint(old(Names(commands)), c.commandString), c)
      ensures Names(commands) == DropAdd(old(Names(commands)), c.commandString)
      ensures Valid()
    {
      SortAndAddCommand(c);
    }

    /**
     * `sortAndAddCommand`: an empty list takes the command; otherwise it goes
     * before the first strictly greater name, and when there is none it is
     * not added.
     */
    method SortAndAddCommand(c: FiCommand)
      requires Valid()
      modifies this`commands
      ensures commands == InsertOrDrop(old(commands), InsertionPoint(old(Names(commands)), c.commandString), c)
      ensures Names(commands) == DropAdd(old(Names(commands)), c.commandString)
      ensures Valid()
    {
      if |commands| == 0 {
        commands := [c];
        assert Names(commands) == [c.commandString];
      } else {
        var i := InsertionIndex(c.commandString);
        if i < |commands| {
          // when no name is greater, nothing is added
          Place(i, c);
        }
      }
    }

    /** `commands.add(i, c)` at the place the search found: the list stays sorted. */
    method Place(i: nat, c: FiCommand)
      requires Valid() && i == InsertionPoint(Names(commands), c.commandString)
      modifies this`commands
      ensures commands == InsertAt(old(commands), i, c)
      ensures Names(commands) == SortedAdd(old(Names(commands)), c.commandString)
      ensures Valid()
    {
      ghost var names := Names(commands);
      var inserted := commands[..i] + [c] + commands[i..];
      NamesInsertAt(commands, i, c);
      InsertKeepsSorted(names, c.commandString);
      assert Names(inserted) == SortedAdd(names, c.commandString);
      commands := inserted;
      assert Names(commands) == SortedAdd(names, c.commandString);
    }

    /** The loop of `sortAndAddCommand`: the first index whose name is strictly greater, or the end. */
    method InsertionIndex(name: string) returns (i: nat)
      ensures i == InsertionPoint(Names(commands), name)
    {
      ghost var names := Names(commands);
      i := 0;
      while i < |commands|
        invariant i <= |commands|
        invariant forall j :: 0 <= j < i ==> !Less(name, names[j])
      {
        if CompareTo(name, commands[i].commandString) < 0 {
          return;
        }
        i := i + 1;
      }
    }

    /** `clearCommands`. */
    method ClearCommands()
      modifies this`commands
      ensures commands == [] && Valid()
    {
      commands := [];
    }

    /** `setExitString`: also enables exit. */
    method SetExitString(s: string)
      modifies this`exitString, this`canUseExit
      ensures exitString == s && canUseExit
    {
      exitString := s;
      canUseExit := true;
    }

    /** `setBackString`: also enables back. */
    method SetBackString(s: string)
      modifies this`backString, this`canUseBack
      ensures backString == s && canUseBack
    {
      backString := s;
      canUseBack := true;
    }

    /** `allowAdditionalStates`: overwrites both flags. */
    method AllowAdditionalStates(exit: bool, back: bool)
      modifies this`canUseExit, this`canUseBack
      ensures canUseExit == exit && canUseBack == back
    {
      canUseExit := exit;
      canUseBack := back;
    }

    method SetExitDescription(desc: string)
      modifies this`exitDescription
      ensures exitDescription == desc
    {
      exitDescription := desc;
    }

    method SetBackDescription(desc: string)
      modifies this`backDescription
      ensures backDescription == desc
    {
      backDescription := desc;
    }

    /** `numOfCommands`. */
    method NumOfCommands() returns (n: nat)
      ensures n == |commands|
    {
      n := |commands|;
    }

    /** `listCommands`: header, enabled control strings, then every command in list order. */
    method ListCommands()
      modifies oStream`written
      ensures oStream.written == old(oStream.written) + old(ListingText())
    {
      ghost var shown := Entries(commands);
      ListControls();
      assert Entries(commands) == shown;
      ListAllCommands();
      TabListingAfter(old(oStream.written), canUseExit, Entry(exitString, exitDescription),
                      canUseBack, Entry(backString, backDescription), shown);
    }

    /** The start of `listCommands`: the header, then the exit and back lines when enabled. */
    method ListControls()
      modifies oStream`written
      ensures oStream.written == old(oStream.written) + [Header]
                + Optional(canUseExit, TabLine(Entry(exitString, exitDescription)))
                + Optional(canUseBack, TabLine(Entry(backString, backDescription)))
    {
      oStream.Print("\nAvailable Commands:\n");
      if canUseExit {
        oStream.Println(exitString + "\t" + exitDescription);
      }
      if canUseBack {
        oStream.Println(backString + "\t" + backDescription);
      }
    }

    /** The loop of `listCommands`: one tab-separated line per command. */
    method ListAllCommands()
      modifies oStream`written
      ensures oStream.written == old(oStream.written) + TabLines(old(Entries(commands)))
    {
      ghost var before := oStream.written;
      ghost var es := Entries(commands);
      assert before + TabLines(es[..0]) == before;
      for i := 0 to |commands|
        invariant oStream.written == before + TabLines(es[..i])
      {
        assert es[..i + 1] == es[..i] + [es[i]];
        TabLinesSnoc(es[..i], es[i]);
        AppendChunk(before, TabLines(es[..i]), TabLine(es[i]));
        oStream.Println(commands[i].commandString + "\t" + commands[i].commandDescription);
      }
      assert es[..|commands|] == es;
    }

    /**
     * `doCommand`: the list string, then exit (if enabled) and back (if
     * enabled) by exact equality, then the first command whose matcher
     * accepts the line. Only the listing prints, only a matched command runs,
     * and only the commands up to the accepting one have their arguments reset.
     */
    method DoCommand(commandString: string) returns (state: FiParserState)
      modifies this`executed, oStream`written, commands`arguments
      ensures state == ParserState(old(Resolution(commandString)))
      ensures executed == old(executed) +
                if old(Resolution(commandString)).Ran? then [old(Resolution(commandString)).index] else []
      ensures oStream.written ==
                old(oStream.written) + if old(Resolution(commandString)) == Listed then old(ListingText()) else []
      ensures forall c :: c in commands ==>
                c.arguments == if c in commands[..Inspected(old(Resolution(commandString)), |commands|)]
                               then ArgsAfter(c.commandString, commandString) else old(c.arguments)
    {
      ghost var r := Resolution(commandString);
      CompareToZeroIffEqual(commandString, listCommandsString);
      CompareToZeroIffEqual(commandString, exitString);
      CompareToZeroIffEqual(commandString, backString);
      if CompareTo(commandString, listCommandsString) == 0 {
        assert r == Listed;
        ListCommands();
        state := FiParserState.Valid;
      } else if canUseExit && CompareTo(commandString, exitString) == 0 {
        assert r == ExitSignal;
        state := FiParserState.Exit;
      } else if canUseBack && CompareTo(commandString, backString) == 0 {
        assert r == BackSignal;
        state := FiParserState.Back;
      } else {
        state := RunCommands(commandString);
      }
    }

    /**
     * The loop of `doCommand` on a line that is not reserved: run the first
     * command that accepts the line and answer VALID, or answer INVALID.
     */
    method RunCommands(line: string) returns (state: FiParserState)
      requires !IsReserved(Reserved(), line)
      modifies this`executed, commands`arguments
      ensures state == ParserState(old(Resolution(line)))
      ensures executed == old(executed) + if old(Resolution(line)).Ran? then [old(Resolution(line)).index] else []
      ensures forall c :: c in commands ==>
                c.arguments == if c in commands[..Inspected(old(Resolution(line)), |commands|)]
                               then ArgsAfter(c.commandString, line) else old(c.arguments)
    {
      ResolvedToCommands(Reserved(), Names(commands), line);
      var ran := TryCommands(line);
      state := if ran then FiParserState.Valid else FiParserState.Invalid;
    }

    /** The loop itself, stated on the names: the first accepting command runs. */
    method TryCommands(line: string) returns (ran: bool)
      modifies this`executed, commands`arguments
      ensures var k := FirstMatch(old(Names(commands)), line);
        ran == (k < |commands|)
        && executed == old(executed) + (if k < |commands| then [k] else [])
        && forall c :: c in commands ==>
             c.arguments == if c in commands[..if k < |commands| then k + 1 else |commands|]
                            then ArgsAfter(c.commandString, line) else old(c.arguments)
    {
      var k := FirstAccepting(line);
      if k < |commands| {
        executed := executed + [k];
        ran := true;
      } else {
        ran := false;
      }
    }

    /**
     * The matchers of the commands in list order, up to the first that
     * accepts the line; its index, or the length of the list.
     */
    method FirstAccepting(line: string) returns (k: nat)
      modifies commands`arguments
      ensures k == FirstMatch(old(Names(commands)), line)
      ensures forall c :: c in commands ==>
                c.arguments == if c in commands[..if k < |commands| then k + 1 else |commands|]
                               then ArgsAfter(c.commandString, line) else old(c.arguments)
    {
      ghost var names := Names(commands);
      k := 0;
      while k < |commands|
        invariant 0 <= k <= |commands|
        invariant NoneMatches(names[..k], line)
        invariant forall c :: c in commands ==>
                    c.arguments == if c in commands[..k] then ArgsAfter(c.commandString, line) else old(c.arguments)
      {
        var command := commands[k];
        assert names[k] == command.commandString;
        PrefixSnoc(commands, k);
        var accepted := command.IsCommand(line);
        assert accepted == Matches(names[k], line);
        if accepted {
          FirstMatchFound(names, line, k);
          return;
        }
        NoneMatchesStep(names, line, k);
        k := k + 1;
      }
      assert commands[..k] == commands;
      NoneMatchesAll(names, line);
    }
  }
}
