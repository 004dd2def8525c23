/**
 * `fiberous.fi.FiCLI`, the earlier version of the dispatcher: the same sorted
 * command list, reserved strings, `spacing` and `processCommand`, but its
 * listing prints every registered command, as its commands have no
 * visibility flag. Running a command is recorded by appending its index to
 * `executed`.
 */
module FiberousCLI {
  import opened Text
  import opened Tokenizer
  import opened Registry
  import opened Dispatch
  import opened Listing
  import opened States
  import opened Console
  import opened FiberousCommand

  class FiCLI {
    var commands: seq<FiCommand>
    var listCommandsString: string
    const oStream: Sink

    var exitString: string
    var backString: string
    var exitDescription: string
    var backDescription: string
    var canUseExit: bool
    var canUseBack: bool

    /** The column descriptions are aligned on. */
    var spacing: int
    var caret: string

    /** The indices of the commands run so far, in order. */
    ghost var executed: seq<nat>

    /**
     * The list is sorted by name, and `spacing` is at least 9 and at least
     * five more than the length of every name and control string.
     */
    ghost predicate Valid()
      reads this`commands, this`spacing, this`exitString, this`backString, commands`commandString
    {
      Sorted(Names(commands)) && Fits(Names(commands), spacing)
      && spacing >= 9 && |exitString| + 5 <= spacing && |backString| + 5 <= spacing
    }

    /** `FiCLI(is, os, listCommandsString)`: the defaults, an empty list and the given list string. */
    constructor(os: Sink, listCommandsString: string)
      ensures commands == [] && this.listCommandsString == listCommandsString && oStream == os
      ensures exitString == "exit" && backString == "back"
      ensures exitDescription == "Exits the application" && backDescription == "Exits this menu"
      ensures canUseExit && !canUseBack && spacing == 9 && caret == "> "
      ensures executed == [] && Valid()
    {
      commands := [];
      this.listCommandsString := listCommandsString;
      oStream := os;
      exitString := "exit";
      backString := "back";
      exitDescription := "Exits the application";
      backDescription := "Exits this menu";
      canUseExit := true;
      canUseBack := false;
      spacing := 9;
      caret := "> ";
      executed := [];
    }

    /** `FiCLI()`: the list string defaults to "?". */
    constructor Default(os: Sink)
      ensures commands == [] && listCommandsString == "?" && oStream == os
      ensures exitString == "exit" && backString == "back"
      ensures exitDescription == "Exits the application" && backDescription == "Exits this menu"
      ensures canUseExit && !canUseBack && spacing == 9 && caret == "> "
      ensures executed == [] && Valid()
    {
      commands := [];
      listCommandsString := "?";
      oStream := os;
      exitString := "exit";
      backString := "back";
      exitDescription := "Exits the application";
      backDescription := "Exits this menu";
      canUseExit := true;
      canUseBack := false;
      spacing := 9;
      caret := "> ";
      executed := [];
    }

    /** The reserved strings and flags `processCommand` checks before the commands. */
    function Reserved(): Controls
      reads this
    {
      Controls(listCommandsString, canUseExit, exitString, canUseBack, backString)
    }

    /** How `processCommand` resolves a line against the current configuration. */
    function Resolution(line: string): Resolution
      reads this, commands`commandString
    {
      Resolve(Reserved(), Names(commands), line)
    }

    /** What `listCommands` prints. */
    function ListingText(): seq<string>
      reads this`spacing, this`canUseExit, this`exitString, this`exitDescription,
            this`canUseBack, this`backString, this`backDescription, this`commands,
            commands`commandString, commands`commandDescription
    {
      PaddedListing(spacing, canUseExit, Entry(exitString, exitDescription),
                    canUseBack, Entry(backString, backDescription), Entries(commands))
    }

    /** `addCommand`. */
    method AddCommand(c: FiCommand)
      requires Valid()
      modifies this`commands, this`spacing
      ensures commands == InsertAt(old(commands), InsertionPoint(old(Names(commands)), c.commandString), c)
      ensures spacing == Widen(old(spacing), c.commandString)
      ensures Valid()
    {
      SortAndAddCommand(c);
    }

    /**
     * `sortAndAddCommand`: widen `spacing` for the new name, then insert the
     * command before the first strictly greater name, or append it.
     */
    method SortAndAddCommand(c: FiCommand)
      requires Valid()
      modifies this`commands, this`spacing
      ensures commands == InsertAt(old(commands), InsertionPoint(old(Names(commands)), c.commandString), c)
      ensures spacing == Widen(old(spacing), c.commandString)
      ensures Valid()
    {
      var i := InsertionIndex(c.commandString);
      Place(i, c);
    }

    /**
     * The rest of `sortAndAddCommand` once the place is known: widen `spacing`
     * for the new name and put the command at `i`. The widening reads no name
     * and the search no width, so doing the search first changes nothing.
     */
    method Place(i: nat, c: FiCommand)
      requires Valid() && i == InsertionPoint(Names(commands), c.commandString)
      modifies this`commands, this`spacing
      ensures commands == InsertAt(old(commands), i, c)
      ensures spacing == Widen(old(spacing), c.commandString)
      ensures Valid()
    {
      ghost var names := Names(commands);
      ghost var before := spacing;
      var inserted := commands[..i] + [c] + commands[i..];
      NamesInsertAt(commands, i, c);
      assert Names(inserted) == SortedAdd(names, c.commandString);
      if |c.commandString| + 5 > spacing {
        spacing := |c.commandString| + 5;
      }
      // `commands.add(i, c)`, which is `commands.add(c)` when `i` is the end
      commands := inserted;
      ValidAfterAdd(names, c.commandString, before);
    }

    /** Sorted insertion with widening keeps `Valid`: the lemma `SortedAddFits` on the fields. */
    lemma ValidAfterAdd(names: seq<string>, x: string, before: int)
      requires Sorted(names) && Fits(names, before)
      requires before >= 9 && |exitString| + 5 <= before && |backString| + 5 <= before
      requires Names(commands) == SortedAdd(names, x) && spacing == Widen(before, x)
      ensures Valid()
    {
      SortedAddFits(names, x, before);
    }

    /** The loop of `sortAndAddCommand`: the first index whose name is strictly greater, or the end. */
    method InsertionIndex(name: string) returns (i: nat)
      ensures i == InsertionPoint(Names(commands), name)
    {
      ghost var names := Names(commands);
      i := 0;
      while i < |commands|
        invariant i <= |commands|
        invariant forall j :: 0 <= j < i ==> !Less(name, names[j])
      {
        if CompareTo(name, commands[i].commandString) < 0 {
          return;
        }
        i := i + 1;
      }
    }

    /** `clearCommands`. */
    method ClearCommands()
      requires Valid()
      modifies this`commands
      ensures commands == [] && Valid()
    {
      commands := [];
    }

    /** `setExitString`: also enables exit and widens `spacing` for the new string. */
    method SetExitString(s: string)
      requires Valid()
      modifies this`exitString, this`canUseExit, this`spacing
      ensures exitString == s && canUseExit
      ensures spacing == Widen(old(spacing), s)
      ensures Valid()
    {
      exitString := s;
      canUseExit := true;
      if |exitString| + 5 > spacing {
        spacing := |exitString| + 5;
      }
    }

    /** `setBackString`: also enables back and widens `spacing` for the new string. */
    method SetBackString(s: string)
      requires Valid()
      modifies this`backString, this`canUseBack, this`spacing
      ensures backString == s && canUseBack
      ensures spacing == Widen(old(spacing), s)
      ensures Valid()
    {
      backString := s;
      canUseBack := true;
      if |backString| + 5 > spacing {
        spacing := |backString| + 5;
      }
    }

    /** `allowAdditionalStates`: overwrites both flags. */
    method AllowAdditionalStates(exit: bool, back: bool)
      modifies this`canUseExit, this`canUseBack
      ensures canUseExit == exit && canUseBack == back
    {
      canUseExit := exit;
      canUseBack := back;
    }

    method SetExitDescription(desc: string)
      modifies this`exitDescription
      ensures exitDescription == desc
    {
      exitDescription := desc;
    }

    method SetBackDescription(desc: string)
      modifies this`backDescription
      ensures backDescription == desc
    {
      backDescription := desc;
    }

    method SetCaret(c: string)
      modifies this`caret
      ensures caret == c
    {
      caret := c;
    }

    /** `printCaret`. */
    method PrintCaret()
      modifies oStream`written
      ensures oStream.written == old(oStream.written) + [caret]
    {
      oStream.Print(caret);
    }

    /** `numOfCommands`. */
    method NumOfCommands() returns (n: nat)
      ensures n == |commands|
    {
      n := |commands|;
    }

    /** `addSpaces`: blanks from the end of `cs` up to column `spacing`, none when `cs` is wider. */
    method AddSpaces(cs: string) returns (additionalSpace: string)
      ensures additionalSpace == Pad(spacing, cs)
    {
      additionalSpace := "";
      var spaces := spacing - |cs|;
      var i := 0;
      while i < spaces
        invariant 0 <= i <= if spaces > 0 then spaces else 0
        invariant additionalSpace == Spaces(i)
      {
        additionalSpace := additionalSpace + " ";
        i := i + 1;
      }
    }

    /** `listCommands`: header, enabled control strings, then every command in list order. */
    method ListCommands()
      modifies oStream`written
      ensures oStream.written == old(oStream.written) + old(ListingText())
    {
      ghost var shown := Entries(commands);
      ListControls();
      assert Entries(commands) == shown;
      ListAllCommands();
      PaddedListingAfter(old(oStream.written), spacing, canUseExit, Entry(exitString, exitDescription),
                         canUseBack, Entry(backString, backDescription), shown);
    }

    /** The start of `listCommands`: the header, then the exit and back lines when enabled. */
    method ListControls()
      modifies oStream`written
      ensures oStream.written == old(oStream.written) + [Header]
                + Optional(canUseExit, PaddedLine(spacing, Entry(exitString, exitDescription)))
                + Optional(canUseBack, PaddedLine(spacing, Entry(backString, backDescription)))
    {
      oStream.Println("\nAvailable Commands:");
      assert "\nAvailable Commands:" + "\n" == Header;
      if canUseExit {
        var pad := AddSpaces(exitString);
        oStream.Println(exitString + pad + exitDescription);
      }
      if canUseBack {
        var pad := AddSpaces(backString);
        oStream.Println(backString + pad + backDescription);
      }
    }

    /** The loop of `listCommands`: one padded line per command. */
    method ListAllCommands()
      modifies oStream`written
      ensures oStream.written == old(oStream.written) + PaddedLines(spacing, old(Entries(commands)))
    {
      ghost var before := oStream.written;
      ghost var es := Entries(commands);
      assert before + PaddedLines(spacing, es[..0]) == before;
      for i := 0 to |commands|
        invariant oStream.written == before + PaddedLines(spacing, es[..i])
      {
        var pad := AddSpaces(commands[i].commandString);
        assert es[..i + 1] == es[..i] + [es[i]];
        PaddedLinesSnoc(spacing, es[..i], es[i]);
        AppendChunk(before, PaddedLines(spacing, es[..i]), PaddedLine(spacing, es[i]));
        oStream.Println(commands[i].commandString + pad + commands[i].commandDescription);
      }
      assert es[..|commands|] == es;
    }

    /**
     * `processCommand` on the line read: print the caret, then the list
     * string, exit (if enabled) and back (if enabled) by exact equality, then
     * the first command whose matcher accepts the line; the state carries the
     * line. Only the listing prints, only a matched command runs, and only the
     * commands up to the accepting one have their arguments reset.
     */
    method ProcessCommand(line: string) returns (state: FiState)
      modifies this`executed, oStream`written, commands`arguments
      ensures state == FiState(StateCode(old(Resolution(line))), line)
      ensures executed == old(executed) + if old(Resolution(line)).Ran? then [old(Resolution(line)).index] else []
      ensures oStream.written ==
                old(oStream.written) + [caret] + if old(Resolution(line)) == Listed then old(ListingText()) else []
      ensures forall c :: c in commands ==>
                c.arguments == if c in commands[..Inspected(old(Resolution(line)), |commands|)]
                               then ArgsAfter(c.commandString, line) else old(c.arguments)
    {
      oStream.Print(caret);
      state := Respond(line);
    }

    /** `processCommand` after the caret: the reserved strings, then the commands. */
    method Respond(line: string) returns (state: FiState)
      modifies this`executed, oStream`written, commands`arguments
      ensures state == FiState(StateCode(old(Resolution(line))), line)
      ensures executed == old(executed) + if old(Resolution(line)).Ran? then [old(Resolution(line)).index] else []
      ensures oStream.written == old(oStream.written) + if old(Resolution(line)) == Listed then old(ListingText()) else []
      ensures forall c :: c in commands ==>
                c.arguments == if c in commands[..Inspected(old(Resolution(line)), |commands|)]
                               then ArgsAfter(c.commandString, line) else old(c.arguments)
    {
      ghost var r := Resolution(line);
      CompareToZeroIffEqual(line, listCommandsString);
      CompareToZeroIffEqual(line, exitString);
      CompareToZeroIffEqual(line, backString);
      if CompareTo(line, listCommandsString) == 0 {
        assert r == Listed;
        ListCommands();
        state := FiState(VALID, line);
      } else if canUseExit && CompareTo(line, exitString) == 0 {
        assert r == ExitSignal;
        state := FiState(EXIT, line);
      } else if canUseBack && CompareTo(line, backString) == 0 {
        assert r == BackSignal;
        state := FiState(BACK, line);
      } else {
        state := RunCommands(line);
      }
    }

    /**
     * The loop of `processCommand` on a line that is not reserved: try each
     * command in list order, run the first one that accepts the line and
     * answer VALID, or answer INVALID when none does.
     */
    method RunCommands(line: string) returns (state: FiState)
      requires !IsReserved(Reserved(), line)
      modifies this`executed, commands`arguments
      ensures state == FiState(StateCode(old(Resolution(line))), line)
      ensures executed == old(executed) + if old(Resolution(line)).Ran? then [old(Resolution(line)).index] else []
      ensures forall c :: c in commands ==>
                c.arguments == if c in commands[..Inspected(old(Resolution(line)), |commands|)]
                               then ArgsAfter(c.commandString, line) else old(c.arguments)
    {
      ResolvedToCommands(Reserved(), Names(commands), line);
      state := TryCommands(line);
    }

    /** The loop itself, stated on the names: the first accepting command runs. */
    method TryCommands(line: string) returns (state: FiState)
      modifies this`executed, commands`arguments
      ensures var k := FirstMatch(old(Names(commands)), line);
        state == FiState(if k < |commands| then VALID else INVALID, line)
        && executed == old(executed) + (if k < |commands| then [k] else [])
        && forall c :: c in commands ==>
             c.arguments == if c in commands[..if k < |commands| then k + 1 else |commands|]
                            then ArgsAfter(c.commandString, line) else old(c.arguments)
    {
      var k := FirstAccepting(line);
      if k < |commands| {
        executed := executed + [k];
        state := FiState(VALID, line);
      } else {
        state := FiState(INVALID, line);
      }
    }

    /**
     * The matchers of the commands in list order, up to the first that
     * accepts the line; its index, or the length of the list.
     */
    method FirstAccepting(line: string) returns (k: nat)
      modifies commands`arguments
      ensures k == FirstMatch(old(Names(commands)), line)
      ensures forall c :: c in commands ==>
                c.arguments == if c in commands[..if k < |commands| then k + 1 else |commands|]
                               then ArgsAfter(c.commandString, line) else old(c.arguments)
    {
      ghost var names := Names(commands);
      k := 0;
      while k < |commands|
        invariant 0 <= k <= |commands|
        invariant NoneMatches(names[..k], line)
        invariant forall c :: c in commands ==>
                    c.arguments == if c in commands[..k] then ArgsAfter(c.commandString, line) else old(c.arguments)
      {
        var command := commands[k];
        assert names[k] == command.commandString;
        PrefixSnoc(commands, k);
        var accepted := command.IsCommand(line);
        assert accepted == Matches(names[k], line);
        if accepted {
          FirstMatchFound(names, line, k);
          return;
        }
        NoneMatchesStep(names, line, k);
        k := k + 1;
      }
      assert commands[..k] == commands;
      NoneMatchesAll(names, line);
    }
  }
}
