/**
 * `fiberous.fi.InputParser`, the first dispatcher: commands are kept in the
 * order they were added, the only reserved string is the list string, and
 * `doCommand` answers whether the line did something. The listing separates
 * name and description with a tab. Running a command is recorded by
 * appending its index to `executed`.
 */
module PlainParser {
  import opened Text
  import opened Tokenizer
  import opened Dispatch
  import opened Listing
  import opened Console
  import opened PlainCommand

  class InputParser {
    var commands: seq<Command>
    var listCommandsString: string
    const oStream: Sink

    /** The indices of the commands run so far, in order. */
    ghost var executed: seq<nat>

    /** `InputParser(os, listCommandsString)`: an empty list. */
    constructor(os: Sink, listCommandsString: string)
      ensures commands == [] && this.listCommandsString == listCommandsString && oStream == os
      ensures executed == []
    {
      commands := [];
      this.listCommandsString := listCommandsString;
      oStream := os;
      executed := [];
    }

    /** Only the list string is reserved: there is no exit and no back. */
    function Reserved(): Controls
      reads this
    {
      Controls(listCommandsString, false, "", false, "")
    }

    /** How `doCommand` resolves a line. */
    function Resolution(line: string): Resolution
      reads this, commands`commandString
    {
      Resolve(Reserved(), Names(commands), line)
    }

    /** What `listCommands` prints. */
    function ListingText(): seq<string>
      reads this`commands, commands`commandString, commands`commandDescription
    {
      PlainTabListing(Entries(commands))
    }

    /** `addCommand`: append, without sorting; the names grow by the new name at the end. */
    method AddCommand(c: Command)
      modifies this`commands
      ensures commands == old(commands) + [c]
      ensures Names(commands) == old(Names(commands)) + [c.commandString]
    {
      commands := commands + [c];
      assert commands[..|commands| - 1] == old(commands);
      assert Names(commands) == Names(old(commands)) + [c.commandString];
    }

    /** `clearCommands`. */
    method ClearCommands()
      modifies this`commands
      ensures commands == []
    {
      commands := [];
    }

    /** `numOfCommands`. */
    method NumOfCommands() returns (n: nat)
      ensures n == |commands|
    {
      n := |commands|;
    }

    /** `listCommands`: the header, then every command in the order added. */
    method ListCommands()
      modifies oStream`written
      ensures oStream.written == old(oStream.written) + old(ListingText())
    {
      ghost var shown := Entries(commands);
      oStream.Print("\nAvailable Commands:\n");
      assert Entries(commands) == shown;
      ListAllCommands();
      AppendAssoc(old(oStream.written), [Header], TabLines(shown));
    }

    /** The loop of `listCommands`: one tab-separated line per command. */
    method ListAllCommands()
      modifies oStream`written
      ensures oStream.written == old(oStream.written) + TabLines(old(Entries(commands)))
    {
      ghost var before := oStream.written;
      ghost var es := Entries(commands);
      assert before + TabLines(es[..0]) == before;
      for i := 0 to |commands|
        invariant oStream.written == before + TabLines(es[..i])
      {
        assert es[..i + 1] == es[..i] + [es[i]];
        TabLinesSnoc(es[..i], es[i]);
        AppendChunk(before, TabLines(es[..i]), TabLine(es[i]));
        oStream.Println(commands[i].commandString + "\t" + commands[i].commandDescription);
      }
      assert es[..|commands|] == es;
    }

    /**
     * `doCommand`: the list string lists and answers true; otherwise the first
     * command, in the order added, whose matcher accepts the line runs and
     * the answer is true; with none, false. Only the listing prints, only a
     * matched command runs, and only the commands up to the accepting one
     * have their arguments reset.
     */
    method DoCommand(commandString: string) returns (b: bool)
      modifies this`executed, oStream`written, commands`arguments
      ensures b <==> old(Resolution(commandString)) == Listed || old(Resolution(commandString)).Ran?
      ensures executed == old(executed) +
                if old(Resolution(commandString)).Ran? then [old(Resolution(commandString)).index] else []
      ensures oStream.written ==
                old(oStream.written) + if old(Resolution(commandString)) == Listed then old(ListingText()) else []
      ensures forall c :: c in commands ==>
                c.arguments == if c in commands[..Inspected(old(Resolution(commandString)), |commands|)]
                               then ArgsAfter(c.commandString, commandString) else old(c.arguments)
    {
      ghost var r := Resolution(commandString);
      CompareToZeroIffEqual(commandString, listCommandsString);
      if CompareTo(commandString, listCommandsString) == 0 {
        assert r == Listed;
        ListCommands();
        b := true;
      } else {
        ResolvedToCommands(Reserved(), Names(commands), commandString);
        b := TryCommands(commandString);
      }
    }

    /** The loop of `doCommand`, stated on the names: the first accepting command runs. */
    method TryCommands(line: string) returns (ran: bool)
      modifies this`executed, commands`arguments
      ensures var k := FirstMatch(old(Names(commands)), line);
        ran == (k < |commands|)
        && executed == old(executed) + (if ran then [k] else [])
        && forall c :: c in commands ==>
             c.arguments == if c in commands[..if ran then k + 1 else |commands|]
                            then ArgsAfter(c.commandString, line) else old(c.arguments)
    {
      var k := FirstAccepting(line);
      if k < |commands| {
        commands[k].Execute();
        executed := executed + [k];
        return true;
      }
      return false;
    }

    /**
     * The matchers of the commands in list order, up to the first that
     * accepts the line; its index, or the length of the list.
     */
    method FirstAccepting(line: string) returns (k: nat)
      modifies commands`arguments
      ensures k == FirstMatch(old(Names(commands)), line)
      ensures forall c :: c in commands ==>
                c.arguments == if c in commands[..if k < |commands| then k + 1 else |commands|]
                               then ArgsAfter(c.commandString, line) else old(c.arguments)
    {
      ghost var names := Names(commands);
      k := 0;
      while k < |commands|
        invariant 0 <= k <= |commands|
        invariant NoneMatches(names[..k], line)
        invariant forall c :: c in commands ==>
                    c.arguments == if c in commands[..k] then ArgsAfter(c.commandString, line) else old(c.arguments)
      {
        var command := commands[k];
        assert names[k] == command.commandString;
        PrefixSnoc(commands, k);
        var accepted := command.IsCommand(line);
        assert accepted == Matches(names[k], line);
        if accepted {
          FirstMatchFound(names, line, k);
          return;
        }
        NoneMatchesStep(names, line, k);
        k := k + 1;
      }
      assert commands[..k] == commands;
      NoneMatchesAll(names, line);
    }
  }
}
