/**
 * `fiberous.fi.Command`, the first command class, used by `InputParser`: a
 * name, the arguments of the last matched line and a description; unlike
 * the later classes it has a default `execute` that does nothing.
 */
module PlainCommand {
  import opened Text
  import opened Tokenizer
  import opened Listing

  class Command {
    var commandString: string
    var arguments: seq<string>
    var commandDescription: string

    /** A command answering to `commandString`, with no description and no arguments yet. */
    constructor(commandString: string)
      ensures this.commandString == commandString
      ensures arguments == [] && commandDescription == ""
    {
      this.commandString := commandString;
      arguments := [];
      commandDescription := "";
    }

    /** The default `execute`: nothing happens. */
    method Execute()
      ensures unchanged(this)
    {
    }

    /**
     * `isCommand`: accepts exactly the lines that start with the name, and
     * leaves in `arguments` the tokens of the rest of an accepted line, or
     * nothing. Only `arguments` changes.
     */
    method IsCommand(cString: string) returns (b: bool)
      modifies this`arguments
      ensures b == Matches(commandString, cString)
      ensures arguments == ArgsAfter(commandString, cString)
    {
      arguments := [];
      if |cString| < |commandString| {
        return false;
      }
      var compareString := cString[..|commandString|];
      CompareToMatches(commandString, cString);
      if CompareTo(compareString, commandString) == 0 {
        var argumentsString := cString[|commandString|..];
        arguments := Scan(argumentsString);
        return true;
      } else {
        return false;
      }
    }
  }

  /** The names of a command list, in order. */
  function Names(cs: seq<Command>): (names: seq<string>)
    reads cs`commandString
    ensures |names| == |cs|
    ensures forall i :: 0 <= i < |cs| ==> names[i] == cs[i].commandString
  {
    if cs == [] then [] else Names(cs[..|cs| - 1]) + [cs[|cs| - 1].commandString]
  }

  /** The entries the listing prints for a command list: all of them, in list order. */
  function Entries(cs: seq<Command>): (es: seq<Entry>)
    reads cs`commandString, cs`commandDescription
    ensures |es| == |cs|
    ensures forall i :: 0 <= i < |cs| ==> es[i] == Entry(cs[i].commandString, cs[i].commandDescription)
  {
    if cs == [] then [] else Entries(cs[..|cs| - 1]) + [Entry(cs[|cs| - 1].commandString, cs[|cs| - 1].commandDescription)]
  }
}
