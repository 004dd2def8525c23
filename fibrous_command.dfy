/**
 * `fibrous.fi.FiCommand`: a command name, the arguments of the last matched
 * line, a description for the listing and whether the listing shows it.
 * What `execute` does is up to each subclass; the dispatchers record that it
 * ran (see `FibrousCLI`).
 */
module FibrousCommand {
  import opened Text
  import opened Tokenizer
  import opened Listing
  import opened Registry

  class FiCommand {
    var commandString: string
    var arguments: seq<string>
    var commandDescription: string
    var isVisible: bool

    /** A command answering to `commandString`, listed, with no description and no arguments yet. */
    constructor(commandString: string)
      ensures this.commandString == commandString
      ensures arguments == [] && commandDescription == "" && isVisible
    {
      this.commandString := commandString;
      arguments := [];
      commandDescription := "";
      isVisible := true;
    }

    /**
     * `isCommand`: accepts exactly the lines that start with the name, and
     * leaves in `arguments` the tokens of the rest of an accepted line, or
     * nothing. Only `arguments` changes.
     */
    method IsCommand(cString: string) returns (b: bool)
      modifies this`arguments
      ensures b == Matches(commandString, cString)
      ensures arguments == ArgsAfter(commandString, cString)
    {
      arguments := [];
      if |cString| < |commandString| {
        return false;
      }
      var compareString := cString[..|commandString|];
      CompareToMatches(commandString, cString);
      if CompareTo(compareString, commandString) == 0 {
        var argumentsString := cString[|commandString|..];
        arguments := Scan(argumentsString);
        return true;
      } else {
        return false;
      }
    }
  }

  /** The names of a command list, in order. */
  function Names(cs: seq<FiCommand>): (names: seq<string>)
    reads cs`commandString
    ensures |names| == |cs|
    ensures forall i :: 0 <= i < |cs| ==> names[i] == cs[i].commandString
  {
    if cs == [] then [] else Names(cs[..|cs| - 1]) + [cs[|cs| - 1].commandString]
  }

  /** What the listing shows of a command. */
  function EntryOf(c: FiCommand): Entry
    reads c`commandString, c`commandDescription
  {
    Entry(c.commandString, c.commandDescription)
  }

  /** The listing data of a command list: each command's entry and visibility, in order. */
  function Items(cs: seq<FiCommand>): (items: seq<Item>)
    reads cs`commandString, cs`commandDescription, cs`isVisible
    ensures |items| == |cs|
    ensures forall i :: 0 <= i < |cs| ==> items[i] == Item(EntryOf(cs[i]), cs[i].isVisible)
  {
    if cs == [] then [] else Items(cs[..|cs| - 1]) + [Item(EntryOf(cs[|cs| - 1]), cs[|cs| - 1].isVisible)]
  }

  /** The entries `listCommands` prints for a command list: the visible ones, in list order. */
  function VisibleEntries(cs: seq<FiCommand>): seq<Entry>
    reads cs`commandString, cs`commandDescription, cs`isVisible
  {
    VisibleOnly(Items(cs))
  }

  /** The names of two lists one after the other are the names of the first, then of the second. */
  lemma NamesAppend(a: seq<FiCommand>, b: seq<FiCommand>)
    ensures Names(a + b) == Names(a) + Names(b)
  {
    var l := Names(a + b);
    var r := Names(a) + Names(b);
    forall i | 0 <= i < |l|
      ensures l[i] == r[i]
    {
      if i < |a| {
        assert (a + b)[i] == a[i];
      } else {
        assert (a + b)[i] == b[i - |a|];
      }
    }
  }

  /** The names of a prefix and of a suffix of a list are that prefix and suffix of its names. */
  lemma NamesSplit(cs: seq<FiCommand>, p: nat)
    requires p <= |cs|
    ensures Names(cs[..p]) == Names(cs)[..p] && Names(cs[p..]) == Names(cs)[p..]
  {
    var a, b := Names(cs[..p]), Names(cs[p..]);
    assert cs == cs[..p] + cs[p..];
    NamesAppend(cs[..p], cs[p..]);
    assert Names(cs) == a + b;
    assert (a + b)[..p] == a && (a + b)[p..] == b;
  }

  /** The names after inserting a command are the old names with its name inserted at the same place. */
  lemma NamesInsertAt(cs: seq<FiCommand>, p: nat, c: FiCommand)
    requires p <= |cs|
    ensures Names(cs[..p] + [c] + cs[p..]) == InsertAt(Names(cs), p, c.commandString)
  {
    calc {
      Names(cs[..p] + [c] + cs[p..]);
      { NamesAppend(cs[..p] + [c], cs[p..]); }
      Names(cs[..p] + [c]) + Names(cs[p..]);
      { NamesAppend(cs[..p], [c]); assert Names([c]) == [c.commandString]; }
      Names(cs[..p]) + [c.commandString] + Names(cs[p..]);
      { NamesSplit(cs, p); }
      Names(cs)[..p] + [c.commandString] + Names(cs)[p..];
    }
  }
}
