/**
 * The resolution order every dispatcher follows for one input line: the list
 * string first, then the exit string if enabled, then the back string if
 * enabled (all three by exact equality), then the first registered command,
 * in list order, whose matcher accepts the line; otherwise nothing.
 */
module Dispatch {
  import opened Text
  import opened Tokenizer
  import opened Registry

  /** The reserved control strings of a dispatcher and whether exit/back are enabled. */
  datatype Controls = Controls(
    listString: string,
    exitEnabled: bool, exitString: string,
    backEnabled: bool, backString: string)

  /** How a line is resolved; `Ran(k)` executes the command at index `k`. */
  datatype Resolution = Listed | ExitSignal | BackSignal | Ran(index: nat) | NoMatch

  /** Index of the first name whose matcher accepts the line; `|names|` when there is none. */
  function FirstMatch(names: seq<string>, line: string): (k: nat)
    ensures k <= |names|
    ensures forall j :: 0 <= j < k ==> !Matches(names[j], line)
    ensures k < |names| ==> Matches(names[k], line)
  {
    if names == [] || Matches(names[0], line) then 0 else 1 + FirstMatch(names[1..], line)
  }

  /** A scan's visited prefix one step later: the prefix with the next element appended. */
  lemma PrefixSnoc<T>(s: seq<T>, k: nat)
    requires k < |s|
    ensures s[..k + 1] == s[..k] + [s[k]]
  {
  }

  /** No name of the list accepts the line. */
  predicate NoneMatches(names: seq<string>, line: string)
  {
    forall j :: 0 <= j < |names| ==> !Matches(names[j], line)
  }

  /** A scan that has passed `k` rejecting names has passed one more when the next one rejects too. */
  lemma NoneMatchesStep(names: seq<string>, line: string, k: nat)
    requires k < |names| && NoneMatches(names[..k], line) && !Matches(names[k], line)
    ensures NoneMatches(names[..k + 1], line)
  {
    assert forall j :: 0 <= j < k ==> names[..k + 1][j] == names[..k][j];
  }

  /** A scan that stops at the first accepting name has found `FirstMatch`. */
  lemma FirstMatchFound(names: seq<string>, line: string, k: nat)
    requires k < |names| && NoneMatches(names[..k], line) && Matches(names[k], line)
    ensures FirstMatch(names, line) == k
  {
    assert forall j :: 0 <= j < k ==> names[..k][j] == names[j];
  }

  /** A scan that passed every name has found none. */
  lemma NoneMatchesAll(names: seq<string>, line: string)
    requires NoneMatches(names[..|names|], line)
    ensures FirstMatch(names, line) == |names|
  {
    assert names[..|names|] == names;
  }

  predicate IsReserved(c: Controls, line: string)
  {
    line == c.listString
    || (c.exitEnabled && line == c.exitString)
    || (c.backEnabled && line == c.backString)
  }

  function Resolve(c: Controls, names: seq<string>, line: string): (r: Resolution)
    // the list string wins over everything, even over an equal exit string
    ensures r == Listed <==> line == c.listString
    // exit needs its flag and exact equality, and is tried before back
    ensures r == ExitSignal <==> line != c.listString && c.exitEnabled && line == c.exitString
    ensures r == BackSignal <==>
              line != c.listString && !(c.exitEnabled && line == c.exitString)
              && c.backEnabled && line == c.backString
    // otherwise the first accepting command runs, and no command before it accepts
    ensures r.Ran? <==> !IsReserved(c, line) && exists j :: 0 <= j < |names| && Matches(names[j], line)
    ensures r.Ran? ==>
              r.index < |names| && Matches(names[r.index], line)
              && forall j :: 0 <= j < r.index ==> !Matches(names[j], line)
    ensures r == NoMatch <==>
              !IsReserved(c, line) && forall j :: 0 <= j < |names| ==> !Matches(names[j], line)
  {
    if line == c.listString then Listed
    else if c.exitEnabled && line == c.exitString then ExitSignal
    else if c.backEnabled && line == c.backString then BackSignal
    else
      var k := FirstMatch(names, line);
      if k < |names| then Ran(k) else NoMatch
  }

  /** A line that is not reserved goes to the first accepting command, if any. */
  lemma ResolvedToCommands(c: Controls, names: seq<string>, line: string)
    requires !IsReserved(c, line)
    ensures var k := FirstMatch(names, line);
      Resolve(c, names, line) == if k < |names| then Ran(k) else NoMatch
  {
  }

  /** How many commands, from the front of the list, have their matcher run on the line. */
  function Inspected(r: Resolution, count: nat): (n: nat)
  {
    match r
    case Ran(k) => k + 1
    case NoMatch => count
    case _ => 0
  }

  /**
   * Matching goes by list order, not by specificity: in a sorted list a name
   * that is a proper prefix of another sorts first, so the longer command can
   * never run; its lines go to the shorter one.
   */
  lemma {:induction false} ShorterPrefixShadows(c: Controls, names: seq<string>, line: string, i: nat, j: nat)
    requires Sorted(names)
    requires i < |names| && j < |names| && names[i] < names[j]
    ensures Resolve(c, names, line) != Ran(j)
  {
    ProperPrefixIsLess(names[i], names[j]);
    LessComesFirst(names, i, j);
    if Matches(names[j], line) {
      MatchesIffPrefix(names[j], line);
      MatchesIffPrefix(names[i], line);
      assert Matches(names[i], line);
    }
  }

  /** The arguments "get" hands on for "get record x": the rest of the line, split at the blanks. */
  lemma ShadowArgs()
    ensures ArgsAfter("get", "get record x") == ["record", "x"]
  {
    MatchesIffPrefix("get", "get record x");
    assert "get record x"[3..] == " " + "record" + " x";
    TokAfterBlank("record", " x");
    assert " x" == " " + "x" + "";
    TokAfterBlank("x", "");
  }

  /** "get record x" with "get" and "get record" registered runs "get", with ["record", "x"]. */
  lemma ShadowExample(c: Controls)
    requires !IsReserved(c, "get record x")
    ensures Resolve(c, ["get", "get record"], "get record x") == Ran(0)
    ensures ArgsAfter("get", "get record x") == ["record", "x"]
  {
    ShadowArgs();
  }
}
