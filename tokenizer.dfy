/**
 * The matcher shared by every command class: an exact, case-sensitive prefix
 * test of the command name against the input line, and the splitting of the
 * rest of the line by a `java.util.Scanner` whose delimiter is one space.
 *
 * The Scanner skips one delimiter before a token and then takes everything up
 * to the next delimiter, so one space is consumed per token: " a b" gives
 * ["a", "b"], " a  b" gives ["a", "", "b"], "  a" gives ["", "a"] and a single
 * trailing space gives no token.
 */
module Tokenizer {
  import opened Text

  /**
   * `isCommand`'s test: the line is at least as long as the name and its
   * first `|name|` characters compare equal to the name.
   */
  predicate Matches(name: string, line: string)
  {
    |line| >= |name| && line[..|name|] == name
  }

  /** The test `isCommand` performs with `compareTo` is this one. */
  lemma CompareToMatches(name: string, line: string)
    requires |line| >= |name|
    ensures CompareTo(line[..|name|], name) == 0 <==> Matches(name, line)
  {
    CompareToZeroIffEqual(line[..|name|], name);
  }

  /** The match is a plain prefix test: no word boundary, no case folding. */
  lemma MatchesIffPrefix(name: string, line: string)
    ensures Matches(name, line) <==> name <= line
    ensures |line| < |name| ==> !Matches(name, line)
  {
  }

  /** The Scanner's skip of one leading delimiter. */
  function SkipDelimiter(s: string): (t: string)
  {
    if |s| > 0 && s[0] == ' ' then s[1..] else s
  }

  /** The Scanner's `hasNext()`: input is left after skipping one delimiter. */
  predicate HasNext(s: string)
  {
    SkipDelimiter(s) != []
  }

  /** Where the token starting at `t[0]` ends: the first blank, or the end of `t`. */
  function TokenEnd(t: string): (k: nat)
    ensures k <= |t|
    ensures forall i :: 0 <= i < k ==> t[i] != ' '
    ensures k < |t| ==> t[k] == ' '
    ensures t != [] && t[0] != ' ' ==> k > 0
  {
    if t == [] || t[0] == ' ' then 0 else 1 + TokenEnd(t[1..])
  }

  /** The tokens the Scanner yields for `s`, in order. */
  function Tok(s: string): seq<string>
    decreases |s|
  {
    var t := SkipDelimiter(s);
    if t == [] then []
    else
      var k := TokenEnd(t);
      [t[..k]] + Tok(t[k..])
  }

  /** One step of the Scanner: the next token, then the tokens of what follows it. */
  lemma TokStep(s: string)
    requires HasNext(s)
    ensures var t := SkipDelimiter(s); var k := TokenEnd(t);
      Tok(s) == [t[..k]] + Tok(t[k..]) && |t[k..]| < |s|
  {
  }

  /** What `isCommand` leaves in `arguments` for the line. */
  function ArgsAfter(name: string, line: string): (args: seq<string>)
  {
    if Matches(name, line) then Tok(line[|name|..]) else []
  }

  /** The Scanner loop `while (hasNext()) arguments.add(next())`. */
  method Scan(s: string) returns (tokens: seq<string>)
    ensures tokens == Tok(s)
  {
    tokens := [];
    var rest := s;
    while HasNext(rest)
      invariant tokens + Tok(rest) == Tok(s)
      decreases |rest|
    {
      var t := SkipDelimiter(rest);
      var k := TokenEnd(t);
      var next := t[k..];
      TokStep(rest);
      AppendOne(tokens, t[..k], Tok(next));
      tokens := tokens + [t[..k]];
      rest := next;
    }
    NoNextNoToken(rest);
  }

  lemma AppendOne<T>(a: seq<T>, x: T, r: seq<T>)
    ensures (a + [x]) + r == a + ([x] + r)
  {
  }

  /** When `hasNext()` fails no token is left. */
  lemma NoNextNoToken(s: string)
    requires !HasNext(s)
    ensures Tok(s) == []
  {
  }

  /** No token ever holds the delimiter. */
  lemma {:induction false} NoTokenHoldsBlank(s: string)
    ensures forall i :: 0 <= i < |Tok(s)| ==> ' ' !in Tok(s)[i]
    decreases |s|
  {
    var t := SkipDelimiter(s);
    if t != [] {
      var k := TokenEnd(t);
      assert k == 0 ==> t[0] == ' ';
      NoTokenHoldsBlank(t[k..]);
      assert Tok(s) == [t[..k]] + Tok(t[k..]);
    }
  }

  /** Concatenation of " " + token over all tokens. */
  function Join(tokens: seq<string>): (s: string)
  {
    if tokens == [] then "" else " " + tokens[0] + Join(tokens[1..])
  }

  /**
   * Re-joining the tokens with one blank in front of each gives back the text,
   * when the text is empty, or starts with a blank and does not end with one.
   */
  lemma {:induction false} JoinTok(s: string)
    requires s == [] || (s[0] == ' ' && s[|s| - 1] != ' ')
    ensures Join(Tok(s)) == s
    decreases |s|
  {
    if s != [] {
      var t := s[1..];
      var k := TokenEnd(t);
      var rest := t[k..];
      assert Tok(s) == [t[..k]] + Tok(rest) by {
        assert SkipDelimiter(s) == t;
        TokStep(s);
      }
      assert Join(Tok(rest)) == rest by {
        if k < |t| {
          assert rest[0] == ' ' && rest[|rest| - 1] == s[|s| - 1];
          JoinTok(rest);
        }
      }
      JoinCons(t[..k], Tok(rest));
      BlankThenSplit(s, k);
    }
  }

  /** `s` is its blank, the first `k` chars after it, and the rest. */
  lemma BlankThenSplit(s: string, k: nat)
    requires s != [] && s[0] == ' ' && k <= |s| - 1
    ensures " " + s[1..][..k] + s[1..][k..] == s
  {
    assert s == [s[0]] + s[1..];
  }

  lemma JoinCons(x: string, r: seq<string>)
    ensures Join([x] + r) == " " + x + Join(r)
  {
    assert ([x] + r)[1..] == r;
  }

  /** A single blank at the end of a text that does not already end in one adds no token. */
  lemma {:induction false} TrailingBlankIgnored(s: string)
    requires s == [] || s[|s| - 1] != ' '
    ensures Tok(s + " ") == Tok(s)
    decreases |s|
  {
    if s == [] {
      assert s + " " == " ";
      NoNextNoToken(" ");
      NoNextNoToken(s);
    } else {
      var t := SkipDelimiter(s);
      SkipBeforeBlank(s);
      var k := TokenEnd(t);
      TokenEndExtend(t);
      TokStep(s);
      TokStep(s + " ");
      SliceBeforeBlank(t, k);
      if k < |t| {
        assert t[k..][|t[k..]| - 1] == s[|s| - 1];
        TrailingBlankIgnored(t[k..]);
      } else {
        assert t[k..] == [];
        NoNextNoToken(" ");
        NoNextNoToken(t[k..]);
      }
    }
  }

  /** Skipping the delimiter of a text with a blank appended. */
  lemma SkipBeforeBlank(s: string)
    requires s != [] && s[|s| - 1] != ' '
    ensures SkipDelimiter(s + " ") == SkipDelimiter(s) + " " && SkipDelimiter(s) != []
    ensures SkipDelimiter(s)[|SkipDelimiter(s)| - 1] == s[|s| - 1]
  {
    if s[0] == ' ' {
      assert (s + " ")[1..] == s[1..] + " ";
    }
  }

  lemma SliceBeforeBlank(t: string, k: nat)
    requires k <= |t|
    ensures (t + " ")[..k] == t[..k] && (t + " ")[k..] == t[k..] + " "
  {
  }

  /** Appending a blank does not move the end of the first token, unless it ends the text. */
  lemma {:induction false} TokenEndExtend(t: string)
    ensures TokenEnd(t + " ") == TokenEnd(t)
  {
    if t != [] && t[0] != ' ' {
      assert (t + " ")[1..] == t[1..] + " ";
      TokenEndExtend(t[1..]);
    }
  }

  /** A blank, then a blank-free token, then more input starting at a blank (or nothing). */
  lemma TokAfterBlank(a: string, r: string)
    requires ' ' !in a && (r == [] || r[0] == ' ') && (a != [] || r != [])
    ensures Tok(" " + a + r) == [a] + Tok(r)
  {
    var s := " " + a + r;
    assert s[0] == ' ' && s[1..] == a + r;
    assert SkipDelimiter(s) == a + r;
    TokenEndAt(a, r);
    TokStep(s);
    assert (a + r)[..|a|] == a && (a + r)[|a|..] == r;
  }

  /** A first token that is not preceded by a blank. */
  lemma TokAtStart(a: string, r: string)
    requires ' ' !in a && a != [] && (r == [] || r[0] == ' ')
    ensures Tok(a + r) == [a] + Tok(r)
  {
    var s := a + r;
    assert s[0] == a[0];
    assert SkipDelimiter(s) == s;
    TokenEndAt(a, r);
    TokStep(s);
    assert s[..|a|] == a && s[|a|..] == r;
  }

  lemma TokenEndAt(a: string, r: string)
    requires ' ' !in a && (r == [] || r[0] == ' ')
    ensures TokenEnd(a + r) == |a|
  {
    assert forall i :: 0 <= i < |a| ==> (a + r)[i] == a[i] && a[i] in a;
    assert |a| < |a + r| ==> (a + r)[|a|] == r[0];
  }

  /**
   * The tokenizing examples that fix the Scanner semantics, for any two
   * non-empty words without blanks: one blank between words separates them,
   * two blanks give an empty token between them, two leading blanks give an
   * empty first token, a single trailing blank gives nothing.
   */
  lemma TokExamples(a: string, b: string)
    requires a != [] && b != [] && ' ' !in a && ' ' !in b
    ensures Tok(" " + a + " " + b) == [a, b]
    ensures Tok(" " + a + "  " + b) == [a, "", b]
    ensures Tok("  " + a) == ["", a]
    ensures Tok(" " + a + " ") == [a]
    ensures Tok("") == []
  {
    TokTwoWords(a, b);
    TokDoubleBlank(a, b);
    TokEmptyThen(a);
    TokTrailingBlank(a);
    NoNextNoToken("");
  }

  lemma TokTwoWords(a: string, b: string)
    requires a != [] && b != [] && ' ' !in a && ' ' !in b
    ensures Tok(" " + a + " " + b) == [a, b]
  {
    TokOneWord(b);
    TokAfterBlank(a, " " + b);
    assert " " + a + " " + b == " " + a + (" " + b);
  }

  lemma TokDoubleBlank(a: string, b: string)
    requires a != [] && b != [] && ' ' !in a && ' ' !in b
    ensures Tok(" " + a + "  " + b) == [a, "", b]
  {
    TokEmptyThen(b);
    TokAfterBlank(a, "  " + b);
    assert " " + a + "  " + b == " " + a + ("  " + b);
  }

  lemma TokTrailingBlank(a: string)
    requires a != [] && ' ' !in a
    ensures Tok(" " + a + " ") == [a]
  {
    NoNextNoToken(" ");
    TokAfterBlank(a, " ");
  }

  /** A blank and one word give that word. */
  lemma TokOneWord(a: string)
    requires ' ' !in a && a != []
    ensures Tok(" " + a) == [a]
  {
    TokAfterBlank(a, "");
    assert " " + a + "" == " " + a;
    NoNextNoToken("");
  }

  /** Two blanks and a word give an empty token, then the word. */
  lemma TokEmptyThen(a: string)
    requires ' ' !in a && a != []
    ensures Tok("  " + a) == ["", a]
  {
    TokOneWord(a);
    TokAfterBlank("", " " + a);
    assert " " + "" + (" " + a) == "  " + a;
  }

  /** No word boundary is needed: "getx y" invokes "get" with ["x", "y"]. */
  lemma NoWordBoundary()
    ensures Matches("get", "getx y")
    ensures ArgsAfter("get", "getx y") == ["x", "y"]
    ensures ArgsAfter("get", "get") == []
    ensures ArgsAfter("get", "ge") == []
  {
    MatchesIffPrefix("get", "getx y");
    MatchesIffPrefix("get", "get");
    MatchesIffPrefix("get", "ge");
    assert "getx y"[3..] == "x y";
    TokAfterBlank("y", "");
    assert " y" == " " + "y" + "";
    TokAtStart("x", " y");
    assert "x y" == "x" + " y";
    assert "get"[3..] == "";
  }

  /** The exact name alone matches and leaves no arguments. */
  lemma ExactNameNoArguments(name: string)
    ensures Matches(name, name) && ArgsAfter(name, name) == []
  {
    MatchesIffPrefix(name, name);
    assert name[|name|..] == "";
  }
}
