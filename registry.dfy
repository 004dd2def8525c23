/**
 * The three ways the dispatchers keep their command lists, on the list of
 * command names: sorted insertion before the first strictly greater name
 * (`FiCLI.sortAndAddCommand`), the older insertion that drops a name that is
 * not below any present name (`FiInputParser.sortAndAddCommand`), and plain
 * appending (`InputParser.addCommand`).
 */
module Registry {
  import opened Text

  /** Ascending under `compareTo`; equal names may repeat. */
  predicate Sorted(names: seq<string>)
  {
    forall i, j :: 0 <= i < j < |names| ==> !Less(names[j], names[i])
  }

  /** In a sorted list a strictly smaller name sits at a smaller index. */
  lemma LessComesFirst(names: seq<string>, i: nat, j: nat)
    requires Sorted(names) && i < |names| && j < |names|
    requires Less(names[i], names[j])
    ensures i < j
  {
    LessIrreflexive(names[i]);
  }

  /** The index the linear scan stops at: the first name strictly greater than `x`, or the end. */
  function InsertionPoint(names: seq<string>, x: string): (p: nat)
    ensures p <= |names|
    ensures forall j :: 0 <= j < p ==> !Less(x, names[j])
    ensures p < |names| ==> Less(x, names[p])
  {
    if names == [] || Less(x, names[0]) then 0 else 1 + InsertionPoint(names[1..], x)
  }

  function InsertAt<T>(s: seq<T>, p: nat, x: T): (r: seq<T>)
    requires p <= |s|
  {
    s[..p] + [x] + s[p..]
  }

  /** What inserting at `p` does: one more element, `x` at `p`, the old ones around it in order. */
  lemma InsertAtShape<T>(s: seq<T>, p: nat, x: T)
    requires p <= |s|
    ensures |InsertAt(s, p, x)| == |s| + 1
    ensures InsertAt(s, p, x)[p] == x
    ensures InsertAt(s, p, x)[..p] == s[..p] && InsertAt(s, p, x)[p + 1..] == s[p..]
    ensures multiset(InsertAt(s, p, x)) == multiset(s) + multiset{x}
  {
    var r := InsertAt(s, p, x);
    assert r[..p] == s[..p];
    assert r[p + 1..] == s[p..];
    calc {
      multiset(r);
      multiset(s[..p] + [x]) + multiset(s[p..]);
      multiset(s[..p]) + multiset{x} + multiset(s[p..]);
      { assert s == s[..p] + s[p..]; }
      multiset(s) + multiset{x};
    }
  }

  /** In a sorted list every name from the insertion point on is strictly greater than `x`. */
  lemma {:induction false} AfterInsertionPointGreater(names: seq<string>, x: string)
    requires Sorted(names)
    ensures forall j :: InsertionPoint(names, x) <= j < |names| ==> Less(x, names[j])
  {
    var p := InsertionPoint(names, x);
    forall j | p <= j < |names|
      ensures Less(x, names[j])
    {
      if j > p {
        LessThenNotGreater(x, names[p], names[j]);
      }
    }
  }

  /** Names equal to `x` already present stay in front of it: insertion is stable. */
  lemma EqualNamesStayInFront(names: seq<string>, x: string)
    requires Sorted(names)
    ensures forall j :: 0 <= j < |names| && names[j] == x ==> j < InsertionPoint(names, x)
  {
    AfterInsertionPointGreater(names, x);
    LessIrreflexive(x);
  }

  /** Sorted insertion keeps the list sorted. */
  lemma {:induction false} InsertKeepsSorted(names: seq<string>, x: string)
    requires Sorted(names)
    ensures Sorted(InsertAt(names, InsertionPoint(names, x), x))
  {
    var p := InsertionPoint(names, x);
    var r := InsertAt(names, p, x);
    AfterInsertionPointGreater(names, x);
    forall i, j | 0 <= i < j < |r|
      ensures !Less(r[j], r[i])
    {
      if j < p {
        assert r[i] == names[i] && r[j] == names[j];
      } else if j == p {
        assert r[i] == names[i];
      } else if i == p {
        assert r[j] == names[j - 1];
        LessAsymmetric(x, names[j - 1]);
      } else if i < p {
        assert r[i] == names[i] && r[j] == names[j - 1];
      } else {
        assert r[i] == names[i - 1] && r[j] == names[j - 1];
      }
    }
  }

  /** `FiCLI.sortAndAddCommand` on names: insert before the first strictly greater name. */
  function SortedAdd(names: seq<string>, x: string): (r: seq<string>)
  {
    InsertAt(names, InsertionPoint(names, x), x)
  }

  /** Adding "z", "a", "m" in that order lists them as "a", "m", "z". */
  lemma SortedAddExample()
    ensures SortedAdd(SortedAdd(SortedAdd([], "z"), "a"), "m") == ["a", "m", "z"]
  {
    assert Less("a", "z") by { assert CompareTo("a", "z") < 0; }
    assert Less("m", "z") by { assert CompareTo("m", "z") < 0; }
    assert !Less("m", "a") by { assert CompareTo("m", "a") > 0; }
  }

  /** Every name, with the five columns the listing leaves after it, fits in `spacing`. */
  predicate Fits(names: seq<string>, spacing: int)
  {
    forall i :: 0 <= i < |names| ==> |names[i]| + 5 <= spacing
  }

  /** The alignment width after seeing `name`: never smaller, and wide enough for it. */
  function Widen(spacing: int, name: string): (w: int)
    ensures w >= spacing && w >= |name| + 5
    ensures w == spacing || w == |name| + 5
  {
    if |name| + 5 > spacing then |name| + 5 else spacing
  }

  /**
   * Sorted insertion together with the widening of `spacing` keeps the list
   * sorted and every name fitting; the list grows by exactly one.
   */
  lemma SortedAddFits(names: seq<string>, x: string, spacing: int)
    requires Sorted(names) && Fits(names, spacing)
    ensures Sorted(SortedAdd(names, x)) && Fits(SortedAdd(names, x), Widen(spacing, x))
    ensures |SortedAdd(names, x)| == |names| + 1
  {
    var p := InsertionPoint(names, x);
    InsertKeepsSorted(names, x);
    InsertAtShape(names, p, x);
    var r := SortedAdd(names, x);
    forall i | 0 <= i < |r|
      ensures |r[i]| + 5 <= Widen(spacing, x)
    {
      if i < p {
        assert r[i] == r[..p][i] == names[i];
      } else if i > p {
        assert r[i] == r[p + 1..][i - p - 1] == names[i - 1];
      }
    }
  }

  /** An empty list takes `x`; otherwise `x` goes in at `p`, unless `p` is the end, where it is dropped. */
  function InsertOrDrop<T>(s: seq<T>, p: nat, x: T): (r: seq<T>)
    requires p <= |s|
  {
    if s == [] then [x] else if p < |s| then InsertAt(s, p, x) else s
  }

  /**
   * `FiInputParser.sortAndAddCommand` on names: an empty list takes the name;
   * otherwise it goes before the first strictly greater name, and when there
   * is none it is not added at all.
   */
  function DropAdd(names: seq<string>, x: string): (r: seq<string>)
  {
    InsertOrDrop(names, InsertionPoint(names, x), x)
  }

  /** The older insertion drops exactly the names not below any present name. */
  lemma DropAddDrops(names: seq<string>, x: string)
    ensures DropAdd(names, x) == names <==>
              names != [] && forall j :: 0 <= j < |names| ==> !Less(x, names[j])
    ensures |DropAdd(names, x)| == |names| || |DropAdd(names, x)| == |names| + 1
  {
    var p := InsertionPoint(names, x);
    if names != [] && p < |names| {
      assert |InsertAt(names, p, x)| == |names| + 1;
    }
  }

  /**
   * The older insertion agrees with the sorted insertion exactly when the
   * list is empty or some present name is strictly greater than `x`; in the
   * remaining case the sorted insertion appends `x` where the older one
   * drops it.
   */
  lemma DropAddVersusSortedAdd(names: seq<string>, x: string)
    ensures DropAdd(names, x) == SortedAdd(names, x) <==> names == [] || InsertionPoint(names, x) < |names|
    ensures names != [] && InsertionPoint(names, x) == |names| ==> SortedAdd(names, x) == names + [x]
  {
    var p := InsertionPoint(names, x);
    InsertAtShape(names, p, x);
    if p == |names| {
      assert SortedAdd(names, x) == names + [x] by {
        assert names[..p] == names && names[p..] == [];
      }
    }
  }

  /** It keeps a sorted list sorted. */
  lemma DropAddKeepsSorted(names: seq<string>, x: string)
    requires Sorted(names)
    ensures Sorted(DropAdd(names, x))
  {
    if names != [] {
      InsertKeepsSorted(names, x);
    }
  }

  /** Under the older insertion, "z" then "a" keeps both but "a" then "z" drops "z". */
  lemma DropAddExample()
    ensures DropAdd(DropAdd([], "z"), "a") == ["a", "z"]
    ensures DropAdd(DropAdd([], "a"), "z") == ["a"]
  {
    assert Less("a", "z") by { assert CompareTo("a", "z") < 0; }
    assert !Less("z", "a") by { assert CompareTo("z", "a") > 0; }
  }
}
