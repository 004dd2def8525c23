/**
 * Java's String.compareTo, taken character by character over Dafny's
 * characters (Unicode scalar values), the strict order it induces
 * (`compareTo(..) < 0`), and the run of blanks used to align listings.
 */
module Text {

  /** `a.compareTo(b)`: the difference of the first differing chars, or of the lengths. */
  function CompareTo(a: string, b: string): int
  {
    if a == [] || b == [] then |a| - |b|
    else if a[0] != b[0] then a[0] as int - b[0] as int
    else CompareTo(a[1..], b[1..])
  }

  /** `a.compareTo(b) < 0`: a sorts strictly before b. */
  predicate Less(a: string, b: string)
  {
    CompareTo(a, b) < 0
  }

  /** The source tests equality of strings by `compareTo(..) == 0`. */
  lemma {:induction false} CompareToZeroIffEqual(a: string, b: string)
    ensures CompareTo(a, b) == 0 <==> a == b
  {
    if a != [] && b != [] && a[0] == b[0] {
      CompareToZeroIffEqual(a[1..], b[1..]);
      assert a == [a[0]] + a[1..] && b == [b[0]] + b[1..];
    }
  }

  /** Swapping the operands negates the comparison. */
  lemma {:induction false} CompareToAntisymmetric(a: string, b: string)
    ensures CompareTo(b, a) == -CompareTo(a, b)
  {
    if a != [] && b != [] && a[0] == b[0] {
      CompareToAntisymmetric(a[1..], b[1..]);
    }
  }

  /** A proper prefix sorts first. */
  lemma {:induction false} ProperPrefixIsLess(a: string, b: string)
    requires a < b
    ensures Less(a, b)
  {
    if a != [] {
      assert b[0] == a[0];
      ProperPrefixIsLess(a[1..], b[1..]);
    }
  }

  lemma LessIrreflexive(a: string)
    ensures !Less(a, a)
  {
    CompareToZeroIffEqual(a, a);
  }

  lemma LessAsymmetric(a: string, b: string)
    ensures Less(a, b) ==> !Less(b, a)
  {
    CompareToAntisymmetric(a, b);
  }

  /** Any two distinct strings are ordered one way or the other. */
  lemma LessTotal(a: string, b: string)
    ensures a == b || Less(a, b) || Less(b, a)
  {
    CompareToZeroIffEqual(a, b);
    CompareToAntisymmetric(a, b);
  }

  lemma {:induction false} LessTransitive(a: string, b: string, c: string)
    requires Less(a, b) && Less(b, c)
    ensures Less(a, c)
  {
    if a != [] && b != [] && c != [] && a[0] == b[0] && b[0] == c[0] {
      LessTransitive(a[1..], b[1..], c[1..]);
    }
  }

  /** `x` is strictly below `b` whenever it is strictly below some `a` that is not above `b`. */
  lemma LessThenNotGreater(x: string, a: string, b: string)
    requires Less(x, a) && !Less(b, a)
    ensures Less(x, b)
  {
    LessTotal(a, b);
    if a != b {
      LessTransitive(x, a, b);
    }
  }

  /** `n` blanks: what `addSpaces` appends one at a time. */
  function Spaces(n: nat): (s: string)
    ensures |s| == n
    ensures forall i :: 0 <= i < n ==> s[i] == ' '
  {
    if n == 0 then "" else Spaces(n - 1) + " "
  }

  /** The padding that brings `name` up to column `spacing`; none when it is already wider. */
  function Pad(spacing: int, name: string): (p: string)
  {
    Spaces(if spacing - |name| > 0 then spacing - |name| else 0)
  }
}
