/** Java's `String.equalsIgnoreCase`, restricted to ASCII letters. */
module Text {

  function UpperAscii(c: char): char
  {
    if 'a' <= c <= 'z' then (c as int - 32) as char else c
  }

  function LowerAscii(c: char): char
  {
    if 'A' <= c <= 'Z' then (c as int + 32) as char else c
  }

  /** The string with every ASCII letter upper-cased. */
  function UpperAll(s: string): (r: string)
    ensures |r| == |s|
    ensures forall i | 0 <= i < |s| :: r[i] == UpperAscii(s[i])
  {
    seq(|s|, i requires 0 <= i < |s| => UpperAscii(s[i]))
  }

  /** The string with every ASCII letter lower-cased. */
  function LowerAll(s: string): (r: string)
    ensures |r| == |s|
    ensures forall i | 0 <= i < |s| :: r[i] == LowerAscii(s[i])
  {
    seq(|s|, i requires 0 <= i < |s| => LowerAscii(s[i]))
  }

  /** Same length, and the same character at each position once both are upper-cased:
      the two strings differ at most in the case of their letters. */
  predicate EqualsIgnoreCase(a: string, b: string)
    ensures EqualsIgnoreCase(a, b) <==> UpperAll(a) == UpperAll(b)
    ensures a == b ==> EqualsIgnoreCase(a, b)
    ensures EqualsIgnoreCase(a, b) ==> |a| == |b|
    ensures EqualsIgnoreCase(a, b) && 0 < |a| && 'a' <= a[0] <= 'z' ==> b[0] == a[0] || b[0] == UpperAscii(a[0])
  {
    |a| == |b| && forall i | 0 <= i < |a| :: UpperAscii(a[i]) == UpperAscii(b[i])
  }

  /** The comparison does not depend on the order of its arguments. */
  lemma EqualsIgnoreCaseSymmetric(a: string, b: string)
    ensures EqualsIgnoreCase(a, b) == EqualsIgnoreCase(b, a)
  {
  }

  /** A string matches its upper-cased and its lower-cased spelling. */
  lemma MatchesCaseVariants(s: string)
    ensures EqualsIgnoreCase(s, UpperAll(s))
    ensures EqualsIgnoreCase(s, LowerAll(s))
  {
    forall i | 0 <= i < |s|
      ensures UpperAscii(LowerAll(s)[i]) == UpperAscii(s[i])
    {
      assert LowerAll(s)[i] == LowerAscii(s[i]);
    }
  }
}
