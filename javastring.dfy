/** `String.equalsIgnoreCase`, with case folding restricted to ASCII letters. */
module JavaString {

  function ToUpper(c: char): (u: char)
  {
    if 'a' <= c <= 'z' then (c as int - 32) as char else c
  }

  function ToLower(c: char): (l: char)
  {
    if 'A' <= c <= 'Z' then (c as int + 32) as char else c
  }

  /** The per-character test of `String.regionMatches(true, ...)`: equal
      as written, equal after upper-casing, or equal after upper- and then
      lower-casing. */
  predicate CharEqualsIgnoreCase(a: char, b: char)
  {
    a == b || ToUpper(a) == ToUpper(b) || ToLower(ToUpper(a)) == ToLower(ToUpper(b))
  }

  /** Same length, and every pair of characters at the same position matches. */
  predicate EqualsIgnoreCase(a: string, b: string): (r: bool)
    ensures r ==> |a| == |b|
    ensures a == b ==> r
    decreases |a|
  {
    |a| == |b| && (a == [] || (CharEqualsIgnoreCase(a[0], b[0]) && EqualsIgnoreCase(a[1..], b[1..])))
  }

  /** With ASCII folding the three-step character test is equality of the
      lower-case forms. */
  lemma CharEqualsIgnoreCaseIsLowerEquality(a: char, b: char)
    ensures CharEqualsIgnoreCase(a, b) <==> ToLower(a) == ToLower(b)
  {
  }

  /** Position-wise reading of `EqualsIgnoreCase`. */
  lemma {:induction false} EqualsIgnoreCaseAt(a: string, b: string)
    ensures EqualsIgnoreCase(a, b) <==>
            |a| == |b| && forall i :: 0 <= i < |a| ==> ToLower(a[i]) == ToLower(b[i])
  {
    if |a| == |b| && a != [] {
      EqualsIgnoreCaseAt(a[1..], b[1..]);
      CharEqualsIgnoreCaseIsLowerEquality(a[0], b[0]);
      if forall i :: 0 <= i < |a| ==> ToLower(a[i]) == ToLower(b[i]) {
        assert forall i :: 0 <= i < |a| - 1 ==> ToLower(a[1..][i]) == ToLower(b[1..][i]) by {
          forall i | 0 <= i < |a| - 1 ensures ToLower(a[1..][i]) == ToLower(b[1..][i]) {
            assert a[1..][i] == a[i + 1] && b[1..][i] == b[i + 1];
          }
        }
      }
      if EqualsIgnoreCase(a, b) {
        forall i | 0 <= i < |a| ensures ToLower(a[i]) == ToLower(b[i]) {
          if i > 0 {
            assert a[1..][i - 1] == a[i] && b[1..][i - 1] == b[i];
          }
        }
      }
    }
  }

  /** `equalsIgnoreCase` is an equivalence relation. */
  lemma EqualsIgnoreCaseReflexive(a: string)
    ensures EqualsIgnoreCase(a, a)
  {
    EqualsIgnoreCaseAt(a, a);
  }

  lemma EqualsIgnoreCaseSymmetric(a: string, b: string)
    ensures EqualsIgnoreCase(a, b) <==> EqualsIgnoreCase(b, a)
  {
    EqualsIgnoreCaseAt(a, b);
    EqualsIgnoreCaseAt(b, a);
  }

  lemma EqualsIgnoreCaseTransitive(a: string, b: string, c: string)
    requires EqualsIgnoreCase(a, b) && EqualsIgnoreCase(b, c)
    ensures EqualsIgnoreCase(a, c)
  {
    EqualsIgnoreCaseAt(a, b);
    EqualsIgnoreCaseAt(b, c);
    EqualsIgnoreCaseAt(a, c);
  }
}
