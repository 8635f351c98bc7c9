/**
 * Item names: ASCII lower-casing (used by the case-insensitive search) and the
 * order in which the alphabetical sort mode lists names.
 */
module Names {

  predicate IsUpper(c: char) {
    'A' <= c <= 'Z'
  }

  /** One character in lower case; letters outside A-Z are left as they are. */
  function LowerChar(c: char): (r: char)
    ensures !IsUpper(r)
    ensures IsUpper(c) ==> r as int == c as int + 32
    ensures !IsUpper(c) ==> r == c
  {
    if IsUpper(c) then (c as int + 32) as char else c
  }

  /** `s.toLowerCase()` restricted to ASCII letters. */
  function LowerCase(s: string): (r: string)
    ensures |r| == |s|
    ensures forall i :: 0 <= i < |s| ==> r[i] == LowerChar(s[i])
  {
    if s == [] then [] else [LowerChar(s[0])] + LowerCase(s[1..])
  }

  /** Names that differ only in the case of ASCII letters compare equal. */
  predicate SameIgnoringCase(a: string, b: string) {
    LowerCase(a) == LowerCase(b)
  }

  /**
   * The order of names in alphabetical mode: lexicographic by character code,
   * a prefix before its extensions.
   */
  predicate NameLe(a: string, b: string)
    ensures a <= b ==> NameLe(a, b)
    ensures NameLe(a, b) && a != [] ==> b != [] && a[0] <= b[0]
  {
    a == [] || (b != [] && (a[0] < b[0] || (a[0] == b[0] && NameLe(a[1..], b[1..]))))
  }

  lemma {:induction false} NameLeReflexive(a: string)
    ensures NameLe(a, a)
  {
    if a != [] {
      NameLeReflexive(a[1..]);
    }
  }

  lemma {:induction false} NameLeAntisymmetric(a: string, b: string)
    requires NameLe(a, b) && NameLe(b, a)
    ensures a == b
  {
    if a != [] && b != [] {
      NameLeAntisymmetric(a[1..], b[1..]);
      assert a == [a[0]] + a[1..];
      assert b == [b[0]] + b[1..];
    }
  }

  lemma {:induction false} NameLeTransitive(a: string, b: string, c: string)
    requires NameLe(a, b) && NameLe(b, c)
    ensures NameLe(a, c)
  {
    if a != [] && b != [] && c != [] && a[0] == b[0] == c[0] {
      NameLeTransitive(a[1..], b[1..], c[1..]);
    }
  }

  lemma {:induction false} NameLeTotal(a: string, b: string)
    ensures NameLe(a, b) || NameLe(b, a)
  {
    if a != [] && b != [] && a[0] == b[0] {
      NameLeTotal(a[1..], b[1..]);
    }
  }
}
