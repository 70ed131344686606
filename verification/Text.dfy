/**
  The string operations the packages rely on: `strings.TrimSpace`, `strings.ToUpper`,
  the reason-code pattern, and the ordering of strings. Characters are Unicode scalar
  values; comparing them one by one is the order Go gets by comparing UTF-8 bytes.
 */
module Text {

  /** The Unicode White_Space characters, as `unicode.IsSpace` lists them. */
  predicate IsSpace(c: char)
  {
    || '\t' <= c <= '\r'
    || c == ' ' || c == '\U{85}' || c == '\U{A0}' || c == '\U{1680}' || '\U{2000}' <= c <= '\U{200A}'
    || c == '\U{2028}' || c == '\U{2029}' || c == '\U{202F}' || c == '\U{205F}' || c == '\U{3000}'
  }

  function TrimLeft(s: string): (r: string)
    ensures r != "" ==> s != "" && !IsSpace(r[0]) && r[|r| - 1] == s[|s| - 1]
  {
    if s != "" && IsSpace(s[0]) then TrimLeft(s[1..]) else s
  }

  function TrimRight(s: string): (r: string)
    ensures r != "" ==> s != "" && !IsSpace(r[|r| - 1]) && r[0] == s[0]
  {
    if s != "" && IsSpace(s[|s| - 1]) then TrimRight(s[..|s| - 1]) else s
  }

  function TrimSpace(s: string): (r: string)
    ensures Trimmed(r)
    ensures Trimmed(s) ==> r == s
  {
    TrimRight(TrimLeft(s))
  }

  /** Neither end is white space: exactly the strings `TrimSpace` leaves alone. */
  predicate Trimmed(s: string)
  {
    s != "" ==> !IsSpace(s[0]) && !IsSpace(s[|s| - 1])
  }

  predicate Blank(s: string)
  {
    TrimSpace(s) == ""
  }

  // Upper-casing -----------------------------------------------------------

  /** `unicode.ToUpper` on the characters whose upper case is an ASCII letter; every other
      non-ASCII character stays outside ASCII, so no pattern below can tell it apart. */
  function UpperChar(c: char): char
  {
    if 'a' <= c <= 'z' then (c as int - 32) as char
    else if c == '\U{131}' then 'I'
    else if c == '\U{17F}' then 'S'
    else c
  }

  function ToUpper(s: string): string
  {
    if s == "" then "" else ToUpper(s[..|s| - 1]) + [UpperChar(s[|s| - 1])]
  }

  predicate CodeChar(c: char)
  {
    'A' <= c <= 'Z' || '0' <= c <= '9' || c == '_'
  }

  /** The pattern `^[A-Z][A-Z0-9_]{1,63}$`. */
  predicate IsCode(s: string)
  {
    && 2 <= |s| <= 64
    && 'A' <= s[0] <= 'Z'
    && forall i :: 0 <= i < |s| ==> CodeChar(s[i])
  }

  function Canonical(s: string): string
  {
    ToUpper(TrimSpace(s))
  }

  lemma {:induction false} UpperCaseStays(s: string)
    requires forall i :: 0 <= i < |s| ==> CodeChar(s[i])
    ensures ToUpper(s) == s
  {
    if s != "" {
      UpperCaseStays(s[..|s| - 1]);
      assert CodeChar(s[|s| - 1]);
    }
  }

  lemma CodesAreCanonical(s: string)
    requires IsCode(s)
    ensures Canonical(s) == s
  {
    assert CodeChar(s[0]) && CodeChar(s[|s| - 1]);
    UpperCaseStays(s);
  }

  // Order ------------------------------------------------------------------

  /** Strict lexicographic order, Go's `<` on strings. */
  predicate Before(a: string, b: string)
  {
    b != "" && (a == "" || a[0] < b[0] || (a[0] == b[0] && Before(a[1..], b[1..])))
  }

  lemma {:induction false} BeforeIsAsymmetric(a: string, b: string)
    ensures !(Before(a, b) && Before(b, a))
  {
    if a != "" && b != "" && a[0] == b[0] {
      BeforeIsAsymmetric(a[1..], b[1..]);
    }
  }

  lemma {:induction false} BeforeIsTransitive(a: string, b: string, c: string)
    requires Before(a, b) && Before(b, c)
    ensures Before(a, c)
  {
    if a != "" && a[0] == b[0] == c[0] {
      BeforeIsTransitive(a[1..], b[1..], c[1..]);
    }
  }

  lemma {:induction false} BeforeIsTotal(a: string, b: string)
    ensures Before(a, b) || a == b || Before(b, a)
  {
    if a != "" && b != "" && a[0] == b[0] {
      BeforeIsTotal(a[1..], b[1..]);
      assert a == [a[0]] + a[1..] && b == [b[0]] + b[1..];
    }
  }
}
