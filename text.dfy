/** The JavaScript string operations the store applies to contacts and clock
    readings: `toLowerCase` (on ASCII letters), `trim`, and `Number.prototype.toString`
    for a non-negative integer. */
module Text {

  predicate IsUpper(c: char)
  {
    'A' <= c <= 'Z'
  }

  function LowerChar(c: char): char
  {
    if IsUpper(c) then (c as int + 32) as char else c
  }

  /** `s.toLowerCase()`, restricted to ASCII letters. */
  function Lower(s: string): (r: string)
    ensures |r| == |s|
    ensures forall i :: 0 <= i < |s| ==> r[i] == LowerChar(s[i])
  {
    if s == [] then [] else [LowerChar(s[0])] + Lower(s[1..])
  }

  /** Lowering twice is lowering once. */
  lemma LowerIdempotent(s: string)
    ensures Lower(Lower(s)) == Lower(s)
  {
  }

  /** The characters `trim` removes: ECMAScript WhiteSpace and LineTerminator. */
  predicate IsSpace(c: char)
  {
    || c == '\t' || c == '\n' || c == '\U{000B}' || c == '\U{000C}' || c == '\r'
    || c == ' ' || c == '\U{00A0}' || c == '\U{1680}'
    || ('\U{2000}' <= c <= '\U{200A}')
    || c == '\U{2028}' || c == '\U{2029}' || c == '\U{202F}' || c == '\U{205F}'
    || c == '\U{3000}' || c == '\U{FEFF}'
  }

  /** The length of the run of spaces at the start of `s`. */
  function LeadingSpaces(s: string): (k: nat)
    ensures k <= |s|
    ensures forall i :: 0 <= i < k ==> IsSpace(s[i])
    ensures k < |s| ==> !IsSpace(s[k])
  {
    if s == [] || !IsSpace(s[0]) then 0 else 1 + LeadingSpaces(s[1..])
  }

  /** The length of the run of spaces at the end of `s`. */
  function TrailingSpaces(s: string): (k: nat)
    ensures k <= |s|
    ensures forall i :: |s| - k <= i < |s| ==> IsSpace(s[i])
    ensures k < |s| ==> !IsSpace(s[|s| - 1 - k])
  {
    if s == [] || !IsSpace(s[|s| - 1]) then 0 else 1 + TrailingSpaces(s[..|s| - 1])
  }

  /** `s.trim()`: the slice of `s` that starts after its leading spaces, ends before
      its trailing spaces, and neither starts nor ends with a space. */
  function Trim(s: string): (r: string)
    ensures LeadingSpaces(s) + |r| <= |s|
    ensures r == s[LeadingSpaces(s)..LeadingSpaces(s) + |r|]
    ensures forall i :: 0 <= i < |s| && !(LeadingSpaces(s) <= i < LeadingSpaces(s) + |r|) ==> IsSpace(s[i])
    ensures r != [] ==> !IsSpace(r[0]) && !IsSpace(r[|r| - 1])
  {
    var a := LeadingSpaces(s);
    var t := s[a..];
    t[..|t| - TrailingSpaces(t)]
  }

  /** Every character of `s` is one `trim` removes. */
  predicate AllSpaces(s: string)
  {
    forall i :: 0 <= i < |s| ==> IsSpace(s[i])
  }

  /** `Trim` is the only slice with its three properties: any slice `r` of `s` at `i`
      with only spaces outside it, and no space at either end, is `Trim(s)`. */
  lemma TrimUnique(s: string, i: nat, r: string)
    requires i + |r| <= |s| && r == s[i..i + |r|]
    requires forall j :: 0 <= j < |s| && !(i <= j < i + |r|) ==> IsSpace(s[j])
    requires r != [] ==> !IsSpace(r[0]) && !IsSpace(r[|r| - 1])
    ensures Trim(s) == r
  {
    var k, t := LeadingSpaces(s), Trim(s);
    assert t != [] ==> t[0] == s[k] && t[|t| - 1] == s[k + |t| - 1];
    if r != [] {
      assert s[i] == r[0] && s[i + |r| - 1] == r[|r| - 1];
      assert k == i;
      assert |t| == |r|;
    }
  }

  /** Lowering a character neither makes nor removes a space. */
  lemma LowerCharKeepsSpace(c: char)
    ensures IsSpace(LowerChar(c)) == IsSpace(c)
  {
  }

  /** Trimming and lowering commute. */
  lemma TrimLowerCommutes(s: string)
    ensures Trim(Lower(s)) == Lower(Trim(s))
  {
    var i, t, l := LeadingSpaces(s), Trim(s), Lower(s);
    var lt := Lower(t);
    assert lt == l[i..i + |t|];
    forall j | 0 <= j < |l| && !(i <= j < i + |t|) ensures IsSpace(l[j]) {
      LowerCharKeepsSpace(s[j]);
    }
    if t != [] {
      LowerCharKeepsSpace(t[0]);
      LowerCharKeepsSpace(t[|t| - 1]);
    }
    TrimUnique(l, i, lt);
  }

  /** Spaces added on either side do not change what `trim` returns. */
  lemma TrimIgnoresSurroundingSpaces(p: string, a: string, q: string)
    requires AllSpaces(p) && AllSpaces(q)
    ensures Trim(p + a + q) == Trim(a)
  {
    var s, i, t := p + a + q, LeadingSpaces(a), Trim(a);
    assert forall j :: 0 <= j < |a| ==> s[|p| + j] == a[j];
    assert t == s[|p| + i..|p| + i + |t|];
    forall j | 0 <= j < |s| && !(|p| + i <= j < |p| + i + |t|) ensures IsSpace(s[j]) {
      if j < |p| {
        assert s[j] == p[j];
      } else if j >= |p| + |a| {
        assert s[j] == q[j - |p| - |a|];
      }
    }
    TrimUnique(s, |p| + i, t);
  }

  function Digit(d: nat): char
    requires d < 10
  {
    ('0' as int + d) as char
  }

  /** `n.toString()` for a non-negative integer: its decimal digits, most significant
      first, without leading zeros. */
  function DecimalString(n: nat): (r: string)
    ensures 1 <= |r|
    ensures forall i :: 0 <= i < |r| ==> '0' <= r[i] <= '9'
    ensures r[0] == '0' ==> n == 0
  {
    if n < 10 then [Digit(n)] else DecimalString(n / 10) + [Digit(n % 10)]
  }

  /** The number a string of decimal digits denotes, most significant digit first. */
  function DigitsValue(s: string): nat
    requires forall i :: 0 <= i < |s| ==> '0' <= s[i] <= '9'
  {
    if s == [] then 0 else 10 * DigitsValue(s[..|s| - 1]) + (s[|s| - 1] as int - '0' as int)
  }

  /** The decimal string of `n` denotes `n`. */
  lemma {:induction false} DecimalStringValue(n: nat)
    ensures DigitsValue(DecimalString(n)) == n
  {
    var r := DecimalString(n);
    if n >= 10 {
      assert r[..|r| - 1] == DecimalString(n / 10);
      DecimalStringValue(n / 10);
    } else {
      assert r[..|r| - 1] == [];
    }
  }

  /** Distinct clock readings give distinct decimal strings. */
  lemma DecimalStringInjective(m: nat, n: nat)
    requires DecimalString(m) == DecimalString(n)
    ensures m == n
  {
    DecimalStringValue(m);
    DecimalStringValue(n);
  }
}
