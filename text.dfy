/**
 The string operations the screens apply to user input: lower-casing, Kotlin's
 `trim`, `isBlank` and `contains`, and `String.toInt`. Characters are taken
 from the ASCII range; locale-specific case rules are not modelled.
 */
module Text {
  import opened Models

  const INT_MIN: int := -0x8000_0000
  const INT_MAX: int := 0x7fff_ffff

  /** `Char.isWhitespace` on the ASCII range: space, tab, line feed, vertical tab,
      form feed, carriage return and the four separators U+001C..U+001F. */
  predicate IsWhitespace(c: char)
  {
    c == ' ' || '\t' <= c <= '\r' || '\U{1C}' <= c <= '\U{1F}'
  }

  function ToLowerChar(c: char): char
  {
    if 'A' <= c <= 'Z' then (c as int + 32) as char else c
  }

  /** `toLowerCase`, character by character. */
  function Lower(s: string): (r: string)
    ensures |r| == |s|
    ensures forall i :: 0 <= i < |r| ==> !('A' <= r[i] <= 'Z')
  {
    seq(|s|, i requires 0 <= i < |s| => ToLowerChar(s[i]))
  }

  /** `isBlank`: empty, or whitespace only. */
  predicate IsBlank(s: string)
  {
    forall i :: 0 <= i < |s| ==> IsWhitespace(s[i])
  }

  /** Drops the leading whitespace. */
  function TrimStart(s: string): (r: string)
    ensures |r| <= |s| && r == s[|s| - |r|..]
    ensures r == [] || !IsWhitespace(r[0])
    ensures forall k :: 0 <= k < |s| - |r| ==> IsWhitespace(s[k])
  {
    if s != [] && IsWhitespace(s[0]) then TrimStart(s[1..]) else s
  }

  /** Drops the trailing whitespace. */
  function TrimEnd(s: string): (r: string)
    ensures |r| <= |s| && r == s[..|r|]
    ensures r == [] || !IsWhitespace(r[|r| - 1])
    ensures forall k :: |r| <= k < |s| ==> IsWhitespace(s[k])
  {
    if s != [] && IsWhitespace(s[|s| - 1]) then TrimEnd(s[..|s| - 1]) else s
  }

  /** `trim`: drops whitespace at both ends. */
  function Trim(s: string): (r: string)
    ensures |r| <= |s|
    ensures r == [] || (!IsWhitespace(r[0]) && !IsWhitespace(r[|r| - 1]))
    ensures forall i :: 0 <= i < |r| ==> r[i] in s
  {
    var t := TrimStart(s);
    var r := TrimEnd(t);
    forall i | 0 <= i < |r|
      ensures r[i] in s
    {
      assert r[i] == t[i];
      assert t[i] == s[|s| - |t| + i];
    }
    r
  }

  /** Trimming leaves nothing exactly when the text is blank. */
  lemma TrimEmptyIffBlank(s: string)
    ensures Trim(s) == [] <==> IsBlank(s)
  {
    var t := TrimStart(s);
    if Trim(s) == [] {
      // TrimEnd leaves nothing of `t` only if all of it is whitespace, and
      // `t` does not start with whitespace: so `t` is empty.
      assert t == [];
    } else {
      var r := Trim(s);
      assert r[0] == t[0] == s[|s| - |t|];
    }
  }

  /** Lower-casing maps whitespace to itself, so blank text stays blank. */
  lemma LowerKeepsBlank(s: string)
    requires IsBlank(s)
    ensures IsBlank(Lower(s))
  {
  }

  /** `s.contains(p)`: `p` occurs in `s` at some position. */
  function Contains(s: string, p: string): bool
  {
    p <= s || (s != [] && Contains(s[1..], p))
  }

  /** `p` occurs in `s` starting at index `i`. */
  predicate OccursAt(s: string, p: string, i: int)
  {
    0 <= i && i + |p| <= |s| && s[i..i + |p|] == p
  }

  /** An occurrence after the first character is an occurrence in the tail. */
  lemma OccursAtTail(s: string, p: string, i: int)
    requires 1 <= i && s != []
    ensures OccursAt(s, p, i) <==> OccursAt(s[1..], p, i - 1)
  {
    if i + |p| <= |s| {
      var u := s[1..][i - 1..i - 1 + |p|];
      assert forall k :: 0 <= k < |p| ==> u[k] == s[i..i + |p|][k];
      assert u == s[i..i + |p|];
    }
  }

  /** The characterisation of `Contains` by an occurrence position. */
  lemma {:induction false} ContainsIffOccurs(s: string, p: string)
    ensures Contains(s, p) <==> exists i :: OccursAt(s, p, i)
  {
    if p <= s {
      assert OccursAt(s, p, 0);
    } else if s == [] {
      assert forall i :: !OccursAt(s, p, i);
    } else {
      ContainsIffOccurs(s[1..], p);
      if Contains(s[1..], p) {
        var i :| OccursAt(s[1..], p, i);
        OccursAtTail(s, p, i + 1);
      } else {
        forall i ensures !OccursAt(s, p, i) {
          if i >= 1 {
            OccursAtTail(s, p, i);
          }
        }
      }
    }
  }

  predicate IsDigit(c: char)
  {
    '0' <= c <= '9'
  }

  predicate AllDigits(s: string)
  {
    forall i :: 0 <= i < |s| ==> IsDigit(s[i])
  }

  /** The value of a string of decimal digits. */
  function DigitsValue(s: string): nat
    requires AllDigits(s)
  {
    if s == [] then 0
    else DigitsValue(s[..|s| - 1]) * 10 + (s[|s| - 1] as int - '0' as int)
  }

  /**
   `String.toInt()`: an optional `-` or `+` followed by at least one decimal
   digit, whose value fits a 32-bit `Int`; anything else is rejected (where
   Kotlin throws `NumberFormatException`).
   */
  function ParseInt32(s: string): (r: Option<int>)
    ensures r.Some? ==> INT_MIN <= r.value <= INT_MAX
    ensures r.Some? ==> s != [] && !IsBlank(s)
    ensures r.Some? ==> IsDigit(s[0]) || ((s[0] == '-' || s[0] == '+') && |s| >= 2)
    ensures r.Some? ==> forall i :: 1 <= i < |s| ==> IsDigit(s[i])
    ensures r.Some? && r.value < 0 ==> s[0] == '-'
    ensures r.Some? && s[0] == '-' ==> r.value <= 0
  {
    if s == [] then None
    else
      var digits := if s[0] == '-' || s[0] == '+' then s[1..] else s;
      if digits == [] || !AllDigits(digits) then None
      else
        var v: int := if s[0] == '-' then -(DigitsValue(digits) as int) else DigitsValue(digits);
        if INT_MIN <= v <= INT_MAX then Some(v) else None
  }

  /** The decimal spelling of a natural number, without leading zeros. */
  function ShowNat(n: nat): (r: string)
    ensures r != [] && AllDigits(r)
  {
    var d := ['0' + (n % 10) as char];
    if n < 10 then d else ShowNat(n / 10) + d
  }

  lemma {:induction false} ShowNatValue(n: nat)
    ensures DigitsValue(ShowNat(n)) == n
  {
    var s := ShowNat(n);
    if n >= 10 {
      ShowNatValue(n / 10);
      assert s[..|s| - 1] == ShowNat(n / 10);
    }
  }

  /** Any string of digits whose value fits is accepted with that value, leading zeros included. */
  lemma ParseDigits(d: string)
    requires d != [] && AllDigits(d) && DigitsValue(d) <= INT_MAX
    ensures ParseInt32(d) == Some(DigitsValue(d))
  {
    assert IsDigit(d[0]);
  }

  /** A year typed as plain digits is read back as that year. */
  lemma ParseShowNat(n: nat)
    requires n <= INT_MAX
    ensures ParseInt32(ShowNat(n)) == Some(n)
  {
    ShowNatValue(n);
    ParseDigits(ShowNat(n));
  }

  /** A minus sign before the digits reads back the negated value, down to the 32-bit minimum. */
  lemma ParseNegatedShowNat(n: nat)
    requires n <= -INT_MIN
    ensures ParseInt32("-" + ShowNat(n)) == Some(-(n as int))
  {
    ShowNatValue(n);
    assert ("-" + ShowNat(n))[1..] == ShowNat(n);
  }

  /** A plus sign before the digits reads back the same value. */
  lemma ParsePlusShowNat(n: nat)
    requires n <= INT_MAX
    ensures ParseInt32("+" + ShowNat(n)) == Some(n)
  {
    ShowNatValue(n);
    assert ("+" + ShowNat(n))[1..] == ShowNat(n);
  }

  /** Digits whose value exceeds the 32-bit maximum are rejected. */
  lemma ParseRejectsOverflow(n: nat)
    requires n > INT_MAX
    ensures ParseInt32(ShowNat(n)) == None
  {
    ShowNatValue(n);
  }
}
