/**
 * The string operations of JavaScript that the command interpreter and the
 * settings page rely on: `String.prototype.includes`, `toLowerCase`, `trim`,
 * and the decimal rendering of an integer inside a template literal.
 */
module Text {

  // ---------------------------------------------------------------------
  // includes
  // ---------------------------------------------------------------------

  /** `p` occurs in `s` starting at position `i`. */
  ghost predicate OccursAt(s: string, p: string, i: int)
  {
    0 <= i && i + |p| <= |s| && s[i..i + |p|] == p
  }

  /** `s.includes(p)`: some window of `s` equals `p` (the empty `p` is in every `s`). */
  function Includes(s: string, p: string): bool
    decreases |s|
  {
    |p| <= |s| && (s[..|p|] == p || (0 < |s| && Includes(s[1..], p)))
  }

  /** `Includes` holds exactly when `p` occurs somewhere in `s`. */
  lemma {:induction false} IncludesIffOccurs(s: string, p: string)
    ensures Includes(s, p) <==> exists i :: OccursAt(s, p, i)
    decreases |s|
  {
    if |p| <= |s| && s[..|p|] != p && 0 < |s| {
      IncludesIffOccurs(s[1..], p);
      if Includes(s[1..], p) {
        var i :| OccursAt(s[1..], p, i);
        var w := s[1..][i..i + |p|];
        assert forall k :: 0 <= k < |p| ==> w[k] == s[i + 1 + k];
        assert s[i + 1..i + 1 + |p|] == s[1..][i..i + |p|];
        assert OccursAt(s, p, i + 1);
      } else if exists i :: OccursAt(s, p, i) {
        var i :| OccursAt(s, p, i);
        assert i != 0;
        assert s[1..][i - 1..i - 1 + |p|] == s[i..i + |p|];
        assert OccursAt(s[1..], p, i - 1);
      }
    } else if |p| <= |s| && s[..|p|] == p {
      assert OccursAt(s, p, 0);
    }
  }

  /** A window of `s` that is found at a known position is included in `s`. */
  lemma IncludesAt(s: string, p: string, i: int)
    requires OccursAt(s, p, i)
    ensures Includes(s, p)
  {
    IncludesIffOccurs(s, p);
  }

  /** `p` occurs somewhere in `s`: the meaning of `Includes`, stated without
      recursion. */
  ghost predicate Occurs(s: string, p: string)
  {
    exists i :: OccursAt(s, p, i)
  }

  /** `p` does not occur in `s` when it holds a character missing from `s`. */
  lemma NotOccursMissingChar(s: string, p: string, k: int)
    requires 0 <= k < |p|
    requires forall i :: 0 <= i < |s| ==> s[i] != p[k]
    ensures !Occurs(s, p)
  {
    forall i ensures !OccursAt(s, p, i) {
      if 0 <= i && i + |p| <= |s| {
        assert s[i..i + |p|][k] == s[i + k];
      }
    }
  }

  /** `p` does not occur in `s` when two adjacent characters of `p` are never
      adjacent, in that order, in `s`. */
  lemma NotOccursMissingPair(s: string, p: string, k: int)
    requires 0 <= k && k + 1 < |p|
    requires forall i :: 0 <= i && i + 1 < |s| ==> s[i] != p[k] || s[i + 1] != p[k + 1]
    ensures !Occurs(s, p)
  {
    forall i ensures !OccursAt(s, p, i) {
      if 0 <= i && i + |p| <= |s| {
        assert s[i..i + |p|][k] == s[i + k];
        assert s[i..i + |p|][k + 1] == s[i + k + 1];
      }
    }
  }

  /** No window of `s` equals `p` when `p` holds a character missing from `s`. */
  lemma NotIncludesMissingChar(s: string, p: string, k: int)
    requires 0 <= k < |p|
    requires forall i :: 0 <= i < |s| ==> s[i] != p[k]
    ensures !Includes(s, p)
  {
    NotOccursMissingChar(s, p, k);
    IncludesIffOccurs(s, p);
  }

  /** A phrase without the character `sep` is included in `a + [sep] + b`
      exactly when it is included in `a` or in `b`: words can be searched one by one. */
  lemma IncludesAcrossSeparator(a: string, sep: char, b: string, p: string)
    requires forall k :: 0 <= k < |p| ==> p[k] != sep
    ensures Includes(a + [sep] + b, p) <==> Includes(a, p) || Includes(b, p)
  {
    var s := a + [sep] + b;
    IncludesIffOccurs(s, p);
    IncludesIffOccurs(a, p);
    IncludesIffOccurs(b, p);
    if exists i :: OccursAt(a, p, i) {
      var i :| OccursAt(a, p, i);
      OccursLeft(a, sep, b, p, i);
    }
    if exists i :: OccursAt(b, p, i) {
      var i :| OccursAt(b, p, i);
      OccursRight(a, sep, b, p, i);
    }
    if exists i :: OccursAt(s, p, i) {
      var i :| OccursAt(s, p, i);
      OccursSplit(a, sep, b, p, i);
    }
  }

  /** Each character of an occurrence is the matching character of `s`. */
  lemma WindowChar(s: string, p: string, i: int, k: int)
    requires OccursAt(s, p, i)
    requires 0 <= k < |p|
    ensures p[k] == s[i + k]
  {
    assert p[k] == s[i..i + |p|][k];
  }

  lemma OccursLeft(a: string, sep: char, b: string, p: string, i: int)
    requires OccursAt(a, p, i)
    ensures OccursAt(a + [sep] + b, p, i)
  {
    var s := a + [sep] + b;
    assert s[i..i + |p|] == a[i..i + |p|];
  }

  lemma OccursRight(a: string, sep: char, b: string, p: string, i: int)
    requires OccursAt(b, p, i)
    ensures OccursAt(a + [sep] + b, p, |a| + 1 + i)
  {
    var s := a + [sep] + b;
    assert s[|a| + 1 + i..|a| + 1 + i + |p|] == b[i..i + |p|];
  }

  lemma OccursSplit(a: string, sep: char, b: string, p: string, i: int)
    requires forall k :: 0 <= k < |p| ==> p[k] != sep
    requires OccursAt(a + [sep] + b, p, i)
    ensures OccursAt(a, p, i) || OccursAt(b, p, i - |a| - 1)
  {
    var s := a + [sep] + b;
    if i + |p| <= |a| {
      assert a[i..i + |p|] == s[i..i + |p|];
    } else if |a| < i {
      var j := i - |a| - 1;
      assert b[j..j + |p|] == s[i..i + |p|];
    } else {
      WindowChar(s, p, i, |a| - i);
      assert false;
    }
  }

  // ---------------------------------------------------------------------
  // toLowerCase (ASCII letters)
  // ---------------------------------------------------------------------

  predicate IsUpper(c: char)
  {
    'A' <= c <= 'Z'
  }

  function LowerChar(c: char): char
  {
    if IsUpper(c) then (c as int - 'A' as int + 'a' as int) as char else c
  }

  /** `s.toLowerCase()` on ASCII letters: same length, no upper-case letter left,
      and every other character kept. */
  function ToLower(s: string): (r: string)
    ensures |r| == |s|
    ensures forall k :: 0 <= k < |s| ==> !IsUpper(r[k])
    ensures forall k :: 0 <= k < |s| && !IsUpper(s[k]) ==> r[k] == s[k]
    ensures forall k :: 0 <= k < |s| && IsUpper(s[k]) ==> r[k] as int == s[k] as int + 32
  {
    seq(|s|, k requires 0 <= k < |s| => LowerChar(s[k]))
  }

  /** Lower-casing a string without upper-case letters changes nothing. */
  lemma ToLowerOfLower(s: string)
    requires forall k :: 0 <= k < |s| ==> !IsUpper(s[k])
    ensures ToLower(s) == s
  {
  }

  // ---------------------------------------------------------------------
  // trim
  // ---------------------------------------------------------------------

  /** The characters `String.prototype.trim` removes: the ECMAScript WhiteSpace
      and LineTerminator code points. */
  predicate IsWhitespace(c: char)
  {
    var n := c as int;
    n == 0x09 || n == 0x0A || n == 0x0B || n == 0x0C || n == 0x0D || n == 0x20
    || n == 0xA0 || n == 0x1680 || (0x2000 <= n <= 0x200A) || n == 0x2028 || n == 0x2029
    || n == 0x202F || n == 0x205F || n == 0x3000 || n == 0xFEFF
  }

  /** Drops the leading whitespace: the result is a suffix of `s` that does not
      start with whitespace, and everything dropped was whitespace. */
  function TrimStart(s: string): (r: string)
    ensures |r| <= |s| && r == s[|s| - |r|..]
    ensures r == [] || !IsWhitespace(r[0])
    ensures forall k :: 0 <= k < |s| - |r| ==> IsWhitespace(s[k])
    decreases |s|
  {
    if 0 < |s| && IsWhitespace(s[0]) then TrimStart(s[1..]) else s
  }

  /** Drops the trailing whitespace: the result is a prefix of `s` that does not
      end with whitespace, and everything dropped was whitespace. */
  function TrimEnd(s: string): (r: string)
    ensures |r| <= |s| && r == s[..|r|]
    ensures r == [] || !IsWhitespace(r[|r| - 1])
    ensures forall k :: |r| <= k < |s| ==> IsWhitespace(s[k])
    decreases |s|
  {
    if 0 < |s| && IsWhitespace(s[|s| - 1]) then TrimEnd(s[..|s| - 1]) else s
  }

  /** `r` is the window of `s` at `i`, and everything around it is whitespace. */
  ghost predicate WindowInWhitespace(s: string, r: string, i: int)
  {
    0 <= i && i + |r| <= |s| && r == s[i..i + |r|]
    && (forall k :: 0 <= k < i ==> IsWhitespace(s[k]))
    && (forall k :: i + |r| <= k < |s| ==> IsWhitespace(s[k]))
  }

  /** `s` neither starts nor ends with whitespace. */
  predicate Trimmed(s: string)
  {
    s == [] || (!IsWhitespace(s[0]) && !IsWhitespace(s[|s| - 1]))
  }

  /** `s.trim()`: the window of `s` between its leading and trailing whitespace. */
  function Trim(s: string): (r: string)
    ensures exists i :: WindowInWhitespace(s, r, i)
    ensures Trimmed(r)
  {
    var t := TrimStart(s);
    var r := TrimEnd(t);
    TrimWindow(s, t, r);
    r
  }

  /** A prefix `r` of a suffix `t` of `s`, with whitespace cut off on both
      sides, is a window of `s` surrounded by whitespace. */
  lemma TrimWindow(s: string, t: string, r: string)
    requires |t| <= |s| && t == s[|s| - |t|..]
    requires forall k :: 0 <= k < |s| - |t| ==> IsWhitespace(s[k])
    requires t == [] || !IsWhitespace(t[0])
    requires |r| <= |t| && r == t[..|r|]
    requires forall k :: |r| <= k < |t| ==> IsWhitespace(t[k])
    requires r == [] || !IsWhitespace(r[|r| - 1])
    ensures WindowInWhitespace(s, r, |s| - |t|)
    ensures Trimmed(r)
  {
    if r != [] {
      assert r[0] == t[0];
    }
    var i := |s| - |t|;
    assert forall k :: 0 <= k < |t| ==> t[k] == s[i + k];
    assert r == s[i..i + |r|];
    forall k | i + |r| <= k < |s|
      ensures IsWhitespace(s[k])
    {
      assert s[k] == t[k - i];
    }
  }

  /** Trimming a string that has no whitespace at either end changes nothing. */
  lemma TrimOfTrimmed(s: string)
    requires Trimmed(s)
    ensures Trim(s) == s
  {
  }

  /** A window of a string without upper-case letters has none either. */
  lemma WindowOfLowerIsLower(l: string, n: string, i: int)
    requires forall k :: 0 <= k < |l| ==> !IsUpper(l[k])
    requires 0 <= i && i + |n| <= |l| && n == l[i..i + |n|]
    ensures forall k :: 0 <= k < |n| ==> !IsUpper(n[k])
  {
    forall k | 0 <= k < |n| ensures !IsUpper(n[k]) {
      assert n[k] == l[i + k];
    }
  }

  /** The normalisation applied to every recognised utterance:
      `transcript.toLowerCase().trim()`. */
  function Normalize(s: string): string
  {
    Trim(ToLower(s))
  }

  /** A normalised utterance has no upper-case letter (and, by `Trim`, no
      whitespace at either end), so normalising it again changes nothing. */
  lemma NormalizeIdempotent(s: string)
    ensures forall k :: 0 <= k < |Normalize(s)| ==> !IsUpper(Normalize(s)[k])
    ensures Normalize(Normalize(s)) == Normalize(s)
  {
    TrimOfLowerIsStable(ToLower(s));
  }

  /** Trimming a string without upper-case letters leaves one that lower-casing
      and trimming again do not change. */
  lemma TrimOfLowerIsStable(l: string)
    requires forall k :: 0 <= k < |l| ==> !IsUpper(l[k])
    ensures forall k :: 0 <= k < |Trim(l)| ==> !IsUpper(Trim(l)[k])
    ensures Trim(ToLower(Trim(l))) == Trim(l)
  {
    var n := Trim(l);
    var i :| WindowInWhitespace(l, n, i);
    WindowOfLowerIsLower(l, n, i);
    ToLowerOfLower(n);
    TrimOfTrimmed(n);
  }

  // ---------------------------------------------------------------------
  // integers in template literals
  // ---------------------------------------------------------------------

  predicate IsDigit(c: char)
  {
    '0' <= c <= '9'
  }

  function DigitChar(d: nat): (c: char)
    requires d < 10
  {
    ('0' as int + d) as char
  }

  function DigitValue(c: char): (d: nat)
    requires IsDigit(c)
  {
    c as int - '0' as int
  }

  /** Decimal digits of `n` without leading zeros. */
  function NatToString(n: nat): (r: string)
    ensures 0 < |r|
    ensures forall k :: 0 <= k < |r| ==> IsDigit(r[k])
    ensures r[0] == '0' ==> n == 0
    decreases n
  {
    if n < 10 then [DigitChar(n)] else NatToString(n / 10) + [DigitChar(n % 10)]
  }

  /** The value of a string of decimal digits. */
  function ParseNat(s: string): nat
    requires 0 < |s|
    requires forall k :: 0 <= k < |s| ==> IsDigit(s[k])
    decreases |s|
  {
    if |s| == 1 then DigitValue(s[0])
    else ParseNat(s[..|s| - 1]) * 10 + DigitValue(s[|s| - 1])
  }

  /** Reading back the digits of `n` gives `n`. */
  lemma {:induction false} NatRoundTrip(n: nat)
    ensures ParseNat(NatToString(n)) == n
    decreases n
  {
    if 10 <= n {
      NatRoundTrip(n / 10);
      var s := NatToString(n);
      assert s[..|s| - 1] == NatToString(n / 10);
    }
  }

  /** `${n}` for an integer `n`: a minus sign for negatives, then the digits. */
  function IntToString(n: int): string
  {
    if n < 0 then "-" + NatToString(-n) else NatToString(n)
  }

  /** An optional minus sign followed by at least one decimal digit. */
  predicate IsIntNumeral(s: string)
  {
    && 0 < |s|
    && ((s[0] == '-' && 1 < |s|) || IsDigit(s[0]))
    && (forall k :: 1 <= k < |s| ==> IsDigit(s[k]))
  }

  /** The inverse of `IntToString` on its range. */
  function ParseInt(s: string): int
    requires IsIntNumeral(s)
  {
    if s[0] == '-' then 0 - ParseNat(s[1..]) as int else ParseNat(s)
  }

  /** `IntToString` loses nothing: parsing its output gives the integer back. */
  lemma IntRoundTrip(n: int)
    ensures IsIntNumeral(IntToString(n)) && ParseInt(IntToString(n)) == n
  {
    if n < 0 {
      var digits := NatToString(-n);
      NatRoundTrip(-n);
      var s := "-" + digits;
      assert s[0] == '-' && s[1..] == digits;
      assert forall k :: 1 <= k < |s| ==> s[k] == digits[k - 1];
      assert IsIntNumeral(s);
      assert IntToString(n) == s;
    } else {
      NatRoundTrip(n);
    }
  }

  /** Distinct integers render as distinct strings. */
  lemma IntToStringInjective(a: int, b: int)
    requires IntToString(a) == IntToString(b)
    ensures a == b
  {
    IntRoundTrip(a);
    IntRoundTrip(b);
  }
}
