/**
 * The JavaScript string operations the source relies on: `trim`, ASCII
 * `toUpperCase`/`toLowerCase`, `includes`, `String(n)` for numbers and
 * `padStart`. Strings are sequences of characters.
 */
module Text {

  /** The code points `String.prototype.trim` removes: WhiteSpace and LineTerminator. */
  predicate IsSpace(c: char) {
    || c == '\t' || c == '\n' || c == '\U{B}' || c == '\U{C}' || c == '\r' || c == ' '
    || c == '\U{A0}' || c == '\U{1680}' || ('\U{2000}' <= c <= '\U{200A}')
    || c == '\U{2028}' || c == '\U{2029}' || c == '\U{202F}' || c == '\U{205F}'
    || c == '\U{3000}' || c == '\U{FEFF}'
  }

  function TrimStart(s: string): (r: string)
    ensures |r| <= |s| && r == s[|s| - |r|..]
    ensures r != [] ==> !IsSpace(r[0])
    ensures forall i :: 0 <= i < |s| - |r| ==> IsSpace(s[i])
  {
    if s != [] && IsSpace(s[0]) then TrimStart(s[1..]) else s
  }

  function TrimEnd(s: string): (r: string)
    ensures |r| <= |s| && r == s[..|r|]
    ensures r != [] ==> !IsSpace(r[|r| - 1])
    ensures forall i :: |r| <= i < |s| ==> IsSpace(s[i])
  {
    if s != [] && IsSpace(s[|s| - 1]) then TrimEnd(s[..|s| - 1]) else s
  }

  /**
   * `String.prototype.trim`: the string without leading and trailing
   * whitespace. It is empty exactly when every character is whitespace.
   */
  function Trim(s: string): (r: string)
    ensures |r| <= |s|
    ensures r == [] <==> forall i :: 0 <= i < |s| ==> IsSpace(s[i])
    ensures r != [] ==> !IsSpace(r[0]) && !IsSpace(r[|r| - 1])
  {
    TrimBlank(s);
    var t := TrimStart(s);
    var r := TrimEnd(t);
    assert r != [] ==> r[0] == t[0];
    r
  }

  /**
   * `trim` removes exactly the leading and the trailing whitespace: the
   * result is the slice of `s` that has only whitespace before and after it.
   */
  lemma TrimIsSlice(s: string)
    ensures Trimmed(s, Trim(s), |s| - |TrimStart(s)|)
  {
    TrimmedAt(s, TrimStart(s), Trim(s));
  }

  /** `r` is `s` from position `a` on, with only whitespace before it and after it. */
  predicate Trimmed(s: string, r: string, a: int) {
    && 0 <= a <= |s| - |r|
    && r == s[a..a + |r|]
    && (forall i :: 0 <= i < a ==> IsSpace(s[i]))
    && (forall i :: a + |r| <= i < |s| ==> IsSpace(s[i]))
  }

  lemma TrimmedAt(s: string, t: string, r: string)
    requires |t| <= |s| && t == s[|s| - |t|..] && forall i :: 0 <= i < |s| - |t| ==> IsSpace(s[i])
    requires |r| <= |t| && r == t[..|r|] && forall i :: |r| <= i < |t| ==> IsSpace(t[i])
    ensures Trimmed(s, r, |s| - |t|)
  {
    var a := |s| - |t|;
    forall i | a + |r| <= i < |s|
      ensures IsSpace(s[i])
    {
      assert s[i] == t[i - a];
    }
  }

  /** Trimming leaves nothing exactly when every character is whitespace. */
  lemma {:induction false} TrimBlank(s: string)
    ensures TrimEnd(TrimStart(s)) == [] <==> forall i :: 0 <= i < |s| ==> IsSpace(s[i])
  {
    var t := TrimStart(s);
    var d := |s| - |t|;
    if TrimEnd(t) == [] {
      assert |t| == 0;
    } else {
      assert s[d] == t[0];
    }
  }

  /** The JavaScript truthiness of `s.trim()`: false for empty or all-whitespace text. */
  predicate IsBlank(s: string) {
    Trim(s) == []
  }

  function UpperChar(c: char): char {
    if 'a' <= c <= 'z' then (c as int - 32) as char else c
  }

  function LowerChar(c: char): char {
    if 'A' <= c <= 'Z' then (c as int + 32) as char else c
  }

  /** `toUpperCase` on the ASCII letters; every other character is kept. */
  function ToUpper(s: string): (r: string)
    ensures |r| == |s|
    ensures forall i :: 0 <= i < |s| ==> r[i] == UpperChar(s[i])
  {
    seq(|s|, i requires 0 <= i < |s| => UpperChar(s[i]))
  }

  /** `toLowerCase` on the ASCII letters; every other character is kept. */
  function ToLower(s: string): (r: string)
    ensures |r| == |s|
    ensures forall i :: 0 <= i < |s| ==> r[i] == LowerChar(s[i])
  {
    seq(|s|, i requires 0 <= i < |s| => LowerChar(s[i]))
  }

  /** Upper-casing is idempotent and leaves no lower-case ASCII letter behind. */
  lemma ToUpperIdempotent(s: string)
    ensures ToUpper(ToUpper(s)) == ToUpper(s)
    ensures forall i :: 0 <= i < |s| ==> !('a' <= ToUpper(s)[i] <= 'z')
  {
  }

  /** `p` is a prefix of `s`. */
  predicate IsPrefix(p: string, s: string) {
    |p| <= |s| && s[..|p|] == p
  }

  /** `s.includes(sub)`: `sub` occurs in `s` as a contiguous substring. */
  predicate Contains(s: string, sub: string)
    decreases |s|
  {
    IsPrefix(sub, s) || (s != [] && Contains(s[1..], sub))
  }

  /** `sub` occurs in `s` starting at position `k`. */
  predicate OccursAt(s: string, sub: string, k: int) {
    0 <= k <= |s| - |sub| && s[k..k + |sub|] == sub
  }

  /** `includes` agrees with the positional definition of a substring occurrence. */
  lemma {:induction false} ContainsAt(s: string, sub: string)
    ensures Contains(s, sub) <==> exists k :: OccursAt(s, sub, k)
  {
    if IsPrefix(sub, s) {
      assert OccursAt(s, sub, 0);
    } else if s == [] {
      assert forall k :: !OccursAt(s, sub, k);
    } else {
      ContainsAt(s[1..], sub);
      if Contains(s[1..], sub) {
        var k :| OccursAt(s[1..], sub, k);
        assert s[k + 1..k + 1 + |sub|] == s[1..][k..k + |sub|];
        assert OccursAt(s, sub, k + 1);
      }
      if exists k :: OccursAt(s, sub, k) {
        var k :| OccursAt(s, sub, k);
        assert k != 0;
        assert s[1..][k - 1..k - 1 + |sub|] == s[k..k + |sub|];
        assert OccursAt(s[1..], sub, k - 1);
      }
    }
  }

  /** Lower-casing neither creates nor removes whitespace. */
  lemma LowerKeepsSpace(c: char)
    ensures IsSpace(LowerChar(c)) <==> IsSpace(c)
  {
  }

  /** Trimming keeps every character between two non-whitespace characters, so at least two remain. */
  lemma {:induction false} TrimKeepsTwo(s: string, i: int, j: int)
    requires 0 <= i < j < |s| && !IsSpace(s[i]) && !IsSpace(s[j])
    ensures |Trim(s)| >= 2
  {
    var t := TrimStart(s);
    var d := |s| - |t|;
    assert i >= d;
    assert t[j - d] == s[j];
    var r := TrimEnd(t);
    assert j - d < |r|;
  }

  /** A string that trims to two or more characters has non-whitespace characters at two positions. */
  lemma {:induction false} TrimmedPositions(s: string) returns (i: nat, j: nat)
    requires |Trim(s)| >= 2
    ensures i < j < |s| && !IsSpace(s[i]) && !IsSpace(s[j])
  {
    var t := TrimStart(s);
    var d := |s| - |t|;
    var r := TrimEnd(t);
    assert r == Trim(s);
    assert r[0] == t[0] == s[d];
    assert r[|r| - 1] == t[|r| - 1] == s[d + |r| - 1];
    i, j := d, d + |r| - 1;
  }

  /**
   * A text whose lower-cased form contains the lower-cased form of a query
   * that trims to two or more characters also trims to two or more.
   */
  lemma {:induction false} LowerContainsKeepsTwo(s: string, query: string)
    requires Contains(ToLower(s), ToLower(query)) && |Trim(query)| >= 2
    ensures |Trim(s)| >= 2
  {
    LowerTrimsToTwo(query);
    ContainsKeepsTwo(ToLower(s), ToLower(query));
    LowerTrimsToTwo(s);
  }

  /** Lower-casing moves no whitespace, so it keeps whether a text trims to two or more characters. */
  lemma {:induction false} LowerTrimsToTwo(s: string)
    ensures |Trim(ToLower(s))| >= 2 <==> |Trim(s)| >= 2
  {
    if |Trim(s)| >= 2 {
      var i, j := TrimmedPositions(s);
      LowerKeepsSpace(s[i]);
      LowerKeepsSpace(s[j]);
      TrimKeepsTwo(ToLower(s), i, j);
    }
    if |Trim(ToLower(s))| >= 2 {
      var i, j := TrimmedPositions(ToLower(s));
      LowerKeepsSpace(s[i]);
      LowerKeepsSpace(s[j]);
      TrimKeepsTwo(s, i, j);
    }
  }

  /** A text containing a query that trims to two or more characters also trims to two or more. */
  lemma {:induction false} ContainsKeepsTwo(s: string, sub: string)
    requires Contains(s, sub) && |Trim(sub)| >= 2
    ensures |Trim(s)| >= 2
  {
    var i, j := TrimmedPositions(sub);
    var k := Occurrence(s, sub);
    OuterCharsAt(s, sub, k, i, j);
  }

  /** Where `sub` occurs, its non-whitespace characters face non-whitespace characters of `s`, which trimming keeps. */
  lemma OuterCharsAt(s: string, sub: string, k: int, i: int, j: int)
    requires OccursAt(s, sub, k) && 0 <= i < j < |sub| && !IsSpace(sub[i]) && !IsSpace(sub[j])
    ensures |Trim(s)| >= 2
  {
    OccursAtChar(s, sub, k, i);
    OccursAtChar(s, sub, k, j);
    TrimKeepsTwo(s, k + i, k + j);
  }

  /** A position where a contained text occurs. */
  lemma Occurrence(s: string, sub: string) returns (k: int)
    requires Contains(s, sub)
    ensures OccursAt(s, sub, k)
  {
    ContainsAt(s, sub);
    k :| OccursAt(s, sub, k);
  }

  lemma OccursAtChar(s: string, sub: string, k: int, i: int)
    requires OccursAt(s, sub, k) && 0 <= i < |sub|
    ensures s[k + i] == sub[i]
  {
    assert s[k..k + |sub|][i] == s[k + i];
  }

  /** Every string contains the empty string. */
  lemma ContainsEmpty(s: string)
    ensures Contains(s, "")
  {
  }

  predicate IsDigit(c: char) {
    '0' <= c <= '9'
  }

  predicate AllDigits(s: string) {
    forall i :: 0 <= i < |s| ==> IsDigit(s[i])
  }

  function DigitChar(d: nat): (c: char)
    requires d < 10
    ensures IsDigit(c)
  {
    ('0' as int + d) as char
  }

  function DigitValue(c: char): (d: nat)
    requires IsDigit(c)
    ensures d < 10 && DigitChar(d) == c
  {
    c as int - '0' as int
  }

  /** `String(n)` for a non-negative integer: its decimal digits, without leading zeros. */
  function NatToString(n: nat): (r: string)
    ensures |r| >= 1 && AllDigits(r)
    ensures r[0] == '0' ==> n == 0
    decreases n
  {
    if n < 10 then [DigitChar(n)] else NatToString(n / 10) + [DigitChar(n % 10)]
  }

  /** `String(i)` for an integer. */
  function IntToString(i: int): string {
    if i < 0 then "-" + NatToString(-i) else NatToString(i)
  }

  /** The value of a string of decimal digits (leading zeros allowed). */
  function ParseDigits(s: string): nat
    requires AllDigits(s)
    decreases |s|
  {
    if s == [] then 0 else ParseDigits(s[..|s| - 1]) * 10 + DigitValue(s[|s| - 1])
  }

  /** Printing a number and reading it back gives the number. */
  lemma {:induction false} ParseNatToString(n: nat)
    ensures ParseDigits(NatToString(n)) == n
  {
    if n >= 10 {
      var s := NatToString(n);
      assert s[..|s| - 1] == NatToString(n / 10);
      ParseNatToString(n / 10);
    }
  }

  /** Distinct numbers print differently. */
  lemma NatToStringInjective(a: nat, b: nat)
    requires NatToString(a) == NatToString(b)
    ensures a == b
  {
    ParseNatToString(a);
    ParseNatToString(b);
  }

  /** `n` copies of `c`. */
  function Repeat(c: char, n: nat): (r: string)
    ensures |r| == n && forall i :: 0 <= i < n ==> r[i] == c
  {
    seq(n, _ => c)
  }

  /** Leading zeros do not change the value of a digit string. */
  lemma {:induction false} ParseLeadingZeros(k: nat, s: string)
    requires AllDigits(s)
    ensures AllDigits(Repeat('0', k) + s)
    ensures ParseDigits(Repeat('0', k) + s) == ParseDigits(s)
    decreases |s|
  {
    var z := Repeat('0', k);
    if s == [] {
      assert z + s == z;
      ParseZeros(k);
    } else {
      var n := |s| - 1;
      assert (z + s)[..|z + s| - 1] == z + s[..n];
      ParseLeadingZeros(k, s[..n]);
    }
  }

  lemma {:induction false} ParseZeros(k: nat)
    ensures ParseDigits(Repeat('0', k)) == 0
  {
    if k > 0 {
      assert Repeat('0', k)[..k - 1] == Repeat('0', k - 1);
      ParseZeros(k - 1);
    }
  }

  /**
   * `s.padStart(width, fill)`: `s` preceded by enough copies of `fill` to
   * reach `width`; a string already at least that long is returned whole,
   * never truncated.
   */
  function PadStart(s: string, width: nat, fill: char): (r: string)
    ensures |r| == if |s| >= width then |s| else width
    ensures r[|r| - |s|..] == s
    ensures forall i :: 0 <= i < |r| - |s| ==> r[i] == fill
  {
    if |s| >= width then s else Repeat(fill, width - |s|) + s
  }

  /**
   * Code-point (lexicographic) order on strings: `a` sorts no later than `b`.
   * A proper prefix sorts first.
   */
  predicate LexLe(a: string, b: string)
    decreases |a|
  {
    a == [] || (b != [] && (a[0] < b[0] || (a[0] == b[0] && LexLe(a[1..], b[1..]))))
  }

  /** Any two strings are comparable. */
  lemma {:induction false} LexLeTotal(a: string, b: string)
    ensures LexLe(a, b) || LexLe(b, a)
    decreases |a|
  {
    if a != [] && b != [] && a[0] == b[0] {
      LexLeTotal(a[1..], b[1..]);
    }
  }

  /** The order is transitive. */
  lemma {:induction false} LexLeTransitive(a: string, b: string, c: string)
    requires LexLe(a, b) && LexLe(b, c)
    ensures LexLe(a, c)
    decreases |a|
  {
    if a != [] && a[0] == b[0] && b[0] == c[0] {
      LexLeTransitive(a[1..], b[1..], c[1..]);
    }
  }
}
