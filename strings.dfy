/** The string operations the pipeline relies on, stated over `seq<char>`:
    `includes`, ASCII `toLowerCase`, `split`, decimal printing of numbers
    (template literals) and `parseInt`. */
module Strings {

  import opened Wrappers

  // ---------------------------------------------------------------------
  // Substring search: `s.includes(sub)`

  /** `sub` occurs in `s` starting at offset `i`. */
  predicate OccursAt(s: string, sub: string, i: int) {
    0 <= i <= |s| - |sub| && s[i..i + |sub|] == sub
  }

  /** `sub` occurs in `s` at some offset. */
  predicate Contains(s: string, sub: string) {
    exists i :: 0 <= i <= |s| - |sub| && OccursAt(s, sub, i)
  }

  /** No position of `s` holds the character `c`. */
  predicate Lacks(s: string, c: char) {
    forall j :: 0 <= j < |s| ==> s[j] != c
  }

  /** `sub` begins at position `j` of `p` and runs past its end. */
  predicate StraddlesAt(p: string, sub: string, j: int) {
    0 <= j < |p| && |p| - j < |sub| && p[j..] == sub[..|p| - j]
  }

  predicate Straddles(p: string, sub: string) {
    exists j :: 0 <= j < |p| && StraddlesAt(p, sub, j)
  }

  /** A string that lacks one of the pattern's characters cannot contain it. */
  lemma LacksRefutes(s: string, sub: string, k: int)
    requires 0 <= k < |sub| && Lacks(s, sub[k])
    ensures !Contains(s, sub)
  {
    forall i | 0 <= i <= |s| - |sub|
      ensures !OccursAt(s, sub, i)
    {
      assert s[i..i + |sub|][k] == s[i + k] != sub[k];
    }
  }

  /** `Lacks` of a concatenation follows from `Lacks` of its halves (long
      literals are written as concatenations so that the solver can check
      each piece). */
  lemma LacksConcat(p: string, q: string, c: char)
    requires Lacks(p, c) && Lacks(q, c)
    ensures Lacks(p + q, c)
  {
  }

  /** `sub` occurs in `p + sub + q` right after `p`. */
  lemma OccursBetween(p: string, sub: string, q: string)
    ensures OccursAt(p + sub + q, sub, |p|)
  {
    assert (p + sub + q)[|p|..|p| + |sub|] == sub;
  }

  /** An occurrence in either half is an occurrence in the concatenation. */
  lemma ContainsInConcat(p: string, m: string, sub: string)
    requires Contains(p, sub) || Contains(m, sub)
    ensures Contains(p + m, sub)
  {
    if Contains(m, sub) {
      var i :| 0 <= i <= |m| - |sub| && OccursAt(m, sub, i);
      assert (p + m)[|p| + i..|p| + i + |sub|] == m[i..i + |sub|];
      assert OccursAt(p + m, sub, |p| + i);
    } else {
      var i :| 0 <= i <= |p| - |sub| && OccursAt(p, sub, i);
      assert (p + m)[i..i + |sub|] == p[i..i + |sub|];
      assert OccursAt(p + m, sub, i);
    }
  }

  /** An occurrence in a concatenation lies in one half or crosses the seam. */
  lemma ConcatContains(p: string, m: string, sub: string)
    requires Contains(p + m, sub)
    ensures Contains(p, sub) || Contains(m, sub) || Straddles(p, sub)
  {
    var i :| 0 <= i <= |p + m| - |sub| && OccursAt(p + m, sub, i);
    if i + |sub| <= |p| {
      assert p[i..i + |sub|] == (p + m)[i..i + |sub|];
      assert OccursAt(p, sub, i);
    } else if i >= |p| {
      assert m[i - |p|..i - |p| + |sub|] == (p + m)[i..i + |sub|];
      assert OccursAt(m, sub, i - |p|);
    } else {
      assert p[i..] == (p + m)[i..i + |sub|][..|p| - i];
      assert StraddlesAt(p, sub, i);
    }
  }

  /** A sufficient test that `sub` cannot cross the end of `p`: each position
      of `p` either differs from the pattern's first character or is followed
      by one that differs from its second. */
  lemma NoStraddle(p: string, sub: string)
    requires |sub| >= 2
    requires forall j :: 0 <= j < |p| ==> p[j] != sub[0] || (j + 1 < |p| && p[j + 1] != sub[1])
    ensures !Straddles(p, sub)
  {
    forall j | 0 <= j < |p| && |p| - j < |sub|
      ensures !StraddlesAt(p, sub, j)
    {
      if p[j] == sub[0] {
        assert j + 1 < |p| && p[j + 1] != sub[1];
        assert p[j..][1] == p[j + 1] != sub[1] == sub[..|p| - j][1];
      } else {
        assert p[j..][0] != sub[..|p| - j][0];
      }
    }
  }

  /** With no occurrence in `p` and none across the seam, `p + m` contains
      `sub` exactly when `m` does. */
  lemma PrefixTransparent(p: string, m: string, sub: string)
    requires !Contains(p, sub) && !Straddles(p, sub)
    ensures Contains(p + m, sub) <==> Contains(m, sub)
  {
    if Contains(p + m, sub) {
      ConcatContains(p, m, sub);
    }
    if Contains(m, sub) {
      ContainsInConcat(p, m, sub);
    }
  }

  // ---------------------------------------------------------------------
  // `toLowerCase` on the ASCII letters

  function LowerChar(c: char): char {
    if 'A' <= c <= 'Z' then (c as int + 32) as char else c
  }

  /** `s.toLowerCase()`, restricted to the ASCII upper-case letters. */
  function Lower(s: string): (r: string)
    ensures |r| == |s|
  {
    seq(|s|, i requires 0 <= i < |s| => LowerChar(s[i]))
  }

  /** No ASCII upper-case letter occurs in `s`. */
  predicate IsLower(s: string) {
    forall i :: 0 <= i < |s| ==> !('A' <= s[i] <= 'Z')
  }

  lemma LowerIsLower(s: string)
    ensures IsLower(Lower(s)) && Lower(Lower(s)) == Lower(s)
  {
  }

  lemma LowerOfLower(s: string)
    requires IsLower(s)
    ensures Lower(s) == s
  {
  }

  // ---------------------------------------------------------------------
  // `split`

  /** `s.split(c)[0]`: the text before the first `c`, or all of `s`. */
  function BeforeFirst(s: string, c: char): (r: string)
    ensures r <= s && c !in r
    ensures |r| < |s| ==> s[|r|] == c
    decreases |s|
  {
    if |s| == 0 || s[0] == c then "" else [s[0]] + BeforeFirst(s[1..], c)
  }

  /** Occurrences of the character `c` in `s`. */
  function Occurrences(s: string, c: char): nat
    decreases |s|
  {
    if |s| == 0 then 0 else (if s[0] == c then 1 else 0) + Occurrences(s[1..], c)
  }

  /** The pieces joined back with `c` between them. */
  function Join(pieces: seq<string>, c: char): string
    requires |pieces| >= 1
    decreases |pieces|
  {
    if |pieces| == 1 then pieces[0] else pieces[0] + [c] + Join(pieces[1..], c)
  }

  lemma {:induction false} OccurrencesConcat(a: string, b: string, c: char)
    ensures Occurrences(a + b, c) == Occurrences(a, c) + Occurrences(b, c)
    decreases |a|
  {
    if |a| > 0 {
      assert (a + b)[1..] == a[1..] + b;
      OccurrencesConcat(a[1..], b, c);
    } else {
      assert a + b == b;
    }
  }

  lemma {:induction false} OccurrencesNone(s: string, c: char)
    requires c !in s
    ensures Occurrences(s, c) == 0
    decreases |s|
  {
    if |s| > 0 {
      OccurrencesNone(s[1..], c);
    }
  }

  /** `s.split(c)`: the pieces between the separators, in order; the array
      has one more element than `s` has separators, and joining it back
      gives `s`. */
  function Split(s: string, c: char): (pieces: seq<string>)
    ensures |pieces| == Occurrences(s, c) + 1
    ensures forall k :: 0 <= k < |pieces| ==> c !in pieces[k]
    ensures Join(pieces, c) == s
    decreases |s|
  {
    var head := BeforeFirst(s, c);
    if |head| == |s| then
      assert head == s;
      OccurrencesNone(s, c);
      [s]
    else
      var rest := Split(s[|head| + 1..], c);
      assert s == head + [c] + s[|head| + 1..];
      OccurrencesConcat(head + [c], s[|head| + 1..], c);
      OccurrencesConcat(head, [c], c);
      OccurrencesNone(head, c);
      [head] + rest
  }

  // ---------------------------------------------------------------------
  // Decimal printing (template literals) and `parseInt`

  function DigitChar(d: nat): char
    requires d < 10
  {
    ['0', '1', '2', '3', '4', '5', '6', '7', '8', '9'][d]
  }

  predicate IsDigit(c: char) {
    '0' <= c <= '9'
  }

  function DigitValue(c: char): nat
    requires IsDigit(c)
  {
    c as int - '0' as int
  }

  lemma DigitRoundTrip(d: nat)
    requires d < 10
    ensures IsDigit(DigitChar(d)) && DigitValue(DigitChar(d)) == d
  {
  }

  predicate AllDigits(s: string) {
    forall i :: 0 <= i < |s| ==> IsDigit(s[i])
  }

  /** `String(n)` for a natural number: its decimal digits, no sign, no
      leading zero. */
  function NatToString(n: nat): (s: string)
    ensures |s| >= 1 && AllDigits(s)
    ensures |s| > 1 ==> s[0] != '0'
    decreases n
  {
    DigitRoundTrip(n % 10);
    if n < 10 then [DigitChar(n)] else NatToString(n / 10) + [DigitChar(n % 10)]
  }

  /** The value of a string of decimal digits; the empty string reads 0. */
  function DigitsValue(s: string): nat
    requires AllDigits(s)
    decreases |s|
  {
    if |s| == 0 then 0 else DigitsValue(s[..|s| - 1]) * 10 + DigitValue(s[|s| - 1])
  }

  /** The longest prefix of `s` made of decimal digits. */
  function LeadingDigits(s: string): (r: string)
    ensures r <= s && AllDigits(r)
    ensures |r| < |s| ==> !IsDigit(s[|r|])
    decreases |s|
  {
    if |s| == 0 || !IsDigit(s[0]) then "" else [s[0]] + LeadingDigits(s[1..])
  }

  /** `parseInt(s)` in base 10: an optional sign, then the longest run of
      decimal digits; `None` stands for `NaN` (no digit after the sign). */
  function ParseInt(s: string): (r: Option<int>)
    ensures r.Some? ==> exists k :: 0 <= k <= 1 && k < |s| && IsDigit(s[k])
  {
    var negative := |s| > 0 && s[0] == '-';
    var start := if |s| > 0 && (s[0] == '-' || s[0] == '+') then 1 else 0;
    var digits := LeadingDigits(s[start..]);
    if |digits| == 0 then None
    else
      assert IsDigit(s[start..][0]);
      var value: int := DigitsValue(digits);
      Some(if negative then -value else value)
  }

  lemma {:induction false} DigitsOfNatToString(n: nat)
    ensures DigitsValue(NatToString(n)) == n
    decreases n
  {
    var s := NatToString(n);
    DigitRoundTrip(n % 10);
    if n >= 10 {
      DigitsOfNatToString(n / 10);
      assert s[..|s| - 1] == NatToString(n / 10);
    }
  }

  lemma {:induction false} LeadingDigitsOfDigits(s: string)
    requires AllDigits(s)
    ensures LeadingDigits(s) == s
    decreases |s|
  {
    if |s| > 0 {
      LeadingDigitsOfDigits(s[1..]);
    }
  }

  /** The digits of a printed number, followed by any text that does not
      start with a digit, read back as that number. */
  lemma ParseIntPrinted(n: nat, tail: string)
    requires |tail| > 0 ==> !IsDigit(tail[0])
    ensures ParseInt(NatToString(n) + tail) == Some(n)
  {
    var s := NatToString(n);
    var t := s + tail;
    assert t[0] == s[0] && IsDigit(t[0]);
    LeadingDigitsOfDigits(s);
    LeadingDigitsPrefix(s, tail);
    assert t[0..] == t;
    DigitsOfNatToString(n);
  }

  lemma {:induction false} LeadingDigitsPrefix(s: string, tail: string)
    requires AllDigits(s)
    requires |tail| > 0 ==> !IsDigit(tail[0])
    ensures LeadingDigits(s + tail) == s
    decreases |s|
  {
    if |s| == 0 {
      assert s + tail == tail;
    } else {
      assert (s + tail)[1..] == s[1..] + tail;
      LeadingDigitsPrefix(s[1..], tail);
    }
  }
}
