/**
 * The string operations the checker relies on, stated over `seq<char>`:
 * Ruby's `String#include?`, `split("/").last`, `String#strip` and
 * `Integer#to_s`.
 */
module Strings {

  /** `p` is a prefix of `s`. */
  predicate IsPrefix(p: string, s: string) {
    |p| <= |s| && s[..|p|] == p
  }

  /** A concatenation starts with its first part and continues with its second. */
  lemma ConcatParts(a: string, b: string)
    ensures IsPrefix(a, a + b)
    ensures (a + b)[|a|..] == b
  {
  }

  /** Ruby's `s.include?(t)`: `t` occurs somewhere in `s` (computed by scanning). */
  predicate Contains(s: string, t: string)
    decreases |s|
  {
    IsPrefix(t, s) || (|s| > 0 && Contains(s[1..], t))
  }

  /** `t` occurs in `s` starting at position `i`. */
  ghost predicate OccursAt(s: string, t: string, i: int) {
    0 <= i && i + |t| <= |s| && s[i..i + |t|] == t
  }

  /** Reference definition of substring containment. */
  ghost predicate Occurs(s: string, t: string) {
    exists i :: OccursAt(s, t, i)
  }

  /** An occurrence in the tail of `s` is an occurrence in `s`, one position later. */
  lemma OccursInTail(s: string, t: string, i: int)
    requires |s| > 0 && OccursAt(s[1..], t, i)
    ensures OccursAt(s, t, i + 1)
  {
    assert s[1..][i..i + |t|] == s[i + 1..i + 1 + |t|];
  }

  /** An occurrence in `s` past position 0 is an occurrence in its tail, one position earlier. */
  lemma OccursFromTail(s: string, t: string, i: int)
    requires 0 < i && OccursAt(s, t, i)
    ensures OccursAt(s[1..], t, i - 1)
  {
    assert s[1..][i - 1..i - 1 + |t|] == s[i..i + |t|];
  }

  /** The scanning `Contains` agrees with the reference definition. */
  lemma {:induction false} ContainsIsOccurs(s: string, t: string)
    ensures Contains(s, t) <==> Occurs(s, t)
    decreases |s|
  {
    if IsPrefix(t, s) {
      assert OccursAt(s, t, 0);
    } else if |s| > 0 {
      ContainsIsOccurs(s[1..], t);
      if Contains(s[1..], t) {
        var i :| OccursAt(s[1..], t, i);
        OccursInTail(s, t, i);
      }
      if Occurs(s, t) {
        var i :| OccursAt(s, t, i);
        assert i != 0;
        OccursFromTail(s, t, i);
      }
    }
  }

  /** Whatever contains a string also contains each of that string's prefixes. */
  lemma ContainsPrefixOf(s: string, t: string, u: string)
    requires Contains(s, t)
    requires IsPrefix(u, t)
    ensures Contains(s, u)
  {
    ContainsIsOccurs(s, t);
    var i :| OccursAt(s, t, i);
    assert s[i..i + |u|] == t[..|u|];
    assert OccursAt(s, u, i);
    ContainsIsOccurs(s, u);
  }

  /** The position of the last `/` among the first `n` characters of `s`, or -1 when there is none. */
  function LastSlashBefore(s: string, n: nat): (k: int)
    requires n <= |s|
    ensures -1 <= k < n
    ensures k >= 0 ==> s[k] == '/'
    ensures forall j :: k < j < n ==> s[j] != '/'
    decreases n
  {
    if n == 0 then -1 else if s[n - 1] == '/' then n - 1 else LastSlashBefore(s, n - 1)
  }

  /**
   * Ruby's `s.split("/").last` on a string without a trailing separator:
   * the part of `s` after its last `/` (all of `s` when it has none).
   */
  function LastSegment(s: string): (r: string)
    ensures '/' !in r
    ensures |r| <= |s| && r == s[|s| - |r|..]
    ensures |r| < |s| ==> s[|s| - |r| - 1] == '/'
  {
    var k := LastSlashBefore(s, |s|);
    var r := s[k + 1..];
    assert forall j :: 0 <= j < |r| ==> r[j] == s[k + 1 + j];
    r
  }

  /** The three facts in `LastSegment`'s contract pin the segment down uniquely. */
  lemma {:induction false} LastSegmentUnique(s: string, r: string)
    requires '/' !in r
    requires |r| <= |s| && r == s[|s| - |r|..]
    requires |r| < |s| ==> s[|s| - |r| - 1] == '/'
    ensures r == LastSegment(s)
  {
  }

  /** Qualifying an id under a `/`-terminated namespace does not change its last segment. */
  lemma LastSegmentUnderNamespace(ns: string, id: string)
    requires |ns| > 0 && ns[|ns| - 1] == '/'
    ensures LastSegment(ns + id) == LastSegment(id)
  {
    var s := ns + id;
    var r := LastSegment(id);
    assert s[|s| - |r|..] == id[|id| - |r|..];
    if |r| == |id| {
      assert s[|s| - |r| - 1] == ns[|ns| - 1];
    } else {
      assert s[|s| - |r| - 1] == id[|id| - |r| - 1];
    }
    LastSegmentUnique(s, r);
  }

  /** The characters Ruby's `String#strip` removes: null, tab, line feed, vertical tab, form feed, carriage return and space. */
  const StripChars: set<char> := {'\0', '\t', '\n', '\U{B}', '\U{C}', '\r', ' '}

  /** `c` is removed by `strip` when it appears at either end. */
  predicate IsStripSpace(c: char) {
    c in StripChars
  }

  /** Every character of `s` is removed by `strip`. */
  ghost predicate AllStripSpace(s: string) {
    forall k :: 0 <= k < |s| ==> IsStripSpace(s[k])
  }

  /** `s` is `r` with only strip characters before and after it. */
  ghost predicate Framed(s: string, pre: string, r: string, post: string) {
    s == pre + r + post && AllStripSpace(pre) && AllStripSpace(post)
  }

  /** The number of leading strip characters of `s`. */
  function LeadingSpace(s: string): (n: nat)
    ensures n <= |s|
    ensures forall k :: 0 <= k < n ==> IsStripSpace(s[k])
    ensures n == |s| || !IsStripSpace(s[n])
    decreases |s|
  {
    if |s| == 0 || !IsStripSpace(s[0]) then 0 else 1 + LeadingSpace(s[1..])
  }

  /** The length of `s` without its trailing strip characters. */
  function TrailingStart(s: string): (n: nat)
    ensures n <= |s|
    ensures forall k :: n <= k < |s| ==> IsStripSpace(s[k])
    ensures n == 0 || !IsStripSpace(s[n - 1])
    decreases |s|
  {
    if |s| == 0 || !IsStripSpace(s[|s| - 1]) then |s| else TrailingStart(s[..|s| - 1])
  }

  /** Cutting `s` at `lo` and `hi` and joining the three pieces gives `s` back. */
  lemma SliceThree(s: string, lo: nat, hi: nat)
    requires lo <= hi <= |s|
    ensures s == s[..lo] + s[lo..hi] + s[hi..]
  {
    assert s[..lo] + s[lo..hi] == s[..hi];
  }

  /** Cutting off a run of strip characters at each end frames what is left. */
  lemma FramedByCuts(s: string, lo: nat, hi: nat)
    requires lo <= hi <= |s|
    requires forall k :: 0 <= k < lo ==> IsStripSpace(s[k])
    requires forall k :: hi <= k < |s| ==> IsStripSpace(s[k])
    ensures Framed(s, s[..lo], s[lo..hi], s[hi..])
  {
    SliceThree(s, lo, hi);
    assert AllStripSpace(s[..lo]);
    assert AllStripSpace(s[hi..]);
  }

  /** The last cut of `Strip`: where the trailing run of strip characters of `s[lo..]` starts, as a position in `s`. */
  function TrailingCut(s: string, lo: nat): (hi: nat)
    requires lo <= |s|
    ensures lo <= hi <= |s|
    ensures forall k :: hi <= k < |s| ==> IsStripSpace(s[k])
    ensures hi == lo || !IsStripSpace(s[hi - 1])
  {
    var t := s[lo..];
    var n := TrailingStart(t);
    assert forall k :: lo + n <= k < |s| ==> s[k] == t[k - lo];
    lo + n
  }

  /** Ruby's `String#strip`: `s` without leading and trailing whitespace and nulls. */
  function Strip(s: string): (r: string)
    ensures |r| == 0 || (!IsStripSpace(r[0]) && !IsStripSpace(r[|r| - 1]))
    ensures exists pre, post :: Framed(s, pre, r, post)
  {
    var lo := LeadingSpace(s);
    var hi := TrailingCut(s, lo);
    FramedByCuts(s, lo, hi);
    s[lo..hi]
  }

  /** A string that is already stripped is left unchanged. */
  lemma StripUnchanged(s: string)
    requires |s| == 0 || (!IsStripSpace(s[0]) && !IsStripSpace(s[|s| - 1]))
    ensures Strip(s) == s
  {
    assert LeadingSpace(s) == 0;
    assert s[0..] == s;
  }

  /** Stripping twice is stripping once. */
  lemma StripIdempotent(s: string)
    ensures Strip(Strip(s)) == Strip(s)
  {
    StripUnchanged(Strip(s));
  }

  /** The decimal digit character for `d`. */
  function DigitChar(d: nat): (c: char)
    requires d < 10
    ensures '0' <= c <= '9'
    ensures c as int - '0' as int == d
  {
    ['0', '1', '2', '3', '4', '5', '6', '7', '8', '9'][d]
  }

  /** `s` is a non-empty string of decimal digits. */
  predicate IsDigits(s: string) {
    |s| > 0 && forall k :: 0 <= k < |s| ==> '0' <= s[k] <= '9'
  }

  /** The value of a string of decimal digits (reference reading of a decimal numeral). */
  function DecimalValue(s: string): nat
    requires forall k :: 0 <= k < |s| ==> '0' <= s[k] <= '9'
    decreases |s|
  {
    if |s| == 0 then 0
    else 10 * DecimalValue(s[..|s| - 1]) + (s[|s| - 1] as int - '0' as int)
  }

  /** Ruby's `Integer#to_s` on a non-negative integer: its decimal numeral, without leading zeros. */
  function NatToString(n: nat): (r: string)
    ensures IsDigits(r)
    ensures |r| > 1 ==> r[0] != '0'
    decreases n
  {
    if n < 10 then [DigitChar(n)] else NatToString(n / 10) + [DigitChar(n % 10)]
  }

  /** Reading back the numeral `NatToString` writes gives the number again. */
  lemma {:induction false} NatToStringRoundTrip(n: nat)
    ensures DecimalValue(NatToString(n)) == n
    decreases n
  {
    if n >= 10 {
      NatToStringRoundTrip(n / 10);
      var s := NatToString(n);
      assert s[..|s| - 1] == NatToString(n / 10);
    }
  }

  /** Ruby's `Integer#to_s`: a leading `-` for negative numbers, then the decimal numeral. */
  function IntToString(i: int): (r: string)
    ensures |r| > 0
    ensures r[0] == '-' <==> i < 0
    ensures i >= 0 ==> IsDigits(r) && DecimalValue(r) == i
    ensures i < 0 ==> IsDigits(r[1..]) && DecimalValue(r[1..]) == -i
    ensures var digits := if i < 0 then r[1..] else r; |digits| > 1 ==> digits[0] != '0'
  {
    NatToStringRoundTrip(if i < 0 then -i else i);
    if i < 0 then
      var digits := NatToString(-i);
      assert ("-" + digits)[1..] == digits;
      "-" + digits
    else NatToString(i)
  }

  /** Distinct naturals have distinct decimal numerals. */
  lemma NatToStringInjective(m: nat, n: nat)
    requires NatToString(m) == NatToString(n)
    ensures m == n
  {
    NatToStringRoundTrip(m);
    NatToStringRoundTrip(n);
  }

  /** Distinct integers have distinct decimal renderings. */
  lemma IntToStringInjective(a: int, b: int)
    requires IntToString(a) == IntToString(b)
    ensures a == b
  {
    var s := IntToString(a);
    if a < 0 {
      assert s[0] == '-' && b < 0;
      assert DecimalValue(s[1..]) == -a && DecimalValue(s[1..]) == -b;
    } else {
      assert b >= 0 && DecimalValue(s) == a && DecimalValue(s) == b;
    }
  }
}
