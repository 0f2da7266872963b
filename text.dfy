/** The string operations of Python that the modelled code relies on: `<` on
    `str`, `in` on substrings, `str.split`, ASCII `str.lower` and `str(int)`. */
module Text {
  import opened Wrappers

  /** Python's `<` on `str`: code points compared left to right, a proper
      prefix sorting first. */
  predicate StrLt(a: string, b: string)
    decreases |a|
  {
    if |a| == 0 then |b| > 0
    else if |b| == 0 then false
    else if a[0] != b[0] then a[0] < b[0]
    else StrLt(a[1..], b[1..])
  }

  lemma {:induction false} StrLtIrreflexive(a: string)
    ensures !StrLt(a, a)
    decreases |a|
  {
    if |a| > 0 {
      StrLtIrreflexive(a[1..]);
    }
  }

  lemma {:induction false} StrLtTransitive(a: string, b: string, c: string)
    requires StrLt(a, b) && StrLt(b, c)
    ensures StrLt(a, c)
    decreases |a|
  {
    if |a| > 0 && |b| > 0 && |c| > 0 && a[0] == b[0] && b[0] == c[0] {
      StrLtTransitive(a[1..], b[1..], c[1..]);
    }
  }

  lemma {:induction false} StrLtTotal(a: string, b: string)
    requires a != b
    ensures StrLt(a, b) || StrLt(b, a)
    decreases |a|
  {
    if |a| > 0 && |b| > 0 && a[0] == b[0] {
      assert a == [a[0]] + a[1..] && b == [b[0]] + b[1..];
      StrLtTotal(a[1..], b[1..]);
    }
  }

  /** `sub` occurs in `s` starting at index `i`. */
  predicate OccursAt(s: string, sub: string, i: nat) {
    i + |sub| <= |s| && s[i..i + |sub|] == sub
  }

  /** Python's `s.find(sub, start)`, with `None` for -1. */
  function FindFrom(s: string, sub: string, start: nat): (r: Option<nat>)
    requires start <= |s|
    ensures r.Some? ==> start <= r.value && OccursAt(s, sub, r.value)
    ensures forall j: nat :: start <= j && (r.None? || j < r.value) ==> !OccursAt(s, sub, j)
    decreases |s| - start
  {
    if OccursAt(s, sub, start) then Some(start)
    else if start == |s| then None
    else FindFrom(s, sub, start + 1)
  }

  function Find(s: string, sub: string): Option<nat> {
    FindFrom(s, sub, 0)
  }

  /** `Find` returns `i` when `sub` occurs at `i` and nowhere before it. */
  lemma FindFirstAt(s: string, sub: string, i: nat)
    requires OccursAt(s, sub, i)
    requires forall j: nat :: j < i ==> !OccursAt(s, sub, j)
    ensures Find(s, sub) == Some(i)
  {
  }

  lemma FindNowhere(s: string, sub: string)
    requires forall j: nat :: !OccursAt(s, sub, j)
    ensures Find(s, sub) == None
  {
  }

  lemma OccursNowhere(s: string, sub: string)
    requires Find(s, sub).None?
    ensures forall j: nat :: !OccursAt(s, sub, j)
  {
  }

  lemma TooShort(s: string, sub: string)
    requires |s| < |sub|
    ensures Find(s, sub).None?
  {
  }

  /** `sub` occurs right after the prefix `a`. */
  lemma OccursAfter(a: string, sub: string, b: string)
    ensures OccursAt(a + sub + b, sub, |a|)
  {
    assert (a + sub + b)[|a|..|a| + |sub|] == sub;
  }

  /** An occurrence inside the prefix `a` of `a + b` is an occurrence in `a`. */
  lemma OccursInPrefix(a: string, b: string, sub: string, j: nat)
    requires j + |sub| <= |a|
    ensures OccursAt(a + b, sub, j) <==> OccursAt(a, sub, j)
  {
    assert (a + b)[j..j + |sub|] == a[j..j + |sub|];
  }

  /** An occurrence across the border of `a + b` splits `sub` into a suffix of
      `a` and a prefix of `b`. */
  lemma OccursAcross(a: string, b: string, sub: string, j: nat)
    requires OccursAt(a + b, sub, j) && j < |a| < j + |sub|
    ensures EndsWith(a, sub[..|a| - j])
    ensures |sub| - (|a| - j) <= |b| && b[..|sub| - (|a| - j)] == sub[|a| - j..]
  {
    var s := a + b;
    var d := |a| - j;
    assert s[j..j + |sub|] == sub;
    assert a[j..] == s[j..|a|] == sub[..d];
    assert b[..|sub| - d] == s[|a|..j + |sub|] == sub[d..];
  }

  /** So no occurrence straddles the border of `a + b` when the two sides do not fit `sub`. */
  lemma NotAcross(a: string, b: string, sub: string, j: nat)
    requires j < |a| < j + |sub|
    requires !EndsWith(a, sub[..|a| - j]) || |b| < |sub| - (|a| - j) || b[..|sub| - (|a| - j)] != sub[|a| - j..]
    ensures !OccursAt(a + b, sub, j)
  {
    if OccursAt(a + b, sub, j) {
      OccursAcross(a, b, sub, j);
    }
  }

  /** Python's `sub in s`. */
  predicate Contains(s: string, sub: string) {
    Find(s, sub).Some?
  }

  /** A string that lacks, from position `k` on, the `k`-th character of
      `sub` does not contain `sub`. */
  lemma LacksCharFrom(s: string, sub: string, k: nat)
    requires k < |sub| && forall j :: k <= j < |s| ==> s[j] != sub[k]
    ensures !Contains(s, sub)
  {
    forall i: nat ensures !OccursAt(s, sub, i) {
      if i + |sub| <= |s| {
        assert s[i..i + |sub|][k] == s[i + k];
      }
    }
    FindNowhere(s, sub);
  }

  predicate EndsWith(s: string, suffix: string) {
    |suffix| <= |s| && s[|s| - |suffix|..] == suffix
  }

  /** Python's `s.split(sep)[0]`. */
  function FirstPiece(s: string, sep: string): string {
    match Find(s, sep)
    case None => s
    case Some(i) => s[..i]
  }

  /** What follows the first occurrence of `sep` in `s`, if there is one; the
      second piece of `s.split(sep)` is the `FirstPiece` of it. */
  function AfterFirst(s: string, sep: string): Option<string> {
    match Find(s, sep)
    case None => None
    case Some(i) => Some(s[i + |sep|..])
  }

  function LowerChar(c: char): char {
    if 'A' <= c <= 'Z' then (c as int + 32) as char else c
  }

  /** The first piece of a split never holds the separator, and neither
      does any prefix of a string without it. */
  lemma FirstPieceLacks(s: string, sep: string)
    requires |sep| > 0
    ensures !Contains(FirstPiece(s, sep), sep)
  {
    var p := FirstPiece(s, sep);
    forall j: nat ensures !OccursAt(p, sep, j) {
      if OccursAt(p, sep, j) {
        assert s == p + s[|p|..];
        OccursInPrefix(p, s[|p|..], sep, j);
      }
    }
    FindNowhere(p, sep);
  }

  lemma PrefixLacks(s: string, k: nat, sub: string)
    requires k <= |s| && !Contains(s, sub)
    ensures !Contains(s[..k], sub)
  {
    OccursNowhere(s, sub);
    forall j: nat ensures !OccursAt(s[..k], sub, j) {
      if OccursAt(s[..k], sub, j) {
        assert s == s[..k] + s[k..];
        OccursInPrefix(s[..k], s[k..], sub, j);
      }
    }
    FindNowhere(s[..k], sub);
  }

  /** Python's `s.lower()` restricted to ASCII letters. */
  function AsciiLower(s: string): string {
    seq(|s|, i requires 0 <= i < |s| => LowerChar(s[i]))
  }

  /** Lowering a string without capital letters leaves it as it is. */
  lemma AsciiLowerOfLower(s: string)
    requires forall j :: 0 <= j < |s| ==> !('A' <= s[j] <= 'Z')
    ensures AsciiLower(s) == s
  {
  }

  predicate IsDigit(c: char) {
    '0' <= c <= '9'
  }

  predicate AllDigits(s: string) {
    forall i :: 0 <= i < |s| ==> IsDigit(s[i])
  }

  function DigitChar(d: nat): char
    requires d < 10
  {
    ('0' as int + d) as char
  }

  function DigitValue(c: char): nat
    requires IsDigit(c)
  {
    c as int - '0' as int
  }

  /** Python's `str(n)` for a non-negative integer. */
  function NatToString(n: nat): (s: string)
    ensures |s| > 0 && AllDigits(s)
    decreases n
  {
    if n < 10 then [DigitChar(n)] else NatToString(n / 10) + [DigitChar(n % 10)]
  }

  /** Python's `int(s)` for a string of decimal digits. */
  function ParseNat(s: string): nat
    requires AllDigits(s)
    decreases |s|
  {
    if |s| == 0 then 0 else 10 * ParseNat(s[..|s| - 1]) + DigitValue(s[|s| - 1])
  }

  lemma {:induction false} ParseNatToString(n: nat)
    ensures ParseNat(NatToString(n)) == n
    decreases n
  {
    if n >= 10 {
      var s := NatToString(n);
      assert s[..|s| - 1] == NatToString(n / 10);
      ParseNatToString(n / 10);
    }
  }

  /** Python's `str(i)` for any integer: digits with a leading `-` when negative. */
  function IntToString(i: int): (s: string)
    ensures |s| > 0
    ensures forall k :: 0 <= k < |s| ==> IsDigit(s[k]) || (k == 0 && s[k] == '-')
  {
    if i < 0 then "-" + NatToString(-i) else NatToString(i)
  }
}
