/** Sequence operations the table code is built from: keeping the rows that
    satisfy a mask, `sorted(set(...))`, `list.index` and a sort by key that
    puts missing values last (pandas' `sort_values`). */
module Seqs {
  import opened Wrappers
  import opened Text

  /** `a` is `b` with some elements deleted and the rest kept in order. */
  ghost predicate IsSubsequence<T>(a: seq<T>, b: seq<T>)
    decreases |b|
  {
    |a| == 0 || (|b| > 0 && ((a[0] == b[0] && IsSubsequence(a[1..], b[1..])) || IsSubsequence(a, b[1..])))
  }

  lemma {:induction false} SubsequenceTransitive<T>(a: seq<T>, b: seq<T>, c: seq<T>)
    requires IsSubsequence(a, b) && IsSubsequence(b, c)
    ensures IsSubsequence(a, c)
    decreases |c|
  {
    if |a| > 0 {
      if b[0] == c[0] && IsSubsequence(b[1..], c[1..]) {
        if a[0] == b[0] && IsSubsequence(a[1..], b[1..]) {
          SubsequenceTransitive(a[1..], b[1..], c[1..]);
        } else {
          SubsequenceTransitive(a, b[1..], c[1..]);
        }
      } else {
        SubsequenceTransitive(a, b, c[1..]);
      }
    }
  }

  lemma {:induction false} SubsequenceReflexive<T>(a: seq<T>)
    ensures IsSubsequence(a, a)
    decreases |a|
  {
    if |a| > 0 {
      SubsequenceReflexive(a[1..]);
    }
  }

  /** Boolean-mask selection `s[p(s)]`: the elements satisfying `p`, in order,
      each as often as it occurs in `s`. */
  function Filter<T(!new)>(s: seq<T>, p: T -> bool): (r: seq<T>)
    ensures IsSubsequence(r, s)
    ensures forall x :: x in r <==> x in s && p(x)
    ensures forall x :: multiset(r)[x] == if p(x) then multiset(s)[x] else 0
    ensures |r| <= |s|
    decreases |s|
  {
    if |s| == 0 then []
    else
      assert s == [s[0]] + s[1..];
      if p(s[0]) then [s[0]] + Filter(s[1..], p) else Filter(s[1..], p)
  }

  /** The number of elements of `s` satisfying `p` (pandas' `mask.sum()`). */
  function Count<T>(s: seq<T>, p: T -> bool): nat
    decreases |s|
  {
    if |s| == 0 then 0 else (if p(s[0]) then 1 else 0) + Count(s[1..], p)
  }

  predicate Distinct<T(==)>(s: seq<T>) {
    forall i, j :: 0 <= i < j < |s| ==> s[i] != s[j]
  }

  lemma {:induction false} DistinctCountsOnce<T>(s: seq<T>, x: T)
    requires Distinct(s)
    ensures multiset(s)[x] <= 1
    decreases |s|
  {
    if |s| > 0 {
      assert s == [s[0]] + s[1..];
      assert Distinct(s[1..]) by {
        forall i, j | 0 <= i < j < |s| - 1 ensures s[1..][i] != s[1..][j] {
          assert s[1..][i] == s[i + 1] && s[1..][j] == s[j + 1];
        }
      }
      DistinctCountsOnce(s[1..], x);
      if s[0] == x {
        assert x !in s[1..];
      }
    }
  }

  lemma RepeatCountsTwice<T>(s: seq<T>, i: nat, j: nat)
    requires i < j < |s| && s[i] == s[j]
    ensures multiset(s)[s[i]] >= 2
  {
    assert s == s[..j] + s[j..];
    assert s[i] in s[..j] && s[j] in s[j..];
    assert multiset(s) == multiset(s[..j]) + multiset(s[j..]);
  }

  /** `drop_duplicates()`: the first occurrence of each element, in the order
      of those first occurrences. */
  function FirstOccurrences<T(==,!new)>(s: seq<T>): (r: seq<T>)
    ensures Distinct(r)
    ensures forall x :: x in r <==> x in s
    ensures IsSubsequence(r, s)
    ensures forall i, j :: 0 <= i < j < |r| ==> IndexOf(s, r[i]) < IndexOf(s, r[j])
    decreases |s|
  {
    if |s| == 0 then []
    else
      var kept := FirstOccurrences(s[..|s| - 1]);
      FirstOccurrencesStep(s, kept);
      if s[|s| - 1] in kept then kept else kept + [s[|s| - 1]]
  }

  /** The step of `FirstOccurrences`: the last element of `s` is kept exactly
      when it did not occur before. */
  lemma FirstOccurrencesStep<T(!new)>(s: seq<T>, kept: seq<T>)
    requires |s| > 0
    requires Distinct(kept) && IsSubsequence(kept, s[..|s| - 1])
    requires forall x :: x in kept <==> x in s[..|s| - 1]
    requires forall i, j :: 0 <= i < j < |kept| ==>
      kept[i] in s[..|s| - 1] && kept[j] in s[..|s| - 1] && IndexOf(s[..|s| - 1], kept[i]) < IndexOf(s[..|s| - 1], kept[j])
    ensures var r := if s[|s| - 1] in kept then kept else kept + [s[|s| - 1]];
      Distinct(r) && (forall x :: x in r <==> x in s) && IsSubsequence(r, s) &&
      forall i, j :: 0 <= i < j < |r| ==> IndexOf(s, r[i]) < IndexOf(s, r[j])
  {
    var init, x := s[..|s| - 1], s[|s| - 1];
    assert s == init + [x];
    forall k | 0 <= k < |kept| ensures kept[k] in init && kept[k] in s && IndexOf(s, kept[k]) == IndexOf(init, kept[k]) {
      assert kept[k] in kept;
      IndexOfInPrefix(init, [x], kept[k]);
    }
    if x in kept {
      SubsequenceAppendRight(kept, init, x);
    } else {
      var r := kept + [x];
      SubsequenceAppendBoth(kept, init, x);
      IndexOfFirstAt(s, x, |init|);
      forall i, j | 0 <= i < j < |r| ensures r[i] != r[j] && IndexOf(s, r[i]) < IndexOf(s, r[j]) {
        assert r[i] == kept[i];
        if j == |kept| {
          assert IndexOf(init, kept[i]) < |init|;
        } else {
          assert r[j] == kept[j];
        }
      }
    }
  }

  /** `IndexOf` is the first position holding `x`. */
  lemma IndexOfFirstAt<T>(s: seq<T>, x: T, k: nat)
    requires k < |s| && s[k] == x && forall j :: 0 <= j < k ==> s[j] != x
    ensures IndexOf(s, x) == k
  {
    var r := IndexOf(s, x);
    assert !(r < k) && !(k < r);
  }

  /** An element of `a` has the same first position in `a + b`. */
  lemma IndexOfInPrefix<T>(a: seq<T>, b: seq<T>, x: T)
    requires x in a
    ensures x in a + b && IndexOf(a + b, x) == IndexOf(a, x)
  {
    var k := IndexOf(a, x);
    assert (a + b)[k] == x;
    IndexOfFirstAt(a + b, x, k);
  }

  lemma {:induction false} SubsequenceAppendRight<T>(a: seq<T>, b: seq<T>, x: T)
    requires IsSubsequence(a, b)
    ensures IsSubsequence(a, b + [x])
    decreases |b|
  {
    if |a| > 0 {
      assert (b + [x])[1..] == b[1..] + [x];
      if a[0] == b[0] && IsSubsequence(a[1..], b[1..]) {
        SubsequenceAppendRight(a[1..], b[1..], x);
      } else {
        SubsequenceAppendRight(a, b[1..], x);
      }
    }
  }

  lemma {:induction false} SubsequenceAppendBoth<T>(a: seq<T>, b: seq<T>, x: T)
    requires IsSubsequence(a, b)
    ensures IsSubsequence(a + [x], b + [x])
    decreases |b|
  {
    assert (a + [x])[1..] == if |a| == 0 then [] else a[1..] + [x];
    if |b| == 0 {
      assert a == [];
      assert (a + [x])[0] == (b + [x])[0];
    } else {
      assert (b + [x])[1..] == b[1..] + [x];
      if |a| > 0 && a[0] == b[0] && IsSubsequence(a[1..], b[1..]) {
        SubsequenceAppendBoth(a[1..], b[1..], x);
        assert (a + [x])[1..] == a[1..] + [x];
      } else {
        SubsequenceAppendBoth(a, b[1..], x);
      }
    }
  }

  /** Python's `list.index(x)`: the first position of `x`. */
  function IndexOf<T(==)>(s: seq<T>, x: T): (r: nat)
    requires x in s
    ensures r < |s| && s[r] == x
    ensures forall j :: 0 <= j < r ==> s[j] != x
  {
    if s[0] == x then 0 else 1 + IndexOf(s[1..], x)
  }

  function Map<T, U>(s: seq<T>, f: T -> U): seq<U> {
    seq(|s|, i requires 0 <= i < |s| => f(s[i]))
  }

  lemma MapConcat<T, U>(a: seq<T>, b: seq<T>, f: T -> U)
    ensures Map(a + b, f) == Map(a, f) + Map(b, f)
  {
  }

  /** Removing one occurrence of `x` at position `k` removes one `x` from the multiset. */
  lemma RemoveAt<T>(t: seq<T>, k: nat)
    requires k < |t|
    ensures multiset(t[..k] + t[k + 1..]) == multiset(t) - multiset{t[k]}
  {
    assert t == t[..k] + [t[k]] + t[k + 1..];
    assert multiset(t) == multiset(t[..k]) + multiset{t[k]} + multiset(t[k + 1..]);
  }

  /** The step of `MapPreservesMultiset`: `s[0]` sits at position `k` of `t`. */
  lemma MapStep<T, U>(s: seq<T>, t: seq<T>, f: T -> U, k: nat)
    requires 0 < |s| && k < |t| && t[k] == s[0]
    requires multiset(Map(s[1..], f)) == multiset(Map(t[..k] + t[k + 1..], f))
    ensures multiset(Map(s, f)) == multiset(Map(t, f))
  {
    var x := s[0];
    assert multiset(Map(s, f)) == multiset(Map(s[1..], f)) + multiset{f(x)} by {
      assert s == [x] + s[1..];
      MapConcat([x], s[1..], f);
      assert Map([x], f) == [f(x)];
    }
    assert multiset(Map(t, f)) == multiset(Map(t[..k] + t[k + 1..], f)) + multiset{f(x)} by {
      assert t == t[..k] + [x] + t[k + 1..];
      MapConcat(t[..k] + [x], t[k + 1..], f);
      MapConcat(t[..k], [x], f);
      MapConcat(t[..k], t[k + 1..], f);
      assert Map([x], f) == [f(x)];
    }
  }

  /** Dropping the first element of `s` and its match at `k` in `t` keeps the multisets equal. */
  lemma DropMatched<T>(s: seq<T>, t: seq<T>, k: nat)
    requires multiset(s) == multiset(t) && 0 < |s| && k < |t| && t[k] == s[0]
    ensures multiset(s[1..]) == multiset(t[..k] + t[k + 1..])
  {
    assert s == [s[0]] + s[1..];
    assert multiset(s[1..]) == multiset(s) - multiset{s[0]};
    RemoveAt(t, k);
  }

  lemma {:induction false} MapPreservesMultiset<T, U>(s: seq<T>, t: seq<T>, f: T -> U)
    requires multiset(s) == multiset(t)
    ensures multiset(Map(s, f)) == multiset(Map(t, f))
    decreases |s|
  {
    if |s| == 0 {
      assert |t| == |multiset(t)| == 0;
    } else {
      assert s[0] in multiset(t);
      var k :| 0 <= k < |t| && t[k] == s[0];
      var rest := t[..k] + t[k + 1..];
      DropMatched(s, t, k);
      MapPreservesMultiset(s[1..], rest, f);
      MapStep(s, t, f, k);
    }
  }

  // ----- sorted(set(xs)) for strings and for integers

  predicate AscendingStrings(s: seq<string>) {
    forall i, j :: 0 <= i < j < |s| ==> StrLt(s[i], s[j])
  }

  function InsertString(x: string, s: seq<string>): (r: seq<string>)
    requires AscendingStrings(s)
    ensures AscendingStrings(r)
    ensures forall y :: y in r <==> y == x || y in s
    decreases |s|
  {
    if |s| == 0 then [x]
    else if x == s[0] then s
    else if StrLt(x, s[0]) then
      assert forall j :: 0 < j < |s| ==> StrLt(x, s[j]) by {
        forall j | 0 < j < |s| ensures StrLt(x, s[j]) {
          StrLtTransitive(x, s[0], s[j]);
        }
      }
      [x] + s
    else
      StrLtTotal(x, s[0]);
      var rest := InsertString(x, s[1..]);
      assert forall y :: y in rest ==> StrLt(s[0], y) by {
        forall y | y in rest ensures StrLt(s[0], y) {
          if y != x {
            var k :| 0 <= k < |s| - 1 && s[1..][k] == y;
            assert s[k + 1] == y;
          }
        }
      }
      [s[0]] + rest
  }

  /** Python's `sorted(set(xs))` on strings. */
  function SortedUniqueStrings(xs: seq<string>): (r: seq<string>)
    ensures AscendingStrings(r)
    ensures forall y :: y in r <==> y in xs
    decreases |xs|
  {
    if |xs| == 0 then [] else InsertString(xs[0], SortedUniqueStrings(xs[1..]))
  }

  /** A strictly ascending list is determined by its elements, so
      `SortedUniqueStrings` is the one list Python's `sorted` can return. */
  lemma {:induction false} AscendingStringsUnique(a: seq<string>, b: seq<string>)
    requires AscendingStrings(a) && AscendingStrings(b)
    requires forall y :: y in a <==> y in b
    ensures a == b
    decreases |a|
  {
    assert |b| > 0 ==> b[0] in b;
    if |a| > 0 {
      assert a[0] in b && b[0] in a;
      if a[0] != b[0] {
        var i :| 0 <= i < |a| && a[i] == b[0];
        var j :| 0 <= j < |b| && b[j] == a[0];
        StrLtTransitive(a[0], b[0], a[0]);
        StrLtIrreflexive(a[0]);
        assert false;
      }
      assert b == [b[0]] + b[1..] && a == [a[0]] + a[1..];
      forall y | y in a[1..] ensures y in b[1..] {
        var k :| 0 <= k < |a| - 1 && a[1..][k] == y;
        assert StrLt(a[0], a[k + 1]);
        StrLtIrreflexive(y);
        assert y in a && y in b && y != b[0];
      }
      forall y | y in b[1..] ensures y in a[1..] {
        var k :| 0 <= k < |b| - 1 && b[1..][k] == y;
        assert StrLt(b[0], b[k + 1]);
        StrLtIrreflexive(y);
        assert y in b && y in a && y != a[0];
      }
      AscendingStringsUnique(a[1..], b[1..]);
      assert a == [a[0]] + a[1..] && b == [b[0]] + b[1..];
    }
  }

  predicate AscendingInts(s: seq<int>) {
    forall i, j :: 0 <= i < j < |s| ==> s[i] < s[j]
  }

  function InsertInt(x: int, s: seq<int>): (r: seq<int>)
    requires AscendingInts(s)
    ensures AscendingInts(r)
    ensures forall y :: y in r <==> y == x || y in s
    decreases |s|
  {
    if |s| == 0 then [x]
    else if x == s[0] then s
    else if x < s[0] then [x] + s
    else
      var rest := InsertInt(x, s[1..]);
      assert forall y :: y in rest ==> s[0] < y by {
        forall y | y in rest ensures s[0] < y {
          if y != x {
            var k :| 0 <= k < |s| - 1 && s[1..][k] == y;
            assert s[k + 1] == y && s[0] < s[k + 1];
          }
        }
      }
      var r := [s[0]] + rest;
      assert AscendingInts(r) by {
        forall i, j | 0 <= i < j < |r| ensures r[i] < r[j] {
          assert r[j] == rest[j - 1] && rest[j - 1] in rest;
          if i > 0 {
            assert r[i] == rest[i - 1];
          }
        }
      }
      r
  }

  /** Python's `sorted(set(xs))` on integers. */
  function SortedUniqueInts(xs: seq<int>): (r: seq<int>)
    ensures AscendingInts(r)
    ensures forall y :: y in r <==> y in xs
    decreases |xs|
  {
    if |xs| == 0 then [] else InsertInt(xs[0], SortedUniqueInts(xs[1..]))
  }

  // ----- sort_values: a key of cells, missing values last in either direction

  /** A sort key: one cell per sort column, `None` for a missing (NaN) value. */
  type Key = seq<Option<real>>

  /** Cell `a` sorts strictly before cell `b`; a missing value sorts after every
      present one whichever the direction (pandas' `na_position='last'`). */
  predicate CellBefore(a: Option<real>, b: Option<real>, descending: bool) {
    a.Some? && (b.None? || (if descending then a.value > b.value else a.value < b.value))
  }

  /** Lexicographic order on keys, column by column. */
  predicate KeyLe(a: Key, b: Key, descending: bool)
    decreases |a|
  {
    if |a| == 0 then true
    else if |b| == 0 then false
    else if a[0] == b[0] then KeyLe(a[1..], b[1..], descending)
    else CellBefore(a[0], b[0], descending)
  }

  lemma {:induction false} KeyLeTotal(a: Key, b: Key, descending: bool)
    ensures KeyLe(a, b, descending) || KeyLe(b, a, descending)
    decreases |a|
  {
    if |a| > 0 && |b| > 0 && a[0] == b[0] {
      KeyLeTotal(a[1..], b[1..], descending);
    }
  }

  lemma {:induction false} KeyLeTransitive(a: Key, b: Key, c: Key, descending: bool)
    requires KeyLe(a, b, descending) && KeyLe(b, c, descending)
    ensures KeyLe(a, c, descending)
    decreases |a|
  {
    if |a| > 0 && |b| > 0 && |c| > 0 && a[0] == b[0] && b[0] == c[0] {
      KeyLeTransitive(a[1..], b[1..], c[1..], descending);
    }
  }

  ghost predicate SortedBy<T>(s: seq<T>, key: T -> Key, descending: bool) {
    forall i, j :: 0 <= i < j < |s| ==> KeyLe(key(s[i]), key(s[j]), descending)
  }

  /** An element sorting no later than every element of a sorted list can head it. */
  lemma ConsSorted<T>(h: T, s: seq<T>, key: T -> Key, descending: bool)
    requires SortedBy(s, key, descending)
    requires forall j :: 0 <= j < |s| ==> KeyLe(key(h), key(s[j]), descending)
    ensures SortedBy([h] + s, key, descending)
  {
    var r := [h] + s;
    forall i, j | 0 <= i < j < |r| ensures KeyLe(key(r[i]), key(r[j]), descending) {
      assert r[j] == s[j - 1];
      if i > 0 {
        assert r[i] == s[i - 1];
      }
    }
  }

  function InsertBy<T(!new)>(x: T, s: seq<T>, key: T -> Key, descending: bool): (r: seq<T>)
    requires SortedBy(s, key, descending)
    ensures SortedBy(r, key, descending)
    ensures multiset(r) == multiset(s) + multiset{x}
    decreases |s|
  {
    if |s| == 0 then [x]
    else if KeyLe(key(x), key(s[0]), descending) then
      assert forall j :: 0 <= j < |s| ==> KeyLe(key(x), key(s[j]), descending) by {
        forall j | 0 < j < |s| ensures KeyLe(key(x), key(s[j]), descending) {
          KeyLeTransitive(key(x), key(s[0]), key(s[j]), descending);
        }
      }
      ConsSorted(x, s, key, descending);
      [x] + s
    else
      KeyLeTotal(key(x), key(s[0]), descending);
      var rest := InsertBy(x, s[1..], key, descending);
      assert s == [s[0]] + s[1..];
      assert forall j :: 0 <= j < |rest| ==> KeyLe(key(s[0]), key(rest[j]), descending) by {
        forall j | 0 <= j < |rest| ensures KeyLe(key(s[0]), key(rest[j]), descending) {
          assert rest[j] in multiset(rest);
          if rest[j] != x {
            assert rest[j] in s[1..];
          }
        }
      }
      ConsSorted(s[0], rest, key, descending);
      [s[0]] + rest
  }

  /** pandas' `sort_values(by, ascending=not descending)`, pushing missing values last. */
  function SortBy<T(!new)>(s: seq<T>, key: T -> Key, descending: bool): (r: seq<T>)
    ensures SortedBy(r, key, descending)
    ensures multiset(r) == multiset(s)
    ensures |r| == |s|
    decreases |s|
  {
    if |s| == 0 then []
    else
      assert s == [s[0]] + s[1..];
      var r := InsertBy(s[0], SortBy(s[1..], key, descending), key, descending);
      assert |r| == |multiset(r)| == |multiset(s)| == |s|;
      r
  }

  /** In a sorted sequence, whatever is in the first `k` positions sorts no
      later than whatever remains after them. */
  lemma SortedPrefixFirst<T>(s: seq<T>, k: nat, key: T -> Key, descending: bool, x: T, y: T)
    requires SortedBy(s, key, descending) && k <= |s|
    requires x in s[..k] && y in multiset(s[k..])
    ensures KeyLe(key(x), key(y), descending)
  {
    var i :| 0 <= i < k && s[i] == x;
    assert y in s[k..];
    var j :| k <= j < |s| && s[j] == y;
  }
}
