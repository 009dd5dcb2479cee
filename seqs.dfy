/**
  * The array idioms the dashboard builds its lists with: `filter`,
  * `filter((_, i) => i !== index)`, `[...new Set(xs)]`, `sort((a, b) => b - a)`,
  * `reduce((acc, x) => acc + f(x), 0)`, and the "add the trimmed entry if it is
  * new" step shared by the tag, author and paper-topic inputs.
  */
module Seqs {
  import opened Strings

  predicate NoDuplicates<T(==)>(s: seq<T>)
  {
    forall i, j :: 0 <= i < j < |s| ==> s[i] != s[j]
  }

  /** `s.filter(keep)` */
  function Filter<T(!new)>(s: seq<T>, keep: T -> bool): (r: seq<T>)
    ensures |r| <= |s|
    ensures forall x :: x in r <==> x in s && keep(x)
  {
    if s == [] then []
    else (if keep(s[0]) then [s[0]] else []) + Filter(s[1..], keep)
  }

  /** Filtering works piecewise, so it keeps the relative order of what it keeps. */
  lemma {:induction false} FilterAppend<T(!new)>(a: seq<T>, b: seq<T>, keep: T -> bool)
    ensures Filter(a + b, keep) == Filter(a, keep) + Filter(b, keep)
  {
    if a == [] {
      assert a + b == b;
    } else {
      assert (a + b)[1..] == a[1..] + b;
      FilterAppend(a[1..], b, keep);
    }
  }

  /** A filter that keeps every element is the identity. */
  lemma {:induction false} FilterKeepsAll<T(!new)>(s: seq<T>, keep: T -> bool)
    requires forall x :: x in s ==> keep(x)
    ensures Filter(s, keep) == s
  {
    if s != [] {
      FilterKeepsAll(s[1..], keep);
    }
  }

  /** Filtering a duplicate-free list leaves it duplicate-free. */
  lemma {:induction false} FilterNoDuplicates<T(!new)>(s: seq<T>, keep: T -> bool)
    requires NoDuplicates(s)
    ensures NoDuplicates(Filter(s, keep))
  {
    if s != [] {
      FilterNoDuplicates(s[1..], keep);
      assert s[0] !in s[1..];
    }
  }

  /** `s.findIndex(p)`: the first index whose element satisfies `p`, or -1 when none does. */
  function IndexWhere<T>(s: seq<T>, p: T -> bool): (k: int)
    ensures -1 <= k < |s|
    ensures k >= 0 ==> p(s[k]) && forall j :: 0 <= j < k ==> !p(s[j])
    ensures k == -1 ==> forall j :: 0 <= j < |s| ==> !p(s[j])
  {
    if s == [] then -1
    else if p(s[0]) then 0
    else
      var k := IndexWhere(s[1..], p);
      if k == -1 then -1 else k + 1
  }

  /** Exchanging two elements keeps the same elements. */
  lemma SwapPermutes<T>(s: seq<T>, i: int, j: int)
    requires 0 <= i < |s| && 0 <= j < |s|
    ensures multiset(s[i := s[j]][j := s[i]]) == multiset(s)
  {
  }

  /** `s.filter((_, j) => j !== i)` */
  function RemoveAt<T>(s: seq<T>, i: int): (r: seq<T>)
    ensures 0 <= i < |s| ==> |r| == |s| - 1
    ensures 0 <= i < |s| ==> forall j :: 0 <= j < i ==> r[j] == s[j]
    ensures 0 <= i < |s| ==> forall j :: i <= j < |r| ==> r[j] == s[j + 1]
    ensures !(0 <= i < |s|) ==> r == s
  {
    if 0 <= i < |s| then s[..i] + s[i + 1..] else s
  }

  /** The test `y => y !== x`. */
  function DiffersFrom<T(==)>(x: T): T -> bool
  {
    (y: T) => y != x
  }

  /** `s.filter(y => y !== x)`: every copy of `x` goes, everything else stays, in its order. */
  function RemoveAll<T(==,!new)>(s: seq<T>, x: T): (r: seq<T>)
    ensures r == Filter(s, DiffersFrom(x))
    ensures x !in r
    ensures forall y :: y != x ==> (y in r <==> y in s)
    ensures x !in s ==> r == s
  {
    if s == [] then []
    else (if s[0] == x then [] else [s[0]]) + RemoveAll(s[1..], x)
  }

  /** Removing every copy of a value from a list without repeats leaves it without repeats. */
  lemma {:induction false} RemoveAllKeepsNoDuplicates<T(!new)>(s: seq<T>, x: T)
    requires NoDuplicates(s)
    ensures NoDuplicates(RemoveAll(s, x))
  {
    if s != [] {
      RemoveAllKeepsNoDuplicates(s[1..], x);
      assert s[0] !in s[1..];
    }
  }

  /** Removal works piecewise, so the survivors keep their relative order. */
  lemma {:induction false} RemoveAllAppend<T(!new)>(a: seq<T>, b: seq<T>, x: T)
    ensures RemoveAll(a + b, x) == RemoveAll(a, x) + RemoveAll(b, x)
  {
    if a == [] {
      assert a + b == b;
    } else {
      assert (a + b)[1..] == a[1..] + b;
      RemoveAllAppend(a[1..], b, x);
    }
  }

  /** `[...new Set(s)]`: each value once, in order of first appearance. */
  function Distinct<T(==,!new)>(s: seq<T>): (r: seq<T>)
    ensures NoDuplicates(r)
    ensures forall x :: x in r <==> x in s
  {
    if s == [] then []
    else
      var prefix := Distinct(s[..|s| - 1]);
      assert forall x :: x in s <==> x in s[..|s| - 1] || x == s[|s| - 1];
      if s[|s| - 1] in prefix then prefix else prefix + [s[|s| - 1]]
  }

  /**
    * `Distinct` lists values in the order they first appear: the distinct
    * values of any prefix of `s` come first, in the same order.
    */
  lemma {:induction false} DistinctFirstAppearance<T(!new)>(s: seq<T>)
    ensures NoDuplicates(Distinct(s))
    ensures forall x :: x in Distinct(s) <==> x in s
    ensures forall k :: 0 <= k <= |s| ==> Distinct(s[..k]) <= Distinct(s)
  {
    if s != [] {
      var init := s[..|s| - 1];
      DistinctFirstAppearance(init);
      forall k | 0 <= k <= |s| ensures Distinct(s[..k]) <= Distinct(s) {
        if k < |s| {
          assert s[..k] == init[..k];
        } else {
          assert s[..k] == s;
        }
      }
    }
  }

  /** `s.map(f)` */
  function Map<T, U>(s: seq<T>, f: T -> U): (r: seq<U>)
    ensures |r| == |s|
    ensures forall i :: 0 <= i < |s| ==> r[i] == f(s[i])
  {
    seq(|s|, i requires 0 <= i < |s| => f(s[i]))
  }

  /**
    * `[...new Set(s.map(f))]` lists each value `f` takes on `s` exactly once,
    * and its length is the number of such values.
    */
  lemma DistinctMapSpec<T(!new), U(!new)>(s: seq<T>, f: T -> U)
    ensures NoDuplicates(Distinct(Map(s, f)))
    ensures forall y :: y in Distinct(Map(s, f)) <==> exists x :: x in s && f(x) == y
    ensures |Distinct(Map(s, f))| == |set x | x in s :: f(x)|
  {
    var m := Map(s, f);
    forall y ensures y in m <==> exists x :: x in s && f(x) == y {
      if y in m {
        var i :| 0 <= i < |m| && m[i] == y;
        assert s[i] in s && f(s[i]) == y;
      }
      if exists x :: x in s && f(x) == y {
        var x :| x in s && f(x) == y;
        var i :| 0 <= i < |s| && s[i] == x;
        assert m[i] == y;
      }
    }
    DistinctCount(m);
    assert (set y | y in m) == (set x | x in s :: f(x));
  }

  /** A duplicate-free list is as long as the set of its elements. */
  lemma {:induction false} NoDuplicatesCardinality<T>(s: seq<T>)
    requires NoDuplicates(s)
    ensures |set x | x in s| == |s|
  {
    if s != [] {
      var init := s[..|s| - 1];
      NoDuplicatesCardinality(init);
      assert (set x | x in s) == (set x | x in init) + {s[|s| - 1]};
      assert s[|s| - 1] !in init;
    }
  }

  /** `[...new Set(s)].length` is the number of different values in `s`. */
  lemma DistinctCount<T(!new)>(s: seq<T>)
    ensures |Distinct(s)| == |set x | x in s|
  {
    var r := Distinct(s);
    NoDuplicatesCardinality(r);
    assert (set x | x in r) == (set x | x in s);
  }

  /** A list without repeats passes through `new Set` unchanged. */
  lemma {:induction false} DistinctOfNoDuplicates<T(!new)>(s: seq<T>)
    requires NoDuplicates(s)
    ensures Distinct(s) == s
  {
    if s != [] {
      DistinctOfNoDuplicates(s[..|s| - 1]);
      assert s[|s| - 1] !in s[..|s| - 1];
    }
  }

  predicate Descending(s: seq<int>)
  {
    forall i, j :: 0 <= i < j < |s| ==> s[i] >= s[j]
  }

  predicate StrictlyDescending(s: seq<int>)
  {
    forall i, j :: 0 <= i < j < |s| ==> s[i] > s[j]
  }

  function InsertDescending(x: int, s: seq<int>): (r: seq<int>)
    requires Descending(s)
    ensures multiset(r) == multiset(s) + multiset{x}
    ensures Descending(r)
  {
    if s == [] || x >= s[0] then
      DescendingCons(x, s);
      [x] + s
    else
      var rest := InsertDescending(x, s[1..]);
      assert s == [s[0]] + s[1..];
      BoundedByMultiset(rest, s[1..], x, s[0]);
      DescendingCons(s[0], rest);
      [s[0]] + rest
  }

  /** A head no smaller than every element keeps a descending list descending. */
  lemma DescendingCons(h: int, t: seq<int>)
    requires Descending(t) && (t == [] || h >= t[0])
    ensures Descending([h] + t)
  {
  }

  /** The elements of `s` plus `x` are all bounded when each of them is. */
  lemma BoundedByMultiset(r: seq<int>, s: seq<int>, x: int, b: int)
    requires multiset(r) == multiset(s) + multiset{x}
    requires x <= b && forall k :: 0 <= k < |s| ==> s[k] <= b
    ensures r == [] || r[0] <= b
  {
    if r != [] {
      assert r[0] in multiset(r);
      assert r[0] == x || r[0] in s;
    }
  }

  lemma {:induction false} InsertStrictlyDescending(x: int, s: seq<int>)
    requires StrictlyDescending(s) && x !in s
    ensures StrictlyDescending(InsertDescending(x, s))
  {
    if s == [] || x >= s[0] {
      StrictlyDescendingCons(x, s);
    } else {
      InsertStrictlyDescending(x, s[1..]);
      var rest := InsertDescending(x, s[1..]);
      assert s == [s[0]] + s[1..];
      StrictlyBoundedByMultiset(rest, s[1..], x, s[0]);
      StrictlyDescendingCons(s[0], rest);
    }
  }

  lemma StrictlyDescendingCons(h: int, t: seq<int>)
    requires StrictlyDescending(t) && (t == [] || h > t[0])
    ensures StrictlyDescending([h] + t)
  {
  }

  lemma StrictlyBoundedByMultiset(r: seq<int>, s: seq<int>, x: int, b: int)
    requires multiset(r) == multiset(s) + multiset{x}
    requires x < b && forall k :: 0 <= k < |s| ==> s[k] < b
    ensures r == [] || r[0] < b
  {
    if r != [] {
      assert r[0] in multiset(r);
      assert r[0] == x || r[0] in s;
    }
  }

  /** `s.sort((a, b) => b - a)`: the same values, largest first. */
  function SortDescending(s: seq<int>): (r: seq<int>)
    ensures multiset(r) == multiset(s)
    ensures Descending(r)
  {
    if s == [] then []
    else
      assert s == [s[0]] + s[1..];
      InsertDescending(s[0], SortDescending(s[1..]))
  }

  /** Sorting a list without repeats gives a strictly descending list. */
  lemma {:induction false} SortDescendingStrict(s: seq<int>)
    requires NoDuplicates(s)
    ensures StrictlyDescending(SortDescending(s))
  {
    if s != [] {
      SortDescendingStrict(s[1..]);
      var rest := SortDescending(s[1..]);
      assert s[0] !in s[1..];
      assert s[0] !in multiset(s[1..]);
      assert s[0] !in rest by {
        assert forall y :: y in rest <==> y in multiset(rest);
      }
      InsertStrictlyDescending(s[0], rest);
    }
  }

  /** `s.reduce((acc, x) => acc + f(x), 0)` */
  function SumOf<T>(s: seq<T>, f: T -> int): int
  {
    if s == [] then 0 else SumOf(s[..|s| - 1], f) + f(s[|s| - 1])
  }

  lemma {:induction false} SumOfAppend<T>(a: seq<T>, b: seq<T>, f: T -> int)
    ensures SumOf(a + b, f) == SumOf(a, f) + SumOf(b, f)
  {
    if b == [] {
      assert a + b == a;
    } else {
      assert (a + b)[..|a + b| - 1] == a + b[..|b| - 1];
      SumOfAppend(a, b[..|b| - 1], f);
    }
  }

  /** Putting one element in front adds its share to the total. */
  lemma SumOfPrepend<T>(x: T, s: seq<T>, f: T -> int)
    ensures SumOf([x] + s, f) == f(x) + SumOf(s, f)
  {
    SumOfAppend([x], s, f);
    assert [x][..0] == [];
  }

  lemma {:induction false} SumOfNonNegative<T>(s: seq<T>, f: T -> int)
    requires forall x :: x in s ==> f(x) >= 0
    ensures SumOf(s, f) >= 0
  {
    if s != [] {
      SumOfNonNegative(s[..|s| - 1], f);
    }
  }

  /** Every element counts for nothing, so the total is zero. */
  lemma {:induction false} SumOfZero<T>(s: seq<T>, f: T -> int)
    requires forall i :: 0 <= i < |s| ==> f(s[i]) == 0
    ensures SumOf(s, f) == 0
  {
    if s != [] {
      SumOfZero(s[..|s| - 1], f);
    }
  }

  /** The list back to front: what prepending its elements one by one builds. */
  function Reversed<T>(s: seq<T>): (r: seq<T>)
    ensures |r| == |s|
    ensures forall i :: 0 <= i < |s| ==> r[i] == s[|s| - 1 - i]
  {
    if s == [] then [] else [s[|s| - 1]] + Reversed(s[..|s| - 1])
  }

  /** `s.filter(p).length` */
  function CountWhere<T(!new)>(s: seq<T>, p: T -> bool): (n: nat)
    ensures n <= |s|
  {
    |Filter(s, p)|
  }

  lemma CountWherePrepend<T(!new)>(x: T, s: seq<T>, p: T -> bool)
    ensures CountWhere([x] + s, p) == (if p(x) then 1 else 0) + CountWhere(s, p)
  {
    FilterAppend([x], s, p);
  }

  /** Every entry is non-empty and has no white space at either end. */
  predicate AllTrimmedNonEmpty(items: seq<string>)
  {
    forall x :: x in items ==> x != "" && IsTrimmed(x)
  }

  /**
    * The "add" button of a chip input: with `t` the trimmed input, `t` is
    * appended and the input cleared when `t` is non-empty and not already
    * listed; otherwise list and input are left as they were.
    */
  function AddTrimmedUnique(items: seq<string>, input: string): (r: (seq<string>, string))
    ensures items <= r.0 && |r.0| <= |items| + 1
    ensures |r.0| == |items| + 1 <==> Trim(input) != "" && Trim(input) !in items
    ensures |r.0| == |items| + 1 ==> r.0[|items|] == Trim(input) && r.1 == ""
    ensures |r.0| == |items| ==> r.1 == input
    ensures Trim(input) != "" ==> Trim(input) in r.0
  {
    var t := Trim(input);
    if t != "" && t !in items then (items + [t], "") else (items, input)
  }

  /** The chip list never holds the same entry twice, nor an empty or untrimmed one. */
  lemma AddTrimmedUniqueKeepsInvariant(items: seq<string>, input: string)
    requires NoDuplicates(items) && AllTrimmedNonEmpty(items)
    ensures NoDuplicates(AddTrimmedUnique(items, input).0)
    ensures AllTrimmedNonEmpty(AddTrimmedUnique(items, input).0)
  {
    var t := Trim(input);
    TrimIsTrimmed(input);
    if t != "" && t !in items {
      var r := items + [t];
      forall i, j | 0 <= i < j < |r| ensures r[i] != r[j] {
        if j == |items| {
          assert r[i] in items;
        }
      }
      forall x | x in r ensures x != "" && IsTrimmed(x) {
        assert x in items || x == t;
      }
    }
  }

  /** Adding the same input a second time changes nothing. */
  lemma AddTrimmedUniqueTwice(items: seq<string>, input: string)
    ensures var (once, _) := AddTrimmedUnique(items, input);
      AddTrimmedUnique(once, input).0 == once
  {
  }

  /** Removing after adding a new entry gives the original list back. */
  lemma AddThenRemove(items: seq<string>, input: string)
    requires Trim(input) != "" && Trim(input) !in items
    ensures RemoveAll(AddTrimmedUnique(items, input).0, Trim(input)) == items
  {
    var t := Trim(input);
    RemoveAllAppend(items, [t], t);
  }
}
