/**
 * Orderings the recommender gets from Python and pandas: `list.sort(key=...,
 * reverse=True)` (a stable sort by a key, largest first), the ascending order in
 * which pandas lays out the index and columns of a pivot table, and
 * `Series.unique()` (first appearance order).
 */
module Seqs {

  /** Keys never increase along `xs`. */
  ghost predicate SortedDesc<T>(xs: seq<T>, key: T -> real)
  {
    forall i, j | 0 <= i < j < |xs| :: key(xs[i]) >= key(xs[j])
  }

  /** Index of the first element whose key is below `x`'s key (the length if none). */
  function InsertPos<T>(sorted: seq<T>, x: T, key: T -> real): (k: nat)
    ensures k <= |sorted|
    ensures forall i | 0 <= i < k :: key(sorted[i]) >= key(x)
    ensures k < |sorted| ==> key(sorted[k]) < key(x)
  {
    if sorted == [] || key(sorted[0]) < key(x) then 0
    else 1 + InsertPos(sorted[1..], x, key)
  }

  /** Places `x` after every element whose key is at least `x`'s key. */
  function InsertDesc<T>(sorted: seq<T>, x: T, key: T -> real): (r: seq<T>)
    ensures multiset(r) == multiset(sorted) + multiset{x}
    ensures SortedDesc(sorted, key) ==> SortedDesc(r, key)
  {
    var k := InsertPos(sorted, x, key);
    assert sorted == sorted[..k] + sorted[k..];
    InsertDescSorted(sorted, x, key);
    sorted[..k] + [x] + sorted[k..]
  }

  lemma InsertDescSorted<T>(sorted: seq<T>, x: T, key: T -> real)
    ensures var k := InsertPos(sorted, x, key);
            SortedDesc(sorted, key) ==> SortedDesc(sorted[..k] + [x] + sorted[k..], key)
  {
    var k := InsertPos(sorted, x, key);
    var r := sorted[..k] + [x] + sorted[k..];
    if SortedDesc(sorted, key) {
      forall i, j | 0 <= i < j < |r| ensures key(r[i]) >= key(r[j]) {
        if j < k {
          assert r[i] == sorted[i] && r[j] == sorted[j];
        } else if j == k {
          assert r[i] == sorted[i] && r[j] == x;
        } else if i > k {
          assert r[i] == sorted[i - 1] && r[j] == sorted[j - 1];
        } else if i == k {
          assert r[i] == x && r[j] == sorted[j - 1];
          assert key(sorted[j - 1]) <= key(sorted[k]);
        } else {
          assert r[i] == sorted[i] && r[j] == sorted[j - 1];
        }
      }
    }
  }

  /**
   * `xs.sort(key=key, reverse=True)`: a stable insertion sort, each element
   * inserted behind the earlier ones with an equal or larger key.
   */
  function SortDesc<T>(xs: seq<T>, key: T -> real): (r: seq<T>)
    ensures multiset(r) == multiset(xs)
    ensures SortedDesc(r, key)
  {
    if xs == [] then []
    else
      var n := |xs| - 1;
      assert xs == xs[..n] + [xs[n]];
      InsertDesc(SortDesc(xs[..n], key), xs[n], key)
  }

  /** The elements of `xs` whose key is `v`, in their order in `xs`. */
  function WithKey<T>(xs: seq<T>, key: T -> real, v: real): seq<T>
  {
    if xs == [] then []
    else WithKey(xs[..|xs| - 1], key, v) + (if key(xs[|xs| - 1]) == v then [xs[|xs| - 1]] else [])
  }

  lemma {:induction false} WithKeyAppend<T>(a: seq<T>, b: seq<T>, key: T -> real, v: real)
    ensures WithKey(a + b, key, v) == WithKey(a, key, v) + WithKey(b, key, v)
    decreases |b|
  {
    if b == [] {
      assert a + b == a;
    } else {
      var n := |b| - 1;
      WithKeyAppend(a, b[..n], key, v);
      assert (a + b)[..|a + b| - 1] == a + b[..n];
    }
  }

  lemma {:induction false} WithKeyNone<T>(xs: seq<T>, key: T -> real, v: real)
    requires forall i | 0 <= i < |xs| :: key(xs[i]) != v
    ensures WithKey(xs, key, v) == []
  {
    if xs != [] {
      WithKeyNone(xs[..|xs| - 1], key, v);
    }
  }

  /** Past the insertion point of `x` no key equals `x`'s. */
  lemma BelowInsertPos<T>(s: seq<T>, x: T, key: T -> real)
    requires SortedDesc(s, key)
    ensures WithKey(s[InsertPos(s, x, key)..], key, key(x)) == []
  {
    var k := InsertPos(s, x, key);
    forall i | 0 <= i < |s[k..]| ensures key(s[k..][i]) != key(x) {
      assert s[k..][i] == s[k + i];
    }
    WithKeyNone(s[k..], key, key(x));
  }

  /** Writing `x` between two pieces adds it to the elements with its key. */
  lemma WithKeyBetween<T>(front: seq<T>, x: T, back: seq<T>, key: T -> real, v: real)
    ensures WithKey(front + [x] + back, key, v)
            == WithKey(front, key, v) + (if key(x) == v then [x] else []) + WithKey(back, key, v)
  {
    WithKeyAppend(front + [x], back, key, v);
    assert (front + [x])[..|front|] == front;
  }

  /** Inserting `x` into a sorted sequence puts it behind every element with its key. */
  lemma InsertDescStable<T>(s: seq<T>, x: T, key: T -> real, v: real)
    requires key(x) == v ==> WithKey(s[InsertPos(s, x, key)..], key, v) == []
    ensures WithKey(InsertDesc(s, x, key), key, v) == WithKey(s, key, v) + (if key(x) == v then [x] else [])
  {
    var k := InsertPos(s, x, key);
    var front, back := s[..k], s[k..];
    SplitAt(s, k);
    WithKeyAppend(front, back, key, v);
    WithKeyBetween(front, x, back, key, v);
    assert InsertDesc(s, x, key) == front + [x] + back;
    AppendEmpty(WithKey(front, key, v));
    AppendEmpty(WithKey(s, key, v));
  }

  /**
   * The sort is stable: elements with equal keys keep their relative order, so
   * among tied entries the earlier one stays ahead.
   */
  lemma {:induction false} SortDescStable<T>(xs: seq<T>, key: T -> real, v: real)
    ensures WithKey(SortDesc(xs, key), key, v) == WithKey(xs, key, v)
  {
    if xs != [] {
      var n := |xs| - 1;
      SortDescStable(xs[..n], key, v);
      BelowInsertPos(SortDesc(xs[..n], key), xs[n], key);
      InsertDescStable(SortDesc(xs[..n], key), xs[n], key, v);
    }
  }

  /** Sorting a sequence without repetitions gives one without repetitions. */
  lemma {:induction false} SortDescDistinct<T>(xs: seq<T>, key: T -> real)
    requires Distinct(xs)
    ensures Distinct(SortDesc(xs, key))
  {
    if xs != [] {
      var n := |xs| - 1;
      var s := SortDesc(xs[..n], key);
      SortDescDistinct(xs[..n], key);
      assert xs[n] !in multiset(s);
      InsertDescDistinct(s, xs[n], key);
    }
  }

  lemma InsertDescDistinct<T>(sorted: seq<T>, x: T, key: T -> real)
    requires Distinct(sorted) && x !in multiset(sorted)
    ensures Distinct(InsertDesc(sorted, x, key))
  {
    var k := InsertPos(sorted, x, key);
    var r := sorted[..k] + [x] + sorted[k..];
    forall i, j | 0 <= i < j < |r| ensures r[i] != r[j] {
      if j < k {
        assert r[i] == sorted[i] && r[j] == sorted[j];
      } else if j == k {
        assert r[i] == sorted[i] && r[j] == x;
        assert sorted[i] in multiset(sorted);
      } else if i > k {
        assert r[i] == sorted[i - 1] && r[j] == sorted[j - 1];
      } else if i == k {
        assert r[i] == x && r[j] == sorted[j - 1];
        assert sorted[j - 1] in multiset(sorted);
      } else {
        assert r[i] == sorted[i] && r[j] == sorted[j - 1];
      }
    }
  }

  /** In a sorted sequence, whatever lies past a prefix has a key no larger than anything in it. */
  lemma PrefixTop<T>(s: seq<T>, key: T -> real, m: nat, c: T)
    requires SortedDesc(s, key) && m <= |s|
    requires c in s && c !in s[..m]
    ensures forall x | x in s[..m] :: key(x) >= key(c)
  {
    var p :| 0 <= p < |s| && s[p] == c;
    assert p >= m;
    forall x | x in s[..m] ensures key(x) >= key(c) {
      var q :| 0 <= q < m && s[..m][q] == x;
    }
  }

  /**
   * `sorted(xs, key=key, reverse=True)[:k]` holds the largest keys: whatever
   * it left out has a key no larger than anything it kept.
   */
  lemma TakeSortedTop<T>(xs: seq<T>, key: T -> real, k: int, c: T)
    requires c in multiset(xs) && c !in Take(SortDesc(xs, key), k)
    ensures forall x | x in Take(SortDesc(xs, key), k) :: key(x) >= key(c)
  {
    var s := SortDesc(xs, key);
    var r := Take(s, k);
    assert c in multiset(s);
    PrefixTop(s, key, |r|, c);
  }

  /** Python's `xs[:k]`, including a negative `k` counting from the end. */
  function Take<T>(xs: seq<T>, k: int): (r: seq<T>)
    ensures |r| <= |xs|
    ensures k >= 0 ==> |r| == if k < |xs| then k else |xs|
    ensures k < 0 ==> |r| == if -k >= |xs| then 0 else |xs| + k
    ensures r == xs[..|r|]
  {
    if k >= |xs| then xs
    else if k >= 0 then xs[..k]
    else if -k >= |xs| then []
    else xs[..|xs| + k]
  }

  /** Elements strictly increase. */
  ghost predicate StrictlyIncreasing(xs: seq<int>)
  {
    forall i, j | 0 <= i < j < |xs| :: xs[i] < xs[j]
  }

  /** Adds `x` to an ascending sequence unless it is already there. */
  function InsertAsc(sorted: seq<int>, x: int): (r: seq<int>)
    requires StrictlyIncreasing(sorted)
    ensures StrictlyIncreasing(r)
    ensures forall y :: y in r <==> y in sorted || y == x
  {
    if sorted == [] then [x]
    else if x < sorted[0] then [x] + sorted
    else if x == sorted[0] then sorted
    else
      var t := InsertAsc(sorted[1..], x);
      assert forall y :: y in sorted <==> y == sorted[0] || y in sorted[1..] by {
        assert sorted == [sorted[0]] + sorted[1..];
      }
      assert forall i | 0 <= i < |t| :: sorted[0] < t[i] by {
        forall i | 0 <= i < |t| ensures sorted[0] < t[i] {
          assert t[i] in t;
        }
      }
      [sorted[0]] + t
  }

  /** The distinct values of `xs` in ascending order (pandas' sorted index labels). */
  function Ascending(xs: seq<int>): (r: seq<int>)
    ensures StrictlyIncreasing(r)
    ensures forall y :: y in r <==> y in xs
  {
    if xs == [] then []
    else
      var n := |xs| - 1;
      assert forall y :: y in xs <==> y in xs[..n] || y == xs[n] by {
        assert xs == xs[..n] + [xs[n]];
      }
      InsertAsc(Ascending(xs[..n]), xs[n])
  }

  /** The tail of an ascending sequence holds everything but its head. */
  lemma TailMembers(a: seq<int>)
    requires a != [] && StrictlyIncreasing(a)
    ensures forall y :: y in a[1..] <==> y in a && y != a[0]
  {
    assert a == [a[0]] + a[1..];
    forall y | y in a[1..] ensures y != a[0] {
      var k :| 0 <= k < |a[1..]| && a[1..][k] == y;
      assert a[k + 1] == y;
    }
  }

  lemma HeadIn(a: seq<int>)
    ensures a != [] ==> a[0] in a
  {
  }

  /** An ascending sequence without repetitions is determined by its elements. */
  lemma {:induction false} IncreasingUnique(a: seq<int>, b: seq<int>)
    requires StrictlyIncreasing(a) && StrictlyIncreasing(b)
    requires forall y :: y in a <==> y in b
    ensures a == b
  {
    if a == [] {
      if b != [] {
        HeadIn(b);
        assert false;
      }
    } else if b == [] {
      HeadIn(a);
      assert false;
    } else {
      assert b[0] in a && a[0] in b;
      assert a[0] == b[0];
      TailMembers(a);
      TailMembers(b);
      IncreasingUnique(a[1..], b[1..]);
      assert a == [a[0]] + a[1..];
      assert b == [b[0]] + b[1..];
    }
  }

  /** No element occurs twice. */
  ghost predicate Distinct<T>(xs: seq<T>)
  {
    forall i, j | 0 <= i < j < |xs| :: xs[i] != xs[j]
  }

  /** `pd.Series(xs).unique()`: each value once, in order of first appearance. */
  function Unique(xs: seq<int>): (r: seq<int>)
    ensures Distinct(r)
    ensures forall x :: x in r <==> x in xs
    ensures |r| <= |xs|
    ensures forall i, j | 0 <= i < j < |r| :: IndexOf(xs, r[i]) < IndexOf(xs, r[j])
  {
    if xs == [] then []
    else
      var n := |xs| - 1;
      var u := Unique(xs[..n]);
      assert forall x :: x in xs <==> x in xs[..n] || x == xs[n] by {
        assert xs == xs[..n] + [xs[n]];
      }
      forall y | y in u ensures IndexOf(xs, y) == IndexOf(xs[..n], y) < n {
        IndexOfPrefix(xs, n, y);
      }
      if xs[n] in u then u
      else
        FirstIndex(xs, xs[n], n);
        u + [xs[n]]
  }

  /** No two elements share a first component. */
  ghost predicate DistinctIds<V>(ps: seq<(int, V)>)
  {
    forall i, j | 0 <= i < j < |ps| :: ps[i].0 != ps[j].0
  }

  lemma TwiceCounted<T>(xs: seq<T>, i: int, j: int)
    requires 0 <= i < j < |xs| && xs[i] == xs[j]
    ensures multiset(xs)[xs[i]] >= 2
  {
    assert xs == xs[..j] + [xs[j]] + xs[j + 1..];
    assert xs[..j][i] == xs[i];
  }

  lemma CountedTwice<T>(xs: seq<T>, x: T) returns (i: int, j: int)
    requires multiset(xs)[x] >= 2
    ensures 0 <= i < j < |xs| && xs[i] == x && xs[j] == x
  {
    assert x in multiset(xs);
    i := IndexOf(xs, x);
    assert xs == xs[..i] + [x] + xs[i + 1..];
    assert multiset(xs[..i])[x] == 0;
    assert x in multiset(xs[i + 1..]);
    var k :| 0 <= k < |xs[i + 1..]| && xs[i + 1..][k] == x;
    j := i + 1 + k;
  }

  /** Rearranging pairs keeps their first components distinct. */
  lemma PermutationDistinctIds<V>(a: seq<(int, V)>, b: seq<(int, V)>)
    requires multiset(a) == multiset(b) && DistinctIds(a)
    ensures DistinctIds(b)
  {
    forall i, j | 0 <= i < j < |b| ensures b[i].0 != b[j].0 {
      if b[i] == b[j] {
        TwiceCounted(b, i, j);
        var p, q := CountedTwice(a, b[i]);
      } else {
        assert b[i] in multiset(a) && b[j] in multiset(a);
        var p :| 0 <= p < |a| && a[p] == b[i];
        var q :| 0 <= q < |a| && a[q] == b[j];
        assert p != q;
      }
    }
  }

  /** Cutting out position `k` removes one occurrence of `xs[k]`. */
  lemma RemoveAt<T>(xs: seq<T>, k: nat)
    requires k < |xs|
    ensures multiset(xs[..k] + xs[k + 1..]) == multiset(xs) - multiset{xs[k]}
  {
    assert xs == xs[..k] + [xs[k]] + xs[k + 1..];
  }

  lemma AppendEmpty<T>(xs: seq<T>)
    ensures xs + [] == xs
  {
  }

  /** A non-empty sequence is its head followed by its tail. */
  lemma HeadTail<T>(xs: seq<T>)
    requires xs != []
    ensures [xs[0]] + xs[1..] == xs
  {
  }

  /** A sequence is its prefix followed by the rest. */
  lemma SplitAt<T>(xs: seq<T>, k: int)
    requires 0 <= k <= |xs|
    ensures xs[..k] + xs[k..] == xs
  {
  }

  /** Position of the first occurrence of `x` in a sequence that holds it. */
  function IndexOf<T(==)>(xs: seq<T>, x: T): (i: nat)
    requires x in xs
    ensures i < |xs| && xs[i] == x && x !in xs[..i]
  {
    if xs[0] == x then 0 else 1 + IndexOf(xs[1..], x)
  }

  /** Only one position holds the first occurrence. */
  lemma FirstIndex<T>(xs: seq<T>, x: T, i: int)
    requires 0 <= i < |xs| && xs[i] == x && x !in xs[..i]
    ensures IndexOf(xs, x) == i
  {
  }

  /** A value met within a prefix is first met at the same place in the whole. */
  lemma IndexOfPrefix<T>(xs: seq<T>, n: nat, x: T)
    requires n <= |xs| && x in xs[..n]
    ensures IndexOf(xs, x) == IndexOf(xs[..n], x)
  {
    var j := IndexOf(xs[..n], x);
    assert xs[..n][..j] == xs[..j];
    FirstIndex(xs, x, j);
  }
}
