/**
 * `Array.prototype.sort` with a descending numeric comparator
 * `(a, b) => key(b) - key(a)`. The sort is stable (ECMAScript 2019
 * onwards), so elements with equal keys keep their relative order.
 *
 * SortDesc is the reference definition (insertion of each element, left
 * to right, after every element whose key is not smaller); the lemmas
 * give what a caller relies on: the result is non-increasing, is a
 * permutation, and keeps the input order among equal keys.
 * InsertionSortDesc is the in-place version on an array.
 */
module StableSort {

  ghost predicate SortedDesc<T>(s: seq<T>, key: T -> int) {
    forall i, j :: 0 <= i < j < |s| ==> key(s[i]) >= key(s[j])
  }

  /** x occurs somewhere before y. */
  ghost predicate Before<T>(s: seq<T>, x: T, y: T) {
    exists i, j :: 0 <= i < j < |s| && s[i] == x && s[j] == y
  }

  ghost predicate Distinct<T>(s: seq<T>) {
    forall i, j :: 0 <= i < j < |s| ==> s[i] != s[j]
  }

  /** Places x after every element whose key is at least key(x). */
  function Insert<T>(s: seq<T>, x: T, key: T -> int): seq<T> {
    if s == [] then [x]
    else if key(s[0]) < key(x) then [x] + s
    else [s[0]] + Insert(s[1..], x, key)
  }

  function SortDesc<T>(s: seq<T>, key: T -> int): seq<T> {
    if s == [] then [] else Insert(SortDesc(s[..|s| - 1], key), s[|s| - 1], key)
  }

  /** The elements whose key is k, in their order of appearance. */
  function WithKey<T>(s: seq<T>, k: int, key: T -> int): seq<T> {
    if s == [] then [] else KeepIf(s[0], k, key) + WithKey(s[1..], k, key)
  }

  /** [x] when x has key k, [] otherwise. */
  function KeepIf<T>(x: T, k: int, key: T -> int): seq<T> {
    if key(x) == k then [x] else []
  }

  function SumOf<T>(s: seq<T>, key: T -> int): int {
    if s == [] then 0 else key(s[0]) + SumOf(s[1..], key)
  }

  lemma SortedTail<T>(s: seq<T>, key: T -> int)
    requires SortedDesc(s, key) && s != []
    ensures SortedDesc(s[1..], key)
  {
    var t := s[1..];
    forall i, j | 0 <= i < j < |t|
      ensures key(t[i]) >= key(t[j])
    {
      assert t[i] == s[i + 1] && t[j] == s[j + 1];
    }
  }

  // ---- Insert ----

  lemma {:induction false} InsertPermutes<T>(s: seq<T>, x: T, key: T -> int)
    ensures |Insert(s, x, key)| == |s| + 1
    ensures multiset(Insert(s, x, key)) == multiset(s) + multiset{x}
  {
    if s != [] && key(s[0]) >= key(x) {
      InsertPermutes(s[1..], x, key);
      assert s == [s[0]] + s[1..];
    }
  }

  lemma {:induction false} InsertSorted<T>(s: seq<T>, x: T, key: T -> int)
    requires SortedDesc(s, key)
    ensures SortedDesc(Insert(s, x, key), key)
  {
    if s != [] && key(s[0]) >= key(x) {
      SortedTail(s, key);
      InsertSorted(s[1..], x, key);
      var r := Insert(s[1..], x, key);
      if s[1..] != [] {
        assert key(s[0]) >= key(s[1]);
      }
      assert r[0] == x || r[0] == s[1..][0];
      ConsSorted(s[0], r, key);
    }
  }

  /** A sorted sequence stays sorted under a head at least its first key. */
  lemma ConsSorted<T>(h: T, r: seq<T>, key: T -> int)
    requires SortedDesc(r, key)
    requires r != [] ==> key(h) >= key(r[0])
    ensures SortedDesc([h] + r, key)
  {
    var c := [h] + r;
    forall i, j | 0 <= i < j < |c|
      ensures key(c[i]) >= key(c[j])
    {
      assert c[j] == r[j - 1];
      if i == 0 {
        assert j - 1 > 0 ==> key(r[0]) >= key(r[j - 1]);
      } else {
        assert c[i] == r[i - 1];
      }
    }
  }

  lemma {:induction false} WithKeyAppend<T>(a: seq<T>, b: seq<T>, k: int, key: T -> int)
    ensures WithKey(a + b, k, key) == WithKey(a, k, key) + WithKey(b, k, key)
  {
    if a == [] {
      assert a + b == b;
    } else {
      var h, t := KeepIf(a[0], k, key), a[1..];
      assert (a + b)[0] == a[0] && (a + b)[1..] == t + b;
      WithKeyAppend(t, b, k, key);
      calc {
        WithKey(a + b, k, key);
        h + WithKey(t + b, k, key);
        h + (WithKey(t, k, key) + WithKey(b, k, key));
        (h + WithKey(t, k, key)) + WithKey(b, k, key);
      }
    }
  }

  lemma WithKeyCons<T>(h: T, t: seq<T>, k: int, key: T -> int)
    ensures WithKey([h] + t, k, key) == KeepIf(h, k, key) + WithKey(t, k, key)
  {
    assert ([h] + t)[0] == h && ([h] + t)[1..] == t;
  }

  lemma {:induction false} WithKeyNone<T>(s: seq<T>, k: int, key: T -> int)
    requires forall i :: 0 <= i < |s| ==> key(s[i]) < k
    ensures WithKey(s, k, key) == []
  {
    if s != [] {
      WithKeyNone(s[1..], k, key);
    }
  }

  /** Inserting into a sorted sequence puts x after its equals. */
  lemma {:induction false} InsertStable<T>(s: seq<T>, x: T, k: int, key: T -> int)
    requires SortedDesc(s, key)
    ensures WithKey(Insert(s, x, key), k, key) == WithKey(s, k, key) + KeepIf(x, k, key)
  {
    if s == [] {
      assert WithKey([x], k, key) == KeepIf(x, k, key) + WithKey([], k, key);
    } else if key(s[0]) < key(x) {
      InsertStableFront(s, x, k, key);
    } else {
      SortedTail(s, key);
      InsertStable(s[1..], x, k, key);
      InsertStableStep(s, x, k, key);
    }
  }

  /** x goes in front of a sorted s whose keys are all smaller. */
  lemma InsertStableFront<T>(s: seq<T>, x: T, k: int, key: T -> int)
    requires SortedDesc(s, key) && s != [] && key(s[0]) < key(x)
    ensures WithKey(Insert(s, x, key), k, key) == WithKey(s, k, key) + KeepIf(x, k, key)
  {
    assert Insert(s, x, key) == [x] + s;
    WithKeyCons(x, s, k, key);
    if key(x) == k {
      forall m | 0 <= m < |s|
        ensures key(s[m]) < k
      {
        assert m > 0 ==> key(s[0]) >= key(s[m]);
      }
      WithKeyNone(s, k, key);
    }
  }

  /** x goes past s[0]: the statement for s follows from the one for s[1..]. */
  lemma InsertStableStep<T>(s: seq<T>, x: T, k: int, key: T -> int)
    requires s != [] && key(s[0]) >= key(x)
    requires WithKey(Insert(s[1..], x, key), k, key) == WithKey(s[1..], k, key) + KeepIf(x, k, key)
    ensures WithKey(Insert(s, x, key), k, key) == WithKey(s, k, key) + KeepIf(x, k, key)
  {
    var r := Insert(s[1..], x, key);
    assert Insert(s, x, key) == [s[0]] + r;
    WithKeyCons(s[0], r, k, key);
    calc {
      WithKey(Insert(s, x, key), k, key);
      KeepIf(s[0], k, key) + WithKey(r, k, key);
      KeepIf(s[0], k, key) + (WithKey(s[1..], k, key) + KeepIf(x, k, key));
      (KeepIf(s[0], k, key) + WithKey(s[1..], k, key)) + KeepIf(x, k, key);
    }
  }

  lemma {:induction false} InsertSum<T>(s: seq<T>, x: T, key: T -> int)
    ensures SumOf(Insert(s, x, key), key) == SumOf(s, key) + key(x)
  {
    if s == [] {
    } else if key(s[0]) < key(x) {
      assert ([x] + s)[1..] == s;
    } else {
      InsertSum(s[1..], x, key);
      assert ([s[0]] + Insert(s[1..], x, key))[1..] == Insert(s[1..], x, key);
    }
  }

  /** The position Insert picks, described from the outside: after the
      elements whose key is at least key(x), before the smaller ones. */
  lemma {:induction false} InsertAt<T>(s: seq<T>, x: T, j: nat, key: T -> int)
    requires j <= |s|
    requires forall m :: 0 <= m < j ==> key(s[m]) >= key(x)
    requires forall m :: j <= m < |s| ==> key(s[m]) < key(x)
    ensures Insert(s, x, key) == s[..j] + [x] + s[j..]
  {
    if j == 0 {
      assert s[j..] == s;
      if s != [] {
        assert key(s[0]) < key(x);
      }
    } else {
      var t := s[1..];
      forall m | 0 <= m < |t|
        ensures t[m] == s[m + 1]
      {
      }
      InsertAt(t, x, j - 1, key);
      InsertAtStep(s, x, j, key);
    }
  }

  lemma InsertAtStep<T>(s: seq<T>, x: T, j: nat, key: T -> int)
    requires 0 < j <= |s| && key(s[0]) >= key(x)
    requires Insert(s[1..], x, key) == s[1..][..j - 1] + [x] + s[1..][j - 1..]
    ensures Insert(s, x, key) == s[..j] + [x] + s[j..]
  {
    var r := Insert(s[1..], x, key);
    var lhs := [s[0]] + r;
    var rhs := s[..j] + [x] + s[j..];
    assert Insert(s, x, key) == lhs;
    assert |r| == |s| && |lhs| == |rhs|;
    forall m | 0 <= m < |lhs|
      ensures lhs[m] == rhs[m]
    {
      if m == 0 {
      } else if m < j {
        assert lhs[m] == r[m - 1] == s[1..][m - 1] == s[m];
      } else if m == j {
        assert lhs[m] == r[j - 1] == x;
      } else {
        assert lhs[m] == r[m - 1] == s[1..][m - 2] == s[m - 1];
      }
    }
  }

  // ---- SortDesc ----

  /** The sorted output is non-increasing and a permutation of the input. */
  lemma {:induction false} SortDescPermutes<T>(s: seq<T>, key: T -> int)
    ensures |SortDesc(s, key)| == |s|
    ensures multiset(SortDesc(s, key)) == multiset(s)
    ensures SortedDesc(SortDesc(s, key), key)
  {
    if s != [] {
      var init := s[..|s| - 1];
      SortDescPermutes(init, key);
      InsertPermutes(SortDesc(init, key), s[|s| - 1], key);
      InsertSorted(SortDesc(init, key), s[|s| - 1], key);
      assert s == init + [s[|s| - 1]];
    }
  }

  /** Stability: for every key, the elements carrying it appear in the
      output in exactly the order in which they appear in the input. */
  lemma {:induction false} SortDescStable<T>(s: seq<T>, k: int, key: T -> int)
    ensures WithKey(SortDesc(s, key), k, key) == WithKey(s, k, key)
  {
    if s != [] {
      var init := s[..|s| - 1];
      var x := s[|s| - 1];
      SortDescStable(init, k, key);
      SortDescPermutes(init, key);
      InsertStable(SortDesc(init, key), x, k, key);
      assert s == init + [x];
      WithKeyAppend(init, [x], k, key);
      assert [x][1..] == [];
    }
  }

  lemma {:induction false} SortDescSum<T>(s: seq<T>, key: T -> int)
    ensures SumOf(SortDesc(s, key), key) == SumOf(s, key)
  {
    if s != [] {
      var init := s[..|s| - 1];
      var x := s[|s| - 1];
      SortDescSum(init, key);
      InsertSum(SortDesc(init, key), x, key);
      assert s == init + [x];
      SumAppend(init, [x], key);
    }
  }

  lemma {:induction false} SumAppend<T>(a: seq<T>, b: seq<T>, key: T -> int)
    ensures SumOf(a + b, key) == SumOf(a, key) + SumOf(b, key)
  {
    if a == [] {
      assert a + b == b;
    } else {
      assert (a + b)[1..] == a[1..] + b;
      SumAppend(a[1..], b, key);
    }
  }

  /** Order among equal keys seen through WithKey. */
  lemma {:induction false} BeforeInWithKey<T>(s: seq<T>, x: T, y: T, key: T -> int)
    requires key(x) == key(y)
    ensures Before(WithKey(s, key(x), key), x, y) <==> Before(s, x, y)
  {
    var k := key(x);
    if s == [] {
    } else {
      var w := WithKey(s[1..], k, key);
      BeforeInWithKey(s[1..], x, y, key);
      MemberWithKey(s[1..], y, key);
      if key(s[0]) == k {
        assert WithKey(s, k, key) == [s[0]] + w;
        BeforeCons(s[0], w, x, y);
      } else {
        assert WithKey(s, k, key) == w;
      }
      BeforeCons(s[0], s[1..], x, y);
      assert s == [s[0]] + s[1..];
    }
  }

  lemma MemberWithKey<T>(s: seq<T>, y: T, key: T -> int)
    ensures y in WithKey(s, key(y), key) <==> y in s
  {
    if s != [] {
      MemberWithKey(s[1..], y, key);
      assert s == [s[0]] + s[1..];
    }
  }

  lemma BeforeCons<T>(h: T, t: seq<T>, x: T, y: T)
    ensures Before([h] + t, x, y) <==> (h == x && y in t) || Before(t, x, y)
  {
    var s := [h] + t;
    if Before(s, x, y) {
      var i, j :| 0 <= i < j < |s| && s[i] == x && s[j] == y;
      if i > 0 {
        assert t[i - 1] == x && t[j - 1] == y;
      } else {
        assert t[j - 1] == y;
      }
    }
    if h == x && y in t {
      var j :| 0 <= j < |t| && t[j] == y;
      assert s[0] == x && s[j + 1] == y;
    }
    if Before(t, x, y) {
      var i, j :| 0 <= i < j < |t| && t[i] == x && t[j] == y;
      assert s[i + 1] == x && s[j + 1] == y;
    }
  }

  /** Ties come out in input order: if x is output before y and both carry
      the same key, x came before y in the input. */
  lemma SortDescKeepsTieOrder<T>(s: seq<T>, x: T, y: T, key: T -> int)
    requires key(x) == key(y)
    requires Before(SortDesc(s, key), x, y)
    ensures Before(s, x, y)
  {
    BeforeInWithKey(SortDesc(s, key), x, y, key);
    SortDescStable(s, key(x), key);
    BeforeInWithKey(s, x, y, key);
  }

  /** In a sorted sequence, nothing after position m has a larger key than
      anything before it. */
  lemma SortedSplit<T>(s: seq<T>, m: nat, o: T, t: T, key: T -> int)
    requires SortedDesc(s, key) && m <= |s|
    requires o in s[m..] && t in s[..m]
    ensures key(o) <= key(t)
  {
    var q :| 0 <= q < |s| - m && s[m..][q] == o;
    var p :| 0 <= p < m && s[..m][p] == t;
    assert s[p] == t && s[m + q] == o;
  }

  /** The first m elements of a sorted permutation of orig are drawn from
      orig, and what is left of orig never has a larger key than them. */
  lemma SortedPrefixDominates<T>(s: seq<T>, orig: seq<T>, m: nat, key: T -> int)
    requires SortedDesc(s, key) && multiset(s) == multiset(orig) && m <= |s|
    ensures multiset(s[..m]) <= multiset(orig)
    ensures forall o, t :: o in multiset(orig) - multiset(s[..m]) && t in s[..m] ==> key(o) <= key(t)
  {
    assert s == s[..m] + s[m..];
    assert multiset(orig) - multiset(s[..m]) == multiset(s[m..]);
    forall o, t | o in multiset(orig) - multiset(s[..m]) && t in s[..m]
      ensures key(o) <= key(t)
    {
      SortedSplit(s, m, o, t, key);
    }
  }

  lemma {:induction false} DistinctOccursOnce<T>(s: seq<T>, x: T)
    requires Distinct(s)
    ensures multiset(s)[x] <= 1
  {
    if s != [] {
      assert s == [s[0]] + s[1..];
      assert Distinct(s[1..]) by {
        forall i, j | 0 <= i < j < |s[1..]|
          ensures s[1..][i] != s[1..][j]
        {
          assert s[1..][i] == s[i + 1] && s[1..][j] == s[j + 1];
        }
      }
      DistinctOccursOnce(s[1..], x);
      if s[0] == x {
        assert x !in s[1..];
      }
    }
  }

  /** Reordering cannot create duplicates. */
  lemma PermutationKeepsDistinct<T>(a: seq<T>, b: seq<T>)
    requires Distinct(a)
    requires multiset(a) == multiset(b)
    ensures Distinct(b)
  {
    forall i, j | 0 <= i < j < |b|
      ensures b[i] != b[j]
    {
      DistinctOccursOnce(a, b[i]);
      RepeatedOccursTwice(b, i, j);
    }
  }

  lemma RepeatedOccursTwice<T>(b: seq<T>, i: nat, j: nat)
    requires i < j < |b|
    ensures b[i] == b[j] ==> multiset(b)[b[i]] >= 2
  {
    assert b == b[..j] + [b[j]] + b[j + 1..];
    assert b[i] in b[..j];
  }

  // ---- the in-place sort ----

  /** Sorts the array in place, as `a.sort((p, q) => key(q) - key(p))`. */
  method InsertionSortDesc<T>(a: array<T>, key: T -> int)
    modifies a
    ensures a[..] == SortDesc(old(a[..]), key)
  {
    ghost var orig := a[..];
    var i := 0;
    while i < a.Length
      invariant 0 <= i <= a.Length
      invariant a[..i] == SortDesc(orig[..i], key)
      invariant a[i..] == orig[i..]
    {
      SortDescPermutes(orig[..i], key);
      InsertLast(a, i, key);
      assert orig[..i + 1] == orig[..i] + [orig[i]];
      assert orig[..i + 1][..i] == orig[..i];
      i := i + 1;
    }
    assert a[..] == a[..a.Length];
    assert orig[..a.Length] == orig;
  }

  /** One step of the insertion sort: a[i] moves left into the sorted
      prefix a[..i], past every element with a smaller key. */
  method InsertLast<T>(a: array<T>, i: nat, key: T -> int)
    requires i < a.Length
    requires SortedDesc(a[..i], key)
    modifies a
    ensures a[..i + 1] == Insert(old(a[..i]), old(a[i]), key)
    ensures a[i + 1..] == old(a[i + 1..])
  {
    var x := a[i];
    ghost var sorted := a[..i];
    var j := i;
    while j > 0 && key(a[j - 1]) < key(x)
      invariant 0 <= j <= i
      invariant forall m :: 0 <= m < j ==> a[m] == sorted[m]
      invariant forall m :: j < m <= i ==> a[m] == sorted[m - 1]
      invariant forall m :: j <= m < i ==> key(sorted[m]) < key(x)
      invariant forall m :: i < m < a.Length ==> a[m] == old(a[m])
    {
      a[j] := a[j - 1];
      j := j - 1;
    }
    a[j] := x;
    SortedAbove(sorted, x, j, key);
    ShiftedIsInsert(a[..i + 1], sorted, x, j, key);
    assert a[i + 1..] == old(a[i + 1..]);
  }

  /** Everything before position j of a sorted s has a key at least key(x)
      when s[j - 1] does. */
  lemma SortedAbove<T>(s: seq<T>, x: T, j: nat, key: T -> int)
    requires SortedDesc(s, key) && j <= |s|
    requires j > 0 ==> key(s[j - 1]) >= key(x)
    ensures forall m :: 0 <= m < j ==> key(s[m]) >= key(x)
  {
    forall m | 0 <= m < j
      ensures key(s[m]) >= key(x)
    {
      assert m < j - 1 ==> key(s[m]) >= key(s[j - 1]);
    }
  }

  /** The array after the shifting loop, read as a sequence: s with x
      placed at position j is exactly Insert(s, x). */
  lemma ShiftedIsInsert<T>(b: seq<T>, s: seq<T>, x: T, j: nat, key: T -> int)
    requires j <= |s| && |b| == |s| + 1
    requires forall m :: 0 <= m < j ==> b[m] == s[m] && key(s[m]) >= key(x)
    requires b[j] == x
    requires forall m :: j < m < |b| ==> b[m] == s[m - 1]
    requires forall m :: j <= m < |s| ==> key(s[m]) < key(x)
    ensures b == Insert(s, x, key)
  {
    InsertAt(s, x, j, key);
    var target := s[..j] + [x] + s[j..];
    forall m | 0 <= m < |b|
      ensures b[m] == target[m]
    {
      if m < j {
        assert target[m] == s[m];
      } else if m > j {
        assert target[m] == s[m - 1];
      }
    }
  }
}
