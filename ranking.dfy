/** The stable sort the search uses to rank its candidates: descending by an
    integer key, ties kept in their original order. It is written as an
    insertion sort; any stable sort gives the same sequence. */
module StableRanking {

  /** Keys never increase from left to right. */
  predicate SortedDesc<T>(s: seq<T>, key: T -> int) {
    forall i, j :: 0 <= i < j < |s| ==> key(s[i]) >= key(s[j])
  }

  /** Descending by `key`, and among equal keys ascending by `order`. */
  predicate Ranked<T>(s: seq<T>, key: T -> int, order: T -> int) {
    forall i, j :: 0 <= i < j < |s| ==> Before(s[i], s[j], key, order)
  }

  predicate Before<T>(a: T, b: T, key: T -> int, order: T -> int) {
    key(a) > key(b) || (key(a) == key(b) && order(a) < order(b))
  }

  /** The elements whose key is `k`, in their order in `s`. */
  function WithKey<T>(s: seq<T>, key: T -> int, k: int): (r: seq<T>)
    ensures forall x :: x in r ==> x in s && key(x) == k
  {
    if |s| == 0 then []
    else (if key(s[0]) == k then [s[0]] else []) + WithKey(s[1..], key, k)
  }

  /** Puts `x` after every element of `s` whose key is at least its own. */
  function Insert<T>(x: T, s: seq<T>, key: T -> int): (r: seq<T>)
    ensures |r| == |s| + 1
    ensures multiset(r) == multiset(s) + multiset{x}
  {
    if |s| == 0 then [x]
    else if key(s[0]) >= key(x) then
      assert s == [s[0]] + s[1..];
      [s[0]] + Insert(x, s[1..], key)
    else [x] + s
  }

  /** The stable descending sort: each element in turn is inserted into the
      sorted run of the elements before it. */
  function SortByKeyDesc<T>(s: seq<T>, key: T -> int): (r: seq<T>)
    ensures |r| == |s|
    ensures multiset(r) == multiset(s)
  {
    if |s| == 0 then []
    else
      assert s == s[..|s| - 1] + [s[|s| - 1]];
      Insert(s[|s| - 1], SortByKeyDesc(s[..|s| - 1], key), key)
  }

  lemma {:induction false} InsertSorted<T>(x: T, s: seq<T>, key: T -> int)
    requires SortedDesc(s, key)
    ensures SortedDesc(Insert(x, s, key), key)
  {
    if |s| > 0 && key(s[0]) >= key(x) {
      InsertSorted(x, s[1..], key);
      var r := Insert(x, s[1..], key);
      forall y | y in r ensures key(s[0]) >= key(y) {
        assert y in multiset(r);
      }
      forall i, j | 0 <= i < j < |r| + 1 ensures key(([s[0]] + r)[i]) >= key(([s[0]] + r)[j]) {
        if i == 0 { assert ([s[0]] + r)[j] in r; }
      }
    }
  }

  /** The result is sorted, whatever the input. */
  lemma {:induction false} SortIsSorted<T>(s: seq<T>, key: T -> int)
    ensures SortedDesc(SortByKeyDesc(s, key), key)
  {
    if |s| > 0 {
      SortIsSorted(s[..|s| - 1], key);
      InsertSorted(s[|s| - 1], SortByKeyDesc(s[..|s| - 1], key), key);
    }
  }

  lemma {:induction false} WithKeyAppend<T>(a: seq<T>, b: seq<T>, key: T -> int, k: int)
    ensures WithKey(a + b, key, k) == WithKey(a, key, k) + WithKey(b, key, k)
  {
    if |a| > 0 {
      WithKeyAppend(a[1..], b, key, k);
      assert (a + b)[0] == a[0];
      assert (a + b)[1..] == a[1..] + b;
    } else {
      assert a + b == b;
    }
  }

  lemma {:induction false} WithKeyAbsent<T>(s: seq<T>, key: T -> int, k: int)
    requires forall i :: 0 <= i < |s| ==> key(s[i]) != k
    ensures WithKey(s, key, k) == []
  {
    if |s| > 0 {
      WithKeyAbsent(s[1..], key, k);
    }
  }

  lemma SortedTail<T>(s: seq<T>, key: T -> int)
    requires |s| > 0 && SortedDesc(s, key)
    ensures SortedDesc(s[1..], key)
    ensures forall j :: 0 <= j < |s| ==> key(s[0]) >= key(s[j])
  {
    forall i, j | 0 <= i < j < |s| - 1 ensures key(s[1..][i]) >= key(s[1..][j]) {
      assert s[1..][i] == s[i + 1] && s[1..][j] == s[j + 1];
    }
  }

  lemma {:induction false} InsertWithKey<T>(x: T, s: seq<T>, key: T -> int, k: int)
    requires SortedDesc(s, key)
    ensures WithKey(Insert(x, s, key), key, k) == WithKey(s, key, k) + (if key(x) == k then [x] else [])
  {
    if |s| == 0 {
    } else if key(s[0]) >= key(x) {
      SortedTail(s, key);
      InsertWithKey(x, s[1..], key, k);
      InsertPastHead(x, s, key, k);
    } else {
      InsertAtFront(x, s, key, k);
    }
  }

  lemma InsertPastHead<T>(x: T, s: seq<T>, key: T -> int, k: int)
    requires |s| > 0 && key(s[0]) >= key(x)
    requires WithKey(Insert(x, s[1..], key), key, k) == WithKey(s[1..], key, k) + (if key(x) == k then [x] else [])
    ensures WithKey(Insert(x, s, key), key, k) == WithKey(s, key, k) + (if key(x) == k then [x] else [])
  {
    var rest, head := Insert(x, s[1..], key), if key(s[0]) == k then [s[0]] else [];
    var a, tail := WithKey(s[1..], key, k), if key(x) == k then [x] else [];
    assert Insert(x, s, key) == [s[0]] + rest;
    WithKeyCons(s[0], rest, key, k);
    assert WithKey(s, key, k) == head + a;
    calc {
      WithKey([s[0]] + rest, key, k);
      head + WithKey(rest, key, k);
      head + (a + tail);
      { ConcatAssoc(head, a, tail); }
      (head + a) + tail;
    }
  }

  lemma ConcatAssoc<T>(a: seq<T>, b: seq<T>, c: seq<T>)
    ensures a + (b + c) == (a + b) + c
  {
  }

  lemma InsertAtFront<T>(x: T, s: seq<T>, key: T -> int, k: int)
    requires |s| > 0 && key(s[0]) < key(x) && SortedDesc(s, key)
    ensures WithKey(Insert(x, s, key), key, k) == WithKey(s, key, k) + (if key(x) == k then [x] else [])
  {
    SortedTail(s, key);
    WithKeyCons(x, s, key, k);
    if key(x) == k {
      WithKeyAbsent(s, key, k);
    }
  }

  lemma WithKeyCons<T>(h: T, s: seq<T>, key: T -> int, k: int)
    ensures WithKey([h] + s, key, k) == (if key(h) == k then [h] else []) + WithKey(s, key, k)
  {
    assert ([h] + s)[0] == h && ([h] + s)[1..] == s;
  }

  /** Stability: for every key, the elements carrying it come out in the
      order they went in. */
  lemma {:induction false} SortIsStable<T>(s: seq<T>, key: T -> int, k: int)
    ensures WithKey(SortByKeyDesc(s, key), key, k) == WithKey(s, key, k)
  {
    if |s| > 0 {
      var init, last := s[..|s| - 1], s[|s| - 1];
      var tail := if key(last) == k then [last] else [];
      assert s == init + [last];
      calc {
        WithKey(SortByKeyDesc(s, key), key, k);
        { SortStepWithKey(init, last, key, k); }
        WithKey(SortByKeyDesc(init, key), key, k) + tail;
        { SortIsStable(init, key, k); }
        WithKey(init, key, k) + tail;
        { LastWithKey(init, last, key, k); }
        WithKey(s, key, k);
      }
    }
  }

  lemma SortStepWithKey<T>(init: seq<T>, last: T, key: T -> int, k: int)
    ensures WithKey(SortByKeyDesc(init + [last], key), key, k)
         == WithKey(SortByKeyDesc(init, key), key, k) + (if key(last) == k then [last] else [])
  {
    var s := init + [last];
    assert s[..|s| - 1] == init && s[|s| - 1] == last;
    SortIsSorted(init, key);
    InsertWithKey(last, SortByKeyDesc(init, key), key, k);
  }

  lemma LastWithKey<T>(init: seq<T>, last: T, key: T -> int, k: int)
    ensures WithKey(init + [last], key, k) == WithKey(init, key, k) + (if key(last) == k then [last] else [])
  {
    WithKeyAppend(init, [last], key, k);
    assert [last][1..] == [];
  }

  lemma RankedTail<T>(s: seq<T>, key: T -> int, order: T -> int)
    requires |s| > 0 && Ranked(s, key, order)
    ensures Ranked(s[1..], key, order)
    ensures forall y :: y in s[1..] ==> Before(s[0], y, key, order)
  {
    forall i, j | 0 <= i < j < |s| - 1 ensures Before(s[1..][i], s[1..][j], key, order) {
      assert s[1..][i] == s[i + 1] && s[1..][j] == s[j + 1];
    }
    forall y | y in s[1..] ensures Before(s[0], y, key, order) {
      var j :| 0 <= j < |s[1..]| && s[1..][j] == y;
      assert s[j + 1] == y;
    }
  }

  lemma RankedCons<T>(h: T, r: seq<T>, key: T -> int, order: T -> int)
    requires Ranked(r, key, order)
    requires forall y :: y in r ==> Before(h, y, key, order)
    ensures Ranked([h] + r, key, order)
  {
    forall i, j | 0 <= i < j < |r| + 1 ensures Before(([h] + r)[i], ([h] + r)[j], key, order) {
      if i == 0 { assert ([h] + r)[j] == r[j - 1]; }
      else { assert ([h] + r)[i] == r[i - 1] && ([h] + r)[j] == r[j - 1]; }
    }
  }

  lemma {:induction false} InsertRanked<T>(x: T, s: seq<T>, key: T -> int, order: T -> int)
    requires Ranked(s, key, order)
    requires forall y :: y in s ==> order(y) < order(x)
    ensures Ranked(Insert(x, s, key), key, order)
  {
    if |s| > 0 {
      RankedTail(s, key, order);
      if key(s[0]) >= key(x) {
        InsertRanked(x, s[1..], key, order);
        var r := Insert(x, s[1..], key);
        forall y | y in r ensures Before(s[0], y, key, order) {
          assert y in multiset(r);
          if y != x { assert y in multiset(s[1..]); }
        }
        RankedCons(s[0], r, key, order);
      } else {
        forall y | y in s ensures Before(x, y, key, order) {
          if y != s[0] { assert y in s[1..]; }
        }
        RankedCons(x, s, key, order);
      }
    }
  }

  /** When the input is in increasing `order`, the sorted result is ranked:
      equal keys keep the earlier element first. */
  lemma {:induction false} SortIsRanked<T>(s: seq<T>, key: T -> int, order: T -> int)
    requires forall i, j :: 0 <= i < j < |s| ==> order(s[i]) < order(s[j])
    ensures Ranked(SortByKeyDesc(s, key), key, order)
  {
    if |s| > 0 {
      var init, last := s[..|s| - 1], s[|s| - 1];
      SortIsRanked(init, key, order);
      var sorted := SortByKeyDesc(init, key);
      forall y | y in sorted ensures order(y) < order(last) {
        assert y in multiset(init);
        var j :| 0 <= j < |init| && init[j] == y;
      }
      InsertRanked(last, sorted, key, order);
    }
  }

  /** The first `k` of a stable descending sort of a sequence given in
      increasing `order`: sorted, ranked, drawn from the input, and no element
      left out has a higher key than the last one kept. */
  lemma SortedTop<T>(s: seq<T>, key: T -> int, order: T -> int, k: nat)
    requires 0 < k <= |s|
    requires forall i, j :: 0 <= i < j < |s| ==> order(s[i]) < order(s[j])
    ensures var top := SortByKeyDesc(s, key)[..k];
      SortedDesc(top, key) && Ranked(top, key, order) &&
      multiset(top) <= multiset(s) &&
      (forall x :: x in s && x !in top ==> key(x) <= key(top[k - 1])) &&
      forall x :: x in s ==> key(x) <= key(top[0])
  {
    SortIsSorted(s, key);
    SortIsRanked(s, key, order);
    TopOf(s, SortByKeyDesc(s, key), key, order, k);
  }

  lemma TopOf<T>(s: seq<T>, sorted: seq<T>, key: T -> int, order: T -> int, k: nat)
    requires 0 < k <= |sorted|
    requires SortedDesc(sorted, key) && Ranked(sorted, key, order)
    requires multiset(sorted) == multiset(s)
    ensures var top := sorted[..k];
      SortedDesc(top, key) && Ranked(top, key, order) &&
      multiset(top) <= multiset(s) &&
      (forall x :: x in s && x !in top ==> key(x) <= key(top[k - 1])) &&
      forall x :: x in s ==> key(x) <= key(top[0])
  {
    PrefixOrdered(sorted, key, order, k);
    PrefixBelow(sorted, key, k);
    forall x | x in s ensures x in sorted && key(x) <= key(sorted[0]) {
      assert x in multiset(s);
      var i :| 0 <= i < |sorted| && sorted[i] == x;
    }
    assert sorted == sorted[..k] + sorted[k..];
  }

  /** A prefix of a sorted or ranked sequence is sorted or ranked too. */
  lemma PrefixOrdered<T>(s: seq<T>, key: T -> int, order: T -> int, k: nat)
    requires k <= |s|
    ensures SortedDesc(s, key) ==> SortedDesc(s[..k], key)
    ensures Ranked(s, key, order) ==> Ranked(s[..k], key, order)
  {
    assert forall i :: 0 <= i < k ==> s[..k][i] == s[i];
  }

  /** In a descending sequence, everything outside the first `k` has a key no
      higher than the `k`-th. */
  lemma PrefixBelow<T>(s: seq<T>, key: T -> int, k: nat)
    requires 0 < k <= |s| && SortedDesc(s, key)
    ensures forall x :: x in s && x !in s[..k] ==> key(x) <= key(s[k - 1])
  {
    assert forall i :: 0 <= i < k ==> s[i] in s[..k] by {
      forall i | 0 <= i < k ensures s[i] in s[..k] {
        assert s[..k][i] == s[i];
      }
    }
    forall x | x in s && x !in s[..k] ensures key(x) <= key(s[k - 1]) {
      var i :| 0 <= i < |s| && s[i] == x;
    }
  }
}
