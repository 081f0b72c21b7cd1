/** Sorting by an integer key with the comparator `(a, b) => key(a) - key(b)`
    (or `key(b) - key(a)` for descending order), as `Array.prototype.sort`
    does it since ECMAScript 2019: the result is ordered by the comparator and
    elements that compare equal keep their relative order (the sort is stable).

    `Sort` is an insertion sort; `IsStableSortOf` is the independent
    specification; `SortIsStableSort` and `StableSortUnique` together say that
    `Sort` returns exactly the sequence every conforming engine returns. */
module StableSort {

  /** The comparator: negative when `a` must come before `b`, zero when they tie. */
  function Compare<T>(key: T -> int, desc: bool, a: T, b: T): int {
    if desc then key(b) - key(a) else key(a) - key(b)
  }

  /** What the comparator decides: `a` goes first exactly when its key is
      larger (descending) or smaller (ascending), and two elements tie
      exactly when their keys are equal. */
  lemma CompareMeaning<T>(key: T -> int, desc: bool, a: T, b: T)
    ensures Compare(key, desc, a, b) == 0 <==> key(a) == key(b)
    ensures Compare(key, desc, a, b) < 0 <==> (if desc then key(a) > key(b) else key(a) < key(b))
    ensures Compare(key, desc, a, b) == -Compare(key, desc, b, a)
  {
  }

  /** Every element compares less than or equal to every element after it. */
  predicate Sorted<T>(s: seq<T>, key: T -> int, desc: bool) {
    forall i, j :: 0 <= i < j < |s| ==> Compare(key, desc, s[i], s[j]) <= 0
  }

  /** The elements of `s` whose key is `k`, in their order in `s`. Two elements
      tie under the comparator exactly when they have the same key. */
  function WithKey<T>(s: seq<T>, key: T -> int, k: int): (r: seq<T>)
    ensures |r| <= |s|
    ensures forall x :: x in r ==> x in s && key(x) == k
    ensures forall i :: 0 <= i < |s| && key(s[i]) == k ==> s[i] in r
  {
    if s == [] then []
    else (if key(s[0]) == k then [s[0]] else []) + WithKey(s[1..], key, k)
  }

  /** Taking one key's elements distributes over concatenation. */
  lemma {:induction false} WithKeyAppend<T>(a: seq<T>, b: seq<T>, key: T -> int, k: int)
    ensures WithKey(a + b, key, k) == WithKey(a, key, k) + WithKey(b, key, k)
    decreases |a|
  {
    if a == [] {
      assert a + b == b;
    } else {
      assert (a + b)[0] == a[0];
      assert (a + b)[1..] == a[1..] + b;
      WithKeyAppend(a[1..], b, key, k);
    }
  }

  /** `out` is a stable sort of `src`: ordered by the comparator, and for every
      key the elements with that key appear in the same order as in `src`. */
  ghost predicate IsStableSortOf<T>(out: seq<T>, src: seq<T>, key: T -> int, desc: bool) {
    Sorted(out, key, desc) && forall k :: WithKey(out, key, k) == WithKey(src, key, k)
  }

  /** Inserts `x` before the first element it does not compare greater than. */
  function Insert<T>(x: T, s: seq<T>, key: T -> int, desc: bool): (r: seq<T>)
    ensures multiset(r) == multiset(s) + multiset{x}
  {
    if s == [] || Compare(key, desc, x, s[0]) <= 0 then [x] + s
    else
      assert s == [s[0]] + s[1..];
      [s[0]] + Insert(x, s[1..], key, desc)
  }

  /** Insertion sort: sort the tail, then insert the head. */
  function Sort<T>(s: seq<T>, key: T -> int, desc: bool): (r: seq<T>)
    ensures multiset(r) == multiset(s)
    ensures |r| == |s|
  {
    if s == [] then []
    else
      assert s == [s[0]] + s[1..];
      Insert(s[0], Sort(s[1..], key, desc), key, desc)
  }

  /** The first element of a sorted sequence is not preceded by anything in it. */
  lemma SortedHeadFirst<T>(s: seq<T>, key: T -> int, desc: bool, x: T)
    requires Sorted(s, key, desc)
    requires x in s
    ensures Compare(key, desc, s[0], x) <= 0
  {
    var j :| 0 <= j < |s| && s[j] == x;
    if j > 0 {
      assert Compare(key, desc, s[0], s[j]) <= 0;
    }
  }

  /** Inserting into a sorted sequence keeps it sorted. */
  lemma {:induction false} InsertSorted<T>(x: T, s: seq<T>, key: T -> int, desc: bool)
    requires Sorted(s, key, desc)
    ensures Sorted(Insert(x, s, key, desc), key, desc)
    decreases |s|
  {
    if s == [] || Compare(key, desc, x, s[0]) <= 0 {
      var r := [x] + s;
      forall i, j | 0 <= i < j < |r|
        ensures Compare(key, desc, r[i], r[j]) <= 0
      {
        if i == 0 {
          assert r[j] == s[j - 1];
          if j > 1 {
            assert Compare(key, desc, s[0], s[j - 1]) <= 0;
          }
        } else {
          assert r[i] == s[i - 1] && r[j] == s[j - 1];
        }
      }
    } else {
      var t := Insert(x, s[1..], key, desc);
      InsertSorted(x, s[1..], key, desc);
      InsertedAfterHead(x, s, key, desc);
      var r := [s[0]] + t;
      forall i, j | 0 <= i < j < |r|
        ensures Compare(key, desc, r[i], r[j]) <= 0
      {
        if i == 0 {
          assert r[j] == t[j - 1];
        } else {
          assert r[i] == t[i - 1] && r[j] == t[j - 1];
        }
      }
    }
  }

  /** When `x` goes after the head of a sorted `s`, the head precedes
      everything the rest of the insertion produces. */
  lemma InsertedAfterHead<T>(x: T, s: seq<T>, key: T -> int, desc: bool)
    requires Sorted(s, key, desc)
    requires s != [] && Compare(key, desc, x, s[0]) > 0
    ensures forall k :: 0 <= k < |Insert(x, s[1..], key, desc)| ==>
              Compare(key, desc, s[0], Insert(x, s[1..], key, desc)[k]) <= 0
  {
    var t := Insert(x, s[1..], key, desc);
    assert multiset(t) == multiset(s[1..]) + multiset{x};
    forall k | 0 <= k < |t|
      ensures Compare(key, desc, s[0], t[k]) <= 0
    {
      assert t[k] in multiset(t);
      if t[k] != x {
        assert t[k] in s[1..];
        var m :| 0 <= m < |s[1..]| && s[1..][m] == t[k];
        assert Compare(key, desc, s[0], s[m + 1]) <= 0;
      }
    }
  }

  /** Taking one key's elements of a sequence with a given head. */
  lemma WithKeyCons<T>(h: T, s: seq<T>, key: T -> int, k: int)
    ensures WithKey([h] + s, key, k) == (if key(h) == k then [h] else []) + WithKey(s, key, k)
  {
    assert ([h] + s)[1..] == s;
  }

  /** Insertion puts `x` ahead of every element with its key: all the elements
      it passes compare strictly less, so have a different key. */
  lemma {:induction false} WithKeyInsert<T>(x: T, s: seq<T>, key: T -> int, desc: bool, k: int)
    ensures WithKey(Insert(x, s, key, desc), key, k)
         == (if key(x) == k then [x] else []) + WithKey(s, key, k)
    decreases |s|
  {
    if s == [] || Compare(key, desc, x, s[0]) <= 0 {
      assert Insert(x, s, key, desc) == [x] + s;
      WithKeyCons(x, s, key, k);
    } else {
      var t := Insert(x, s[1..], key, desc);
      assert Insert(x, s, key, desc) == [s[0]] + t;
      WithKeyCons(s[0], t, key, k);
      WithKeyInsert(x, s[1..], key, desc, k);
      var rest := WithKey(s[1..], key, k);
      assert WithKey(s, key, k) == (if key(s[0]) == k then [s[0]] else []) + rest;
      if key(x) == k {
        assert key(s[0]) != k;
      }
    }
  }

  /** `Sort` meets the stable-sort specification. */
  lemma {:induction false} SortIsStableSort<T>(s: seq<T>, key: T -> int, desc: bool)
    ensures IsStableSortOf(Sort(s, key, desc), s, key, desc)
    decreases |s|
  {
    if s != [] {
      var t := Sort(s[1..], key, desc);
      SortIsStableSort(s[1..], key, desc);
      InsertSorted(s[0], t, key, desc);
      forall k
        ensures WithKey(Sort(s, key, desc), key, k) == WithKey(s, key, k)
      {
        WithKeyInsert(s[0], t, key, desc, k);
      }
    }
  }

  /** The first element of a non-empty sequence heads its own key's list. */
  lemma WithKeyHead<T>(s: seq<T>, key: T -> int)
    requires s != []
    ensures WithKey(s, key, key(s[0])) != []
    ensures WithKey(s, key, key(s[0]))[0] == s[0]
  {
  }

  /** Two sorted sequences with the same per-key lists start with the same key. */
  lemma HeadKeysAgree<T>(a: seq<T>, b: seq<T>, key: T -> int, desc: bool)
    requires a != [] && b != []
    requires Sorted(a, key, desc) && Sorted(b, key, desc)
    requires WithKey(a, key, key(a[0])) == WithKey(b, key, key(a[0]))
    requires WithKey(a, key, key(b[0])) == WithKey(b, key, key(b[0]))
    ensures key(a[0]) == key(b[0])
  {
    WithKeyHead(a, key);
    WithKeyHead(b, key);
    assert a[0] in WithKey(b, key, key(a[0]));
    SortedHeadFirst(b, key, desc, a[0]);
    assert b[0] in WithKey(a, key, key(b[0]));
    SortedHeadFirst(a, key, desc, b[0]);
  }

  /** The key lists of a tail: the head drops out of its own key's list. */
  lemma WithKeyTail<T>(s: seq<T>, key: T -> int, k: int)
    requires s != []
    ensures key(s[0]) == k ==> WithKey(s[1..], key, k) == WithKey(s, key, k)[1..]
    ensures key(s[0]) != k ==> WithKey(s[1..], key, k) == WithKey(s, key, k)
  {
  }

  /** Equal heads and equal key lists give tails with equal key lists. */
  lemma TailsAgree<T>(a: seq<T>, b: seq<T>, key: T -> int)
    requires a != [] && b != [] && a[0] == b[0]
    requires forall k :: WithKey(a, key, k) == WithKey(b, key, k)
    ensures forall k :: WithKey(a[1..], key, k) == WithKey(b[1..], key, k)
  {
    forall k
      ensures WithKey(a[1..], key, k) == WithKey(b[1..], key, k)
    {
      WithKeyTail(a, key, k);
      WithKeyTail(b, key, k);
    }
  }

  /** The tail of a sorted sequence is sorted. */
  lemma SortedTail<T>(s: seq<T>, key: T -> int, desc: bool)
    requires s != [] && Sorted(s, key, desc)
    ensures Sorted(s[1..], key, desc)
  {
    forall i, j | 0 <= i < j < |s[1..]|
      ensures Compare(key, desc, s[1..][i], s[1..][j]) <= 0
    {
      assert s[1..][i] == s[i + 1] && s[1..][j] == s[j + 1];
    }
  }

  /** Two sorted sequences with the same per-key lists start with the same element. */
  lemma SameHead<T>(a: seq<T>, b: seq<T>, key: T -> int, desc: bool)
    requires a != [] && b != []
    requires Sorted(a, key, desc) && Sorted(b, key, desc)
    requires forall k :: WithKey(a, key, k) == WithKey(b, key, k)
    ensures a[0] == b[0]
  {
    var k0 := key(a[0]);
    assert WithKey(a, key, k0) == WithKey(b, key, k0);
    assert WithKey(a, key, key(b[0])) == WithKey(b, key, key(b[0]));
    HeadKeysAgree(a, b, key, desc);
    WithKeyHead(a, key);
    WithKeyHead(b, key);
  }

  /** A stable sort has only one possible outcome: two sequences that are both
      sorted and agree on the order of every key's elements are equal. */
  lemma {:induction false} StableSortUnique<T>(a: seq<T>, b: seq<T>, key: T -> int, desc: bool)
    requires Sorted(a, key, desc) && Sorted(b, key, desc)
    requires forall k :: WithKey(a, key, k) == WithKey(b, key, k)
    ensures a == b
    decreases |a|
  {
    if a == [] && b != [] {
      WithKeyHead(b, key);
      assert false;
    } else if a != [] && b == [] {
      WithKeyHead(a, key);
      assert false;
    } else if a != [] {
      SameHead(a, b, key, desc);
      TailsAgree(a, b, key);
      SortedTail(a, key, desc);
      SortedTail(b, key, desc);
      StableSortUnique(a[1..], b[1..], key, desc);
      assert a == [a[0]] + a[1..];
      assert b == [b[0]] + b[1..];
    }
  }

  /** Whatever stable sort produced `out`, it is the sequence `Sort` computes. */
  lemma SortDeterminedBySpec<T>(s: seq<T>, out: seq<T>, key: T -> int, desc: bool)
    requires IsStableSortOf(out, s, key, desc)
    ensures out == Sort(s, key, desc)
  {
    SortIsStableSort(s, key, desc);
    StableSortUnique(out, Sort(s, key, desc), key, desc);
  }

  /** Sorting an already stably sorted sequence returns it unchanged. */
  lemma SortOfSorted<T>(s: seq<T>, key: T -> int, desc: bool)
    requires Sorted(s, key, desc)
    ensures Sort(s, key, desc) == s
  {
    SortDeterminedBySpec(s, s, key, desc);
  }

  /** In a sorted sequence keys are non-increasing when `desc` holds and
      non-decreasing otherwise. */
  lemma SortedKeys<T>(s: seq<T>, key: T -> int, desc: bool)
    requires Sorted(s, key, desc)
    ensures desc ==> forall i, j :: 0 <= i < j < |s| ==> key(s[i]) >= key(s[j])
    ensures !desc ==> forall i, j :: 0 <= i < j < |s| ==> key(s[i]) <= key(s[j])
  {
    forall i, j | 0 <= i < j < |s|
      ensures Compare(key, desc, s[i], s[j]) <= 0
    {
    }
  }
}
