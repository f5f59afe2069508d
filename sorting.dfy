/**
 * Stable sorting of records by one column, ascending or descending.
 *
 * Both sides of the application sort with a stable sort: Python's
 * `list.sort(key=..., reverse=...)` and JavaScript's `Array.prototype.sort`
 * with a comparator that returns 0 on ties. A stable sort has exactly one
 * result, and InsertionSort is the definition of it used here.
 */
module Sorting {
  import opened Ordering

  /**
   * `x` must come strictly before `y`: its key is smaller (ascending) or
   * larger (descending). Records with equal keys are never "before" each other.
   */
  predicate Before<T>(key: T -> Key, desc: bool, x: T, y: T) {
    if desc then KeyLess(key(y), key(x)) else KeyLess(key(x), key(y))
  }

  /** No record is strictly before one that precedes it. */
  ghost predicate SortedBy<T>(s: seq<T>, key: T -> Key, desc: bool) {
    forall i, j :: 0 <= i < j < |s| ==> !Before(key, desc, s[j], s[i])
  }

  /** Places `x` in front of the first record it must come before. */
  function Insert<T>(t: seq<T>, x: T, key: T -> Key, desc: bool): seq<T>
  {
    if t == [] then [x]
    else if Before(key, desc, x, t[0]) then [x] + t
    else [t[0]] + Insert(t[1..], x, key, desc)
  }

  /** Stable insertion sort: the last record is inserted into the sorted rest. */
  function InsertionSort<T>(s: seq<T>, key: T -> Key, desc: bool): seq<T>
  {
    if s == [] then []
    else Insert(InsertionSort(s[..|s| - 1], key, desc), s[|s| - 1], key, desc)
  }

  /** The records of `s` whose key is `k`, in their order in `s`. */
  function WithKey<T>(s: seq<T>, key: T -> Key, k: Key): seq<T>
  {
    if s == [] then []
    else if key(s[0]) == k then [s[0]] + WithKey(s[1..], key, k)
    else WithKey(s[1..], key, k)
  }

  lemma BeforeIrreflexive<T>(key: T -> Key, desc: bool, x: T)
    ensures !Before(key, desc, x, x)
  {
    KeyLessIrreflexive(key(x));
  }

  lemma BeforeTransitive<T>(key: T -> Key, desc: bool, x: T, y: T, z: T)
    ensures Before(key, desc, x, y) && Before(key, desc, y, z) ==> Before(key, desc, x, z)
  {
    if !(Before(key, desc, x, y) && Before(key, desc, y, z)) {
    } else if desc {
      KeyLessTransitive(key(z), key(y), key(x));
    } else {
      KeyLessTransitive(key(x), key(y), key(z));
    }
  }

  /** "Not before" is transitive as well: ties and order chain together. */
  lemma NotBeforeTransitive<T>(key: T -> Key, desc: bool, x: T, y: T, z: T)
    requires !Before(key, desc, x, y) && !Before(key, desc, y, z)
    ensures !Before(key, desc, x, z)
  {
    if desc {
      KeyLeTransitive(key(x), key(y), key(z));
    } else {
      KeyLeTransitive(key(z), key(y), key(x));
    }
  }

  /** A record `x` strictly before `y` does not share its key. */
  lemma BeforeDistinctKeys<T>(key: T -> Key, desc: bool, x: T, y: T)
    requires Before(key, desc, x, y)
    ensures key(x) != key(y)
  {
    KeyLessIrreflexive(key(x));
  }

  lemma {:induction false} InsertCount<T>(t: seq<T>, x: T, key: T -> Key, desc: bool)
    ensures multiset(Insert(t, x, key, desc)) == multiset(t) + multiset{x}
  {
    if t != [] && !Before(key, desc, x, t[0]) {
      InsertCount(t[1..], x, key, desc);
      assert t == [t[0]] + t[1..];
    }
  }

  lemma {:induction false} InsertSorted<T>(t: seq<T>, x: T, key: T -> Key, desc: bool)
    requires SortedBy(t, key, desc)
    ensures SortedBy(Insert(t, x, key, desc), key, desc)
  {
    if t != [] && !Before(key, desc, x, t[0]) {
      var rest := Insert(t[1..], x, key, desc);
      InsertSorted(t[1..], x, key, desc);
      InsertCount(t[1..], x, key, desc);
      var r := [t[0]] + rest;
      forall i, j | 0 <= i < j < |r|
        ensures !Before(key, desc, r[j], r[i])
      {
        if i == 0 {
          assert r[j] in multiset(rest);
          if r[j] == x {
          } else {
            assert r[j] in multiset(t[1..]);
            var k :| 0 <= k < |t[1..]| && t[1..][k] == r[j];
            assert t[k + 1] == r[j];
          }
        } else {
          assert r[j] == rest[j - 1] && r[i] == rest[i - 1];
        }
      }
    } else if t != [] {
      var r := [x] + t;
      forall i, j | 0 <= i < j < |r|
        ensures !Before(key, desc, r[j], r[i])
      {
        if i == 0 {
          assert r[j] == t[j - 1];
          BeforeTransitive(key, desc, t[j - 1], x, t[0]);
          BeforeIrreflexive(key, desc, t[0]);
        } else {
          assert r[j] == t[j - 1] && r[i] == t[i - 1];
        }
      }
    }
  }

  /**
   * Inside a sorted list, `x` lands right after the records it need not
   * precede: this is where moving it to the left, one swap at a time,
   * stops.
   */
  lemma {:induction false} InsertAt<T>(t: seq<T>, x: T, key: T -> Key, desc: bool, j: nat)
    requires SortedBy(t, key, desc)
    requires j <= |t|
    requires forall k :: j <= k < |t| ==> Before(key, desc, x, t[k])
    requires j == 0 || !Before(key, desc, x, t[j - 1])
    ensures Insert(t, x, key, desc) == t[..j] + [x] + t[j..]
  {
    if j == 0 {
      assert t[j..] == t;
    } else {
      if j - 1 > 0 {
        assert !Before(key, desc, t[j - 1], t[0]);
        NotBeforeTransitive(key, desc, x, t[j - 1], t[0]);
      }
      assert !Before(key, desc, x, t[0]);
      var u := t[1..];
      assert SortedBy(u, key, desc) by {
        forall i, k | 0 <= i < k < |u| ensures !Before(key, desc, u[k], u[i]) {
          assert u[k] == t[k + 1] && u[i] == t[i + 1];
        }
      }
      if j - 1 > 0 {
        assert u[j - 2] == t[j - 1];
      }
      forall k | j - 1 <= k < |u| ensures Before(key, desc, x, u[k]) {
        assert u[k] == t[k + 1];
      }
      InsertAt(u, x, key, desc, j - 1);
      assert t[..j] == [t[0]] + u[..j - 1];
      assert t[j..] == u[j - 1..];
    }
  }

  /** The sort returns the input's records, each as often as before. */
  lemma {:induction false} SortPermutes<T>(s: seq<T>, key: T -> Key, desc: bool)
    ensures multiset(InsertionSort(s, key, desc)) == multiset(s)
    decreases |s|
  {
    if s != [] {
      var init := s[..|s| - 1];
      SortPermutes(init, key, desc);
      InsertCount(InsertionSort(init, key, desc), s[|s| - 1], key, desc);
      assert s == init + [s[|s| - 1]];
    }
  }

  /** The sort's result is ordered by the key in the requested direction. */
  lemma {:induction false} SortSorts<T>(s: seq<T>, key: T -> Key, desc: bool)
    ensures SortedBy(InsertionSort(s, key, desc), key, desc)
    decreases |s|
  {
    if s != [] {
      SortSorts(s[..|s| - 1], key, desc);
      InsertSorted(InsertionSort(s[..|s| - 1], key, desc), s[|s| - 1], key, desc);
    }
  }

  lemma {:induction false} WithKeyConcat<T>(a: seq<T>, b: seq<T>, key: T -> Key, k: Key)
    ensures WithKey(a + b, key, k) == WithKey(a, key, k) + WithKey(b, key, k)
  {
    if a == [] {
      assert a + b == b;
    } else {
      WithKeyConcat(a[1..], b, key, k);
      assert (a + b)[1..] == a[1..] + b;
    }
  }

  lemma {:induction false} WithKeyNone<T>(s: seq<T>, key: T -> Key, k: Key)
    requires forall i :: 0 <= i < |s| ==> key(s[i]) != k
    ensures WithKey(s, key, k) == []
  {
    if s != [] {
      WithKeyNone(s[1..], key, k);
    }
  }

  lemma {:induction false} InsertWithKey<T>(t: seq<T>, x: T, key: T -> Key, desc: bool, k: Key)
    requires SortedBy(t, key, desc)
    ensures WithKey(Insert(t, x, key, desc), key, k)
         == WithKey(t, key, k) + (if key(x) == k then [x] else [])
  {
    if t == [] {
    } else if Before(key, desc, x, t[0]) {
      if key(x) == k {
        forall i | 0 <= i < |t| ensures key(t[i]) != k {
          if i > 0 {
            assert !Before(key, desc, t[i], t[0]);
            if Before(key, desc, x, t[i]) {
              BeforeDistinctKeys(key, desc, x, t[i]);
            } else {
              NotBeforeTransitive(key, desc, x, t[i], t[0]);
            }
          } else {
            BeforeDistinctKeys(key, desc, x, t[0]);
          }
        }
        WithKeyNone(t, key, k);
      }
      WithKeyConcat([x], t, key, k);
    } else {
      var u := t[1..];
      assert SortedBy(u, key, desc) by {
        forall i, j | 0 <= i < j < |u| ensures !Before(key, desc, u[j], u[i]) {
          assert u[j] == t[j + 1] && u[i] == t[i + 1];
        }
      }
      InsertWithKey(u, x, key, desc, k);
      WithKeyConcat([t[0]], Insert(u, x, key, desc), key, k);
      WithKeyConcat([t[0]], u, key, k);
      assert t == [t[0]] + u;
    }
  }

  /**
   * Stability: the records that share any one key keep their relative
   * order. Together with SortSorts and SortPermutes this pins the result
   * down to the one a stable sort returns.
   */
  lemma {:induction false} SortIsStable<T>(s: seq<T>, key: T -> Key, desc: bool, k: Key)
    ensures WithKey(InsertionSort(s, key, desc), key, k) == WithKey(s, key, k)
    decreases |s|
  {
    if s != [] {
      var init := s[..|s| - 1];
      SortStableStep(s, init, key, desc, k);
    }
  }

  lemma {:induction false} SortStableStep<T>(s: seq<T>, init: seq<T>, key: T -> Key, desc: bool, k: Key)
    requires s != [] && init == s[..|s| - 1]
    ensures WithKey(InsertionSort(s, key, desc), key, k) == WithKey(s, key, k)
    decreases |s|, 0
  {
    var x := s[|s| - 1];
    SortIsStable(init, key, desc, k);
    SortSorts(init, key, desc);
    InsertWithKey(InsertionSort(init, key, desc), x, key, desc, k);
    assert s == init + [x];
    WithKeyConcat(init, [x], key, k);
  }

  /**
   * Moves `a[i]` to the left past the records of the sorted prefix
   * `a[..i]` that it must come before, one swap at a time.
   */
  method InsertLast<T>(a: array<T>, i: nat, key: T -> Key, desc: bool)
    requires i < a.Length
    requires SortedBy(a[..i], key, desc)
    modifies a
    ensures a[..i + 1] == Insert(old(a[..i]), old(a[i]), key, desc)
    ensures a[i + 1..] == old(a[i + 1..])
  {
    ghost var t := a[..i];
    var x := a[i];
    var j := i;
    while j > 0 && Before(key, desc, x, a[j - 1])
      invariant 0 <= j <= i
      invariant a[..j] == t[..j]
      invariant a[j] == x
      invariant a[j + 1..i + 1] == t[j..]
      invariant a[i + 1..] == old(a[i + 1..])
      invariant forall k :: j <= k < i ==> Before(key, desc, x, t[k])
    {
      a[j - 1], a[j] := a[j], a[j - 1];
      j := j - 1;
    }
    InsertAt(t, x, key, desc, j);
    assert a[..i + 1] == a[..j] + [a[j]] + a[j + 1..i + 1];
  }

  /** Sorts the array in place by insertion, one record at a time. */
  method SortInPlace<T>(a: array<T>, key: T -> Key, desc: bool)
    modifies a
    ensures a[..] == InsertionSort(old(a[..]), key, desc)
  {
    ghost var s := a[..];
    var i := 0;
    while i < a.Length
      invariant 0 <= i <= a.Length
      invariant a[..i] == InsertionSort(s[..i], key, desc)
      invariant a[i..] == s[i..]
    {
      SortSorts(s[..i], key, desc);
      ghost var before := a[..];
      assert before[i + 1..] == before[i..][1..] == s[i..][1..] == s[i + 1..];
      InsertLast(a, i, key, desc);
      assert a[i + 1..] == before[i + 1..];
      assert s[..i + 1][..i] == s[..i];
      i := i + 1;
    }
    assert a[..] == a[..a.Length];
    assert s == s[..a.Length];
  }
}
