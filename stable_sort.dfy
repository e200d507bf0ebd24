/**
 * A stable sort by an integer key: the behaviour of Python's
 * `sorted(xs, key=...)`, which the manifest walk uses to order contests and
 * selections by their sequence order.
 */
module StableSort {

  ghost predicate SortedBy<T>(s: seq<T>, key: T -> int) {
    forall i, j | 0 <= i < j < |s| :: key(s[i]) <= key(s[j])
  }

  /** The elements of `s` whose key is `k`, in their order in `s`. */
  function WithKey<T>(s: seq<T>, key: T -> int, k: int): seq<T>
  {
    if s == [] then []
    else (if key(s[0]) == k then [s[0]] else []) + WithKey(s[1..], key, k)
  }

  /** Inserts `x` before the first element whose key is not smaller than its own. */
  function Insert<T>(x: T, s: seq<T>, key: T -> int): (r: seq<T>)
    ensures |r| == |s| + 1
  {
    if s == [] || key(x) <= key(s[0]) then [x] + s
    else [s[0]] + Insert(x, s[1..], key)
  }

  lemma {:induction false} InsertPermutes<T>(x: T, s: seq<T>, key: T -> int)
    ensures multiset(Insert(x, s, key)) == multiset(s) + multiset{x}
  {
    if s != [] && key(x) > key(s[0]) {
      InsertPermutes(x, s[1..], key);
      assert s == [s[0]] + s[1..];
    }
  }

  lemma {:induction false} InsertSorted<T>(x: T, s: seq<T>, key: T -> int)
    requires SortedBy(s, key)
    ensures SortedBy(Insert(x, s, key), key)
  {
    if s != [] && key(x) > key(s[0]) {
      var rest := Insert(x, s[1..], key);
      InsertSorted(x, s[1..], key);
      InsertPermutes(x, s[1..], key);
      forall j | 0 <= j < |rest| ensures key(s[0]) <= key(rest[j]) {
        assert rest[j] in multiset(rest);
        if rest[j] != x {
          assert rest[j] in multiset(s[1..]);
          var m :| 0 <= m < |s[1..]| && s[1..][m] == rest[j];
          assert s[m + 1] == rest[j];
        }
      }
    }
  }

  /** Insertion sort; each element is inserted in front of the already-sorted later ones. */
  function SortBy<T>(s: seq<T>, key: T -> int): (r: seq<T>)
    ensures |r| == |s|
  {
    if s == [] then [] else Insert(s[0], SortBy(s[1..], key), key)
  }

  /** The sorted sequence is a permutation of the input. */
  lemma {:induction false} SortByPermutes<T>(s: seq<T>, key: T -> int)
    ensures multiset(SortBy(s, key)) == multiset(s)
  {
    if s != [] {
      SortByPermutes(s[1..], key);
      InsertPermutes(s[0], SortBy(s[1..], key), key);
      assert s == [s[0]] + s[1..];
    }
  }

  /** The sorted sequence is in ascending key order. */
  lemma {:induction false} SortBySorted<T>(s: seq<T>, key: T -> int)
    ensures SortedBy(SortBy(s, key), key)
  {
    if s != [] {
      SortBySorted(s[1..], key);
      InsertSorted(s[0], SortBy(s[1..], key), key);
    }
  }

  lemma {:induction false} WithKeyAppend<T>(a: seq<T>, b: seq<T>, key: T -> int, k: int)
    ensures WithKey(a + b, key, k) == WithKey(a, key, k) + WithKey(b, key, k)
  {
    if a != [] {
      assert (a + b)[1..] == a[1..] + b;
      WithKeyAppend(a[1..], b, key, k);
    } else {
      assert a + b == b;
    }
  }

  lemma WithKeySingle<T>(x: T, key: T -> int, k: int)
    ensures WithKey([x], key, k) == if key(x) == k then [x] else []
  {
    assert [x][1..] == [];
  }

  /** Inserting `x` puts it in front of every element that shares its key. */
  lemma {:induction false} InsertWithKey<T>(x: T, s: seq<T>, key: T -> int, k: int)
    ensures WithKey(Insert(x, s, key), key, k) == WithKey([x], key, k) + WithKey(s, key, k)
  {
    if s == [] || key(x) <= key(s[0]) {
      WithKeyAppend([x], s, key, k);
    } else {
      var rest := Insert(x, s[1..], key);
      var wx, w0, ws := WithKey([x], key, k), WithKey([s[0]], key, k), WithKey(s[1..], key, k);
      assert WithKey(Insert(x, s, key), key, k) == w0 + WithKey(rest, key, k) by {
        WithKeyAppend([s[0]], rest, key, k);
      }
      InsertWithKey(x, s[1..], key, k);
      assert w0 + ws == WithKey(s, key, k) by {
        WithKeyAppend([s[0]], s[1..], key, k);
        assert [s[0]] + s[1..] == s;
      }
      // x and s[0] have different keys, so at most one of them has key k
      WithKeySingle(x, key, k);
      WithKeySingle(s[0], key, k);
      if wx == [] {
        assert wx + ws == ws && wx + (w0 + ws) == w0 + ws;
      } else {
        assert w0 + (wx + ws) == wx + ws && w0 + ws == ws;
      }
    }
  }

  /** Stability: elements with equal keys keep their relative order. */
  lemma {:induction false} SortByStable<T>(s: seq<T>, key: T -> int, k: int)
    ensures WithKey(SortBy(s, key), key, k) == WithKey(s, key, k)
  {
    if s != [] {
      var sortedRest := SortBy(s[1..], key);
      calc {
        WithKey(SortBy(s, key), key, k);
        WithKey(Insert(s[0], sortedRest, key), key, k);
        { InsertWithKey(s[0], sortedRest, key, k); }
        WithKey([s[0]], key, k) + WithKey(sortedRest, key, k);
        { SortByStable(s[1..], key, k); }
        WithKey([s[0]], key, k) + WithKey(s[1..], key, k);
        { WithKeyAppend([s[0]], s[1..], key, k); assert [s[0]] + s[1..] == s; }
        WithKey(s, key, k);
      }
    }
  }
}
