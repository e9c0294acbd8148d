/** A stable sort by an integer key, largest key first: the model of
    `items.sort_by(|a, b| b.published_ts.cmp(&a.published_ts))` in Rust and of
    `entries.sort((a, b) => b.updatedMs - a.updatedMs)` in JavaScript, both of which
    are stable. Insertion sort serves as the reference; what it promises is that
    the result is ordered, a permutation of the input, and keeps equal keys in
    their input order. */
module Sorting {

  /** Keys never increase along `s`. */
  predicate Descending<T>(s: seq<T>, key: T -> int) {
    forall i, j :: 0 <= i < j < |s| ==> key(s[i]) >= key(s[j])
  }

  /** The elements of `s` whose key is `k`, in order. */
  function WithKey<T>(s: seq<T>, key: T -> int, k: int): (r: seq<T>)
    ensures |r| <= |s|
    ensures forall i :: 0 <= i < |r| ==> key(r[i]) == k
    decreases |s|
  {
    if |s| == 0 then []
    else if key(s[0]) == k then [s[0]] + WithKey(s[1..], key, k)
    else WithKey(s[1..], key, k)
  }

  /** Puts `x` before the first element whose key is not larger than its own. */
  function Insert<T>(x: T, s: seq<T>, key: T -> int): (r: seq<T>)
    decreases |s|
  {
    if |s| == 0 || key(s[0]) <= key(x) then [x] + s
    else [s[0]] + Insert(x, s[1..], key)
  }

  function SortByKeyDesc<T>(s: seq<T>, key: T -> int): (r: seq<T>)
    decreases |s|
  {
    if |s| == 0 then [] else Insert(s[0], SortByKeyDesc(s[1..], key), key)
  }

  lemma {:induction false} InsertPermutes<T>(x: T, s: seq<T>, key: T -> int)
    ensures multiset(Insert(x, s, key)) == multiset{x} + multiset(s)
    decreases |s|
  {
    if |s| > 0 && key(s[0]) > key(x) {
      InsertPermutes(x, s[1..], key);
      assert s == [s[0]] + s[1..];
    }
  }

  lemma {:induction false} InsertKeepsOrder<T>(x: T, s: seq<T>, key: T -> int)
    requires Descending(s, key)
    ensures Descending(Insert(x, s, key), key)
    decreases |s|
  {
    if |s| > 0 && key(s[0]) > key(x) {
      InsertKeepsOrder(x, s[1..], key);
      var rest := Insert(x, s[1..], key);
      InsertPermutes(x, s[1..], key);
      forall i | 0 <= i < |rest| ensures key(s[0]) >= key(rest[i]) {
        assert rest[i] in multiset(rest);
        assert rest[i] == x || rest[i] in s[1..];
      }
    }
  }

  /** Inserting `x` adds it to the front of its own key's run and leaves the other
      runs alone. */
  lemma {:induction false} InsertWithKey<T>(x: T, s: seq<T>, key: T -> int, k: int)
    ensures WithKey(Insert(x, s, key), key, k)
      == if key(x) == k then [x] + WithKey(s, key, k) else WithKey(s, key, k)
    decreases |s|
  {
    if |s| == 0 || key(s[0]) <= key(x) {
      assert ([x] + s)[1..] == s;
    } else {
      InsertWithKey(x, s[1..], key, k);
      assert ([s[0]] + Insert(x, s[1..], key))[1..] == Insert(x, s[1..], key);
    }
  }

  /** The sort is a permutation of its input. */
  lemma {:induction false} SortPermutes<T>(s: seq<T>, key: T -> int)
    ensures multiset(SortByKeyDesc(s, key)) == multiset(s)
    decreases |s|
  {
    if |s| > 0 {
      SortPermutes(s[1..], key);
      InsertPermutes(s[0], SortByKeyDesc(s[1..], key), key);
      assert s == [s[0]] + s[1..];
    }
  }

  /** The sort orders by key, largest first. */
  lemma {:induction false} SortOrders<T>(s: seq<T>, key: T -> int)
    ensures Descending(SortByKeyDesc(s, key), key)
    decreases |s|
  {
    if |s| > 0 {
      SortOrders(s[1..], key);
      InsertKeepsOrder(s[0], SortByKeyDesc(s[1..], key), key);
    }
  }

  /** The sort is stable: the elements of each key keep their input order. */
  lemma {:induction false} SortIsStable<T>(s: seq<T>, key: T -> int, k: int)
    ensures WithKey(SortByKeyDesc(s, key), key, k) == WithKey(s, key, k)
    decreases |s|
  {
    if |s| > 0 {
      SortIsStable(s[1..], key, k);
      InsertWithKey(s[0], SortByKeyDesc(s[1..], key), key, k);
    }
  }

  /** An ordered sequence is its own sort. */
  lemma {:induction false} SortOfDescending<T>(s: seq<T>, key: T -> int)
    requires Descending(s, key)
    ensures SortByKeyDesc(s, key) == s
    decreases |s|
  {
    if |s| > 0 {
      SortOfDescending(s[1..], key);
      assert SortByKeyDesc(s[1..], key) == s[1..];
      if |s| > 1 {
        assert key(s[1]) <= key(s[0]);
      }
      assert s == [s[0]] + s[1..];
    }
  }
}
