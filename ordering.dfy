/** Ordering as the viewer uses it: Python's comparison of strings and a stable
    sort by a string key, ascending or descending, in which records with equal
    keys keep their original order (pandas' mergesort, Python's sorted()). */
module Ordering {

  /** a <= b on Python strings: lexicographic by code point, a prefix first. */
  predicate StrLe(a: string, b: string) {
    a == [] || (b != [] && (a[0] < b[0] || (a[0] == b[0] && StrLe(a[1..], b[1..]))))
  }

  lemma {:induction false} StrLeReflexive(a: string)
    ensures StrLe(a, a)
  {
    if a != [] {
      StrLeReflexive(a[1..]);
    }
  }

  lemma {:induction false} StrLeTotal(a: string, b: string)
    ensures StrLe(a, b) || StrLe(b, a)
  {
    if a != [] && b != [] && a[0] == b[0] {
      StrLeTotal(a[1..], b[1..]);
    }
  }

  lemma {:induction false} StrLeTransitive(a: string, b: string, c: string)
    requires StrLe(a, b) && StrLe(b, c)
    ensures StrLe(a, c)
  {
    if a != [] && a[0] == b[0] && b[0] == c[0] {
      StrLeTransitive(a[1..], b[1..], c[1..]);
    }
  }

  /** x may precede y in the sorted order. */
  predicate InOrder<T>(key: T -> string, descending: bool, x: T, y: T) {
    if descending then StrLe(key(y), key(x)) else StrLe(key(x), key(y))
  }

  lemma InOrderTotal<T>(key: T -> string, descending: bool, x: T, y: T)
    ensures InOrder(key, descending, x, y) || InOrder(key, descending, y, x)
  {
    StrLeTotal(key(x), key(y));
  }

  lemma InOrderTransitive<T>(key: T -> string, descending: bool, x: T, y: T, z: T)
    requires InOrder(key, descending, x, y) && InOrder(key, descending, y, z)
    ensures InOrder(key, descending, x, z)
  {
    if descending {
      StrLeTransitive(key(z), key(y), key(x));
    } else {
      StrLeTransitive(key(x), key(y), key(z));
    }
  }

  /** Every earlier element may precede every later one. */
  predicate Ordered<T>(key: T -> string, descending: bool, s: seq<T>) {
    forall i, j :: 0 <= i < j < |s| ==> InOrder(key, descending, s[i], s[j])
  }

  /** x goes in front of the first element it may precede, so ahead of every
      element with the same key. */
  function Insert<T>(key: T -> string, descending: bool, x: T, s: seq<T>): seq<T> {
    if s == [] || InOrder(key, descending, x, s[0]) then [x] + s
    else [s[0]] + Insert(key, descending, x, s[1..])
  }

  /** Insertion sort from the back: each element is inserted into the sorted
      rest, which only holds elements that came after it. */
  function SortBy<T>(key: T -> string, descending: bool, s: seq<T>): seq<T> {
    if s == [] then [] else Insert(key, descending, s[0], SortBy(key, descending, s[1..]))
  }

  /** The elements with key k, in order. */
  function WithKey<T>(key: T -> string, k: string, s: seq<T>): seq<T> {
    if s == [] then [] else (if key(s[0]) == k then [s[0]] else []) + WithKey(key, k, s[1..])
  }

  lemma {:induction false} InsertPermutes<T>(key: T -> string, descending: bool, x: T, s: seq<T>)
    ensures multiset(Insert(key, descending, x, s)) == multiset(s) + multiset{x}
  {
    if s != [] && !InOrder(key, descending, x, s[0]) {
      InsertPermutes(key, descending, x, s[1..]);
      assert s == [s[0]] + s[1..];
    }
  }

  lemma {:induction false} InsertOrdered<T>(key: T -> string, descending: bool, x: T, s: seq<T>)
    requires Ordered(key, descending, s)
    ensures Ordered(key, descending, Insert(key, descending, x, s))
  {
    var r := Insert(key, descending, x, s);
    if s == [] || InOrder(key, descending, x, s[0]) {
      forall j | 0 <= j < |s| ensures InOrder(key, descending, x, s[j]) {
        if j > 0 {
          InOrderTransitive(key, descending, x, s[0], s[j]);
        }
      }
      ConsOrdered(key, descending, x, s);
    } else {
      var rest := Insert(key, descending, x, s[1..]);
      InsertOrdered(key, descending, x, s[1..]);
      InsertPermutes(key, descending, x, s[1..]);
      InOrderTotal(key, descending, x, s[0]);
      forall j | 0 <= j < |rest| ensures InOrder(key, descending, s[0], rest[j]) {
        assert rest[j] in multiset(rest);
        if rest[j] != x {
          assert rest[j] in multiset(s[1..]);
          var k :| 0 <= k < |s[1..]| && s[1..][k] == rest[j];
          assert s[k + 1] == rest[j];
        }
      }
      ConsOrdered(key, descending, s[0], rest);
    }
  }

  /** An element that may precede everything in an ordered sequence can head it. */
  lemma ConsOrdered<T>(key: T -> string, descending: bool, y: T, t: seq<T>)
    requires Ordered(key, descending, t)
    requires forall j :: 0 <= j < |t| ==> InOrder(key, descending, y, t[j])
    ensures Ordered(key, descending, [y] + t)
  {
    var s := [y] + t;
    forall i, j | 0 <= i < j < |s| ensures InOrder(key, descending, s[i], s[j]) {
      if i == 0 {
        assert s[j] == t[j - 1];
      } else {
        assert s[i] == t[i - 1] && s[j] == t[j - 1];
      }
    }
  }

  /** Inserting x puts it ahead of the elements with its key and leaves the
      others' relative order alone. */
  lemma {:induction false} InsertWithKey<T>(key: T -> string, descending: bool, x: T, s: seq<T>, k: string)
    ensures WithKey(key, k, Insert(key, descending, x, s)) ==
              (if key(x) == k then [x] else []) + WithKey(key, k, s)
  {
    if s != [] && !InOrder(key, descending, x, s[0]) {
      var rest := Insert(key, descending, x, s[1..]);
      StrLeReflexive(key(x));
      assert key(s[0]) != key(x);
      InsertWithKey(key, descending, x, s[1..], k);
      assert ([s[0]] + rest)[1..] == rest;
      if key(x) == k {
        assert WithKey(key, k, [s[0]] + rest) == WithKey(key, k, rest);
        assert WithKey(key, k, s) == WithKey(key, k, s[1..]);
      } else {
        assert WithKey(key, k, rest) == WithKey(key, k, s[1..]);
      }
    }
  }

  /** The sort is ordered, a permutation, and stable: the elements with any one
      key come out in the order they went in. */
  lemma {:induction false} SortByCorrect<T>(key: T -> string, descending: bool, s: seq<T>)
    ensures Ordered(key, descending, SortBy(key, descending, s))
    ensures multiset(SortBy(key, descending, s)) == multiset(s)
    ensures forall k :: WithKey(key, k, SortBy(key, descending, s)) == WithKey(key, k, s)
  {
    if s != [] {
      var rest := SortBy(key, descending, s[1..]);
      SortByCorrect(key, descending, s[1..]);
      InsertOrdered(key, descending, s[0], rest);
      InsertPermutes(key, descending, s[0], rest);
      assert s == [s[0]] + s[1..];
      forall k ensures WithKey(key, k, SortBy(key, descending, s)) == WithKey(key, k, s) {
        InsertWithKey(key, descending, s[0], rest, k);
      }
    }
  }
}
