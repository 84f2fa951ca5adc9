/** A CSV file as the stages see it through csv.DictReader / csv.DictWriter:
    an ordered header and one field-name-to-text map per record. */
module Tables {

  datatype Option<+T> = None | Some(value: T)

  type Row = map<string, string>

  datatype Table = Table(header: seq<string>, rows: seq<Row>)

  /** Every record defines every header field, as csv.DictReader guarantees. */
  predicate WellFormed(t: Table) {
    forall i, h :: 0 <= i < |t.rows| && h in t.header ==> h in t.rows[i]
  }

  /** The file has all the named columns (indexing a missing one raises KeyError). */
  predicate HasColumns(t: Table, cols: set<string>) {
    WellFormed(t) && forall c :: c in cols ==> c in t.header
  }

  /** dict.get(key, default). */
  function GetOr(row: Row, key: string, default: string): (v: string)
    ensures key in row ==> v == row[key]
    ensures key !in row ==> v == default
  {
    if key in row then row[key] else default
  }

  /** All rows but the last, and the last row: the views a left-to-right loop builds. */
  function Init<T>(s: seq<T>): seq<T> requires s != [] { s[..|s| - 1] }
  function Last<T>(s: seq<T>): T requires s != [] { s[|s| - 1] }

  /** s is an order-preserving subsequence of t. */
  predicate IsSubsequence<T(==)>(s: seq<T>, t: seq<T>) {
    if s == [] then true
    else if t == [] then false
    else if s[0] == t[0] then IsSubsequence(s[1..], t[1..])
    else IsSubsequence(s, t[1..])
  }

  lemma {:induction false} SubsequenceOfSnoc<T>(s: seq<T>, t: seq<T>, x: T)
    requires IsSubsequence(s, t)
    ensures IsSubsequence(s, t + [x]) && IsSubsequence(s + [x], t + [x])
  {
    if s == [] {
      EmptySubsequence(t + [x]);
      SingletonSubsequence(t, x);
      assert s + [x] == [x];
    } else if s[0] == t[0] {
      SubsequenceOfSnoc(s[1..], t[1..], x);
      assert (t + [x])[1..] == t[1..] + [x];
      assert (s + [x])[1..] == s[1..] + [x];
    } else {
      SubsequenceOfSnoc(s, t[1..], x);
      assert (t + [x])[1..] == t[1..] + [x];
    }
  }

  lemma {:induction false} EmptySubsequence<T>(t: seq<T>)
    ensures IsSubsequence([], t)
  {
  }

  lemma {:induction false} SingletonSubsequence<T>(t: seq<T>, x: T)
    ensures IsSubsequence([x], t + [x])
  {
    if t != [] {
      if t[0] == x {
        EmptySubsequence(t[1..] + [x]);
        assert (t + [x])[1..] == t[1..] + [x];
      } else {
        SingletonSubsequence(t[1..], x);
        assert (t + [x])[1..] == t[1..] + [x];
      }
    } else {
      assert [x][1..] == [];
    }
  }

  /** The elements among the first n that satisfy keep, in their order: what a
      loop writes when it skips the others. */
  function Select<T>(keep: T -> bool, s: seq<T>, n: nat): seq<T>
    requires n <= |s|
  {
    if n == 0 then [] else Select(keep, s, n - 1) + (if keep(s[n - 1]) then [s[n - 1]] else [])
  }

  lemma {:induction false} SelectIsSubsequence<T>(keep: T -> bool, s: seq<T>, n: nat)
    requires n <= |s|
    ensures IsSubsequence(Select(keep, s, n), s[..n])
  {
    if n == 0 {
      EmptySubsequence(s[..0]);
    } else {
      var prev := Select(keep, s, n - 1);
      SelectIsSubsequence(keep, s, n - 1);
      SubsequenceOfSnoc(prev, s[..n - 1], s[n - 1]);
      assert s[..n] == s[..n - 1] + [s[n - 1]];
      if keep(s[n - 1]) {
        assert Select(keep, s, n) == prev + [s[n - 1]];
      } else {
        assert Select(keep, s, n) == prev;
      }
    }
  }

  lemma {:induction false} SelectExactly<T>(keep: T -> bool, s: seq<T>, n: nat)
    requires n <= |s|
    ensures forall x :: x in Select(keep, s, n) ==> keep(x) && x in s
    ensures forall i :: 0 <= i < n && keep(s[i]) ==> s[i] in Select(keep, s, n)
  {
    if n > 0 {
      SelectExactly(keep, s, n - 1);
    }
  }

  lemma {:induction false} SelectAll<T>(keep: T -> bool, s: seq<T>, n: nat)
    requires n <= |s|
    requires forall x :: x in s ==> keep(x)
    ensures Select(keep, s, n) == s[..n]
  {
    if n > 0 {
      SelectAll(keep, s, n - 1);
      assert keep(s[n - 1]);
      assert s[..n] == s[..n - 1] + [s[n - 1]];
    }
  }
}
