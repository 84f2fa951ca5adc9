/** String helpers with the meaning Python's str methods give them,
    restricted to ASCII where Python consults the Unicode database. */
module Text {

  /** str.isspace() on ASCII: space, tab, line feed, carriage return, vertical
      tab, form feed, and the four separators \x1c to \x1f. */
  predicate IsSpace(c: char) {
    || c == ' ' || c == '\t' || c == '\n' || c == '\r' || c == '\U{000B}' || c == '\U{000C}'
    || '\U{001C}' <= c <= '\U{001F}'
  }

  /** The whitespace float() skips around a number (C's isspace): the same
      set without the four separators. */
  predicate IsCSpace(c: char) {
    c == ' ' || c == '\t' || c == '\n' || c == '\r' || c == '\U{000B}' || c == '\U{000C}'
  }

  predicate IsDigit(c: char) { '0' <= c <= '9' }

  /** str.isalnum() on ASCII letters and digits. */
  predicate IsAlnum(c: char) { IsDigit(c) || 'a' <= c <= 'z' || 'A' <= c <= 'Z' }

  /** str.lower() on one character: ASCII upper case to lower case. */
  function LowerChar(c: char): (r: char)
    ensures 'A' <= c <= 'Z' ==> r as int == c as int + 32
    ensures !('A' <= c <= 'Z') ==> r == c
  {
    if 'A' <= c <= 'Z' then (c as int + 32) as char else c
  }

  function Lower(s: string): (r: string)
    ensures |r| == |s|
    ensures forall i :: 0 <= i < |s| ==> r[i] == LowerChar(s[i])
  {
    if s == [] then [] else [LowerChar(s[0])] + Lower(s[1..])
  }

  /** str.startswith(p). */
  predicate StartsWith(s: string, p: string) { |p| <= |s| && s[..|p|] == p }

  /** str.endswith(p). */
  predicate EndsWith(s: string, p: string) { |p| <= |s| && s[|s| - |p|..] == p }

  /** `sub in s` for strings. */
  predicate Contains(s: string, sub: string) {
    StartsWith(s, sub) || (s != [] && Contains(s[1..], sub))
  }

  /** Drops the leading characters that belong to the set ws. */
  function TrimStart(ws: char -> bool, s: string): string {
    if s != [] && ws(s[0]) then TrimStart(ws, s[1..]) else s
  }

  /** Drops the trailing characters that belong to the set ws. */
  function TrimEnd(ws: char -> bool, s: string): string {
    if s != [] && ws(s[|s| - 1]) then TrimEnd(ws, s[..|s| - 1]) else s
  }

  function Trim(ws: char -> bool, s: string): string { TrimEnd(ws, TrimStart(ws, s)) }

  /** str.strip() and str.rstrip(). */
  function Strip(s: string): string { Trim(IsSpace, s) }
  function RStrip(s: string): string { TrimEnd(IsSpace, s) }

  /** Every character belongs to the set ws. */
  predicate AllIn(ws: char -> bool, s: string) {
    forall i :: 0 <= i < |s| ==> ws(s[i])
  }

  /** Trimming the start keeps a suffix that does not start in ws and drops only characters in ws. */
  lemma {:induction false} TrimStartDrops(ws: char -> bool, s: string)
    ensures |TrimStart(ws, s)| <= |s|
    ensures TrimStart(ws, s) == s[|s| - |TrimStart(ws, s)|..]
    ensures TrimStart(ws, s) == [] || !ws(TrimStart(ws, s)[0])
    ensures AllIn(ws, s[..|s| - |TrimStart(ws, s)|])
  {
    if s != [] && ws(s[0]) {
      var t := s[1..];
      TrimStartDrops(ws, t);
      var k := |t| - |TrimStart(ws, t)|;
      assert t[k..] == s[k + 1..];
      InBeforeIns(ws, s, k);
    }
  }

  /** Trimming the end keeps a prefix that does not end in ws and drops only characters in ws. */
  lemma {:induction false} TrimEndDrops(ws: char -> bool, s: string)
    ensures |TrimEnd(ws, s)| <= |s|
    ensures TrimEnd(ws, s) == s[..|TrimEnd(ws, s)|]
    ensures TrimEnd(ws, s) == [] || !ws(TrimEnd(ws, s)[|TrimEnd(ws, s)| - 1])
    ensures AllIn(ws, s[|TrimEnd(ws, s)|..])
  {
    if s != [] && ws(s[|s| - 1]) {
      var t := s[..|s| - 1];
      TrimEndDrops(ws, t);
      var k := |TrimEnd(ws, t)|;
      assert t[..k] == s[..k];
      InsBeforeIn(ws, s, k);
    }
  }

  /** A first character in ws followed by k more makes k + 1 of them. */
  lemma InBeforeIns(ws: char -> bool, s: string, k: nat)
    requires s != [] && ws(s[0]) && k < |s| && AllIn(ws, s[1..][..k])
    ensures AllIn(ws, s[..k + 1])
  {
    var head, rest := s[..k + 1], s[1..][..k];
    forall i | 0 <= i < |head| ensures ws(head[i]) {
      if i > 0 { assert head[i] == rest[i - 1]; }
    }
  }

  /** Characters in ws from k up to a last one in ws fill the whole tail from k. */
  lemma InsBeforeIn(ws: char -> bool, s: string, k: nat)
    requires s != [] && ws(s[|s| - 1]) && k < |s| && AllIn(ws, s[..|s| - 1][k..])
    ensures AllIn(ws, s[k..])
  {
    var tail, init := s[k..], s[..|s| - 1][k..];
    forall i | 0 <= i < |tail| ensures ws(tail[i]) {
      if i < |init| { assert tail[i] == init[i]; }
    }
  }

  /** A string that neither starts nor ends in ws is its own trim. */
  lemma TrimUntrimmed(ws: char -> bool, s: string)
    requires s != [] && !ws(s[0]) && !ws(s[|s| - 1])
    ensures Trim(ws, s) == s
  {
    assert TrimStart(ws, s) == s;
  }

  /** Position of the first occurrence of c in s. */
  function IndexOf(s: string, c: char): (i: nat)
    requires c in s
    ensures i < |s| && s[i] == c && c !in s[..i]
  {
    if s[0] == c then 0 else 1 + IndexOf(s[1..], c)
  }

  /** str.partition(c) when c occurs: the text before its first occurrence, and the text after it. */
  function BeforeFirst(s: string, c: char): string requires c in s { s[..IndexOf(s, c)] }
  function AfterFirst(s: string, c: char): string requires c in s { s[IndexOf(s, c) + 1..] }

  /** The first occurrence of c follows a prefix without c. */
  lemma {:induction false} IndexOfAfterPrefix(a: string, c: char, b: string)
    requires c !in a
    ensures c in a + [c] + b && IndexOf(a + [c] + b, c) == |a|
    ensures BeforeFirst(a + [c] + b, c) == a && AfterFirst(a + [c] + b, c) == b
  {
    var s := a + [c] + b;
    assert s[|a|] == c;
    if a != [] {
      IndexOfAfterPrefix(a[1..], c, b);
      assert s[1..] == a[1..] + [c] + b;
    }
    assert s[..|a|] == a && s[|a| + 1..] == b;
  }

  /** str.split(sep) with a one-character separator: always at least one part. */
  function Split(s: string, sep: char): (parts: seq<string>)
    ensures |parts| >= 1
  {
    if s == [] then [""]
    else
      var rest := Split(s[1..], sep);
      if s[0] == sep then [""] + rest else [[s[0]] + rest[0]] + rest[1..]
  }

  /** sep.join(parts). */
  function Join(sep: string, parts: seq<string>): string {
    if parts == [] then ""
    else if |parts| == 1 then parts[0]
    else parts[0] + sep + Join(sep, parts[1..])
  }

  /** The first part of a split is everything before the first separator, and
      the remaining parts are the split of what follows it. */
  lemma {:induction false} SplitAtFirst(s: string, sep: char)
    requires sep in s
    ensures var i := IndexOf(s, sep);
            Split(s, sep) == [s[..i]] + Split(s[i + 1..], sep)
  {
    if s[0] != sep {
      SplitAtFirst(s[1..], sep);
      assert s[1..][..IndexOf(s[1..], sep)] == s[1..IndexOf(s, sep)];
      assert [s[0]] + s[1..IndexOf(s, sep)] == s[..IndexOf(s, sep)];
      assert s[1..][IndexOf(s[1..], sep) + 1..] == s[IndexOf(s, sep) + 1..];
    }
  }

  /** A string without the separator splits into itself alone. */
  lemma {:induction false} SplitWithoutSeparator(s: string, sep: char)
    requires sep !in s
    ensures Split(s, sep) == [s]
  {
    if s != [] {
      SplitWithoutSeparator(s[1..], sep);
      assert [s[0]] + s[1..] == s;
    }
  }

  /** Joining the parts of a split with the separator gives back the string. */
  lemma {:induction false} JoinSplit(s: string, sep: char)
    ensures Join([sep], Split(s, sep)) == s
  {
    if sep in s {
      var i := IndexOf(s, sep);
      var rest := Split(s[i + 1..], sep);
      SplitAtFirst(s, sep);
      JoinSplit(s[i + 1..], sep);
      JoinCons([sep], s[..i], rest);
      assert s == s[..i] + [sep] + s[i + 1..];
    } else {
      SplitWithoutSeparator(s, sep);
    }
  }

  /** Joining a first part onto at least one more puts the separator between them. */
  lemma JoinCons(sep: string, first: string, rest: seq<string>)
    requires |rest| >= 1
    ensures Join(sep, [first] + rest) == first + sep + Join(sep, rest)
  {
    assert ([first] + rest)[1..] == rest;
  }

  /** A split has more than one part exactly when the separator occurs. */
  lemma SplitHasSeveralParts(s: string, sep: char)
    ensures |Split(s, sep)| >= 2 <==> sep in s
  {
    if sep in s {
      SplitAtFirst(s, sep);
    } else {
      SplitWithoutSeparator(s, sep);
    }
  }

  /** A split at a separator that occurs has exactly two parts when the separator
      occurs only once, and they are the text before and after it. */
  lemma SplitInTwo(s: string, sep: char)
    requires sep in s
    ensures |Split(s, sep)| == 2 <==> sep !in AfterFirst(s, sep)
    ensures sep !in AfterFirst(s, sep) ==> Split(s, sep) == [BeforeFirst(s, sep), AfterFirst(s, sep)]
  {
    SplitAtFirst(s, sep);
    SplitHasSeveralParts(AfterFirst(s, sep), sep);
    if sep !in AfterFirst(s, sep) {
      SplitWithoutSeparator(AfterFirst(s, sep), sep);
    }
  }

  /** A leading space makes no difference to the trimmed text when space is in the set. */
  lemma TrimLeadingSpace(ws: char -> bool, s: string)
    requires ws(' ')
    ensures Trim(ws, " " + s) == Trim(ws, s)
  {
    assert (" " + s)[1..] == s;
  }

  /** Trimming removes characters of the set only, so it keeps every other character. */
  lemma TrimKeepsOthers(ws: char -> bool, s: string, c: char)
    requires !ws(c)
    ensures c in s <==> c in Trim(ws, s)
  {
    var l := TrimStart(ws, s);
    TrimStartDrops(ws, s);
    TrimEndDrops(ws, l);
    assert c in s ==> c in l by {
      if c in s {
        var i :| 0 <= i < |s| && s[i] == c;
        assert s[i] == l[i - (|s| - |l|)];
      }
    }
    assert c in l ==> c in TrimEnd(ws, l) by {
      if c in l {
        var i :| 0 <= i < |l| && l[i] == c;
        assert l[i] == TrimEnd(ws, l)[i];
      }
    }
  }
}
