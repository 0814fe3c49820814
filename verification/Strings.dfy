/** Lexicographic order on strings, a sort by it as sort.Strings gives, and alphabets spelled out. */
module Strings {

  /** a comes before b or equals it. */
  predicate Leq(a: string, b: string)
    decreases |a|
  {
    || a == ""
    || (b != "" && (a[0] < b[0] || (a[0] == b[0] && Leq(a[1..], b[1..]))))
  }

  predicate Sorted(s: seq<string>) { forall i, j :: 0 <= i < j < |s| ==> Leq(s[i], s[j]) }

  lemma {:induction false} LeqTotal(a: string, b: string)
    ensures Leq(a, b) || Leq(b, a)
    decreases |a|
  {
    if a != "" && b != "" && a[0] == b[0] { LeqTotal(a[1..], b[1..]); }
  }

  lemma {:induction false} LeqTransitive(a: string, b: string, c: string)
    requires Leq(a, b) && Leq(b, c)
    ensures Leq(a, c)
    decreases |a|
  {
    if a != "" && a[0] == b[0] && b[0] == c[0] { LeqTransitive(a[1..], b[1..], c[1..]); }
  }

  /** The first difference decides; a proper prefix comes first. */
  lemma {:induction false} LeqFirstDifference(p: string, x: char, a: string, y: char, b: string)
    requires x != y
    ensures Leq(p + [x] + a, p + [y] + b) <==> x < y
    decreases |p|
  {
    var s, t := p + [x] + a, p + [y] + b;
    if p == "" {
      assert s[0] == x && t[0] == y;
    } else {
      assert s[0] == p[0] == t[0] && s[1..] == p[1..] + [x] + a && t[1..] == p[1..] + [y] + b;
      LeqFirstDifference(p[1..], x, a, y, b);
    }
  }

  lemma {:induction false} LeqPrefix(p: string, a: string)
    ensures Leq(p, p + a) && (Leq(p + a, p) <==> a == "")
    decreases |p|
  {
    if p == "" {
      assert p + a == a;
    } else {
      assert (p + a)[0] == p[0] && (p + a)[1..] == p[1..] + a;
      LeqPrefix(p[1..], a);
    }
  }

  function Elements<T>(s: seq<T>): set<T> { set x | x in s }

  predicate Distinct<T(==)>(s: seq<T>) { forall i, j :: 0 <= i < j < |s| ==> s[i] != s[j] }

  function Insert(s: seq<string>, x: string): seq<string> {
    if s == [] then [x]
    else if Leq(x, s[0]) then [x] + s
    else [s[0]] + Insert(s[1..], x)
  }

  lemma {:induction false} InsertElements(s: seq<string>, x: string)
    ensures forall y :: y in Insert(s, x) <==> y in s || y == x
  {
    if s != [] && !Leq(x, s[0]) {
      InsertElements(s[1..], x);
      assert s == [s[0]] + s[1..];
    }
  }

  lemma {:induction false} InsertSorted(s: seq<string>, x: string)
    requires Sorted(s)
    ensures Sorted(Insert(s, x))
  {
    if s != [] {
      if Leq(x, s[0]) {
        LeqHead(s, x);
      } else {
        LeqTotal(s[0], x);
        InsertSorted(s[1..], x);
        InsertElements(s[1..], x);
        var t := Insert(s[1..], x);
        forall i | 0 <= i < |t| ensures Leq(s[0], t[i]) { assert t[i] in t; }
      }
    }
  }

  lemma {:induction false} InsertDistinct(s: seq<string>, x: string)
    requires Distinct(s) && x !in s
    ensures Distinct(Insert(s, x))
  {
    if s != [] && !Leq(x, s[0]) {
      InsertDistinct(s[1..], x);
      InsertElements(s[1..], x);
      var t := Insert(s[1..], x);
      forall i | 0 <= i < |t| ensures t[i] != s[0] { assert t[i] in t; }
    }
  }

  lemma LeqHead(s: seq<string>, x: string)
    requires Sorted(s) && s != [] && Leq(x, s[0])
    ensures Sorted([x] + s)
  {
    forall i | 0 < i < |s| ensures Leq(x, s[i]) { LeqTransitive(x, s[0], s[i]); }
  }

  /** The keys of a map, collected in any order and then sorted. */
  method SortedKeys(keys: set<string>) returns (r: seq<string>)
    ensures Sorted(r) && Distinct(r) && Elements(r) == keys
  {
    r := [];
    var rest := keys;
    while rest != {}
      invariant rest <= keys && Sorted(r) && Distinct(r) && Elements(r) == keys - rest
      decreases rest
    {
      var k :| k in rest;
      assert k !in Elements(r);
      InsertElements(r, k);
      InsertSorted(r, k);
      InsertDistinct(r, k);
      assert Elements(Insert(r, k)) == Elements(r) + {k};
      r := Insert(r, k);
      rest := rest - {k};
    }
  }

  // ---- Alphabets ----

  const UPPER := "ABCDEFGHIJKLMNOPQRSTUVWXYZ"
  const LOWER := "abcdefghijklmnopqrstuvwxyz"
  const DIGITS := "0123456789"

  predicate Over(s: string, alphabet: string) { forall i :: 0 <= i < |s| ==> s[i] in alphabet }

  lemma Letters(c: char)
    ensures c in UPPER <==> 'A' <= c <= 'Z'
    ensures c in LOWER <==> 'a' <= c <= 'z'
    ensures c in DIGITS <==> '0' <= c <= '9'
  {
    assert |UPPER| == 26 && forall i :: 0 <= i < 26 ==> UPPER[i] as int == 65 + i;
    assert |LOWER| == 26 && forall i :: 0 <= i < 26 ==> LOWER[i] as int == 97 + i;
    assert |DIGITS| == 10 && forall i :: 0 <= i < 10 ==> DIGITS[i] as int == 48 + i;
    if 'A' <= c <= 'Z' { assert UPPER[c as int - 65] == c; }
    if 'a' <= c <= 'z' { assert LOWER[c as int - 97] == c; }
    if '0' <= c <= '9' { assert DIGITS[c as int - 48] == c; }
  }
}
