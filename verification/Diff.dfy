/**
 * The line diff of the version viewer: a table of longest-common-subsequence
 * lengths, filled in place, then walked back into an edit script.
 */
module Diff {

  datatype DiffOp =
    | Equal(left: string, right: string, leftLine: nat, rightLine: nat)
    | Removed(left: string, leftLine: nat)
    | Added(right: string, rightLine: nat)

  // ---- Lines ----

  /** text.split('\n'). */
  function Split(text: string): (lines: seq<string>)
    ensures lines != []
    ensures forall i :: 0 <= i < |lines| ==> '\n' !in lines[i]
  {
    if text == "" then [""]
    else if text[0] == '\n' then [""] + Split(text[1..])
    else var rest := Split(text[1..]); [[text[0]] + rest[0]] + rest[1..]
  }

  function Lines(text: string): seq<string> { if text == "" then [] else Split(text) }

  function Join(lines: seq<string>): string {
    if lines == [] then ""
    else if |lines| == 1 then lines[0]
    else lines[0] + "\n" + Join(lines[1..])
  }

  lemma {:induction false} JoinSplit(text: string)
    ensures Join(Split(text)) == text
  {
    if text != "" {
      JoinSplit(text[1..]);
      var rest := Split(text[1..]);
      if text[0] == '\n' {
        assert Split(text)[1..] == rest;
        assert text == "" + "\n" + text[1..];
      } else {
        var lines := Split(text);
        assert lines[1..] == rest[1..];
        assert text == [text[0]] + text[1..];
        if |rest| > 1 {
          assert [text[0]] + (rest[0] + "\n" + Join(rest[1..])) == ([text[0]] + rest[0]) + "\n" + Join(rest[1..]);
        }
      }
    }
  }

  /** Splitting loses nothing. */
  lemma JoinLines(text: string)
    ensures Join(Lines(text)) == text
  {
    JoinSplit(text);
  }

  function Newlines(text: string): nat { if text == "" then 0 else (if text[0] == '\n' then 1 else 0) + Newlines(text[1..]) }

  /** An empty text has no line; any other has one more than it has line breaks. */
  lemma {:induction false} SplitCount(text: string)
    ensures |Split(text)| == 1 + Newlines(text)
  {
    if text != "" { SplitCount(text[1..]); }
  }

  // ---- Edit scripts ----

  /** ops turns a[i..] into b[j..] and numbers the lines from i + 1 and j + 1. */
  predicate ScriptFrom(ops: seq<DiffOp>, a: seq<string>, b: seq<string>, i: nat, j: nat)
    decreases |ops|
  {
    if ops == [] then i == |a| && j == |b|
    else match ops[0]
      case Equal(l, r, ln, rn) =>
        && i < |a| && j < |b| && l == a[i] && r == b[j] && l == r && ln == i + 1 && rn == j + 1
        && ScriptFrom(ops[1..], a, b, i + 1, j + 1)
      case Removed(l, ln) =>
        i < |a| && l == a[i] && ln == i + 1 && ScriptFrom(ops[1..], a, b, i + 1, j)
      case Added(r, rn) =>
        j < |b| && r == b[j] && rn == j + 1 && ScriptFrom(ops[1..], a, b, i, j + 1)
  }

  predicate Script(ops: seq<DiffOp>, a: seq<string>, b: seq<string>) { ScriptFrom(ops, a, b, 0, 0) }

  /** The left side of a script: its equal and removed lines with their numbers. */
  function Lefts(ops: seq<DiffOp>): seq<(string, nat)> {
    if ops == [] then []
    else match ops[0]
      case Equal(l, _, ln, _) => [(l, ln)] + Lefts(ops[1..])
      case Removed(l, ln) => [(l, ln)] + Lefts(ops[1..])
      case Added(_, _) => Lefts(ops[1..])
  }

  function Rights(ops: seq<DiffOp>): seq<(string, nat)> {
    if ops == [] then []
    else match ops[0]
      case Equal(_, r, _, rn) => [(r, rn)] + Rights(ops[1..])
      case Removed(_, _) => Rights(ops[1..])
      case Added(r, rn) => [(r, rn)] + Rights(ops[1..])
  }

  /** The lines of s[i..] with their 1-based numbers. */
  function Numbered(s: seq<string>, i: nat): seq<(string, nat)>
    requires i <= |s|
    decreases |s| - i
  {
    if i == |s| then [] else [(s[i], i + 1)] + Numbered(s, i + 1)
  }

  /** The texts of the left lines of a list of ops, and of the right ones. */
  function LeftTexts(ops: seq<DiffOp>): seq<string> {
    if ops == [] then [] else if ops[0].Added? then LeftTexts(ops[1..]) else [ops[0].left] + LeftTexts(ops[1..])
  }

  function RightTexts(ops: seq<DiffOp>): seq<string> {
    if ops == [] then [] else if ops[0].Removed? then RightTexts(ops[1..]) else [ops[0].right] + RightTexts(ops[1..])
  }

  /** ops show the whole of text on one side, line by line. */
  ghost predicate Shows(texts: seq<string>, text: string) {
    && |texts| == (if text == "" then 0 else 1 + Newlines(text))
    && Join(texts) == text
  }

  lemma ShowsLines(text: string)
    ensures Shows(Lines(text), text)
  {
    JoinLines(text);
    SplitCount(text);
  }

  lemma {:induction false} ScriptTexts(ops: seq<DiffOp>, a: seq<string>, b: seq<string>, i: nat, j: nat)
    requires i <= |a| && j <= |b| && ScriptFrom(ops, a, b, i, j)
    ensures LeftTexts(ops) == a[i..] && RightTexts(ops) == b[j..]
    decreases |ops|
  {
    if ops != [] {
      if i < |a| { assert a[i..] == [a[i]] + a[i + 1..]; }
      if j < |b| { assert b[j..] == [b[j]] + b[j + 1..]; }
      match ops[0]
      case Equal(_, _, _, _) => ScriptTexts(ops[1..], a, b, i + 1, j + 1);
      case Removed(_, _) => ScriptTexts(ops[1..], a, b, i + 1, j);
      case Added(_, _) => ScriptTexts(ops[1..], a, b, i, j + 1);
    }
  }

  /** Each line's number is one more than the number of lines shown before it on its side. */
  ghost predicate Counted(ops: seq<DiffOp>, i: nat, j: nat) {
    forall k :: 0 <= k < |ops| ==>
      && (!ops[k].Added? ==> ops[k].leftLine == i + |LeftTexts(ops[..k])| + 1)
      && (!ops[k].Removed? ==> ops[k].rightLine == j + |RightTexts(ops[..k])| + 1)
  }

  lemma {:induction false} ScriptCounts(ops: seq<DiffOp>, a: seq<string>, b: seq<string>, i: nat, j: nat)
    requires ScriptFrom(ops, a, b, i, j)
    ensures Counted(ops, i, j)
    decreases |ops|
  {
    if ops != [] {
      var i' := if ops[0].Added? then i else i + 1;
      var j' := if ops[0].Removed? then j else j + 1;
      ScriptCounts(ops[1..], a, b, i', j');
      forall k | 0 < k < |ops|
        ensures (!ops[k].Added? ==> ops[k].leftLine == i + |LeftTexts(ops[..k])| + 1)
                && (!ops[k].Removed? ==> ops[k].rightLine == j + |RightTexts(ops[..k])| + 1)
      {
        assert ops[..k][0] == ops[0] && ops[..k][1..] == ops[1..][..k - 1];
        assert ops[1..][k - 1] == ops[k];
      }
    }
  }

  /** Ops without left lines are all added lines, and so on the other side. */
  lemma {:induction false} OneSided(ops: seq<DiffOp>)
    ensures LeftTexts(ops) == [] ==> forall k :: 0 <= k < |ops| ==> ops[k].Added?
    ensures RightTexts(ops) == [] ==> forall k :: 0 <= k < |ops| ==> ops[k].Removed?
  {
    if ops != [] {
      OneSided(ops[1..]);
      assert ops == [ops[0]] + ops[1..];
    }
  }

  predicate EqualsAgree(ops: seq<DiffOp>) {
    forall k :: 0 <= k < |ops| && ops[k].Equal? ==> ops[k].left == ops[k].right
  }

  /** A script is exactly a sequence of ops that spells both sides, numbered in order. */
  lemma {:induction false} ScriptReconstructs(ops: seq<DiffOp>, a: seq<string>, b: seq<string>, i: nat, j: nat)
    requires i <= |a| && j <= |b|
    ensures ScriptFrom(ops, a, b, i, j) <==>
            Lefts(ops) == Numbered(a, i) && Rights(ops) == Numbered(b, j) && EqualsAgree(ops)
    decreases |ops|
  {
    if ops != [] {
      var head, tail := ops[0], ops[1..];
      assert EqualsAgree(ops) <==> (head.Equal? ==> head.left == head.right) && EqualsAgree(tail) by {
        assert ops == [head] + tail;
      }
      if head.Equal? || head.Removed? {
        assert Lefts(ops)[0] == (head.left, head.leftLine) && Lefts(ops)[1..] == Lefts(tail);
        if i < |a| { assert Numbered(a, i)[0] == (a[i], i + 1) && Numbered(a, i)[1..] == Numbered(a, i + 1); }
      }
      if head.Equal? || head.Added? {
        assert Rights(ops)[0] == (head.right, head.rightLine) && Rights(ops)[1..] == Rights(tail);
        if j < |b| { assert Numbered(b, j)[0] == (b[j], j + 1) && Numbered(b, j)[1..] == Numbered(b, j + 1); }
      }
      var i' := if head.Added? then i else i + 1;
      var j' := if head.Removed? then j else j + 1;
      if i' <= |a| && j' <= |b| { ScriptReconstructs(tail, a, b, i', j'); }
    }
  }

  // ---- Longest common subsequences ----

  function Front<T>(s: seq<T>): seq<T>
    requires s != []
  { s[..|s| - 1] }

  function Last<T>(s: seq<T>): T
    requires s != []
  { s[|s| - 1] }

  /** s is obtained from a by deleting elements. */
  predicate Subsequence(s: seq<string>, a: seq<string>)
    decreases |a|
  {
    || s == []
    || (a != [] && ((Last(s) == Last(a) && Subsequence(Front(s), Front(a))) || Subsequence(s, Front(a))))
  }

  /** The recurrence the table is filled by. */
  function Lcs(a: seq<string>, b: seq<string>): nat
    decreases |a| + |b|
  {
    if a == [] || b == [] then 0
    else if Last(a) == Last(b) then Lcs(Front(a), Front(b)) + 1
    else Max(Lcs(Front(a), b), Lcs(a, Front(b)))
  }

  function Max(x: nat, y: nat): nat { if x < y then y else x }

  lemma {:induction false} FrontSubsequence(s: seq<string>, a: seq<string>)
    requires s != [] && Subsequence(s, a)
    ensures a != [] && Subsequence(Front(s), Front(a))
    decreases |a|
  {
    if !(Last(s) == Last(a) && Subsequence(Front(s), Front(a))) {
      FrontSubsequence(s, Front(a));
      Skip(Front(s), Front(a));
    }
  }

  /** Dropping the last candidate first can only help. */
  lemma {:induction false} Skip(s: seq<string>, a: seq<string>)
    requires a != [] && Subsequence(s, Front(a))
    ensures Subsequence(s, a)
  {
  }

  /** No common subsequence is longer than the recurrence says. */
  lemma {:induction false} LcsIsBound(s: seq<string>, a: seq<string>, b: seq<string>)
    requires Subsequence(s, a) && Subsequence(s, b)
    ensures |s| <= Lcs(a, b)
    decreases |a| + |b|
  {
    if s != [] {
      if Last(a) == Last(b) {
        FrontSubsequence(s, a);
        FrontSubsequence(s, b);
        LcsIsBound(Front(s), Front(a), Front(b));
      } else if Last(s) != Last(a) {
        LcsIsBound(s, Front(a), b);
      } else {
        LcsIsBound(s, a, Front(b));
      }
    }
  }

  /** Some common subsequence is as long as the recurrence says. */
  lemma {:induction false} LcsAttained(a: seq<string>, b: seq<string>) returns (s: seq<string>)
    ensures Subsequence(s, a) && Subsequence(s, b) && |s| == Lcs(a, b)
    decreases |a| + |b|
  {
    if a == [] || b == [] {
      s := [];
    } else if Last(a) == Last(b) {
      var front := LcsAttained(Front(a), Front(b));
      s := front + [Last(a)];
      assert Front(s) == front;
    } else if Lcs(Front(a), b) >= Lcs(a, Front(b)) {
      s := LcsAttained(Front(a), b);
      Skip(s, a);
    } else {
      s := LcsAttained(a, Front(b));
      Skip(s, b);
    }
  }

  ghost predicate Common(s: seq<string>, a: seq<string>, b: seq<string>) { Subsequence(s, a) && Subsequence(s, b) }

  /** n is the length of a longest common subsequence. */
  ghost predicate IsLongest(a: seq<string>, b: seq<string>, n: nat) {
    (exists s :: Common(s, a, b) && |s| == n) && forall s :: Common(s, a, b) ==> |s| <= n
  }

  lemma LcsIsLongest(a: seq<string>, b: seq<string>)
    ensures IsLongest(a, b, Lcs(a, b))
  {
    var s := LcsAttained(a, b);
    assert Common(s, a, b);
    forall t | Common(t, a, b) ensures |t| <= Lcs(a, b) { LcsIsBound(t, a, b); }
  }

  lemma {:induction false} ConsSkip(s: seq<string>, x: string, a: seq<string>)
    requires Subsequence(s, a)
    ensures Subsequence(s, [x] + a)
    decreases |a|
  {
    if s != [] {
      assert Front([x] + a) == [x] + Front(a);
      if Last(s) == Last(a) && Subsequence(Front(s), Front(a)) {
        ConsSkip(Front(s), x, Front(a));
      } else {
        ConsSkip(s, x, Front(a));
      }
    }
  }

  lemma {:induction false} ConsKeep(s: seq<string>, x: string, a: seq<string>)
    requires Subsequence(s, a)
    ensures Subsequence([x] + s, [x] + a)
    decreases |a|
  {
    if s == [] {
      KeepHead(x, a);
      assert [x] + s == [x];
    } else {
      assert Front([x] + a) == [x] + Front(a);
      if Last(s) == Last(a) && Subsequence(Front(s), Front(a)) {
        assert Front([x] + s) == [x] + Front(s);
        ConsKeep(Front(s), x, Front(a));
      } else {
        ConsKeep(s, x, Front(a));
      }
    }
  }

  lemma {:induction false} KeepHead(x: string, a: seq<string>)
    ensures Subsequence([x], [x] + a)
    decreases |a|
  {
    if a == [] {
      assert [x] + a == [x];
      assert Front([x]) == [];
    } else {
      assert Front([x] + a) == [x] + Front(a);
      KeepHead(x, Front(a));
    }
  }

  /** The lines a script keeps. */
  function Kept(ops: seq<DiffOp>): seq<string> {
    if ops == [] then []
    else if ops[0].Equal? then [ops[0].left] + Kept(ops[1..])
    else Kept(ops[1..])
  }

  lemma {:induction false} KeptIsCommon(ops: seq<DiffOp>, a: seq<string>, b: seq<string>, i: nat, j: nat)
    requires i <= |a| && j <= |b| && ScriptFrom(ops, a, b, i, j)
    ensures Subsequence(Kept(ops), a[i..]) && Subsequence(Kept(ops), b[j..])
    ensures |ops| + |Kept(ops)| == |a| - i + |b| - j
    decreases |ops|
  {
    if ops != [] {
      var tail := ops[1..];
      if i < |a| { assert a[i..] == [a[i]] + a[i + 1..]; }
      if j < |b| { assert b[j..] == [b[j]] + b[j + 1..]; }
      match ops[0]
      case Equal(_, _, _, _) =>
        KeptIsCommon(tail, a, b, i + 1, j + 1);
        ConsKeep(Kept(tail), a[i], a[i + 1..]);
        ConsKeep(Kept(tail), b[j], b[j + 1..]);
      case Removed(_, _) =>
        KeptIsCommon(tail, a, b, i + 1, j);
        ConsSkip(Kept(tail), a[i], a[i + 1..]);
      case Added(_, _) =>
        KeptIsCommon(tail, a, b, i, j + 1);
        ConsSkip(Kept(tail), b[j], b[j + 1..]);
    }
  }

  /** No script is shorter than n + m - LCS. */
  lemma ScriptLowerBound(ops: seq<DiffOp>, a: seq<string>, b: seq<string>)
    requires Script(ops, a, b)
    ensures |ops| >= |a| + |b| - Lcs(a, b)
  {
    KeptIsCommon(ops, a, b, 0, 0);
    assert a[0..] == a && b[0..] == b;
    LcsIsBound(Kept(ops), a, b);
  }

  /** One line more changes the length by at most one, and never down. */
  lemma {:induction false} LcsSlope(a: seq<string>, b: seq<string>)
    ensures a != [] ==> Lcs(Front(a), b) <= Lcs(a, b) <= Lcs(Front(a), b) + 1
    ensures b != [] ==> Lcs(a, Front(b)) <= Lcs(a, b) <= Lcs(a, Front(b)) + 1
    decreases |a| + |b|
  {
    if a != [] { LcsSlope(Front(a), b); }
    if b != [] { LcsSlope(a, Front(b)); }
  }

  /** In a block of changed lines the removed ones come first. */
  predicate RemovedFirst(ops: seq<DiffOp>) {
    forall k :: 0 < k < |ops| && ops[k].Removed? ==> !ops[k - 1].Added?
  }

  // ---- The algorithm ----

  function Reverse(ops: seq<DiffOp>): seq<DiffOp> {
    if ops == [] then [] else [Last(ops)] + Reverse(Front(ops))
  }

  /** Every cell holds the value of the recurrence for its pair of prefixes. */
  ghost predicate Filled(lcs: array2<nat>, a: seq<string>, b: seq<string>)
    reads lcs
  {
    && lcs.Length0 == |a| + 1 && lcs.Length1 == |b| + 1
    && forall i, j :: 0 <= i <= |a| && 0 <= j <= |b| ==> lcs[i, j] == Lcs(a[..i], b[..j])
  }

  lemma LcsStep(a: seq<string>, b: seq<string>, i: nat, j: nat)
    requires 0 < i <= |a| && 0 < j <= |b|
    ensures Lcs(a[..i], b[..j]) ==
            if a[i - 1] == b[j - 1] then Lcs(a[..i - 1], b[..j - 1]) + 1
            else Max(Lcs(a[..i - 1], b[..j]), Lcs(a[..i], b[..j - 1]))
  {
    assert Front(a[..i]) == a[..i - 1] && Front(b[..j]) == b[..j - 1];
  }

  /** Every cell ends up with the length of a longest common subsequence of its two prefixes. */
  method FillTable(a: seq<string>, b: seq<string>) returns (lcs: array2<nat>)
    ensures fresh(lcs) && Filled(lcs, a, b)
    ensures forall i, j :: 0 <= i <= |a| && 0 <= j <= |b| ==> IsLongest(a[..i], b[..j], lcs[i, j])
  {
    hide IsLongest;
    lcs := new nat[|a| + 1, |b| + 1]((_, _) => 0);
    for i := 1 to |a| + 1
      invariant forall x, y :: 0 <= x <= |a| && 0 <= y <= |b| ==>
                  lcs[x, y] == if x < i then Lcs(a[..x], b[..y]) else 0
    {
      for j := 1 to |b| + 1
        invariant forall x, y :: 0 <= x <= |a| && 0 <= y <= |b| ==>
                    lcs[x, y] == if x < i || (x == i && y < j) then Lcs(a[..x], b[..y]) else 0
      {
        LcsStep(a, b, i, j);
        if a[i - 1] == b[j - 1] {
          lcs[i, j] := lcs[i - 1, j - 1] + 1;
        } else {
          lcs[i, j] := Max(lcs[i - 1, j], lcs[i, j - 1]);
        }
      }
    }
    forall i, j | 0 <= i <= |a| && 0 <= j <= |b| ensures IsLongest(a[..i], b[..j], lcs[i, j]) { LcsIsLongest(a[..i], b[..j]); }
  }

  /** rest turns a[i..] into b[j..] and, with the prefixes still to walk, keeps LCS many lines. */
  ghost predicate Walked(rest: seq<DiffOp>, a: seq<string>, b: seq<string>, i: nat, j: nat) {
    && i <= |a| && j <= |b| && ScriptFrom(rest, a, b, i, j)
    && |Kept(rest)| + Lcs(a[..i], b[..j]) == Lcs(a, b)
    && RemovedFirst(rest)
    && (rest != [] && rest[0].Removed? && j > 0 ==> i < |a| && Lcs(a[..i + 1], b[..j - 1]) < Lcs(a[..i], b[..j]))
  }

  lemma WalkStart(a: seq<string>, b: seq<string>)
    ensures Walked(Reverse([]), a, b, |a|, |b|)
  {
    assert a[..|a|] == a && b[..|b|] == b;
  }

  lemma WalkEqual(rest: seq<DiffOp>, a: seq<string>, b: seq<string>, i: nat, j: nat)
    requires Walked(rest, a, b, i, j) && i > 0 && j > 0 && a[i - 1] == b[j - 1]
    ensures Walked([Equal(a[i - 1], b[j - 1], i, j)] + rest, a, b, i - 1, j - 1)
  {
    LcsStep(a, b, i, j);
    assert ([Equal(a[i - 1], b[j - 1], i, j)] + rest)[1..] == rest;
  }

  lemma WalkAdded(rest: seq<DiffOp>, a: seq<string>, b: seq<string>, i: nat, j: nat)
    requires Walked(rest, a, b, i, j) && j > 0 && (i > 0 ==> a[i - 1] != b[j - 1])
    requires i == 0 || Lcs(a[..i], b[..j - 1]) >= Lcs(a[..i - 1], b[..j])
    ensures Walked([Added(b[j - 1], j)] + rest, a, b, i, j - 1)
  {
    if i > 0 { LcsStep(a, b, i, j); }
    if i < |a| {
      LcsSlope(a[..i + 1], b[..j - 1]);
      assert Front(a[..i + 1]) == a[..i];
    }
    assert ([Added(b[j - 1], j)] + rest)[1..] == rest;
  }

  lemma WalkRemoved(rest: seq<DiffOp>, a: seq<string>, b: seq<string>, i: nat, j: nat)
    requires Walked(rest, a, b, i, j) && i > 0 && (j > 0 ==> a[i - 1] != b[j - 1])
    requires j == 0 || Lcs(a[..i], b[..j - 1]) < Lcs(a[..i - 1], b[..j])
    ensures Walked([Removed(a[i - 1], i)] + rest, a, b, i - 1, j)
  {
    if j > 0 { LcsStep(a, b, i, j); }
    assert ([Removed(a[i - 1], i)] + rest)[1..] == rest;
  }

  method Backtrack(lcs: array2<nat>, a: seq<string>, b: seq<string>) returns (ops: seq<DiffOp>)
    requires Filled(lcs, a, b)
    ensures Script(Reverse(ops), a, b)
    ensures |Kept(Reverse(ops))| == Lcs(a, b) && RemovedFirst(Reverse(ops))
  {
    ops := [];
    var i, j := |a|, |b|;
    WalkStart(a, b);
    while i > 0 || j > 0
      invariant 0 <= i <= |a| && 0 <= j <= |b|
      invariant Walked(Reverse(ops), a, b, i, j)
      decreases i + j
    {
      hide Lcs, ScriptFrom, Kept, Reverse;
      ghost var rest := Reverse(ops);
      if i > 0 && j > 0 && a[i - 1] == b[j - 1] {
        WalkEqual(rest, a, b, i, j);
        ops := Push(ops, Equal(a[i - 1], b[j - 1], i, j));
        i, j := i - 1, j - 1;
      } else if j > 0 && (i == 0 || lcs[i, j - 1] >= lcs[i - 1, j]) {
        WalkAdded(rest, a, b, i, j);
        ops := Push(ops, Added(b[j - 1], j));
        j := j - 1;
      } else {
        WalkRemoved(rest, a, b, i, j);
        ops := Push(ops, Removed(a[i - 1], i));
        i := i - 1;
      }
    }
    assert Lcs(a[..0], b[..0]) == 0;
  }

  function Push(ops: seq<DiffOp>, op: DiffOp): (r: seq<DiffOp>)
    ensures Reverse(r) == [op] + Reverse(ops)
  {
    assert Front(ops + [op]) == ops;
    ops + [op]
  }

  /**
   * The diff is a script from left to right, shows both texts in full, line by line
   * and numbered from 1 in order, with no line for an empty text; it keeps as many
   * lines as a longest common subsequence has, and no script is shorter. Ties go to
   * the added line when walking back, so removed lines precede added ones.
   */
  method DiffLines(left: string, right: string) returns (ops: seq<DiffOp>)
    ensures Script(ops, Lines(left), Lines(right))
    ensures Lefts(ops) == Numbered(Lines(left), 0) && Rights(ops) == Numbered(Lines(right), 0)
    ensures Shows(LeftTexts(ops), left) && Shows(RightTexts(ops), right) && Counted(ops, 0, 0)
    ensures left == "" ==> forall k :: 0 <= k < |ops| ==> ops[k].Added?
    ensures right == "" ==> forall k :: 0 <= k < |ops| ==> ops[k].Removed?
    ensures IsLongest(Lines(left), Lines(right), |Kept(ops)|) && RemovedFirst(ops)
    ensures forall other :: Script(other, Lines(left), Lines(right)) ==> |ops| <= |other|
  {
    var leftLines, rightLines := Lines(left), Lines(right);
    var lcs := FillTable(leftLines, rightLines);
    ops := Backtrack(lcs, leftLines, rightLines);
    ops := Reverse(ops);
    ScriptReconstructs(ops, leftLines, rightLines, 0, 0);
    KeptIsCommon(ops, leftLines, rightLines, 0, 0);
    LcsIsLongest(leftLines, rightLines);
    ScriptTexts(ops, leftLines, rightLines, 0, 0);
    ScriptCounts(ops, leftLines, rightLines, 0, 0);
    assert leftLines[0..] == leftLines && rightLines[0..] == rightLines;
    ShowsLines(left);
    ShowsLines(right);
    OneSided(ops);
    forall other | Script(other, leftLines, rightLines) ensures |ops| <= |other| {
      ScriptLowerBound(other, leftLines, rightLines);
    }
  }
}
