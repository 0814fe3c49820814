/**
 * The `${{ env.KEY }}` grammar shared by the server-side resolver and the
 * client-side template renderer, and the reverse in-place splice both use.
 *
 * The matcher is concrete: at one start position the pattern is deterministic
 * except for the dot that separates env from key, where the greedy env group
 * takes everything up to the last usable dot.
 */
module References {
  import opened Wrappers
  import opened Strings

  /** One match: the two captured names and the half-open range of the site. */
  datatype Reference = Reference(envName: string, keyName: string, start: nat, end: nat)

  /** The charset [A-Za-z0-9_.+-] of both captured groups. */
  predicate NameChar(c: char) {
    'A' <= c <= 'Z' || 'a' <= c <= 'z' || '0' <= c <= '9' || c == '_' || c == '.' || c == '+' || c == '-'
  }

  /** The class \s of the pattern. */
  predicate SpaceChar(c: char) {
    c == ' ' || c == '\t' || c == '\n' || c == '\r' || c == '\U{000C}'
  }

  predicate AllName(s: string) { forall i :: 0 <= i < |s| ==> NameChar(s[i]) }

  predicate AllSpace(s: string) { forall i :: 0 <= i < |s| ==> SpaceChar(s[i]) }

  /** Declarative grammar: t is exactly one reference site naming env and key. */
  ghost predicate Derives(t: string, env: string, key: string) {
    exists ws1, ws2 :: DerivesWith(t, env, key, ws1, ws2)
  }

  ghost predicate DerivesWith(t: string, env: string, key: string, ws1: string, ws2: string) {
    && AllSpace(ws1) && AllSpace(ws2)
    && env != "" && key != "" && AllName(env) && AllName(key)
    && t == Site(ws1, env, key, ws2)
  }

  function Site(ws1: string, env: string, key: string, ws2: string): string {
    "${{" + (ws1 + (env + ("." + (key + (ws2 + "}}")))))
  }

  /** First position at or after i that is not white space. */
  function SkipSpace(s: string, i: nat): (j: nat)
    requires i <= |s|
    ensures i <= j <= |s| && AllSpace(s[i..j])
    ensures j == |s| || !SpaceChar(s[j])
    decreases |s| - i
  {
    if i < |s| && SpaceChar(s[i]) then
      var j := SkipSpace(s, i + 1);
      assert s[i..j] == [s[i]] + s[i + 1..j];
      j
    else i
  }

  /** First position at or after i that is not a name character. */
  function SkipName(s: string, i: nat): (j: nat)
    requires i <= |s|
    ensures i <= j <= |s| && AllName(s[i..j])
    ensures j == |s| || !NameChar(s[j])
    decreases |s| - i
  {
    if i < |s| && NameChar(s[i]) then
      var j := SkipName(s, i + 1);
      assert s[i..j] == [s[i]] + s[i + 1..j];
      j
    else i
  }

  /** Last dot strictly between the first and the last character of s[lo..hi]. */
  function LastDot(s: string, lo: nat, hi: nat): (p: Option<nat>)
    requires lo <= hi <= |s|
    ensures p.Some? ==> lo < p.value < hi - 1 && s[p.value] == '.'
    ensures p.Some? ==> forall q :: p.value < q < hi - 1 ==> s[q] != '.'
    ensures p.None? ==> forall q :: lo < q < hi - 1 ==> s[q] != '.'
    decreases hi
  {
    if hi < lo + 3 then None
    else if s[hi - 2] == '.' then Some(hi - 2)
    else LastDot(s, lo, hi - 1)
  }

  predicate OpensAt(s: string, i: nat) {
    i + 3 <= |s| && s[i] == '$' && s[i + 1] == '{' && s[i + 2] == '{'
  }

  predicate ClosesAt(s: string, i: nat) {
    i + 2 <= |s| && s[i] == '}' && s[i + 1] == '}'
  }

  /** The match that starts at i, if there is one. */
  function MatchAt(s: string, i: nat): (r: Option<Reference>)
    ensures r.Some? ==> r.value.start == i && i + 8 <= r.value.end <= |s|
  {
    if !OpensAt(s, i) then None else
    var a := SkipSpace(s, i + 3);
    var b := SkipName(s, a);
    var c := SkipSpace(s, b);
    var dot := LastDot(s, a, b);
    if dot.None? || !ClosesAt(s, c) then None
    else Some(Reference(s[a..dot.value], s[dot.value + 1..b], i, c + 2))
  }

  /** All matches at or after i: leftmost first, never overlapping. */
  function MatchesFrom(s: string, i: nat): (out: seq<Reference>)
    requires i <= |s|
    ensures Ordered(s, i, out)
    decreases |s| - i
  {
    if i == |s| then []
    else match MatchAt(s, i)
      case Some(m) => [m] + MatchesFrom(s, m.end)
      case None => MatchesFrom(s, i + 1)
  }

  function Matches(s: string): seq<Reference> { MatchesFrom(s, 0) }

  /** Sites in order, disjoint and inside s[lo..]. */
  predicate Ordered(s: string, lo: nat, refs: seq<Reference>)
    decreases |refs|
  {
    if refs == [] then lo <= |s|
    else lo <= refs[0].start < refs[0].end <= |s| && Ordered(s, refs[0].end, refs[1..])
  }

  /** The scanning loop: every match of the pattern, in source order. */
  method FindReferences(plaintext: string) returns (out: seq<Reference>)
    ensures out == Matches(plaintext)
  {
    out := [];
    var i := 0;
    while i < |plaintext|
      invariant 0 <= i <= |plaintext|
      invariant out + MatchesFrom(plaintext, i) == Matches(plaintext)
    {
      var m := MatchAt(plaintext, i);
      if m.Some? {
        assert out + ([m.value] + MatchesFrom(plaintext, m.value.end)) ==
               (out + [m.value]) + MatchesFrom(plaintext, m.value.end);
        out := out + [m.value];
        i := m.value.end;
      } else {
        i := i + 1;
      }
    }
    assert MatchesFrom(plaintext, i) == [];
  }

  // ---- The matcher is sound and complete for the grammar ----

  lemma MatchIsDerivation(s: string, i: nat)
    requires MatchAt(s, i).Some?
    ensures var m := MatchAt(s, i).value;
            Derives(s[m.start..m.end], m.envName, m.keyName)
  {
    hide SkipSpace, SkipName, LastDot, Site;
    var m := MatchAt(s, i).value;
    var a := SkipSpace(s, i + 3);
    var b := SkipName(s, a);
    var c := SkipSpace(s, b);
    var p := a + |m.envName|;
    SubName(s, a, b, a, p);
    SubName(s, a, b, p + 1, b);
    Assemble(s, i, a, p, b, c);
    assert DerivesWith(s[i..c + 2], m.envName, m.keyName, s[i + 3..a], s[b..c]);
  }

  /** The greedy env group: no other reading of the site has a longer env name. */
  lemma MatchIsGreedy(s: string, i: nat, env: string, key: string)
    requires MatchAt(s, i).Some? && DerivesPrefix(s, i, env, key)
    ensures |env| <= |MatchAt(s, i).value.envName|
  {
    var end: nat, ws1, ws2 :| i <= end <= |s| && DerivesWith(s[i..end], env, key, ws1, ws2);
    DerivationShape(s, i, end, env, key, ws1, ws2);
  }

  lemma Assemble(s: string, i: nat, a: nat, p: nat, b: nat, c: nat)
    requires OpensAt(s, i) && ClosesAt(s, c) && i + 3 <= a <= p < b <= c && s[p] == '.'
    ensures s[i..c + 2] == Site(s[i + 3..a], s[a..p], s[p + 1..b], s[b..c])
  {
    var r1 := s[b..c] + "}}";
    assert s[b..c + 2] == r1 by { assert s[c..c + 2] == "}}"; Cut(s, b, c, c + 2); }
    var r2 := s[p + 1..b] + r1;
    assert s[p + 1..c + 2] == r2 by { Cut(s, p + 1, b, c + 2); }
    var r3 := "." + r2;
    assert s[p..c + 2] == r3 by { assert s[p..p + 1] == "."; Cut(s, p, p + 1, c + 2); }
    var r4 := s[a..p] + r3;
    assert s[a..c + 2] == r4 by { Cut(s, a, p, c + 2); }
    var r5 := s[i + 3..a] + r4;
    assert s[i + 3..c + 2] == r5 by { Cut(s, i + 3, a, c + 2); }
    assert s[i..c + 2] == "${{" + r5 by { assert s[i..i + 3] == "${{"; Cut(s, i, i + 3, c + 2); }
  }

  lemma Cut(s: string, x: nat, y: nat, z: nat)
    requires x <= y <= z <= |s|
    ensures s[x..z] == s[x..y] + s[y..z]
  {
  }

  lemma SubName(s: string, lo: nat, hi: nat, x: nat, y: nat)
    requires lo <= x <= y <= hi <= |s| && AllName(s[lo..hi])
    ensures AllName(s[x..y])
  {
    forall k | 0 <= k < y - x ensures NameChar(s[x..y][k]) {
      assert s[x..y][k] == s[lo..hi][x - lo + k];
    }
  }

  /** Some reference site naming env and key starts at i. */
  ghost predicate DerivesPrefix(s: string, i: nat, env: string, key: string) {
    exists end, ws1, ws2 :: i <= end <= |s| && DerivesWith(s[i..end], env, key, ws1, ws2)
  }

  /** A derivation at i forces every position the matcher computes. */
  lemma DerivationShape(s: string, i: nat, end: nat, env: string, key: string, ws1: string, ws2: string)
    requires i <= end <= |s|
    requires DerivesWith(s[i..end], env, key, ws1, ws2)
    ensures OpensAt(s, i)
    ensures var a := SkipSpace(s, i + 3);
            var b := SkipName(s, a);
            var c := SkipSpace(s, b);
            && a == i + 3 + |ws1| && b == a + |env| + 1 + |key| && c == b + |ws2| && end == c + 2
            && ClosesAt(s, c) && LastDot(s, a, b).Some?
            && a + |env| <= LastDot(s, a, b).value
  {
    hide Site, SkipSpace, SkipName, LastDot;
    var a := i + 3 + |ws1|;
    var b := a + |env| + 1 + |key|;
    var c := b + |ws2|;
    Disassemble(s, i, end, env, key, ws1, ws2);
    NameAt(s, a, a + |env|, b, env, key);
    SpaceRun(s, i + 3, a);
    NameRun(s, a, b);
    SpaceRun(s, b, c);
  }

  lemma Disassemble(s: string, i: nat, end: nat, env: string, key: string, ws1: string, ws2: string)
    requires i <= end <= |s|
    requires DerivesWith(s[i..end], env, key, ws1, ws2)
    ensures var a := i + 3 + |ws1|; var p := a + |env|; var b := p + 1 + |key|; var c := b + |ws2|;
            && end == c + 2 && OpensAt(s, i) && s[p] == '.' && ClosesAt(s, c)
            && s[i + 3..a] == ws1 && s[a..p] == env && s[p + 1..b] == key && s[b..c] == ws2
            && s[a] == env[0] && (b < c ==> s[b] == ws2[0])
  {
    var a := i + 3 + |ws1|; var p := a + |env|; var b := p + 1 + |key|; var c := b + |ws2|;
    Peel(s, i, end, "${{", ws1 + (env + ("." + (key + (ws2 + "}}")))));
    Peel(s, i + 3, end, ws1, env + ("." + (key + (ws2 + "}}"))));
    Peel(s, a, end, env, "." + (key + (ws2 + "}}")));
    Peel(s, p, end, ".", key + (ws2 + "}}"));
    Peel(s, p + 1, end, key, ws2 + "}}");
    Peel(s, b, end, ws2, "}}");
    assert s[i] == s[i..i + 3][0] && s[i + 1] == s[i..i + 3][1] && s[i + 2] == s[i..i + 3][2];
    assert s[p] == s[p..p + 1][0];
    assert s[c] == s[c..c + 2][0] && s[c + 1] == s[c..c + 2][1];
  }

  lemma Peel(s: string, i: nat, end: nat, head: string, tail: string)
    requires i <= end <= |s| && s[i..end] == head + tail
    ensures i + |head| <= end
    ensures s[i..i + |head|] == head && s[i + |head|..end] == tail
  {
    assert s[i..i + |head|] == s[i..end][..|head|];
    assert s[i + |head|..end] == s[i..end][|head|..];
  }

  lemma NameAt(s: string, a: nat, p: nat, b: nat, env: string, key: string)
    requires a <= p < b <= |s| && s[a..p] == env && s[p] == '.' && s[p + 1..b] == key
    requires AllName(env) && AllName(key)
    ensures forall k :: a <= k < b ==> NameChar(s[k])
  {
    forall k | a <= k < b ensures NameChar(s[k]) {
      if k < p { assert s[k] == env[k - a]; } else if k > p { assert s[k] == key[k - p - 1]; }
    }
  }

  lemma {:induction false} SpaceRun(s: string, i: nat, j: nat)
    requires i <= j < |s| && AllSpace(s[i..j]) && !SpaceChar(s[j])
    ensures SkipSpace(s, i) == j
    decreases j - i
  {
    if i < j {
      assert s[i] == s[i..j][0];
      assert s[i + 1..j] == s[i..j][1..];
      SpaceRun(s, i + 1, j);
    }
  }

  lemma {:induction false} NameRun(s: string, i: nat, j: nat)
    requires i <= j < |s| && !NameChar(s[j])
    requires forall k :: i <= k < j ==> NameChar(s[k])
    ensures SkipName(s, i) == j
    decreases j - i
  {
    if i < j { NameRun(s, i + 1, j); }
  }

  lemma NoMatchNoDerivation(s: string, i: nat, env: string, key: string)
    requires MatchAt(s, i).None?
    ensures !DerivesPrefix(s, i, env, key)
  {
    if DerivesPrefix(s, i, env, key) {
      var end, ws1, ws2 :| i <= end <= |s| && DerivesWith(s[i..end], env, key, ws1, ws2);
      DerivationShape(s, i, end, env, key, ws1, ws2);
    }
  }

  /** A position is covered when it lies inside one of the sites. */
  ghost predicate Covered(refs: seq<Reference>, i: nat) {
    exists k :: 0 <= k < |refs| && refs[k].start <= i < refs[k].end
  }

  /**
   * Leftmost, non-overlapping, complete: each reported site is a reference, and
   * a reference can start at an unreported position only inside a reported site.
   */
  lemma {:induction false} MatchesExact(s: string, lo: nat)
    requires lo <= |s|
    ensures forall k :: 0 <= k < |MatchesFrom(s, lo)| ==>
              var m := MatchesFrom(s, lo)[k];
              m.end <= |s| && m.start <= m.end && Derives(s[m.start..m.end], m.envName, m.keyName)
    ensures forall i, env, key :: lo <= i && DerivesPrefix(s, i, env, key) ==> Covered(MatchesFrom(s, lo), i)
    decreases |s| - lo
  {
    if lo == |s| {
      forall i, env, key | lo <= i ensures !DerivesPrefix(s, i, env, key) {
        NoMatchNoDerivation(s, i, env, key);
      }
    } else {
      var all := MatchesFrom(s, lo);
      match MatchAt(s, lo)
      case Some(m) =>
        MatchIsDerivation(s, lo);
        MatchesExact(s, m.end);
        var rest := MatchesFrom(s, m.end);
        assert all == [m] + rest;
        forall i, env, key | lo <= i && DerivesPrefix(s, i, env, key)
          ensures Covered(all, i)
        {
          if i < m.end {
            assert all[0] == m;
          } else {
            var k :| 0 <= k < |rest| && rest[k].start <= i < rest[k].end;
            assert all[k + 1] == rest[k];
          }
        }
      case None =>
        MatchesExact(s, lo + 1);
        forall i, env, key | lo <= i && DerivesPrefix(s, i, env, key)
          ensures Covered(all, i)
        {
          if i == lo { NoMatchNoDerivation(s, i, env, key); }
        }
    }
  }

  // ---- The grammar over its alphabets, spelled out ----

  /** The characters of env and key names, and white space inside the braces. */
  const NAME_ALPHABET := UPPER + LOWER + DIGITS + "_.+-"
  const SPACE_ALPHABET := " \t\n\r\U{000C}"

  lemma NameAlphabet(c: char)
    ensures NameChar(c) <==> c in NAME_ALPHABET
  {
    Letters(c);
    var rest := "_.+-";
    assert c in rest <==> c == '_' || c == '.' || c == '+' || c == '-' by {
      assert rest[0] == '_' && rest[1] == '.' && rest[2] == '+' && rest[3] == '-';
    }
    assert c in NAME_ALPHABET <==> c in UPPER || c in LOWER || c in DIGITS || c in rest;
  }

  lemma SpaceAlphabet(c: char)
    ensures SpaceChar(c) <==> c in SPACE_ALPHABET
  {
    var a := SPACE_ALPHABET;
    assert a[0] == ' ' && a[1] == '\t' && a[2] == '\n' && a[3] == '\r' && a[4] == '\U{000C}';
  }

  /**
   * A reference as an operator writes it, names over the name alphabet and white space
   * over the space alphabet, is found whole; the env ends at the dot before a key
   * without dots.
   */
  lemma WrittenIsFound(ws1: string, env: string, key: string, ws2: string)
    requires Over(ws1, SPACE_ALPHABET) && Over(ws2, SPACE_ALPHABET) && Over(env, NAME_ALPHABET) && Over(key, NAME_ALPHABET)
    requires env != "" && key != "" && '.' !in key
    ensures var s := "${{" + ws1 + env + "." + key + ws2 + "}}"; Matches(s) == [Reference(env, key, 0, |s|)]
  {
    hide Matches, Site;
    var s := "${{" + ws1 + env + "." + key + ws2 + "}}";
    InAlphabets(ws1, env, key, ws2);
    SiteText(ws1, env, key, ws2);
    WholeMatch(s, env, key, ws1, ws2);
  }

  lemma SiteText(ws1: string, env: string, key: string, ws2: string)
    ensures "${{" + ws1 + env + "." + key + ws2 + "}}" == Site(ws1, env, key, ws2)
  {
    var e := "}}";
    Assoc("${{", ws1, env);
    Assoc("${{", ws1 + env, ".");
    Assoc(ws1, env, ".");
    Assoc("${{", ws1 + (env + "."), key);
    Assoc(ws1, env + ".", key);
    Assoc(env, ".", key);
    Assoc("${{", ws1 + (env + ("." + key)), ws2);
    Assoc(ws1, env + ("." + key), ws2);
    Assoc(env, "." + key, ws2);
    Assoc(".", key, ws2);
    Assoc("${{", ws1 + (env + ("." + (key + ws2))), e);
    Assoc(ws1, env + ("." + (key + ws2)), e);
    Assoc(env, "." + (key + ws2), e);
    Assoc(".", key + ws2, e);
    Assoc(key, ws2, e);
  }

  /** A text that is one site, its key free of dots, is matched whole. */
  lemma WholeMatch(s: string, env: string, key: string, ws1: string, ws2: string)
    requires DerivesWith(s, env, key, ws1, ws2) && '.' !in key
    ensures Matches(s) == [Reference(env, key, 0, |s|)]
  {
    hide DerivesWith, SkipSpace, SkipName, LastDot, Site;
    var end := |s|;
    assert s[0..end] == s;
    DerivationShape(s, 0, end, env, key, ws1, ws2);
    Disassemble(s, 0, end, env, key, ws1, ws2);
    NotEmpty(s, env, key, ws1, ws2);
    var a := 3 + |ws1|;
    DotBeforeKey(s, a, a + |env|, a + |env| + 1 + |key|, key);
    assert MatchAt(s, 0) == Some(Reference(env, key, 0, end));
    assert MatchesFrom(s, end) == [];
    assert Matches(s) == [Reference(env, key, 0, end)] + [];
  }

  lemma NotEmpty(s: string, env: string, key: string, ws1: string, ws2: string)
    requires DerivesWith(s, env, key, ws1, ws2)
    ensures env != "" && key != "" && s != ""
  {
  }

  lemma InAlphabets(ws1: string, env: string, key: string, ws2: string)
    requires Over(ws1, SPACE_ALPHABET) && Over(ws2, SPACE_ALPHABET) && Over(env, NAME_ALPHABET) && Over(key, NAME_ALPHABET)
    ensures AllSpace(ws1) && AllSpace(ws2) && AllName(env) && AllName(key)
  {
    forall c ensures (NameChar(c) <==> c in NAME_ALPHABET) && (SpaceChar(c) <==> c in SPACE_ALPHABET) {
      NameAlphabet(c);
      SpaceAlphabet(c);
    }
  }

  lemma DotBeforeKey(s: string, a: nat, p: nat, b: nat, key: string)
    requires a < p < b - 1 && b <= |s| && s[p] == '.' && s[p + 1..b] == key && '.' !in key
    ensures LastDot(s, a, b) == Some(p)
  {
    forall q | p < q < b ensures s[q] != '.' { assert s[q] == key[q - p - 1]; }
  }

  /** Whatever is found has names over the name alphabet. */
  lemma FoundIsWritten(s: string, k: nat)
    requires k < |Matches(s)|
    ensures var m := Matches(s)[k]; m.envName != "" && m.keyName != "" && Over(m.envName, NAME_ALPHABET) && Over(m.keyName, NAME_ALPHABET)
  {
    hide NameChar, Matches;
    MatchesOrdered(s);
    FoundDerives(s, k);
    var m := Matches(s)[k];
    var ws1, ws2 :| m.start <= m.end <= |s| && DerivesWith(s[m.start..m.end], m.envName, m.keyName, ws1, ws2);
    forall c ensures NameChar(c) <==> c in NAME_ALPHABET { NameAlphabet(c); }
  }

  lemma FoundDerives(s: string, k: nat)
    requires k < |Matches(s)|
    ensures var m := Matches(s)[k]; m.start <= m.end <= |s| && Derives(s[m.start..m.end], m.envName, m.keyName)
  {
    MatchesExact(s, 0);
  }

  // ---- Splicing ----

  /** s[pos..] with each site replaced by its value, read left to right, inserted text never re-read. */
  function SubstituteFrom(s: string, pos: nat, refs: seq<Reference>, vals: seq<string>): string
    requires Ordered(s, pos, refs) && |vals| == |refs|
    decreases |refs|
  {
    if refs == [] then s[pos..]
    else s[pos..refs[0].start] + (vals[0] + SubstituteFrom(s, refs[0].end, refs[1..], vals[1..]))
  }

  function Substitute(s: string, refs: seq<Reference>, vals: seq<string>): string
    requires Ordered(s, 0, refs) && |vals| == |refs|
  {
    SubstituteFrom(s, 0, refs, vals)
  }

  lemma {:induction false} OrderedDrop(s: string, lo: nat, refs: seq<Reference>, i: nat)
    requires Ordered(s, lo, refs) && i <= |refs|
    ensures Ordered(s, lo, refs[i..]) && lo <= |s|
    ensures i < |refs| ==> Ordered(s, refs[i].end, refs[i + 1..]) && lo <= refs[i].start < refs[i].end <= |s|
    decreases i
  {
    OrderedBound(s, lo, refs);
    if i == 0 {
      assert refs[0..] == refs;
    } else {
      OrderedDrop(s, refs[0].end, refs[1..], i - 1);
      assert refs[1..][i - 1..] == refs[i..];
      assert i < |refs| ==> refs[1..][i - 1 + 1..] == refs[i + 1..];
      OrderedWeaken(s, refs[0].end, lo, refs[i..]);
    }
  }

  lemma {:induction false} OrderedBound(s: string, lo: nat, refs: seq<Reference>)
    requires Ordered(s, lo, refs)
    ensures lo <= |s|
  {
  }

  lemma {:induction false} OrderedWeaken(s: string, hi: nat, lo: nat, refs: seq<Reference>)
    requires lo <= hi && Ordered(s, hi, refs)
    ensures Ordered(s, lo, refs)
  {
  }

  lemma MatchesOrdered(s: string)
    ensures Ordered(s, 0, Matches(s))
  {
  }

  /** Sites in order stand apart. */
  lemma {:induction false} OrderedApart(s: string, lo: nat, refs: seq<Reference>)
    requires Ordered(s, lo, refs)
    ensures forall i :: 0 <= i < |refs| ==> lo <= refs[i].start < refs[i].end <= |s|
    ensures forall i, j :: 0 <= i < j < |refs| ==> refs[i].end <= refs[j].start
    decreases |refs|
  {
    if refs != [] {
      OrderedApart(s, refs[0].end, refs[1..]);
      assert refs == [refs[0]] + refs[1..];
    }
  }

  lemma Assoc(a: string, b: string, c: string)
    ensures (a + b) + c == a + (b + c)
  {
  }

  /** Everything before the first site is untouched. */
  lemma {:induction false} SubstitutePrefix(s: string, lo: nat, hi: nat, refs: seq<Reference>, vals: seq<string>)
    requires lo <= hi && Ordered(s, hi, refs) && |vals| == |refs|
    ensures Ordered(s, lo, refs) && hi <= |s|
    ensures SubstituteFrom(s, lo, refs, vals) == s[lo..hi] + SubstituteFrom(s, hi, refs, vals)
  {
    OrderedBound(s, hi, refs);
    if refs == [] {
      Cut(s, lo, hi, |s|);
    } else {
      Cut(s, lo, hi, refs[0].start);
      Assoc(s[lo..hi], s[hi..refs[0].start], vals[0] + SubstituteFrom(s, refs[0].end, refs[1..], vals[1..]));
    }
  }

  /** One reverse splice: replacing site i in a text whose later sites are already replaced. */
  lemma {:induction false} SpliceStep(s: string, refs: seq<Reference>, i: nat, val: string, vals: seq<string>, out: string)
    requires Ordered(s, 0, refs) && i < |refs| && |vals| == |refs| - i - 1
    requires Ordered(s, 0, refs[i + 1..]) && out == Substitute(s, refs[i + 1..], vals)
    ensures Ordered(s, 0, refs[i..])
    ensures refs[i].start <= refs[i].end <= |out|
    ensures out[..refs[i].start] + val + out[refs[i].end..] == Substitute(s, refs[i..], [val] + vals)
  {
    OrderedDrop(s, 0, refs, i);
    var r := refs[i];
    SubstitutePrefix(s, 0, r.end, refs[i + 1..], vals);
    var tail := SubstituteFrom(s, r.end, refs[i + 1..], vals);
    assert out == s[0..r.end] + tail;
    assert out[..r.start] == s[0..r.start] && out[r.end..] == tail;
    Assoc(s[0..r.start], val, tail);
    assert refs[i..][0] == r && refs[i..][1..] == refs[i + 1..] && ([val] + vals)[1..] == vals;
  }

  /** A text without sites stands for itself. */
  lemma SubstituteNone(s: string)
    ensures Ordered(s, 0, []) && Substitute(s, [], []) == s
  {
    assert s[0..] == s;
  }

  /** The character at i, if it is '$', can open no reference, whatever follows the text. */
  predicate InertAt(t: string, i: nat)
    requires i < |t|
  {
    t[i] == '$' ==> i + 1 < |t| && (t[i + 1] != '{' || (i + 2 < |t| && t[i + 2] != '{'))
  }

  /** No reference starts in the text, whatever stands before or after it. */
  predicate Inert(t: string) { forall i :: 0 <= i < |t| ==> InertAt(t, i) }

  lemma InertAppend(a: string, b: string)
    requires Inert(a) && Inert(b)
    ensures Inert(a + b)
  {
    forall i | 0 <= i < |a + b| ensures InertAt(a + b, i) {
      if i < |a| { assert InertAt(a, i); } else { assert InertAt(b, i - |a|); }
    }
  }

  lemma {:induction false} InertFromNoMatch(t: string, lo: nat)
    requires lo <= |t| && forall i :: lo <= i < |t| ==> InertAt(t, i)
    ensures MatchesFrom(t, lo) == []
    decreases |t| - lo
  {
    if lo < |t| {
      assert InertAt(t, lo);
      InertFromNoMatch(t, lo + 1);
    }
  }

  /** Every literal part, between and around the sites, is inert. */
  predicate CleanFrom(s: string, pos: nat, refs: seq<Reference>)
    requires Ordered(s, pos, refs)
    decreases |refs|
  {
    if refs == [] then Inert(s[pos..])
    else Inert(s[pos..refs[0].start]) && CleanFrom(s, refs[0].end, refs[1..])
  }

  /** Putting inert values into the sites of a clean text gives an inert text. */
  lemma {:induction false} CleanSubstitute(s: string, pos: nat, refs: seq<Reference>, vals: seq<string>)
    requires Ordered(s, pos, refs) && |vals| == |refs| && CleanFrom(s, pos, refs)
    requires forall i :: 0 <= i < |vals| ==> Inert(vals[i])
    ensures Inert(SubstituteFrom(s, pos, refs, vals))
    decreases |refs|
  {
    hide Inert;
    if refs != [] {
      CleanSubstitute(s, refs[0].end, refs[1..], vals[1..]);
      var rest := SubstituteFrom(s, refs[0].end, refs[1..], vals[1..]);
      InertAppend(vals[0], rest);
      InertAppend(s[pos..refs[0].start], vals[0] + rest);
    }
  }
}
