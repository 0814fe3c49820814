/**
 * Which webhooks an event goes to: the stored, normalised event list and the
 * comma-wrapped LIKE test that looks a name up in it.
 */
module Subscriptions {
  import opened Wrappers
  import Dotenv
  import Strings

  const UPSERT := "secret.upsert"
  const ROLLBACK := "secret.rollback"
  const DELETE := "secret.delete"

  predicate ValidEvent(e: string) { e == UPSERT || e == ROLLBACK || e == DELETE }

  datatype Webhook = Webhook(projectID: int, envID: Option<int>, events: string, enabled: bool)

  /** strings.Join with commas. */
  function JoinComma(names: seq<string>): string {
    if names == [] then ""
    else if |names| == 1 then names[0]
    else names[0] + "," + JoinComma(names[1..])
  }

  /** The distinct names of an event list, in order of first occurrence; None when one is unknown. */
  function Normalized(input: seq<string>): Option<seq<string>> {
    if input == [] then Some([])
    else
      var e := Dotenv.TrimSpace(input[|input| - 1]);
      match Normalized(input[..|input| - 1])
      case None => None
      case Some(out) => if !ValidEvent(e) then None else if e in out then Some(out) else Some(out + [e])
  }

  /** What a subscription asks for; an empty list asks for everything. */
  function Requests(input: seq<string>): Option<seq<string>> {
    if input == [] then Some([UPSERT, ROLLBACK, DELETE]) else Normalized(input)
  }

  /** None stands for the bad-request error. */
  method NormalizeWebhookEvents(input: seq<string>) returns (r: Option<string>)
    ensures r == match Requests(input) case None => None case Some(names) => Some(JoinComma(names))
  {
    if |input| == 0 { return Some(JoinComma([UPSERT, ROLLBACK, DELETE])); }
    var seen: set<string> := {};
    var out: seq<string> := [];
    for i := 0 to |input|
      invariant Normalized(input[..i]) == Some(out)
      invariant forall e :: e in seen <==> e in out
    {
      assert input[..i + 1][..i] == input[..i];
      var e := Dotenv.TrimSpace(input[i]);
      if !ValidEvent(e) {
        UnknownStays(input, i + 1);
        return None;
      }
      if e !in seen {
        seen := seen + {e};
        out := out + [e];
      }
    }
    assert input[..|input|] == input;
    return Some(JoinComma(out));
  }

  lemma {:induction false} UnknownStays(input: seq<string>, i: nat)
    requires i <= |input| && Normalized(input[..i]).None?
    ensures Normalized(input).None?
    decreases |input| - i
  {
    if i == |input| {
      assert input[..i] == input;
    } else {
      assert input[..i + 1][..i] == input[..i];
      UnknownStays(input, i + 1);
    }
  }

  /** Normalising keeps exactly the requested names, once each, and accepts only known ones. */
  lemma {:induction false} NormalizedExact(input: seq<string>)
    ensures Normalized(input).Some? <==> forall e :: e in input ==> ValidEvent(Dotenv.TrimSpace(e))
    ensures Normalized(input).Some? ==>
              var out := Normalized(input).value;
              && (forall e :: e in out ==> ValidEvent(e))
              && (forall e :: e in input ==> Dotenv.TrimSpace(e) in out)
              && (forall n :: n in out ==> Requested(input, n))
              && (forall i, j :: 0 <= i < j < |out| ==> out[i] != out[j])
    decreases |input|
  {
    hide Dotenv.TrimSpace;
    if input != [] {
      var front, last := input[..|input| - 1], input[|input| - 1];
      assert input == front + [last];
      NormalizedExact(front);
      if Normalized(input).Some? {
        forall n | n in Normalized(input).value ensures Requested(input, n) {
          if n in Normalized(front).value {
            assert Requested(front, n);
            var e :| e in front && Dotenv.TrimSpace(e) == n;
            assert e in input;
          } else {
            assert last in input && Dotenv.TrimSpace(last) == n;
          }
        }
      }
    }
  }

  /** The known events by name; asking for none means asking for all three. */
  lemma EventsByName(e: string)
    ensures ValidEvent(e) <==> e == "secret.upsert" || e == "secret.rollback" || e == "secret.delete"
    ensures Requests([]) == Some(["secret.upsert", "secret.rollback", "secret.delete"])
    ensures JoinComma(Requests([]).value) == "secret.upsert,secret.rollback,secret.delete"
  {
    JoinThree("secret.upsert", "secret.rollback", "secret.delete");
    assert "secret.upsert" + "," + ("secret.rollback" + "," + "secret.delete") == "secret.upsert,secret.rollback,secret.delete";
  }

  lemma JoinThree(a: string, b: string, c: string)
    ensures JoinComma([a, b, c]) == a + "," + (b + "," + c)
  {
    assert [a, b, c][1..] == [b, c] && [b, c][1..] == [c];
    assert JoinComma([b, c]) == b + "," + c;
  }

  /** The name stands in the input before every place where the other one does. */
  ghost predicate NamedBefore(input: seq<string>, a: string, b: string) {
    exists p :: 0 <= p < |input| && Dotenv.TrimSpace(input[p]) == a
                && forall q :: 0 <= q < |input| && Dotenv.TrimSpace(input[q]) == b ==> p < q
  }

  /** Names are kept in the order in which they first occur. */
  lemma {:induction false} NamesInOrder(input: seq<string>)
    requires Normalized(input).Some?
    ensures var out := Normalized(input).value; forall i, j :: 0 <= i < j < |out| ==> NamedBefore(input, out[i], out[j])
    decreases |input|
  {
    hide Dotenv.TrimSpace;
    if input != [] {
      var front, last := input[..|input| - 1], input[|input| - 1];
      NamesInOrder(front);
      NormalizedExact(front);
      var was, out := Normalized(front).value, Normalized(input).value;
      forall i, j | 0 <= i < j < |out| ensures NamedBefore(input, out[i], out[j]) {
        if j < |was| {
          assert NamedBefore(front, was[i], was[j]);
          var p :| 0 <= p < |front| && Dotenv.TrimSpace(front[p]) == was[i]
                   && forall q :: 0 <= q < |front| && Dotenv.TrimSpace(front[q]) == was[j] ==> p < q;
          EarlierStays(front, input, p, was[i], was[j]);
        } else {
          assert was[i] in was;
          assert Requested(front, was[i]);
          var e :| e in front && Dotenv.TrimSpace(e) == was[i];
          var p :| 0 <= p < |front| && front[p] == e;
          forall q | 0 <= q < |front| ensures Dotenv.TrimSpace(front[q]) != out[j] { assert front[q] in front; }
          EarlierStays(front, input, p, was[i], out[j]);
        }
      }
    }
  }

  lemma EarlierStays(front: seq<string>, input: seq<string>, p: nat, a: string, b: string)
    requires input != [] && front == input[..|input| - 1] && p < |front| && Dotenv.TrimSpace(front[p]) == a
    requires forall q :: 0 <= q < |front| && Dotenv.TrimSpace(front[q]) == b ==> p < q
    ensures NamedBefore(input, a, b)
  {
    hide Dotenv.TrimSpace;
    assert input[p] == front[p];
    forall q | 0 <= q < |input| && Dotenv.TrimSpace(input[q]) == b ensures p < q {
      if q < |front| { assert front[q] == input[q]; }
    }
  }

  ghost predicate Requested(input: seq<string>, name: string) { exists e :: e in input && Dotenv.TrimSpace(e) == name }

  // ---- SQL LIKE ----

  function Lower(c: char): char { if 'A' <= c <= 'Z' then c - 'A' + 'a' else c }

  /** SQLite's LIKE: '%' any text, '_' any character, ASCII letters without case. */
  predicate Like(pat: string, text: string)
    decreases |pat| + |text|
  {
    if pat == "" then text == ""
    else if pat[0] == '%' then Like(pat[1..], text) || (text != "" && Like(pat, text[1..]))
    else text != "" && (pat[0] == '_' || Lower(pat[0]) == Lower(text[0])) && Like(pat[1..], text[1..])
  }

  /** The 26 letters match in either case, and '_' matches any one character. */
  lemma LikeIgnoresCase(i: nat, c: char, pat: string, text: string)
    requires i < 26
    ensures Like([Strings.UPPER[i]] + pat, [Strings.LOWER[i]] + text) <==> Like(pat, text)
    ensures Like([Strings.LOWER[i]] + pat, [Strings.UPPER[i]] + text) <==> Like(pat, text)
    ensures Like(['_'] + pat, [c] + text) <==> Like(pat, text)
  {
    var u, l := Strings.UPPER[i], Strings.LOWER[i];
    assert u in Strings.UPPER && l in Strings.LOWER;
    Strings.Letters(u);
    Strings.Letters(l);
    CasePair(i);
    OneStep(u, l, pat, text);
    OneStep(l, u, pat, text);
    OneStep('_', c, pat, text);
  }

  lemma CasePair(i: nat)
    requires i < 26
    ensures Strings.UPPER[i] - 'A' + 'a' == Strings.LOWER[i]
  {
  }

  lemma OneStep(p: char, c: char, pat: string, text: string)
    requires p != '%' && (p == '_' || Lower(p) == Lower(c))
    ensures Like([p] + pat, [c] + text) <==> Like(pat, text)
  {
    assert ([p] + pat)[1..] == pat && ([c] + text)[1..] == text;
  }

  /** The clause (',' || events || ',') LIKE '%,' || event || ',%'. */
  predicate EventMatches(events: string, event: string) { Like("%," + event + ",%", "," + events + ",") }

  /** Neither a comma, nor a wildcard, nor an upper-case letter, and not empty. */
  predicate PlainName(n: string) {
    n != "" && forall i :: 0 <= i < |n| ==> n[i] != ',' && n[i] != '%' && n[i] != '_' && !('A' <= n[i] <= 'Z')
  }

  predicate NoUpper(t: string) { forall i :: 0 <= i < |t| ==> !('A' <= t[i] <= 'Z') }

  /** Characters that stand for themselves in a pattern. */
  predicate Literal(t: string) { NoUpper(t) && forall i :: 0 <= i < |t| ==> t[i] != '%' && t[i] != '_' }

  lemma {:induction false} LikeLiteral(lit: string, text: string)
    requires Literal(lit) && NoUpper(text)
    ensures Like(lit + "%", text) <==> lit <= text
    decreases |lit|
  {
    if lit == "" {
      assert lit + "%" == "%";
      LikeAnything(text);
    } else {
      assert (lit + "%")[0] == lit[0] && (lit + "%")[1..] == lit[1..] + "%";
      if text != "" { LikeLiteral(lit[1..], text[1..]); }
    }
  }

  lemma {:induction false} LikeAnything(text: string)
    ensures Like("%", text)
    decreases |text|
  {
    assert "%"[1..] == "";
    if text != "" { LikeAnything(text[1..]); }
  }

  /** lit occurs in text at position i. */
  predicate OccursAt(lit: string, text: string, i: nat) { i <= |text| && lit <= text[i..] }

  lemma {:induction false} LikeOccurs(lit: string, text: string)
    requires Literal(lit) && NoUpper(text)
    ensures Like("%" + (lit + "%"), text) <==> Occurs(lit, text)
    decreases |text|
  {
    var pat := "%" + (lit + "%");
    assert pat[0] == '%' && pat[1..] == lit + "%";
    LikeLiteral(lit, text);
    assert text[0..] == text;
    if lit <= text { assert OccursAt(lit, text, 0); }
    if text != "" {
      LikeOccurs(lit, text[1..]);
      if Like(pat, text[1..]) {
        var i: nat :| OccursAt(lit, text[1..], i);
        assert text[1..][i..] == text[i + 1..];
        assert OccursAt(lit, text, i + 1);
      }
      forall i: nat | OccursAt(lit, text, i) ensures lit <= text || OccursAt(lit, text[1..], i - 1) {
        if i > 0 { assert text[1..][i - 1..] == text[i..]; }
      }
    }
  }

  // ---- The comma-wrapped test is membership ----

  function Wrapped(t: string): string { "," + t + "," }

  /** Between two commas stands a whole name: an occurrence is the first name or lies in the rest. */
  lemma OccursAfterName(e: string, name: string, rest: string, i: nat)
    requires PlainName(e) && PlainName(name) && rest != "" && rest[0] == ','
    requires OccursAt(Wrapped(e), "," + name + rest, i)
    ensures e == name || (i > |name| && OccursAt(Wrapped(e), rest, i - 1 - |name|))
  {
    var text, lit := "," + name + rest, Wrapped(e);
    assert lit[0] == ',' && text[i..][0] == text[i] == ',';
    assert forall k :: 1 <= k <= |name| ==> text[k] == name[k - 1];
    if i == 0 {
      assert text[0..] == text;
      WholeName(e, name, rest);
    } else {
      assert i > |name|;
      assert text[i..] == rest[i - 1 - |name|..];
    }
  }

  lemma WholeName(e: string, name: string, rest: string)
    requires PlainName(e) && PlainName(name) && rest != "" && rest[0] == ','
    requires Wrapped(e) <= "," + name + rest
    ensures e == name
  {
    var text, lit := "," + name + rest, Wrapped(e);
    assert forall k :: 0 <= k < |lit| ==> lit[k] == text[k];
    CutAtComma(lit, text, e, name);
  }

  /** Two comma-free words that follow the same first character and precede a comma in texts that agree there. */
  lemma CutAtComma(lit: string, text: string, e: string, name: string)
    requires PlainName(e) && PlainName(name) && |e| + 2 == |lit| <= |text| && |name| + 2 <= |text|
    requires forall k :: 0 <= k < |lit| ==> lit[k] == text[k]
    requires lit[|e| + 1] == ',' && text[|name| + 1] == ','
    requires lit[1..|e| + 1] == e && text[1..|name| + 1] == name
    ensures e == name
  {
    assert forall k :: 0 <= k < |e| ==> e[k] == lit[k + 1];
    assert forall k :: 0 <= k < |name| ==> name[k] == text[k + 1];
  }

  lemma OccursHere(e: string, rest: string)
    requires rest != "" && rest[0] == ','
    ensures OccursAt(Wrapped(e), "," + e + rest, 0)
  {
    var text := "," + e + rest;
    assert text[0..] == text;
    assert text == Wrapped(e) + rest[1..];
  }

  lemma OccursLater(lit: string, name: string, rest: string, j: nat)
    requires OccursAt(lit, rest, j)
    ensures OccursAt(lit, "," + name + rest, j + 1 + |name|)
  {
    assert ("," + name + rest)[j + 1 + |name|..] == rest[j..];
  }

  ghost predicate Occurs(lit: string, text: string) { exists i: nat :: OccursAt(lit, text, i) }

  /** An occurrence in a list is at its head or in the rest. */
  lemma OccursStep(e: string, name: string, rest: string)
    requires PlainName(e) && PlainName(name) && rest != "" && rest[0] == ','
    ensures Occurs(Wrapped(e), "," + name + rest) <==> e == name || Occurs(Wrapped(e), rest)
  {
    var text := "," + name + rest;
    if Occurs(Wrapped(e), text) {
      var i: nat :| OccursAt(Wrapped(e), text, i);
      OccursAfterName(e, name, rest, i);
    }
    if e == name {
      OccursHere(e, rest);
    } else if Occurs(Wrapped(e), rest) {
      var j: nat :| OccursAt(Wrapped(e), rest, j);
      OccursLater(Wrapped(e), name, rest, j);
    }
  }

  lemma {:induction false} OccursInList(e: string, names: seq<string>)
    requires PlainName(e) && forall n :: n in names ==> PlainName(n)
    ensures Occurs(Wrapped(e), Wrapped(JoinComma(names))) <==> e in names
    decreases |names|
  {
    hide PlainName;
    var text := Wrapped(JoinComma(names));
    if names == [] {
      assert text == ",,";
      TooShort(e, text);
    } else if |names| == 1 {
      assert text == "," + names[0] + ",";
      OccursStep(e, names[0], ",");
      TooShort(e, ",");
    } else {
      assert names == [names[0]] + names[1..];
      OccursInList(e, names[1..]);
      var rest := Wrapped(JoinComma(names[1..]));
      assert text == "," + names[0] + rest;
      OccursStep(e, names[0], rest);
    }
  }

  lemma TooShort(e: string, text: string)
    requires PlainName(e) && |text| <= 2
    ensures !Occurs(Wrapped(e), text)
  {
  }

  lemma {:induction false} JoinNoUpper(names: seq<string>)
    requires forall n :: n in names ==> PlainName(n)
    ensures NoUpper(JoinComma(names))
    decreases |names|
  {
    if names != [] {
      assert names[0] in names && names == [names[0]] + names[1..];
      JoinNoUpper(names[1..]);
    }
  }

  /** For plain names the LIKE clause holds exactly for the members of the stored list. */
  lemma MatchIsMembership(event: string, names: seq<string>)
    requires PlainName(event) && forall n :: n in names ==> PlainName(n)
    ensures EventMatches(JoinComma(names), event) <==> event in names
  {
    JoinNoUpper(names);
    var lit := Wrapped(event);
    assert "%," + event + ",%" == "%" + (lit + "%");
    LikeOccurs(lit, Wrapped(JoinComma(names)));
    OccursInList(event, names);
  }

  /** The known events are such names. */
  lemma KnownEventsPlain(e: string)
    requires ValidEvent(e)
    ensures PlainName(e)
  {
  }
}
