/**
 * The dashboard's .env printer, read by the command line parser. Text is a
 * sequence of code points, so lone surrogates are outside the model.
 */
module DashboardDotenv {
  import opened Wrappers
  import opened Dotenv
  import Diff
  import opened DotenvRoundTrip
  import Grammar = DotenvGrammar

  datatype DotenvEntry = DotenvEntry(key: string, value: string)

  /** The class \s of a JavaScript regular expression. */
  predicate JsSpace(c: char) {
    || c == '\t' || c == '\n' || c == '\U{000B}' || c == '\U{000C}' || c == '\r' || c == ' '
    || c == '\U{00A0}' || c == '\U{1680}' || '\U{2000}' <= c <= '\U{200A}'
    || c == '\U{2028}' || c == '\U{2029}' || c == '\U{202F}' || c == '\U{205F}' || c == '\U{3000}' || c == '\U{FEFF}'
  }

  predicate NeedsQuote(v: string) {
    exists i :: 0 <= i < |v| && (JsSpace(v[i]) || v[i] == '"' || v[i] == '#' || v[i] == '\'' || v[i] == '=' || v[i] == '\\')
  }

  /** value.replace(/c/g, by). */
  function Replace(s: string, c: char, sub: string): string {
    if s == "" then "" else (if s[0] == c then sub else [s[0]]) + Replace(s[1..], c, sub)
  }

  /** The chain of four replace passes. */
  function Escaped(v: string): string {
    Replace(Replace(Replace(Replace(v, '\\', "\\\\"), '"', "\\\""), '\n', "\\n"), '\r', "\\r")
  }

  function FormatJs(v: string): string {
    if v == "" then "" else if NeedsQuote(v) then "\"" + Escaped(v) + "\"" else v
  }

  function JsLine(e: DotenvEntry): string { LineOf(e.key, FormatJs(e.value)) }

  function JsLines(es: seq<DotenvEntry>): seq<string> {
    if es == [] then [] else [JsLine(es[0])] + JsLines(es[1..])
  }

  /** One line a key, in the given order; the order itself comes from the browser's collation. */
  function FormatDotenv(sorted: seq<DotenvEntry>): string {
    if sorted == [] then "" else Diff.Join(JsLines(sorted)) + "\n"
  }

  lemma {:induction false} FormatIsText(es: seq<DotenvEntry>)
    ensures FormatDotenv(es) == Text(JsItems(es))
    decreases |es|
  {
    if es != [] {
      FormatIsText(es[1..]);
      assert JsLines(es)[1..] == JsLines(es[1..]);
      var line := JsLine(es[0]);
      if |es| == 1 {
        assert JsLines(es) == [line];
        assert line + "\n" + "" == line + "\n";
      } else {
        var rest := Diff.Join(JsLines(es[1..]));
        assert |JsLines(es)| > 1;
        assert line + "\n" + rest + "\n" == line + "\n" + (rest + "\n");
      }
    }
  }

  function JsItems(es: seq<DotenvEntry>): (items: seq<(string, string)>)
    ensures |items| == |es|
    ensures forall i :: 0 <= i < |es| ==> items[i] == (es[i].key, FormatJs(es[i].value))
  {
    if es == [] then [] else [(es[0].key, FormatJs(es[0].value))] + JsItems(es[1..])
  }

  // ---- The chain of passes is one pass ----

  function EscapeJs(c: char): string {
    match c
    case '\\' => "\\\\"
    case '"' => "\\\""
    case '\n' => "\\n"
    case '\r' => "\\r"
    case _ => [c]
  }

  lemma {:induction false} ReplaceAppend(s: string, t: string, c: char, sub: string)
    ensures Replace(s + t, c, sub) == Replace(s, c, sub) + Replace(t, c, sub)
    decreases |s|
  {
    if s == "" {
      assert "" + t == t;
    } else {
      assert (s + t)[0] == s[0] && (s + t)[1..] == s[1..] + t;
      ReplaceAppend(s[1..], t, c, sub);
      var h := if s[0] == c then sub else [s[0]];
      assert h + (Replace(s[1..], c, sub) + Replace(t, c, sub)) == (h + Replace(s[1..], c, sub)) + Replace(t, c, sub);
    }
  }

  lemma ReplaceOne(x: char, c: char, sub: string)
    ensures Replace([x], c, sub) == if x == c then sub else [x]
  {
    assert [x][1..] == "";
  }

  lemma ReplaceTwo(x: char, y: char, c: char, sub: string)
    requires x != c && y != c
    ensures Replace([x, y], c, sub) == [x, y]
  {
    assert [x, y] == [x] + [y];
    ReplaceAppend([x], [y], c, sub);
    ReplaceOne(x, c, sub);
    ReplaceOne(y, c, sub);
  }

  /** On a single character the passes do not disturb each other. */
  lemma EscapedOne(c: char)
    ensures Escaped([c]) == EscapeJs(c)
  {
    ReplaceOne(c, '\\', "\\\\");
    ReplaceOne(c, '"', "\\\"");
    ReplaceOne(c, '\n', "\\n");
    ReplaceOne(c, '\r', "\\r");
    ReplaceTwo('\\', '\\', '"', "\\\"");
    ReplaceTwo('\\', '\\', '\n', "\\n");
    ReplaceTwo('\\', '\\', '\r', "\\r");
    ReplaceTwo('\\', '"', '\n', "\\n");
    ReplaceTwo('\\', '"', '\r', "\\r");
    ReplaceTwo('\\', 'n', '\r', "\\r");
  }

  lemma EscapedAppend(s: string, t: string)
    ensures Escaped(s + t) == Escaped(s) + Escaped(t)
  {
    var a, b := Replace(s, '\\', "\\\\"), Replace(t, '\\', "\\\\");
    ReplaceAppend(s, t, '\\', "\\\\");
    ReplaceAppend(a, b, '"', "\\\"");
    var a2, b2 := Replace(a, '"', "\\\""), Replace(b, '"', "\\\"");
    ReplaceAppend(a2, b2, '\n', "\\n");
    ReplaceAppend(Replace(a2, '\n', "\\n"), Replace(b2, '\n', "\\n"), '\r', "\\r");
  }

  /** Four passes over the text equal one pass that escapes each character. */
  lemma {:induction false} PassesAreOne(v: string)
    ensures Escaped(v) == Escape(v, EscapeJs)
    decreases |v|
  {
    hide Escaped;
    if v == "" {
      EscapedEmpty();
    } else {
      assert v == [v[0]] + v[1..];
      EscapedAppend([v[0]], v[1..]);
      EscapedOne(v[0]);
      PassesAreOne(v[1..]);
    }
  }

  lemma EscapedEmpty()
    ensures Escaped("") == ""
  {
  }

  // ---- The command line parser reads it back ----

  lemma EscapeJsUndone()
    ensures Undone(EscapeJs)
  {
    forall c, rest ensures UndoneAt(EscapeJs, c, rest) {
      match c
      case '\\' => UnquotePair('\\', c, rest);
      case '"' => UnquotePair('"', c, rest);
      case '\n' => UnquotePair('n', c, rest);
      case '\r' => UnquotePair('r', c, rest);
      case _ => UnquotePlain(c, rest);
    }
  }

  /** What a printed value reads back as. */
  function JsSurvivor(v: string): string { if NeedsQuote(v) then v else Trimmed(v) }

  lemma FormatJsReadsBack(key: string, v: string)
    requires ValidKey(key)
    ensures ReadsBack((key, FormatJs(v)), JsSurvivor(v))
  {
    if v == "" {
    } else if NeedsQuote(v) {
      EscapeJsUndone();
      PassesAreOne(v);
      QuotedParse(v, EscapeJs);
    } else {
      assert Plain(v);
      BareParse(v);
    }
  }

  /** The one space of the parser that JavaScript's \s does not know is U+0085. */
  lemma SurvivesUnlessNextLine(v: string)
    ensures JsSurvivor(v) == v <==> !(v != "" && !NeedsQuote(v) && v[|v| - 1] == '\U{0085}')
  {
    TrimRightShorter(v, IsSpace);
    if v != "" && !NeedsQuote(v) { assert !JsSpace(v[|v| - 1]); }
  }

  function JsValues(es: seq<DotenvEntry>): seq<string> { seq(|es|, i requires 0 <= i < |es| => es[i].value) }

  function JsSurvivors(es: seq<DotenvEntry>): seq<string> {
    seq(|es|, i requires 0 <= i < |es| => JsSurvivor(es[i].value))
  }

  ghost predicate JsFit(es: seq<DotenvEntry>) {
    forall i :: 0 <= i < |es| ==> Fits((es[i].key, FormatJs(es[i].value)))
  }

  /**
   * The command line parser reads the dashboard's text as the same entries in
   * the same order exactly when the lines fit and no unquoted value ends in U+0085.
   */
  lemma DashboardParse(es: seq<DotenvEntry>)
    requires forall i :: 0 <= i < |es| ==> ValidKey(es[i].key)
    ensures ParseText(FormatDotenv(es)).Ok? <==> JsFit(es)
    ensures ParseText(FormatDotenv(es)) == Ok(Entries(JsItems(es), JsValues(es), 1)) <==>
            JsFit(es) && forall i :: 0 <= i < |es| ==>
              !(es[i].value != "" && !NeedsQuote(es[i].value) && es[i].value[|es[i].value| - 1] == '\U{0085}')
  {
    hide ParseText, Text, ValidKey, Entries, ReadsBack, FormatJs, NeedsQuote, Fits, JsSurvivor, FormatDotenv;
    FormatIsText(es);
    var items := JsItems(es);
    forall i | 0 <= i < |es| ensures ReadsBack(items[i], JsSurvivors(es)[i]) {
      FormatJsReadsBack(es[i].key, es[i].value);
    }
    assert AllReadBack(items, JsSurvivors(es));
    ParseOfText(items, JsSurvivors(es));
    assert JsFit(es) <==> forall it :: it in items ==> Fits(it) by {
      forall i | 0 <= i < |es| ensures items[i] in items {}
    }
    forall i | 0 <= i < |es| {
      SurvivesUnlessNextLine(es[i].value);
    }
    if ParseText(FormatDotenv(es)) == Ok(Entries(items, JsValues(es), 1)) {
      EntriesInjective(items, JsSurvivors(es), JsValues(es), 1);
      forall i | 0 <= i < |es| ensures JsSurvivor(es[i].value) == es[i].value {
        assert JsSurvivors(es)[i] == JsValues(es)[i];
      }
    } else if forall i :: 0 <= i < |es| ==> JsSurvivor(es[i].value) == es[i].value {
      assert JsSurvivors(es) == JsValues(es);
    }
  }

  /** "a" and U+0085, which the parser trims and the printer does not quote. */
  const NEXT_LINE := "a\U{0085}"

  lemma NextLineIsLost()
    ensures FormatDotenv([DotenvEntry("K", NEXT_LINE)]) == "K=a\U{0085}\n"
    ensures ParseText(FormatDotenv([DotenvEntry("K", NEXT_LINE)])) == Ok([Entry(1, "K", "a")])
  {
    hide ParseText, ReadsBack;
    assert ValidKey("K");
    assert !NeedsQuote(NEXT_LINE);
    var e := DotenvEntry("K", NEXT_LINE);
    assert [e][1..] == [] && JsLines([e]) == [JsLine(e)];
    assert JsLine(e) + "\n" == "K=a\U{0085}\n";
    FormatJsReadsBack("K", NEXT_LINE);
    assert JsSurvivor(NEXT_LINE) == "a" by {
      assert NEXT_LINE[..1] == "a" && TrimRight("a", IsSpace) == "a";
    }
    OneLine("K", NEXT_LINE, "a");
  }

  // ---- What is printed, over the alphabets spelled out ----

  const SPACES := "\t\n\U{000B}\U{000C}\r \U{00A0}\U{1680}" + Grammar.EN_SPACES + "\U{2028}\U{2029}\U{202F}\U{205F}\U{3000}\U{FEFF}"
  const MARKS := "\"#'=\\"

  lemma SpacesExact(c: char)
    ensures JsSpace(c) <==> c in SPACES
  {
    var a, b := "\t\n\U{000B}\U{000C}\r \U{00A0}\U{1680}", "\U{2028}\U{2029}\U{202F}\U{205F}\U{3000}\U{FEFF}";
    assert c in SPACES <==> c in a || c in Grammar.EN_SPACES || c in b;
    assert c in a <==> c == '\t' || c == '\n' || c == '\U{000B}' || c == '\U{000C}' || c == '\r' || c == ' '
                       || c == '\U{00A0}' || c == '\U{1680}' by {
      assert a[0] == '\t' && a[1] == '\n' && a[2] == '\U{000B}' && a[3] == '\U{000C}' && a[4] == '\r' && a[5] == ' ';
      assert a[6] == '\U{00A0}' && a[7] == '\U{1680}';
    }
    assert c in b <==> c == '\U{2028}' || c == '\U{2029}' || c == '\U{202F}' || c == '\U{205F}' || c == '\U{3000}' || c == '\U{FEFF}' by {
      assert b[0] == '\U{2028}' && b[1] == '\U{2029}' && b[2] == '\U{202F}' && b[3] == '\U{205F}' && b[4] == '\U{3000}' && b[5] == '\U{FEFF}';
    }
    Grammar.EnSpaces(c);
  }

  lemma MarksExact(c: char)
    ensures c in MARKS <==> c == '"' || c == '#' || c == '\'' || c == '=' || c == '\\'
  {
    var m := MARKS;
    assert m[0] == '"' && m[1] == '#' && m[2] == '\'' && m[3] == '=' && m[4] == '\\';
  }

  /** How a character stands between the quotes. */
  predicate ShownAs(c: char, u: Grammar.Unit) {
    && (c == '\n' ==> u == Grammar.Escaped('n'))
    && (c == '\r' ==> u == Grammar.Escaped('r'))
    && (c == '\\' ==> u == Grammar.Escaped('\\'))
    && (c == '"' ==> u == Grammar.Escaped('"'))
    && (c != '\n' && c != '\r' && c != '\\' && c != '"' ==> u == Grammar.Plain(c))
  }

  /** A value is printed bare exactly when it holds no white space and none of the marks, and otherwise in quotes. */
  lemma PrintedValue(v: string) returns (us: seq<Grammar.Unit>)
    ensures (forall c :: c in v ==> c !in SPACES && c !in MARKS) ==> FormatJs(v) == v
    ensures !(forall c :: c in v ==> c !in SPACES && c !in MARKS) ==>
              |us| == |v| && (forall i :: 0 <= i < |v| ==> ShownAs(v[i], us[i])) && FormatJs(v) == "\"" + Grammar.Spelled(us) + "\""
  {
    hide JsSpace, SPACES, MARKS, Grammar.Spelled, ShownAs, Escaped, EscapeJs;
    forall c
      ensures (JsSpace(c) <==> c in SPACES) && (c in MARKS <==> c == '"' || c == '#' || c == '\'' || c == '=' || c == '\\')
    {
      SpacesExact(c);
      MarksExact(c);
    }
    assert NeedsQuote(v) <==> !(forall c :: c in v ==> c !in SPACES && c !in MARKS);
    PassesAreOne(v);
    us := EscapeSpells(v);
  }

  lemma EscapeShows(c: char) returns (u: Grammar.Unit)
    ensures ShownAs(c, u) && EscapeJs(c) == Grammar.SpelledOne(u)
  {
    u := if c == '\n' then Grammar.Escaped('n') else if c == '\r' then Grammar.Escaped('r')
         else if c == '\\' || c == '"' then Grammar.Escaped(c) else Grammar.Plain(c);
  }

  lemma {:induction false} EscapeSpells(v: string) returns (us: seq<Grammar.Unit>)
    ensures |us| == |v| && forall i :: 0 <= i < |v| ==> ShownAs(v[i], us[i])
    ensures Escape(v, EscapeJs) == Grammar.Spelled(us)
    decreases |v|
  {
    hide ShownAs, EscapeJs, Grammar.SpelledOne;
    if v == "" {
      us := [];
    } else {
      var rest := EscapeSpells(v[1..]);
      var c := v[0];
      var u := EscapeShows(c);
      us := [u] + rest;
      assert us[1..] == rest && v == [c] + v[1..];
    }
  }

  /** One line a key, in the given order, each with its line break. */
  lemma PrintedLines(es: seq<DotenvEntry>, e: DotenvEntry)
    ensures FormatDotenv([]) == ""
    ensures FormatDotenv([e] + es) == e.key + "=" + FormatJs(e.value) + "\n" + FormatDotenv(es)
  {
    hide FormatJs;
    FormatIsText([e] + es);
    FormatIsText(es);
    assert ([e] + es)[1..] == es;
  }
}
