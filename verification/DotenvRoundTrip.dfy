/**
 * Printing and parsing again: which values survive, exactly, for the command
 * line printer and for the dashboard's printer read by the command line parser.
 */
module DotenvRoundTrip {
  import opened Wrappers
  import opened Strings
  import opened Dotenv

  // ---- Trimming ----

  /** The part TrimSpace leaves of a value at the end of a line. */
  function Trimmed(v: string): string { TrimRight(v, IsSpace) }

  lemma {:induction false} TrimRightShorter(v: string, cut: char -> bool)
    ensures |TrimRight(v, cut)| <= |v|
    ensures TrimRight(v, cut) == v <==> v == "" || !cut(v[|v| - 1])
    ensures forall c :: c in TrimRight(v, cut) ==> c in v
    ensures TrimRight(v, cut) != "" ==> TrimRight(v, cut)[0] == v[0]
  {
    if v != "" && cut(v[|v| - 1]) { TrimRightShorter(v[..|v| - 1], cut); }
  }

  /** Trimming stops at the last character it must keep. */
  lemma {:induction false} TrimRightAppend(p: string, v: string, cut: char -> bool)
    requires p != "" && !cut(p[|p| - 1])
    ensures TrimRight(p + v, cut) == p + TrimRight(v, cut)
    decreases |v|
  {
    if v == "" {
      assert p + v == p;
    } else if cut(v[|v| - 1]) {
      assert (p + v)[..|p + v| - 1] == p + v[..|v| - 1];
      TrimRightAppend(p, v[..|v| - 1], cut);
    }
  }

  // ---- One printed line ----

  lemma KeyFacts(key: string)
    requires ValidKey(key)
    ensures forall c :: c in key ==> !IsSpace(c) && c != '=' && c != '#' && c != '\U{FEFF}'
    ensures TrimSpace(key) == key
  {
    assert key[|key| - 1] in key && key[0] in key;
  }

  /** The trimmed printed line is the key, '=' and the trimmed value. */
  lemma LineTrim(key: string, f: string)
    requires ValidKey(key)
    ensures TrimSpace(LineOf(key, f)) == LineOf(key, Trimmed(f))
  {
    KeyFacts(key);
    var line := LineOf(key, f);
    assert key[0] in key && line[0] == key[0];
    assert TrimLeft(line, IsSpace) == line;
    TrimRightAppend(key + "=", f, IsSpace);
  }

  lemma NotExport(key: string, f: string)
    requires ValidKey(key)
    ensures StripExport(LineOf(key, f)) == LineOf(key, f)
  {
    KeyFacts(key);
    var line := LineOf(key, f);
    if |key| > 6 {
      assert key[6] in key && line[6] == key[6] && EXPORT[6] == ' ';
    } else {
      assert line[|key|] == '=' && EXPORT[|key|] != '=';
    }
  }

  /** Parsing a printed line gives the key back, and whatever the trimmed value parses to. */
  lemma LineParse(key: string, f: string, lineNo: nat)
    requires ValidKey(key)
    ensures ParseLine(LineOf(key, f), lineNo) ==
            match ParseValue(TrimLeft(Trimmed(f), IsBlank))
            case None => Err(Unterminated(lineNo))
            case Some(v) => Ok(Entry(lineNo, key, v))
  {
    hide TrimSpace, StripExport, ParseValue, IsSpace;
    LineTrim(key, f);
    NotExport(key, Trimmed(f));
    KeyFacts(key);
    var t := Trimmed(f);
    IndexOfAppend(key, '=', t);
    var trim := LineOf(key, t);
    assert trim == key + ['='] + t;
    assert trim[..|key|] == key && trim[|key| + 1..] == t;
  }

  lemma LineNotSkipped(key: string, f: string, lineNo: nat)
    requires ValidKey(key) && '\r' !in f
    ensures Content(LineOf(key, f), lineNo) == LineOf(key, f)
    ensures !Skipped(LineOf(key, f))
  {
    KeyFacts(key);
    LineTrim(key, f);
    var line := LineOf(key, f);
    assert key[0] in key && line[0] == key[0];
    if f == "" { assert line[|line| - 1] == '='; } else { assert line[|line| - 1] == f[|f| - 1]; }
    assert LineOf(key, Trimmed(f))[0] == key[0];
  }

  // ---- Values ----

  /** A printer's escape is one the parser undoes, and keeps the text on one line. */
  ghost predicate Undone(esc: char -> string) {
    forall c, rest :: UndoneAt(esc, c, rest)
  }

  ghost predicate UndoneAt(esc: char -> string, c: char, rest: string) {
    Unquote(esc(c) + rest) == Prepend([c], Unquote(rest)) && '\n' !in esc(c) && '\r' !in esc(c)
  }

  lemma UnquotePair(e: char, c: char, rest: string)
    requires Unescape(e) == [c]
    ensures Unquote(['\\', e] + rest) == Prepend([c], Unquote(rest))
  {
    assert (['\\', e] + rest)[2..] == rest;
  }

  lemma UnquotePlain(c: char, rest: string)
    requires c != '"' && c != '\\'
    ensures Unquote([c] + rest) == Prepend([c], Unquote(rest))
  {
    assert ([c] + rest)[1..] == rest;
  }

  lemma EscapeCharUndone()
    ensures Undone(EscapeChar)
  {
    forall c, rest ensures UndoneAt(EscapeChar, c, rest) {
      match c
      case '\\' => UnquotePair('\\', c, rest);
      case '"' => UnquotePair('"', c, rest);
      case '\n' => UnquotePair('n', c, rest);
      case '\t' => UnquotePair('t', c, rest);
      case '\r' => UnquotePair('r', c, rest);
      case _ => UnquotePlain(c, rest);
    }
  }

  /** Quoting is undone character by character. */
  lemma {:induction false} UnquoteEscape(v: string, esc: char -> string)
    requires Undone(esc)
    ensures Unquote(Escape(v, esc) + "\"") == Some(v)
    ensures '\n' !in Escape(v, esc) && '\r' !in Escape(v, esc)
    decreases |v|
  {
    if v == "" {
      assert "" + "\"" == "\"";
    } else {
      UnquoteEscape(v[1..], esc);
      assert Escape(v, esc) + "\"" == esc(v[0]) + (Escape(v[1..], esc) + "\"");
      assert UndoneAt(esc, v[0], Escape(v[1..], esc) + "\"");
      assert [v[0]] + v[1..] == v;
    }
  }

  /** A quoted value comes back whole. */
  lemma QuotedParse(v: string, esc: char -> string)
    requires Undone(esc)
    ensures ParseValue(TrimLeft(Trimmed(Quoted(v, esc)), IsBlank)) == Some(v)
    ensures '\n' !in Quoted(v, esc) && '\r' !in Quoted(v, esc)
  {
    UnquoteEscape(v, esc);
    var q := Quoted(v, esc);
    assert q[0] == '"' && q[|q| - 1] == '"';
    assert Trimmed(q) == q && TrimLeft(q, IsBlank) == q;
    assert q[1..] == Escape(v, esc) + "\"";
  }

  /** What a bare value may contain: nothing that starts a quote or a comment, no blank, no line break. */
  predicate Plain(v: string) {
    forall c :: c in v ==> !IsBlank(c) && c != '\n' && c != '\r' && c != '"' && c != '\'' && c != '#'
  }

  /** A bare value loses exactly its trailing white space. */
  lemma BareParse(v: string)
    requires Plain(v)
    ensures ParseValue(TrimLeft(Trimmed(v), IsBlank)) == Some(Trimmed(v))
  {
    TrimRightShorter(v, IsSpace);
    var t := Trimmed(v);
    if t != "" {
      assert t[0] in t && t[|t| - 1] in t;
      assert TrimLeft(t, IsBlank) == t;
      assert TrimRight(t, IsBlank) == t;
    }
  }

  // ---- Whole files ----

  /** The printed line of it reads back as value v. */
  ghost predicate ReadsBack(it: (string, string), v: string) {
    && ValidKey(it.0) && '\n' !in it.1 && '\r' !in it.1
    && ParseValue(TrimLeft(Trimmed(it.1), IsBlank)) == Some(v)
  }

  /** The line fits the scanner's buffer. */
  predicate Fits(it: (string, string)) { ByteLen(LineOf(it.0, it.1)) < MaxTokenSize }

  /** Entries with consecutive line numbers. */
  function Entries(items: seq<(string, string)>, vals: seq<string>, lineNo: nat): seq<Entry>
    requires |vals| == |items|
  {
    if items == [] then []
    else [Entry(lineNo, items[0].0, vals[0])] + Entries(items[1..], vals[1..], lineNo + 1)
  }

  lemma ScanOne(line: string, rest: string)
    requires '\n' !in line
    ensures ScanLines(line + "\n" + rest) == [line] + ScanLines(rest)
  {
    IndexOfAppend(line, '\n', rest);
    var text := line + "\n" + rest;
    assert text[..|line|] == line && text[|line| + 1..] == rest;
  }

  function LinesOf(items: seq<(string, string)>): seq<string> {
    if items == [] then [] else [LineOf(items[0].0, items[0].1)] + LinesOf(items[1..])
  }

  ghost predicate AllReadBack(items: seq<(string, string)>, vals: seq<string>) {
    |vals| == |items| && forall i :: 0 <= i < |items| ==> ReadsBack(items[i], vals[i])
  }

  lemma {:induction false} ScanText(items: seq<(string, string)>, vals: seq<string>)
    requires AllReadBack(items, vals)
    ensures ScanLines(Text(items)) == LinesOf(items)
    decreases |items|
  {
    if items != [] {
      var it := items[0];
      assert ReadsBack(it, vals[0]);
      KeyFacts(it.0);
      ScanOne(LineOf(it.0, it.1), Text(items[1..]));
      ScanText(items[1..], vals[1..]);
    }
  }

  /** One printed line in front of a file. */
  lemma ParsePrintedLine(it: (string, string), v: string, rest: seq<string>, lineNo: nat)
    requires ReadsBack(it, v)
    ensures var lines := [LineOf(it.0, it.1)] + rest;
            ParseLines(lines, lineNo) ==
              if !Fits(it) then Err(LineTooLong(lineNo))
              else match ParseLines(rest, lineNo + 1)
                case Err(e) => Err(e)
                case Ok(es) => Ok([Entry(lineNo, it.0, v)] + es)
  {
    hide ParseLine, Skipped, Content, ParseValue, ValidKey, ByteLen, Trimmed;
    LineNotSkipped(it.0, it.1, lineNo);
    LineParse(it.0, it.1, lineNo);
    var lines := [LineOf(it.0, it.1)] + rest;
    assert lines[0] == LineOf(it.0, it.1) && lines[1..] == rest;
  }

  lemma {:induction false} ParsePrinted(items: seq<(string, string)>, vals: seq<string>, lineNo: nat)
    requires AllReadBack(items, vals)
    ensures (forall it :: it in items ==> Fits(it)) ==>
              ParseLines(LinesOf(items), lineNo) == Ok(Entries(items, vals, lineNo))
    ensures !(forall it :: it in items ==> Fits(it)) ==> ParseLines(LinesOf(items), lineNo).Err?
    decreases |items|
  {
    hide ReadsBack, Fits;
    if items == [] {
      assert LinesOf(items) == [] && Entries(items, vals, lineNo) == [];
    } else {
      ParsePrinted(items[1..], vals[1..], lineNo + 1);
      ParsePrintedLine(items[0], vals[0], LinesOf(items[1..]), lineNo);
      assert items == [items[0]] + items[1..];
      assert LinesOf(items) == [LineOf(items[0].0, items[0].1)] + LinesOf(items[1..]);
    }
  }

  /** Reading a printed file: every value as its line reads back, numbered 1..n, if all lines fit. */
  lemma ParseOfText(items: seq<(string, string)>, vals: seq<string>)
    requires AllReadBack(items, vals)
    ensures ParseText(Text(items)).Ok? <==> forall it :: it in items ==> Fits(it)
    ensures ParseText(Text(items)).Ok? ==> ParseText(Text(items)) == Ok(Entries(items, vals, 1))
  {
    ScanText(items, vals);
    ParsePrinted(items, vals, 1);
  }

  lemma {:induction false} EntriesInjective(items: seq<(string, string)>, v: seq<string>, w: seq<string>, lineNo: nat)
    requires |v| == |w| == |items| && Entries(items, v, lineNo) == Entries(items, w, lineNo)
    ensures v == w
    decreases |items|
  {
    if items != [] {
      var a, b := Entries(items, v, lineNo), Entries(items, w, lineNo);
      assert a[0] == b[0] && a[1..] == b[1..];
      EntriesInjective(items[1..], v[1..], w[1..], lineNo + 1);
      assert v == [v[0]] + v[1..] && w == [w[0]] + w[1..];
    }
  }

  // ---- The command line printer ----

  /** What Format(v) reads back as. */
  function Survivor(v: string): string { if MustQuote(v) then v else Trimmed(v) }

  lemma FormatReadsBack(key: string, v: string)
    requires ValidKey(key)
    ensures ReadsBack((key, Format(v)), Survivor(v))
  {
    EscapeCharUndone();
    if v == "" {
    } else if MustQuote(v) {
      QuotedParse(v, EscapeChar);
    } else {
      assert Plain(v);
      BareParse(v);
    }
  }

  /** The value neither needs quotes nor ends in white space, or it is quoted. */
  predicate Survives(v: string) { v == "" || MustQuote(v) || !IsSpace(v[|v| - 1]) }

  lemma SurvivorIsValue(v: string)
    ensures Survivor(v) == v <==> Survives(v)
  {
    TrimRightShorter(v, IsSpace);
  }

  function ValuesAt(keys: seq<string>, m: map<string, string>): seq<string>
    requires forall k :: k in keys ==> k in m
  {
    seq(|keys|, i requires 0 <= i < |keys| => assert keys[i] in keys; m[keys[i]])
  }

  function Survivors(vals: seq<string>): seq<string> { seq(|vals|, i requires 0 <= i < |vals| => Survivor(vals[i])) }

  lemma {:induction false} ItemsAt(keys: seq<string>, m: map<string, string>)
    requires forall k :: k in keys ==> k in m
    ensures |Items(keys, m)| == |keys|
    ensures forall i :: 0 <= i < |keys| ==> keys[i] in keys && Items(keys, m)[i] == (keys[i], Format(m[keys[i]]))
    decreases |keys|
  {
    if keys != [] {
      ItemsAt(keys[1..], m);
      assert keys == [keys[0]] + keys[1..];
    }
  }

  /** Every printed line fits the scanner. */
  ghost predicate AllFit(keys: seq<string>, m: map<string, string>) {
    forall k :: k in keys && k in m ==> Fits((k, Format(m[k])))
  }

  lemma PrintedReadsBack(keys: seq<string>, m: map<string, string>)
    requires forall k :: k in keys ==> k in m && ValidKey(k)
    ensures AllReadBack(Items(keys, m), Survivors(ValuesAt(keys, m)))
    ensures (forall it :: it in Items(keys, m) ==> Fits(it)) <==> AllFit(keys, m)
  {
    hide ReadsBack, Format, Survivor, Fits, ValidKey;
    ItemsAt(keys, m);
    var items := Items(keys, m);
    forall i | 0 <= i < |items| ensures ReadsBack(items[i], Survivors(ValuesAt(keys, m))[i]) {
      assert keys[i] in keys;
      FormatReadsBack(keys[i], m[keys[i]]);
    }
    if AllFit(keys, m) {
      forall it | it in items ensures Fits(it) {
        var i :| 0 <= i < |items| && items[i] == it;
        assert keys[i] in keys;
      }
    } else {
      var k :| k in keys && !Fits((k, Format(m[k])));
      var i :| 0 <= i < |keys| && keys[i] == k;
      assert items[i] in items;
    }
  }

  /**
   * Parse(Emit(m)) gives back m's entries in key order with lines 1..n exactly
   * when every line fits the scanner and every unquoted value ends in no white
   * space. As soon as the lines fit it fails on no map with valid keys, and gives
   * every value as it survives.
   */
  lemma EmitParse(keys: seq<string>, m: map<string, string>)
    requires Elements(keys) == m.Keys && forall k :: k in m ==> ValidKey(k)
    ensures (forall k :: k in keys ==> k in m)
    ensures ParseText(Text(Items(keys, m))).Ok? <==> AllFit(keys, m)
    ensures AllFit(keys, m) ==> ParseText(Text(Items(keys, m))) == Ok(Entries(Items(keys, m), Survivors(ValuesAt(keys, m)), 1))
    ensures ParseText(Text(Items(keys, m))) == Ok(Entries(Items(keys, m), ValuesAt(keys, m), 1))
            <==> AllFit(keys, m) && forall k :: k in m ==> Survives(m[k])
  {
    hide ParseText, Text, ValidKey, Survives, AllReadBack, Entries;
    assert forall k :: k in keys ==> k in Elements(keys);
    ItemsAt(keys, m);
    PrintedReadsBack(keys, m);
    var items, vals := Items(keys, m), ValuesAt(keys, m);
    ParseOfText(items, Survivors(vals));
    if forall k :: k in m ==> Survives(m[k]) {
      forall i | 0 <= i < |keys| ensures Survivors(vals)[i] == vals[i] {
        assert keys[i] in keys;
        SurvivorIsValue(vals[i]);
      }
      assert Survivors(vals) == vals;
    } else {
      var k :| k in m && !Survives(m[k]);
      assert k in Elements(keys);
      var i :| 0 <= i < |keys| && keys[i] == k;
      SurvivorIsValue(vals[i]);
      assert Survivors(vals)[i] != vals[i];
      if ParseText(Text(items)) == Ok(Entries(items, vals, 1)) {
        EntriesInjective(items, Survivors(vals), vals, 1);
      }
    }
  }

  /** The map a reader builds: later entries win. */
  function LastWins(entries: seq<Entry>): map<string, string> {
    if entries == [] then map[]
    else LastWins(entries[..|entries| - 1])[entries[|entries| - 1].key := entries[|entries| - 1].value]
  }

  lemma {:induction false} EntriesAt(items: seq<(string, string)>, vals: seq<string>, lineNo: nat)
    requires |vals| == |items|
    ensures |Entries(items, vals, lineNo)| == |items|
    ensures forall i :: 0 <= i < |items| ==>
              Entries(items, vals, lineNo)[i] == Entry(lineNo + i, items[i].0, vals[i])
    decreases |items|
  {
    if items != [] { EntriesAt(items[1..], vals[1..], lineNo + 1); }
  }

  /** Without repeated keys the reader's map is just the entries. */
  lemma {:induction false} LastWinsDistinct(es: seq<Entry>)
    requires forall i, j :: 0 <= i < j < |es| ==> es[i].key != es[j].key
    ensures forall i :: 0 <= i < |es| ==> es[i].key in LastWins(es) && LastWins(es)[es[i].key] == es[i].value
    ensures forall k :: k in LastWins(es) ==> exists i :: 0 <= i < |es| && es[i].key == k
    decreases |es|
  {
    if es != [] {
      var front := es[..|es| - 1];
      LastWinsDistinct(front);
      forall k | k in LastWins(es) ensures exists i :: 0 <= i < |es| && es[i].key == k {
        if k == es[|es| - 1].key {
        } else {
          var i :| 0 <= i < |front| && front[i].key == k;
          assert es[i].key == k;
        }
      }
    }
  }

  /** The reader's map of a printed file. */
  lemma EntriesMap(keys: seq<string>, m: map<string, string>, vals: seq<string>)
    requires (forall k :: k in keys ==> k in m) && Distinct(keys) && |vals| == |keys|
    ensures var read := LastWins(Entries(Items(keys, m), vals, 1));
            && (forall k :: k in read <==> k in keys)
            && forall i :: 0 <= i < |keys| ==> keys[i] in read && read[keys[i]] == vals[i]
  {
    hide LastWins, Entries, Items;
    ItemsAt(keys, m);
    var es := Entries(Items(keys, m), vals, 1);
    EntriesAt(Items(keys, m), vals, 1);
    LastWinsDistinct(es);
    forall i | 0 <= i < |keys| ensures keys[i] in LastWins(es) && LastWins(es)[keys[i]] == vals[i] {
      assert es[i].key == keys[i] && es[i].value == vals[i];
    }
    forall k | k in LastWins(es) ensures k in keys {
      var i :| 0 <= i < |es| && es[i].key == k;
      assert keys[i] in keys;
    }
  }

  lemma ParsedKeysValid(text: string, es: seq<Entry>)
    requires ParseText(text) == Ok(es)
    ensures forall e :: e in es ==> ValidKey(e.key)
  {
    hide ParseLines;
    ParsedLinesValid(ScanLines(text), 1);
  }

  lemma {:induction false} ParsedLinesValid(lines: seq<string>, lineNo: nat)
    requires ParseLines(lines, lineNo).Ok?
    ensures forall e :: e in ParseLines(lines, lineNo).value ==> ValidKey(e.key)
    decreases |lines|
  {
    hide Skipped, Content, ValidKey, ParseValue, ByteLen, TrimSpace, StripExport;
    if lines != [] { ParsedLinesValid(lines[1..], lineNo + 1); }
  }

  lemma {:induction false} LastWinsKeys(es: seq<Entry>)
    requires forall e :: e in es ==> ValidKey(e.key)
    ensures forall k :: k in LastWins(es) ==> ValidKey(k)
    decreases |es|
  {
    if es != [] {
      assert forall e :: e in es[..|es| - 1] ==> e in es;
      LastWinsKeys(es[..|es| - 1]);
      assert es[|es| - 1] in es;
    }
  }

  /**
   * Parse, emit, parse keeps the map a reader builds exactly when the emitted
   * lines fit and every value survives.
   */
  lemma ParseEmitParse(text: string, es: seq<Entry>, keys: seq<string>)
    requires ParseText(text) == Ok(es) && Elements(keys) == LastWins(es).Keys && Distinct(keys)
    ensures forall k :: k in keys ==> k in LastWins(es)
    ensures var m := LastWins(es); var again := ParseText(Text(Items(keys, m)));
            again.Ok? && LastWins(again.value) == m <==> AllFit(keys, m) && forall k :: k in m ==> Survives(m[k])
  {
    hide ParseText, Text, Survives, AllFit, LastWins, Entries, Items;
    ParsedKeysValid(text, es);
    LastWinsKeys(es);
    var m := LastWins(es);
    EmitParse(keys, m);
    assert forall k :: k in keys <==> k in Elements(keys);
    var vals := ValuesAt(keys, m);
    EntriesMap(keys, m, Survivors(vals));
    if AllFit(keys, m) {
      var read := LastWins(Entries(Items(keys, m), Survivors(vals), 1));
      forall k | k in m ensures read[k] == m[k] <==> Survives(m[k]) {
        var i :| 0 <= i < |keys| && keys[i] == k;
        SurvivorIsValue(m[k]);
        assert Survivors(vals)[i] == Survivor(m[k]);
      }
      assert read.Keys == m.Keys;
    }
  }

  // ---- A value that is lost ----

  lemma {:induction false} ByteLenBound(s: string)
    ensures ByteLen(s) <= 4 * |s|
    decreases |s|
  {
    if s != "" { ByteLenBound(s[1..]); }
  }

  /** A file of one printed line. */
  lemma OneLine(key: string, f: string, v: string)
    requires ReadsBack((key, f), v) && |LineOf(key, f)| < 100
    ensures ParseText(LineOf(key, f) + "\n") == Ok([Entry(1, key, v)])
  {
    hide ParseText, ReadsBack, ByteLen;
    var items := [(key, f)];
    assert items[1..] == [] && Text(items) == LineOf(key, f) + "\n" + "" == LineOf(key, f) + "\n";
    ByteLenBound(LineOf(key, f));
    assert Fits((key, f));
    assert AllReadBack(items, [v]);
    ParseOfText(items, [v]);
    assert [v][1..] == [] && Entries(items[1..], [v][1..], 2) == [];
    assert Entries(items, [v], 1) == [Entry(1, key, v)];
  }

  /** "a" and a vertical tab. */
  const TABBED := "a\U{000B}"

  /** The value is read from a quoted line, printed bare, and comes back without the tab. */
  lemma VerticalTabIsLost()
    ensures ParseText("K=\"a\U{000B}\"\n") == Ok([Entry(1, "K", TABBED)])
    ensures Format(TABBED) == TABBED
    ensures ParseText("K=" + Format(TABBED) + "\n") == Ok([Entry(1, "K", "a")])
  {
    hide ParseText, ReadsBack;
    assert ValidKey("K");
    EscapeCharUndone();
    assert Escape(TABBED, EscapeChar) == TABBED by {
      assert TABBED[1..] == "\U{000B}" && TABBED[1..][1..] == "";
      assert EscapeChar(TABBED[0]) == "a" && EscapeChar(TABBED[1]) == "\U{000B}";
      assert Escape(TABBED[1..], EscapeChar) == "\U{000B}" + "";
    }
    QuotedReadsBack("K", TABBED);
    assert LineOf("K", Quoted(TABBED, EscapeChar)) + "\n" == "K=\"a\U{000B}\"\n";
    OneLine("K", Quoted(TABBED, EscapeChar), TABBED);
    FormatReadsBack("K", TABBED);
    assert !MustQuote(TABBED);
    assert Survivor(TABBED) == "a" by {
      assert TABBED[..1] == "a" && TrimRight("a", IsSpace) == "a";
    }
    OneLine("K", TABBED, "a");
    assert LineOf("K", TABBED) + "\n" == "K=" + Format(TABBED) + "\n";
  }

  lemma QuotedReadsBack(key: string, v: string)
    requires ValidKey(key)
    ensures ReadsBack((key, Quoted(v, EscapeChar)), v)
  {
    EscapeCharUndone();
    QuotedParse(v, EscapeChar);
  }
}
