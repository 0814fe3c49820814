/**
 * What the command line parser makes of a file, told from the text alone: over
 * literal alphabets, with the surroundings of each part written out.
 */
module DotenvGrammar {
  import opened Wrappers
  import opened Strings
  import opened Dotenv

  // ---- Alphabets ----

  /** White space in Unicode's sense, as the trimming knows it. */
  const SPACES := "\t\n\U{000B}\U{000C}\r \U{0085}\U{00A0}\U{1680}" + EN_SPACES + "\U{2028}\U{2029}\U{202F}\U{205F}\U{3000}"
  const EN_SPACES := "\U{2000}\U{2001}\U{2002}\U{2003}\U{2004}\U{2005}\U{2006}\U{2007}\U{2008}\U{2009}\U{200A}"
  const BLANKS := " \t"
  const BOM := "\U{FEFF}"

  /** A name as a shell allows it. */
  predicate Name(k: string) {
    k != "" && k[0] in UPPER + LOWER + "_" && Over(k, UPPER + LOWER + DIGITS + "_")
  }

  lemma SpacesExact(c: char)
    ensures IsSpace(c) <==> c in SPACES
    ensures IsBlank(c) <==> c in BLANKS
  {
    var a, b := "\t\n\U{000B}\U{000C}\r \U{0085}\U{00A0}\U{1680}", "\U{2028}\U{2029}\U{202F}\U{205F}\U{3000}";
    assert c in SPACES <==> c in a || c in EN_SPACES || c in b;
    assert c in a <==> c == '\t' || c == '\n' || c == '\U{000B}' || c == '\U{000C}' || c == '\r' || c == ' '
                       || c == '\U{0085}' || c == '\U{00A0}' || c == '\U{1680}' by {
      assert a[0] == '\t' && a[1] == '\n' && a[2] == '\U{000B}' && a[3] == '\U{000C}' && a[4] == '\r' && a[5] == ' ';
      assert a[6] == '\U{0085}' && a[7] == '\U{00A0}' && a[8] == '\U{1680}';
    }
    assert c in b <==> c == '\U{2028}' || c == '\U{2029}' || c == '\U{202F}' || c == '\U{205F}' || c == '\U{3000}' by {
      assert b[0] == '\U{2028}' && b[1] == '\U{2029}' && b[2] == '\U{202F}' && b[3] == '\U{205F}' && b[4] == '\U{3000}';
    }
    EnSpaces(c);
    assert BLANKS[0] == ' ' && BLANKS[1] == '\t';
  }

  lemma EnSpaces(c: char)
    ensures c in EN_SPACES <==> '\U{2000}' <= c <= '\U{200A}'
  {
    assert |EN_SPACES| == 11 && forall i :: 0 <= i < 11 ==> EN_SPACES[i] as int == 0x2000 + i;
    if '\U{2000}' <= c <= '\U{200A}' { assert EN_SPACES[c as int - 0x2000] == c; }
  }

  lemma NamesExact(k: string)
    ensures Name(k) <==> ValidKey(k)
  {
    forall c ensures (c in UPPER + LOWER + "_" <==> KeyStart(c)) && (c in UPPER + LOWER + DIGITS + "_" <==> KeyChar(c)) {
      Letters(c);
      assert c in "_" <==> c == '_' by { assert "_"[0] == '_'; }
      assert c in UPPER + LOWER + "_" <==> c in UPPER || c in LOWER || c in "_";
      assert c in UPPER + LOWER + DIGITS + "_" <==> c in UPPER || c in LOWER || c in DIGITS || c in "_";
    }
  }

  /** How many bytes a code point takes, at the edges of each length. */
  lemma ByteLengths(a: string, b: string)
    ensures ByteLen(a + b) == ByteLen(a) + ByteLen(b)
    ensures ByteLen("a") == 1 && ByteLen("\U{007F}") == 1 && ByteLen("\U{0080}") == 2 && ByteLen("\U{07FF}") == 2
    ensures ByteLen("\U{0800}") == 3 && ByteLen("\U{FFFF}") == 3 && ByteLen("\U{10000}") == 4 && ByteLen("\U{10FFFF}") == 4
  {
    ByteLenAppend(a, b);
    forall c ensures ByteLen([c]) == Utf8Len(c) { assert [c][1..] == ""; }
  }

  lemma {:induction false} ByteLenAppend(a: string, b: string)
    ensures ByteLen(a + b) == ByteLen(a) + ByteLen(b)
    decreases |a|
  {
    if a == "" {
      assert a + b == b;
    } else {
      assert (a + b)[0] == a[0] && (a + b)[1..] == a[1..] + b;
      ByteLenAppend(a[1..], b);
    }
  }

  // ---- Trimming ----

  /** No white space at either end. */
  predicate Tight(t: string) { t == "" || (t[0] !in SPACES && t[|t| - 1] !in SPACES) }

  lemma {:induction false} TrimLeftIs(pre: string, t: string, cut: char -> bool)
    requires (forall c :: c in pre ==> cut(c)) && (t == "" || !cut(t[0]))
    ensures TrimLeft(pre + t, cut) == t
    decreases |pre|
  {
    if pre == "" {
      assert pre + t == t;
    } else {
      assert pre[0] in pre && (pre + t)[0] == pre[0] && (pre + t)[1..] == pre[1..] + t;
      TrimLeftIs(pre[1..], t, cut);
    }
  }

  lemma {:induction false} TrimRightIs(t: string, post: string, cut: char -> bool)
    requires (forall c :: c in post ==> cut(c)) && (t == "" || !cut(t[|t| - 1]))
    ensures TrimRight(t + post, cut) == t
    decreases |post|
  {
    if post == "" {
      assert t + post == t;
    } else {
      var u := t + post;
      assert post[|post| - 1] in post && u[|u| - 1] == post[|post| - 1] && u[..|u| - 1] == t + post[..|post| - 1];
      TrimRightIs(t, post[..|post| - 1], cut);
    }
  }

  lemma TrimIs(pre: string, t: string, post: string)
    requires Over(pre, SPACES) && Over(post, SPACES) && Tight(t)
    ensures TrimSpace(pre + t + post) == t
  {
    hide IsSpace;
    forall c ensures IsSpace(c) <==> c in SPACES { SpacesExact(c); }
    if t == "" {
      AllTrimmed(pre, post);
    } else {
      assert pre + t + post == pre + (t + post) && (t + post)[0] == t[0];
      TrimLeftIs(pre, t + post, IsSpace);
      TrimRightIs(t, post, IsSpace);
    }
  }

  lemma AllTrimmed(pre: string, post: string)
    requires Over(pre, SPACES) && Over(post, SPACES)
    ensures TrimSpace(pre + "" + post) == ""
  {
    hide IsSpace;
    var s := pre + "" + post;
    forall c | c in s ensures IsSpace(c) {
      SpacesExact(c);
      var i :| 0 <= i < |s| && s[i] == c;
      assert if i < |pre| then s[i] == pre[i] else s[i] == post[i - |pre|];
    }
    assert s + "" == s;
    TrimLeftIs(s, "", IsSpace);
  }

  /** A text without the white space at its right end. */
  lemma {:induction false} SplitRight(s: string) returns (t: string, post: string)
    ensures s == t + post && Over(post, SPACES) && (t == "" || t[|t| - 1] !in SPACES)
    decreases |s|
  {
    if s == "" || s[|s| - 1] !in SPACES {
      t, post := s, "";
    } else {
      t, post := SplitRight(s[..|s| - 1]);
      assert s == s[..|s| - 1] + [s[|s| - 1]];
      post := post + [s[|s| - 1]];
    }
  }

  // ---- A single line ----

  /** The text starts with a byte order mark. */
  predicate Marked(text: string) { text != "" && text[0] == '\U{FEFF}' }

  /** A line that stands alone, does not start with a byte order mark and fits the scanner. */
  ghost predicate Alone(line: string) { '\n' !in line && !Marked(line) && ByteLen(line) < 65536 }

  /** line is t with white space around it. */
  ghost predicate Around(line: string, t: string) {
    Tight(t) && exists pre, post :: Over(pre, SPACES) && Over(post, SPACES) && line == pre + t + post
  }

  lemma AroundTrims(line: string, t: string)
    requires Around(line, t)
    ensures TrimSpace(line) == t && TrimSpace(DropCR(line)) == t
  {
    hide TrimSpace, SPACES, DropCR;
    var pre, post :| Over(pre, SPACES) && Over(post, SPACES) && line == pre + t + post;
    TrimIs(pre, t, post);
    var p, q := CRInSpace(line, pre, t, post);
    TrimIs(p, t, q);
  }

  lemma CRInSpace(line: string, pre: string, t: string, post: string) returns (p: string, q: string)
    requires Over(pre, SPACES) && Over(post, SPACES) && Tight(t) && line == pre + t + post
    ensures Over(p, SPACES) && Over(q, SPACES) && DropCR(line) == p + t + q
  {
    hide SPACES;
    SpacesExact('\r');
    p, q := pre, post;
    if line != "" && line[|line| - 1] == '\r' {
      if post != "" {
        q := post[..|post| - 1];
      } else if t == "" {
        p := pre[..|pre| - 1];
      }
    }
  }

  /** What the line says after a leading `export `. */
  ghost predicate Says(t: string, b: string) {
    if "export " <= t then exists gap :: Over(gap, SPACES) && t == "export " + gap + b && (b == "" || b[0] !in SPACES)
    else b == t
  }

  lemma AfterExport(t: string, gap: string, b: string)
    requires t == "export " + gap + b
    ensures t[7..] == gap + b + "" && (b != "" ==> t[|t| - 1] == b[|b| - 1])
  {
  }

  lemma SaysStrips(t: string, b: string)
    requires Tight(t) && Says(t, b)
    ensures StripExport(t) == b && Tight(b)
  {
    hide TrimSpace, SPACES;
    if "export " <= t {
      var gap :| Over(gap, SPACES) && t == "export " + gap + b && (b == "" || b[0] !in SPACES);
      AfterExport(t, gap, b);
      TrimIs(gap, b, "");
    }
  }

  lemma NoLineBreak(line: string)
    requires '\n' !in line && line != ""
    ensures ScanLines(line) == [line]
  {
  }

  /** The parser on one line, before its content is looked at. */
  lemma OneLine(line: string)
    requires '\n' !in line && line != ""
    ensures ScanLines(line) == [line]
    ensures ParseText(line) == if ByteLen(line) >= 65536 then Err(LineTooLong(1)) else OfLine(Content(line, 1))
  {
    hide ParseLine, Skipped, Content, ByteLen;
    NoLineBreak(line);
    assert [line][1..] == [] && ParseLines([], 2) == Ok([]);
    var r := ParseLine(Content(line, 1), 1);
    if r.Ok? { assert [r.value] + [] == [r.value]; }
  }

  function OfLine(content: string): Result<seq<Entry>, ParseError> {
    if Skipped(content) then Ok([]) else match ParseLine(content, 1) case Err(e) => Err(e) case Ok(entry) => Ok([entry])
  }

  /** The parser on a single line, from its parts. */
  lemma LineVerdict(line: string, t: string, b: string)
    requires Alone(line) && Around(line, t) && Says(t, b)
    ensures t == "" || t[0] == '#' ==> ParseText(line) == Ok([])
    ensures t != "" && t[0] != '#' ==>
              ParseText(line) == match ParseLine(DropCR(line), 1) case Err(e) => Err(e) case Ok(entry) => Ok([entry])
    ensures t != "" ==> StripExport(TrimSpace(DropCR(line))) == b
  {
    hide ParseLine, StripExport, TrimSpace, Says, Around;
    AroundTrims(line, t);
    AroundIsTight(line, t);
    if t != "" { SaysStrips(t, b); }
    if line == "" {
      assert ScanLines(line) == [];
    } else {
      OneLine(line);
      NoBom(line);
    }
  }

  lemma AroundIsTight(line: string, t: string)
    requires Around(line, t)
    ensures Tight(t) && |t| <= |line|
  {
  }

  lemma NoBom(line: string)
    requires !Marked(line) && line != ""
    ensures DropBOM(DropCR(line)) == DropCR(line)
  {
  }

  lemma ExportStarts(t: string)
    ensures "export " <= t ==> |t| >= 7 && t[0] == 'e' && t[6] == ' ' && '=' !in t[..7]
  {
    if "export " <= t {
      assert t[..7] == "export ";
      assert t[0] == "export "[0] && t[6] == "export "[6];
    }
  }

  /** A blank line or one whose first character is '#' holds no entry. */
  lemma BlankOrComment(line: string, t: string)
    requires Alone(line) && Around(line, t) && (t == "" || t[0] == '#')
    ensures ParseText(line) == Ok([])
  {
    hide Around, ParseText;
    ExportStarts(t);
    LineVerdict(line, t, t);
  }

  /** The error of a missing '=' : none at all, or nothing before it. */
  lemma MissingEqualsIff(line: string, t: string, b: string)
    requires Alone(line) && Around(line, t) && Says(t, b) && t != "" && t[0] != '#'
    ensures ParseText(line) == Err(MissingEquals(1)) <==> '=' !in b || b[0] == '='
  {
    hide Around, Says, TrimSpace, StripExport, ParseText, ParseValue, ValidKey;
    LineVerdict(line, t, b);
  }

  /** The line names key before its first '=' and has val after it. */
  ghost predicate Splits(b: string, key: string, val: string) {
    exists sp, bl :: SplitsWith(b, key, sp, bl, val)
  }

  ghost predicate SplitsWith(b: string, key: string, sp: string, bl: string, val: string) {
    && b == key + sp + "=" + (bl + val) && '=' !in key + sp && key != ""
    && Over(sp, SPACES) && Tight(key) && Over(bl, BLANKS) && (val == "" || val[0] !in BLANKS)
  }

  lemma SplitParts(b: string, key: string, val: string)
    requires Splits(b, key, val)
    ensures var eq := IndexOf(b, '='); eq > 0 && TrimSpace(b[..eq]) == key && TrimLeft(b[eq + 1..], IsBlank) == val
  {
    hide TrimSpace, IsBlank, TrimLeft, SPACES, BLANKS;
    var sp, bl :| SplitsWith(b, key, sp, bl, val);
    CutAtEquals(b, key + sp, bl + val);
    assert "" + key + sp == key + sp && Over("", SPACES);
    TrimIs("", key, sp);
    BlanksTrim(bl, val);
  }

  lemma CutAtEquals(b: string, left: string, right: string)
    requires b == left + "=" + right && '=' !in left
    ensures IndexOf(b, '=') == |left| && b[..|left|] == left && b[|left| + 1..] == right
  {
    assert b == left + ['='] + right;
    IndexOfAppend(left, '=', right);
  }

  lemma BlanksTrim(bl: string, val: string)
    requires Over(bl, BLANKS) && (val == "" || val[0] !in BLANKS)
    ensures TrimLeft(bl + val, IsBlank) == val
  {
    hide IsBlank;
    forall c ensures IsBlank(c) <==> c in BLANKS { SpacesExact(c); }
    TrimLeftIs(bl, val, IsBlank);
  }

  /** A line that splits: only the key and the value decide. */
  lemma SplitVerdict(line: string, t: string, b: string, key: string, val: string)
    requires Alone(line) && Around(line, t) && Says(t, b) && t != "" && t[0] != '#' && Splits(b, key, val)
    ensures ParseText(line) == if !Name(key) then Err(InvalidKey(1)) else
              match ParseValue(val) case None => Err(Unterminated(1)) case Some(v) => Ok([Entry(1, key, v)])
  {
    hide Around, Says, TrimSpace, StripExport, ParseText, ParseValue, ValidKey, Name, Splits, TrimLeft;
    LineVerdict(line, t, b);
    SplitParts(b, key, val);
    NamesExact(key);
  }

  lemma InvalidKeyIff(line: string, t: string, b: string, key: string, val: string)
    requires Alone(line) && Around(line, t) && Says(t, b) && t != "" && t[0] != '#' && Splits(b, key, val)
    ensures ParseText(line) == Err(InvalidKey(1)) <==> !Name(key)
  {
    hide Around, Says, ParseText, ParseValue, Name, Splits;
    SplitVerdict(line, t, b, key, val);
  }

  // ---- Quotes ----

  /** One unit of a double-quoted value: a character, or one behind a backslash. */
  datatype Unit = Plain(c: char) | Escaped(c: char)

  predicate Units(us: seq<Unit>) { forall i :: 0 <= i < |us| && us[i].Plain? ==> us[i].c != '"' && us[i].c != '\\' }

  function SpelledOne(u: Unit): string { if u.Plain? then [u.c] else ['\\', u.c] }

  function Spelled(us: seq<Unit>): string { if us == [] then "" else SpelledOne(us[0]) + Spelled(us[1..]) }

  /** Five escapes stand for one character; any other keeps its backslash. */
  function MeantOne(u: Unit): string {
    if u == Escaped('n') then "\n"
    else if u == Escaped('t') then "\t"
    else if u == Escaped('r') then "\r"
    else if u == Escaped('\\') then "\\"
    else if u == Escaped('"') then "\""
    else if u.Escaped? then "\\" + [u.c]
    else [u.c]
  }

  function Meant(us: seq<Unit>): string { if us == [] then "" else MeantOne(us[0]) + Meant(us[1..]) }

  /** s goes on to a quote that no backslash hides. */
  ghost predicate Closed(s: string) { exists us, tail :: Units(us) && s == Spelled(us) + "\"" + tail }

  lemma UnquoteOne(u: Unit, rest: string)
    requires u.Plain? ==> u.c != '"' && u.c != '\\'
    ensures Unquote(SpelledOne(u) + rest) == Prepend(MeantOne(u), Unquote(rest))
  {
    var s := SpelledOne(u) + rest;
    if u.Plain? {
      assert s[0] == u.c && s[1..] == rest;
    } else {
      assert s[0] == '\\' && s[1] == u.c && s[2..] == rest;
      assert ['\\', u.c] == "\\" + [u.c];
    }
  }

  lemma {:induction false} UnquoteUnits(us: seq<Unit>, tail: string)
    requires Units(us)
    ensures Unquote(Spelled(us) + "\"" + tail) == Some(Meant(us))
    decreases |us|
  {
    hide SpelledOne, MeantOne;
    if us == [] {
      assert Spelled(us) + "\"" + tail == "\"" + tail;
    } else {
      UnquoteUnits(us[1..], tail);
      var rest := Spelled(us[1..]) + "\"" + tail;
      assert Spelled(us) + "\"" + tail == SpelledOne(us[0]) + rest;
      UnquoteOne(us[0], rest);
    }
  }

  lemma {:induction false} UnquoteClosed(s: string) returns (us: seq<Unit>, tail: string)
    requires Unquote(s).Some?
    ensures Units(us) && s == Spelled(us) + "\"" + tail
    decreases |s|
  {
    if s[0] == '"' {
      us, tail := [], s[1..];
      assert s == "" + "\"" + tail;
    } else if s[0] == '\\' && |s| > 1 {
      var more, t := UnquoteClosed(s[2..]);
      us, tail := [Escaped(s[1])] + more, t;
      assert us[1..] == more && s == ['\\', s[1]] + s[2..];
      assert s == ['\\', s[1]] + Spelled(more) + "\"" + tail;
    } else {
      var more, t := UnquoteClosed(s[1..]);
      LoneBackslash(s);
      us, tail := [Plain(s[0])] + more, t;
      assert us[1..] == more && s == [s[0]] + s[1..];
      assert s == [s[0]] + Spelled(more) + "\"" + tail;
    }
  }

  lemma LoneBackslash(s: string)
    requires Unquote(s).Some?
    ensures s != "" && (s[0] == '\\' ==> |s| > 1)
  {
  }

  lemma UnquoteIff(s: string)
    ensures Unquote(s).Some? <==> Closed(s)
  {
    if Unquote(s).Some? {
      var us, tail := UnquoteClosed(s);
    }
    if Closed(s) {
      var us, tail :| Units(us) && s == Spelled(us) + "\"" + tail;
      UnquoteUnits(us, tail);
    }
  }

  /** The error of an open quote: a double quote with no plain one after it, or a single one with no other. */
  lemma UnterminatedIff(line: string, t: string, b: string, key: string, val: string)
    requires Alone(line) && Around(line, t) && Says(t, b) && t != "" && t[0] != '#' && Splits(b, key, val) && Name(key)
    ensures ParseText(line) == Err(Unterminated(1)) <==>
            val != "" && ((val[0] == '"' && !Closed(val[1..])) || (val[0] == '\'' && '\'' !in val[1..]))
  {
    hide Around, Says, ParseText, Name, Splits, Closed, Unquote;
    SplitVerdict(line, t, b, key, val);
    if val != "" { UnquoteIff(val[1..]); }
  }

  // ---- Values ----

  /** A double-quoted value is what its units mean; anything after the closing quote is ignored. */
  lemma DoubleQuotedValue(line: string, t: string, b: string, key: string, us: seq<Unit>, tail: string)
    requires Alone(line) && Around(line, t) && Says(t, b) && t != "" && t[0] != '#' && Name(key) && Units(us)
    requires Splits(b, key, "\"" + (Spelled(us) + "\"" + tail))
    ensures ParseText(line) == Ok([Entry(1, key, Meant(us))])
  {
    hide Around, Says, ParseText, Name, Splits, Unquote;
    var val := "\"" + (Spelled(us) + "\"" + tail);
    SplitVerdict(line, t, b, key, val);
    assert val[1..] == Spelled(us) + "\"" + tail;
    UnquoteUnits(us, tail);
  }

  /** A single-quoted value is taken as it stands; anything after the closing quote is ignored. */
  lemma SingleQuotedValue(line: string, t: string, b: string, key: string, v: string, tail: string)
    requires Alone(line) && Around(line, t) && Says(t, b) && t != "" && t[0] != '#' && Name(key) && '\'' !in v
    requires Splits(b, key, "'" + (v + "'" + tail))
    ensures ParseText(line) == Ok([Entry(1, key, v)])
  {
    hide Around, Says, ParseText, Name, Splits;
    var val := "'" + (v + "'" + tail);
    SplitVerdict(line, t, b, key, val);
    assert val[1..] == v + ['\''] + tail;
    IndexOfAppend(v, '\'', tail);
    assert val[1..1 + |v|] == v;
  }

  /** A bare value ends before the first '#', without the blanks in front of it. */
  lemma BareValue(line: string, t: string, b: string, key: string, v: string, bl: string, rest: string)
    requires Alone(line) && Around(line, t) && Says(t, b) && t != "" && t[0] != '#' && Name(key)
    requires Splits(b, key, v + bl + rest)
    requires '#' !in v + bl && Over(bl, BLANKS) && (v == "" || v[|v| - 1] !in BLANKS) && (rest == "" || rest[0] == '#')
    requires v + bl + rest == "" || ((v + bl + rest)[0] != '"' && (v + bl + rest)[0] != '\'')
    ensures ParseText(line) == Ok([Entry(1, key, v)])
  {
    hide Around, Says, ParseText, Name, Splits, IsBlank, TrimRight;
    var val := v + bl + rest;
    SplitVerdict(line, t, b, key, val);
    if val != "" { BareIs(v, bl, rest); } else { assert v == ""; }
  }

  lemma BareIs(v: string, bl: string, rest: string)
    requires '#' !in v + bl && Over(bl, BLANKS) && (v == "" || v[|v| - 1] !in BLANKS) && (rest == "" || rest[0] == '#')
    ensures Bare(v + bl + rest) == v
  {
    hide IsBlank, TrimRight;
    var val := v + bl + rest;
    if rest == "" {
      assert val == v + bl;
    } else {
      assert rest == ['#'] + rest[1..] && val == (v + bl) + ['#'] + rest[1..];
      IndexOfAppend(v + bl, '#', rest[1..]);
      assert val[..|v + bl|] == v + bl;
    }
    forall c ensures IsBlank(c) <==> c in BLANKS { SpacesExact(c); }
    TrimRightIs(v, bl, IsBlank);
  }

  // ---- Whole files ----

  /** Exactly the lines of 65536 bytes and more are refused for their length. */
  lemma LineTooLongIff(line: string)
    requires '\n' !in line
    ensures ParseText(line) == Err(LineTooLong(1)) <==> ByteLen(line) >= 65536
  {
    hide ParseLine, Skipped, Content;
    if line != "" {
      OneLine(line);
      NotTooLong(Content(line, 1), 1);
    }
  }

  lemma NotTooLong(line: string, n: nat)
    ensures ParseLine(line, n).Err? ==> !ParseLine(line, n).error.LineTooLong?
  {
    hide TrimSpace, StripExport, ParseValue, ValidKey;
  }

  function ShiftError(e: ParseError, k: nat): ParseError {
    match e
    case LineTooLong(n) => LineTooLong(n + k)
    case MissingEquals(n) => MissingEquals(n + k)
    case InvalidKey(n) => InvalidKey(n + k)
    case Unterminated(n) => Unterminated(n + k)
  }

  function ShiftEntries(es: seq<Entry>, k: nat): seq<Entry> {
    if es == [] then [] else [es[0].(line := es[0].line + k)] + ShiftEntries(es[1..], k)
  }

  /** The same result for a text that starts k lines further down. */
  function Shift(r: Result<seq<Entry>, ParseError>, k: nat): Result<seq<Entry>, ParseError> {
    match r case Err(e) => Err(ShiftError(e, k)) case Ok(es) => Ok(ShiftEntries(es, k))
  }

  lemma ParseLineShift(line: string, n: nat, k: nat)
    ensures ParseLine(line, n + k) == match ParseLine(line, n) case Err(e) => Err(ShiftError(e, k)) case Ok(e) => Ok(e.(line := n + k))
    ensures ParseLine(line, n).Ok? ==> ParseLine(line, n).value.line == n
  {
    hide TrimSpace, StripExport, ParseValue, ValidKey;
  }

  lemma {:induction false} ParseShift(lines: seq<string>, n: nat, k: nat)
    requires n > 0 && (lines == [] || !Marked(lines[0]) || n > 1)
    ensures ParseLines(lines, n + k) == Shift(ParseLines(lines, n), k)
    decreases |lines|
  {
    hide ParseLine, Skipped, ByteLen, DropBOM, DropCR;
    if lines != [] {
      ContentShift(lines[0], n, k);
      ParseLineShift(Content(lines[0], n), n, k);
      if n > 0 { ParseShift(lines[1..], n + 1, k); }
      if ParseLine(Content(lines[0], n), n).Ok? && ParseLines(lines[1..], n + 1).Ok? {
        var e, es := ParseLine(Content(lines[0], n), n).value, ParseLines(lines[1..], n + 1).value;
        assert ([e] + es)[0] == e && ([e] + es)[1..] == es;
      }
    }
  }

  lemma ContentShift(line: string, n: nat, k: nat)
    requires n > 0 && (!Marked(line) || n > 1)
    ensures Content(line, n + k) == Content(line, n)
  {
    if line != "" && n == 1 { NoBom(line); }
  }

  /**
   * A file is read line by line: the first line's error ends it, otherwise its entry,
   * if any, comes before those of the rest, whose line numbers count on.
   */
  lemma LineByLine(line: string, rest: string)
    requires '\n' !in line && !Marked(rest)
    ensures ParseText(line + "\n" + rest) ==
            match ParseText(line)
            case Err(e) => Err(e)
            case Ok(es) => match Shift(ParseText(rest), 1) case Err(e) => Err(e) case Ok(fs) => Ok(es + fs)
  {
    hide ParseLine, Skipped, ByteLen, Content, Shift, IndexOf;
    IndexOfAppend(line, '\n', rest);
    var text := line + "\n" + rest;
    assert text[..|line|] == line && text[|line| + 1..] == rest;
    assert ScanLines(text) == [line] + ScanLines(rest);
    FirstLine(rest);
    ParseShift(ScanLines(rest), 1, 1);
    assert ([line] + ScanLines(rest))[1..] == ScanLines(rest);
    var r := ParseLines(ScanLines(rest), 2);
    if r.Ok? { assert [] + r.value == r.value; }
    if line == "" {
      EmptyLine();
    } else {
      OneLine(line);
    }
  }

  lemma EmptyLine()
    ensures ScanLines("") == [] && ByteLen("") == 0 && Skipped(Content("", 1))
  {
  }

  lemma FirstLine(text: string)
    requires !Marked(text)
    ensures ScanLines(text) == [] || !Marked(ScanLines(text)[0])
  {
    if text != "" {
      var nl := IndexOf(text, '\n');
      assert ScanLines(text)[0] == if nl < 0 then text else text[..nl];
    }
  }

  /** A byte order mark at the start of a file is not there. */
  lemma MarkIsSkipped(line: string)
    requires '\n' !in line && line != "" && !Marked(line) && ByteLen(line) + 3 < 65536
    ensures ParseText(BOM + line) == ParseText(line)
  {
    hide ParseLine, Skipped, Content, ByteLen;
    assert '\n' !in BOM by { assert BOM[0] != '\n'; }
    MarkContent(line);
    OneLine(line);
    OneLine(BOM + line);
  }

  /** A byte order mark further down is text: there it spoils the key. */
  lemma MarkIsTextLater(line: string, k: string, r: string)
    requires '\n' !in line && ParseText(line).Ok? && '=' !in k && '\n' !in k + r && ByteLen(BOM + (k + "=" + r)) < 65536
    ensures ParseText(line + "\n" + (BOM + (k + "=" + r))) == Err(InvalidKey(2))
  {
    hide ParseLine, Skipped, ByteLen, Content, IndexOf;
    var m := BOM + (k + "=" + r);
    var text := line + "\n" + m;
    assert '\n' !in m by { assert m[0] == '\U{FEFF}' && m[1..] == k + "=" + r && m == [m[0]] + m[1..]; }
    IndexOfAppend(line, '\n', m);
    assert text[..|line|] == line && text[|line| + 1..] == m;
    NoLineBreak(m);
    assert ScanLines(text) == [line] + [m] && ([line] + [m])[1..] == [m] && [m][1..] == [];
    MarkedLine(m, k, r);
    assert ParseLines([m], 2) == Err(InvalidKey(2));
    if line == "" {
      EmptyLine();
    } else {
      OneLine(line);
    }
  }

  lemma MarkedLine(m: string, k: string, r: string)
    requires m == BOM + (k + "=" + r) && '=' !in k
    ensures !Skipped(Content(m, 2)) && ParseLine(Content(m, 2), 2) == Err(InvalidKey(2))
  {
    hide TrimSpace, SPACES;
    var r' := if r != "" && r[|r| - 1] == '\r' then r[..|r| - 1] else r;
    assert m[|m| - 1] == if r == "" then '=' else r[|r| - 1];
    assert DropCR(m) == BOM + (k + "=" + r');
    MarkedBody(k, r');
  }

  lemma MarkedBody(k: string, r: string)
    requires '=' !in k
    ensures var line := BOM + (k + "=" + r); !Skipped(line) && ParseLine(line, 2) == Err(InvalidKey(2))
  {
    hide TrimSpace, SPACES, ParseValue, IndexOf, TrimLeft, KeyChar;
    var line := BOM + (k + "=" + r);
    var r0, post := SplitRight(r);
    var t := BOM + (k + "=" + r0);
    SpacesExact('\U{FEFF}');
    SpacesExact('=');
    assert t[0] == '\U{FEFF}' && t[|t| - 1] == (if r0 == "" then '=' else r0[|r0| - 1]);
    assert "" + t + post == line && Over("", SPACES);
    TrimIs("", t, post);
    ExportStarts(t);
    assert '=' !in BOM + k by { assert (BOM + k)[0] == '\U{FEFF}' && (BOM + k)[1..] == k; }
    assert t == BOM + k + "=" + r0;
    CutAtEquals(t, BOM + k, r0);
    var k0, sp := SplitRight(k);
    assert "" + (BOM + k0) + sp == BOM + k && (BOM + k0)[0] == '\U{FEFF}';
    assert (BOM + k0)[|BOM + k0| - 1] == if k0 == "" then '\U{FEFF}' else k0[|k0| - 1];
    TrimIs("", BOM + k0, sp);
  }

  lemma MarkContent(line: string)
    requires line != "" && !Marked(line)
    ensures Content(BOM + line, 1) == Content(line, 1) && ByteLen(BOM + line) == 3 + ByteLen(line)
  {
    NoBom(line);
    var m := BOM + line;
    assert m[0] == '\U{FEFF}' && m[1..] == line && m[|m| - 1] == line[|line| - 1];
    assert m[..|m| - 1] == BOM + line[..|line| - 1];
    assert (BOM + line[..|line| - 1])[1..] == line[..|line| - 1];
  }

  // ---- The lines one writes ----

  lemma NameFacts(k: string)
    requires Name(k)
    ensures k != "" && Tight(k) && '=' !in k && '\n' !in k && k[0] != '#' && k[0] != '\U{FEFF}' && !("export " <= k)
  {
    hide SPACES;
    NamesExact(k);
    forall c | c in k ensures c !in SPACES && c != '=' && c != '\n' && c != ' ' { SpacesExact(c); }
    assert k[0] in k && k[|k| - 1] in k;
    ExportStarts(k);
    if |k| >= 7 { assert k[6] in k; }
  }

  /** What stands around a line k=right, with or without `export `, and how it splits. */
  lemma Written(prefix: string, k: string, right: string, bl: string, val: string, post: string) returns (t: string, b: string)
    requires Name(k) && (prefix == "" || exists gap :: Over(gap, SPACES) && prefix == "export " + gap)
    requires Over(bl, BLANKS) && (val == "" || (val[0] !in BLANKS && val[|val| - 1] !in SPACES)) && (val == "" ==> bl == "")
    requires Over(post, SPACES) && right == bl + val + post
    ensures Around(prefix + (k + "=" + right), t) && Says(t, b) && Splits(b, k, val) && t != "" && t[0] != '#'
    ensures !Marked(prefix + (k + "=" + right))
  {
    hide Name, SPACES, BLANKS;
    NameFacts(k);
    b := k + "=" + (bl + val);
    t := prefix + b;
    var line := prefix + (k + "=" + right);
    assert b[|b| - 1] == (if val == "" then '=' else val[|val| - 1]);
    NotSpaces();
    assert line == "" + t + post by {
      assert k + "=" + right == b + post;
    }
    assert Over("", SPACES);
    assert k + "" == k && k + "" + "=" + (bl + val) == b;
    assert '=' !in k + "";
    assert SplitsWith(b, k, "", bl, val);
    if prefix == "" {
      assert t == b && t[0] == k[0];
      ExportNeedsBlank(k, b);
    } else {
      var gap :| Over(gap, SPACES) && prefix == "export " + gap;
      assert t[0] == 'e' && line[0] == 'e' && t == "export " + gap + b && b[0] == k[0];
    }
  }

  lemma NotSpaces()
    ensures '=' !in SPACES && 'e' !in SPACES && BOM[0] == '\U{FEFF}'
  {
    SpacesExact('=');
    SpacesExact('e');
  }

  /** A name followed by '=' does not start with `export `. */
  lemma ExportNeedsBlank(k: string, b: string)
    requires Name(k) && k + "=" <= b
    ensures !("export " <= b)
  {
    hide Name;
    NameFacts(k);
    ExportStarts(b);
    ExportStarts(k);
    assert (k + "=")[|k|] == '=' && b[|k|] == '=';
    if |b| >= 7 {
      if |k| <= 6 { assert b[..7][|k|] == b[|k|]; } else { assert b[..7] == k[..7]; }
    }
  }

  /** `k=v # comment`, with or without `export `: the value is v. */
  lemma BareWithComment(prefix: string, k: string, v: string, bl: string, c: string)
    requires Name(k) && (prefix == "" || exists gap :: Over(gap, SPACES) && prefix == "export " + gap)
    requires '#' !in v && (v == "" || (v[0] !in BLANKS + "\"'" && v[|v| - 1] !in BLANKS)) && Over(bl, BLANKS)
    requires var line := prefix + (k + "=" + (v + bl + "#" + c)); '\n' !in line && ByteLen(line) < 65536
    ensures ParseText(prefix + (k + "=" + (v + bl + "#" + c))) == Ok([Entry(1, k, v)])
  {
    hide ParseText, Name, SPACES;
    var c0, post := SplitRight(c);
    var right := v + bl + "#" + c;
    var line := prefix + (k + "=" + right);
    var rest := "#" + c0;
    SpacesExact('#');
    if v == "" {
      assert right == bl + rest + post;
      var t, b := Written(prefix, k, right, bl, rest, post);
      assert "" + "" + rest == rest;
      BareValue(line, t, b, k, "", "", rest);
    } else {
      var val := v + bl + rest;
      assert right == "" + val + post;
      assert val[|val| - 1] == rest[|rest| - 1];
      FirstOfThree(v[0]);
      assert val[0] == v[0];
      var t, b := Written(prefix, k, right, "", val, post);
      BlankIsNotHash(bl);
      BareValue(line, t, b, k, v, bl, rest);
    }
  }

  lemma FirstOfThree(c: char)
    requires c !in BLANKS + "\"'"
    ensures c !in BLANKS && c != '"' && c != '\''
  {
    assert forall d :: d in BLANKS ==> d in BLANKS + "\"'";
    assert (BLANKS + "\"'")[2] == '"' && (BLANKS + "\"'")[3] == '\'';
  }

  lemma BlankIsNotHash(bl: string)
    requires Over(bl, BLANKS)
    ensures '#' !in bl
  {
    SpacesExact('#');
  }

  /** `k=v` alone: the value is v when it has no '#', starts with no blank or quote and ends in no white space. */
  lemma BareAlone(prefix: string, k: string, v: string)
    requires Name(k) && (prefix == "" || exists gap :: Over(gap, SPACES) && prefix == "export " + gap)
    requires '#' !in v && (v == "" || (v[0] !in BLANKS + "\"'" && v[|v| - 1] !in SPACES))
    requires var line := prefix + (k + "=" + v); '\n' !in line && ByteLen(line) < 65536
    ensures ParseText(prefix + (k + "=" + v)) == Ok([Entry(1, k, v)])
  {
    hide ParseText, Name, SPACES;
    var line := prefix + (k + "=" + v);
    assert v == "" + v + "" == v + "" + "";
    if v != "" {
      FirstOfThree(v[0]);
      BlankIsSpace(v[|v| - 1]);
    }
    var t, b := Written(prefix, k, v, "", v, "");
    BareValue(line, t, b, k, v, "", "");
  }

  lemma BlankIsSpace(c: char)
    ensures c in BLANKS ==> c in SPACES
  {
    SpacesExact(c);
  }

  /** `k='v'` with any text after the closing quote. */
  lemma SingleQuotedLine(prefix: string, k: string, v: string, tail: string)
    requires Name(k) && (prefix == "" || exists gap :: Over(gap, SPACES) && prefix == "export " + gap) && '\'' !in v
    requires var line := prefix + (k + "=" + ("'" + (v + "'" + tail))); '\n' !in line && ByteLen(line) < 65536
    ensures ParseText(prefix + (k + "=" + ("'" + (v + "'" + tail)))) == Ok([Entry(1, k, v)])
  {
    hide ParseText, Name, SPACES, BLANKS;
    var right := "'" + (v + "'" + tail);
    var tail0, post := SplitRight(tail);
    var val := "'" + (v + "'" + tail0);
    assert right == "" + val + post;
    QuotesAreNotSpaces();
    assert val[|val| - 1] == if tail0 == "" then '\'' else tail0[|tail0| - 1];
    var t, b := Written(prefix, k, right, "", val, post);
    SingleQuotedValue(prefix + (k + "=" + right), t, b, k, v, tail0);
  }

  /** `k="..."` with any text after the closing quote: escapes resolved, unknown ones kept. */
  lemma DoubleQuotedLine(prefix: string, k: string, us: seq<Unit>, tail: string)
    requires Name(k) && (prefix == "" || exists gap :: Over(gap, SPACES) && prefix == "export " + gap) && Units(us)
    requires var line := prefix + (k + "=" + ("\"" + (Spelled(us) + "\"" + tail))); '\n' !in line && ByteLen(line) < 65536
    ensures ParseText(prefix + (k + "=" + ("\"" + (Spelled(us) + "\"" + tail)))) == Ok([Entry(1, k, Meant(us))])
  {
    hide ParseText, Name, SPACES, BLANKS, Spelled, Meant, Units;
    var right := "\"" + (Spelled(us) + "\"" + tail);
    var tail0, post := SplitRight(tail);
    var val := "\"" + (Spelled(us) + "\"" + tail0);
    assert right == "" + val + post;
    QuotesAreNotSpaces();
    assert val[|val| - 1] == if tail0 == "" then '"' else tail0[|tail0| - 1];
    var t, b := Written(prefix, k, right, "", val, post);
    DoubleQuotedValue(prefix + (k + "=" + right), t, b, k, us, tail0);
  }

  lemma QuotesAreNotSpaces()
    ensures '"' !in SPACES && '\'' !in SPACES && '"' !in BLANKS && '\'' !in BLANKS
  {
    SpacesExact('"');
    SpacesExact('\'');
  }

  /** Every line splits into its white space and its text, and the text into what it says; so the cases above are all. */
  lemma EveryLine(line: string) returns (t: string, b: string)
    ensures Around(line, t) && Says(t, b)
  {
    hide SPACES;
    var front, post := SplitRight(line);
    var pre;
    pre, t := SplitLeft(front);
    assert line == pre + t + post;
    if "export " <= t {
      var gap;
      gap, b := SplitLeft(t[7..]);
      assert t == "export " + t[7..] && t == "export " + gap + b;
    } else {
      b := t;
    }
  }

  lemma {:induction false} SplitLeft(s: string) returns (pre: string, t: string)
    ensures s == pre + t && Over(pre, SPACES) && (t == "" || (t[0] !in SPACES && t[|t| - 1] == s[|s| - 1]))
    decreases |s|
  {
    hide SPACES;
    if s == "" || s[0] !in SPACES {
      pre, t := "", s;
    } else {
      pre, t := SplitLeft(s[1..]);
      pre := [s[0]] + pre;
      assert s == [s[0]] + s[1..];
    }
  }

  /** A text with an '=' that is not its first character splits into a key and a value. */
  lemma EverySplit(b: string) returns (key: string, val: string)
    requires Tight(b) && '=' in b && b[0] != '='
    ensures Splits(b, key, val)
  {
    hide SPACES, BLANKS;
    var eq := IndexOf(b, '=');
    var left, right := b[..eq], b[eq + 1..];
    assert b == left + "=" + right && left[0] == b[0];
    var sp, bl;
    key, sp := SplitRight(left);
    bl, val := SplitBlanks(right);
    StartsInKey(left, key, sp);
    assert SplitsWith(b, key, sp, bl, val);
  }

  lemma StartsInKey(left: string, key: string, sp: string)
    requires left == key + sp && left != "" && left[0] !in SPACES && Over(sp, SPACES)
    ensures key != "" && key[0] == left[0]
  {
  }

  lemma {:induction false} SplitBlanks(s: string) returns (bl: string, t: string)
    ensures s == bl + t && Over(bl, BLANKS) && (t == "" || t[0] !in BLANKS)
  {
    hide BLANKS;
    if s == "" || s[0] !in BLANKS {
      bl, t := "", s;
    } else {
      bl, t := SplitBlanks(s[1..]);
      bl := [s[0]] + bl;
      assert s == [s[0]] + s[1..];
    }
  }

  /** A blank line or a comment only moves the line numbers on. */
  lemma SkippedLineCounts(line: string, t: string, rest: string)
    requires Alone(line) && Around(line, t) && (t == "" || t[0] == '#') && !Marked(rest)
    ensures ParseText(line + "\n" + rest) == Shift(ParseText(rest), 1)
  {
    hide ParseText, Around, Shift;
    BlankOrComment(line, t);
    LineByLine(line, rest);
    var r := Shift(ParseText(rest), 1);
    if r.Ok? { assert [] + r.value == r.value; }
  }

  // ---- What the printers write ----

  /** Only these characters make the printer quote a value. */
  const QUOTED_FOR := " \t\n\r\"'#\\$"

  lemma QuotedForExact(c: char)
    ensures Special(c) <==> c in QUOTED_FOR
  {
    var a := QUOTED_FOR;
    assert a[0] == ' ' && a[1] == '\t' && a[2] == '\n' && a[3] == '\r' && a[4] == '"' && a[5] == '\'' && a[6] == '#';
    assert a[7] == '\\' && a[8] == '$';
  }

  /** How a character stands between the printer's quotes. */
  predicate ShownAs(c: char, u: Unit) {
    && (c == '\n' ==> u == Escaped('n'))
    && (c == '\t' ==> u == Escaped('t'))
    && (c == '\r' ==> u == Escaped('r'))
    && (c == '\\' ==> u == Escaped('\\'))
    && (c == '"' ==> u == Escaped('"'))
    && (c != '\n' && c != '\t' && c != '\r' && c != '\\' && c != '"' ==> u == Plain(c))
  }

  /** A value is printed bare exactly when it holds none of those characters, and otherwise in quotes, each character as ShownAs says. */
  lemma PrintedValue(v: string) returns (us: seq<Unit>)
    ensures (forall c :: c in v ==> c !in QUOTED_FOR) ==> Format(v) == v
    ensures !(forall c :: c in v ==> c !in QUOTED_FOR) ==>
              |us| == |v| && (forall i :: 0 <= i < |v| ==> ShownAs(v[i], us[i])) && Format(v) == "\"" + Spelled(us) + "\""
  {
    hide Special, QUOTED_FOR, Spelled, ShownAs, EscapeChar;
    forall c ensures Special(c) <==> c in QUOTED_FOR { QuotedForExact(c); }
    assert MustQuote(v) <==> !(forall c :: c in v ==> c !in QUOTED_FOR);
    us := EscapeSpells(v);
  }

  lemma {:induction false} EscapeSpells(v: string) returns (us: seq<Unit>)
    ensures |us| == |v| && forall i :: 0 <= i < |v| ==> ShownAs(v[i], us[i])
    ensures Escape(v, EscapeChar) == Spelled(us)
    decreases |v|
  {
    if v == "" {
      us := [];
    } else {
      var rest := EscapeSpells(v[1..]);
      var c := v[0];
      var u := if c == '\n' then Escaped('n') else if c == '\t' then Escaped('t') else if c == '\r' then Escaped('r')
               else if c == '\\' || c == '"' then Escaped(c) else Plain(c);
      us := [u] + rest;
      assert us[1..] == rest && v == [c] + v[1..];
      assert EscapeChar(c) == SpelledOne(u);
    }
  }

  /** One line a key, each with its line break. */
  lemma PrintedLines(k: string, keys: seq<string>, m: map<string, string>)
    requires k in m && forall x :: x in keys ==> x in m
    ensures Text(Items([], m)) == ""
    ensures Text(Items([k] + keys, m)) == k + "=" + Format(m[k]) + "\n" + Text(Items(keys, m))
  {
    hide Format;
    assert ([k] + keys)[1..] == keys;
    var items := Items([k] + keys, m);
    assert items == [(k, Format(m[k]))] + Items(keys, m);
    assert items[1..] == Items(keys, m);
  }
}
