/**
 * The .env parser and printer of the command line, over the code points of
 * valid UTF-8 text. All delimiters are ASCII, so byte offsets play no role.
 */
module Dotenv {
  import opened Wrappers
  import opened Strings

  datatype Entry = Entry(line: nat, key: string, value: string)

  datatype ParseError = LineTooLong(line: nat) | MissingEquals(line: nat) | InvalidKey(line: nat) | Unterminated(line: nat)

  // ---- Library string functions ----

  /** unicode.IsSpace. */
  predicate IsSpace(c: char) {
    || c == '\t' || c == '\n' || c == '\U{000B}' || c == '\U{000C}' || c == '\r' || c == ' '
    || c == '\U{0085}' || c == '\U{00A0}' || c == '\U{1680}' || '\U{2000}' <= c <= '\U{200A}'
    || c == '\U{2028}' || c == '\U{2029}' || c == '\U{202F}' || c == '\U{205F}' || c == '\U{3000}'
  }

  predicate IsBlank(c: char) { c == ' ' || c == '\t' }

  function TrimLeft(s: string, cut: char -> bool): string {
    if s != "" && cut(s[0]) then TrimLeft(s[1..], cut) else s
  }

  function TrimRight(s: string, cut: char -> bool): string {
    if s != "" && cut(s[|s| - 1]) then TrimRight(s[..|s| - 1], cut) else s
  }

  function TrimSpace(s: string): string { TrimRight(TrimLeft(s, IsSpace), IsSpace) }

  /** strings.IndexByte. */
  function IndexOf(s: string, c: char): (i: int)
    ensures -1 <= i < |s|
    ensures i >= 0 ==> s[i] == c && c !in s[..i]
    ensures i < 0 <==> c !in s
  {
    if s == "" then -1
    else if s[0] == c then 0
    else
      var i := IndexOf(s[1..], c);
      assert s == [s[0]] + s[1..];
      assert i >= 0 ==> s[..i + 1] == [s[0]] + s[1..][..i];
      if i < 0 then -1 else i + 1
  }

  lemma {:induction false} IndexOfAppend(p: string, c: char, rest: string)
    requires c !in p
    ensures IndexOf(p + [c] + rest, c) == |p|
    decreases |p|
  {
    if p != "" {
      IndexOfAppend(p[1..], c, rest);
      assert (p + [c] + rest)[1..] == p[1..] + [c] + rest;
      assert p[0] in p;
    }
  }

  function Utf8Len(c: char): nat {
    if c < '\U{0080}' then 1 else if c < '\U{0800}' then 2 else if c < '\U{10000}' then 3 else 4
  }

  function ByteLen(s: string): nat { if s == "" then 0 else Utf8Len(s[0]) + ByteLen(s[1..]) }

  /** The default buffer of bufio.Scanner: a line of this many bytes no longer fits. */
  const MaxTokenSize := 65536

  /** The scanner's lines, each still with its carriage return. */
  function ScanLines(text: string): seq<string>
    decreases |text|
  {
    if text == "" then []
    else
      var nl := IndexOf(text, '\n');
      if nl < 0 then [text] else [text[..nl]] + ScanLines(text[nl + 1..])
  }

  function DropCR(line: string): string {
    if line != "" && line[|line| - 1] == '\r' then line[..|line| - 1] else line
  }

  function DropBOM(line: string): string {
    if line != "" && line[0] == '\U{FEFF}' then line[1..] else line
  }

  // ---- Parsing ----

  predicate KeyStart(c: char) { 'a' <= c <= 'z' || 'A' <= c <= 'Z' || c == '_' }

  predicate KeyChar(c: char) { KeyStart(c) || '0' <= c <= '9' }

  /** [A-Za-z_][A-Za-z0-9_]* */
  predicate ValidKey(k: string) {
    k != "" && KeyStart(k[0]) && forall i :: 0 <= i < |k| ==> KeyChar(k[i])
  }

  method CheckKey(k: string) returns (ok: bool)
    ensures ok == ValidKey(k)
  {
    if k == "" { return false; }
    for i := 0 to |k|
      invariant i > 0 ==> KeyStart(k[0])
      invariant forall j :: 0 <= j < i ==> KeyChar(k[j])
    {
      var r := k[i];
      if 'a' <= r <= 'z' || 'A' <= r <= 'Z' || r == '_' {
      } else if '0' <= r <= '9' {
        if i == 0 { return false; }
      } else {
        return false;
      }
    }
    return true;
  }

  /** What one escape after a backslash stands for; an unknown one is kept with its backslash. */
  function Unescape(c: char): string {
    match c
    case 'n' => "\n"
    case 't' => "\t"
    case 'r' => "\r"
    case '\\' => "\\"
    case '"' => "\""
    case _ => ['\\', c]
  }

  /** The text up to the closing quote, escapes resolved; None when there is no closing quote. */
  function Unquote(s: string): Option<string>
    decreases |s|
  {
    if s == "" then None
    else if s[0] == '"' then Some("")
    else if s[0] == '\\' && |s| > 1 then Prepend(Unescape(s[1]), Unquote(s[2..]))
    else Prepend([s[0]], Unquote(s[1..]))
  }

  function Prepend(p: string, r: Option<string>): Option<string> {
    match r case None => None case Some(t) => Some(p + t)
  }

  method ParseDoubleQuoted(s: string) returns (r: Option<string>)
    requires s != ""
    ensures r == Unquote(s[1..])
  {
    var b := "";
    var i := 1;
    PrependNothing(Unquote(s[1..]));
    while i < |s|
      invariant 1 <= i <= |s|
      invariant Unquote(s[1..]) == Prepend(b, Unquote(s[i..]))
    {
      var c := s[i];
      if c == '"' {
        assert s[i..][0] == c && b + "" == b;
        return Some(b);
      }
      if c == '\\' && i + 1 < |s| {
        UnquoteTail(s, i, b);
        i := i + 1;
        b := b + Unescape(s[i]);
        i := i + 1;
        continue;
      }
      UnquoteTail(s, i, b);
      b := b + [c];
      i := i + 1;
    }
    return None;
  }

  lemma PrependNothing(r: Option<string>)
    ensures Prepend("", r) == r
  {
    if r.Some? { assert "" + r.value == r.value; }
  }

  lemma UnquoteTail(s: string, i: nat, b: string)
    requires i < |s| && s[i] != '"'
    ensures s[i] == '\\' && i + 1 < |s| ==>
              Prepend(b, Unquote(s[i..])) == Prepend(b + Unescape(s[i + 1]), Unquote(s[i + 2..]))
    ensures !(s[i] == '\\' && i + 1 < |s|) ==>
              Prepend(b, Unquote(s[i..])) == Prepend(b + [s[i]], Unquote(s[i + 1..]))
  {
    var t := s[i..];
    assert t[0] == s[i] && t[1..] == s[i + 1..];
    if s[i] == '\\' && i + 1 < |s| {
      assert t[1] == s[i + 1] && t[2..] == s[i + 2..];
      var r := Unquote(s[i + 2..]);
      assert r.Some? ==> b + (Unescape(s[i + 1]) + r.value) == (b + Unescape(s[i + 1])) + r.value;
    } else {
      var r := Unquote(s[i + 1..]);
      assert r.Some? ==> b + ([s[i]] + r.value) == (b + [s[i]]) + r.value;
    }
  }

  function SingleQuoted(s: string): Option<string>
    requires s != ""
  {
    var end := IndexOf(s[1..], '\'');
    if end < 0 then None else Some(s[1..1 + end])
  }

  /** Up to the first '#', without trailing blanks. */
  function Bare(s: string): string {
    var hash := IndexOf(s, '#');
    TrimRight(if hash >= 0 then s[..hash] else s, IsBlank)
  }

  function ParseValue(rest: string): Option<string> {
    if rest == "" then Some("")
    else if rest[0] == '"' then Unquote(rest[1..])
    else if rest[0] == '\'' then SingleQuoted(rest)
    else Some(Bare(rest))
  }

  const EXPORT := "export "

  function StripExport(trim: string): string {
    if EXPORT <= trim then TrimSpace(trim[|EXPORT|..]) else trim
  }

  function ParseLine(line: string, lineNo: nat): Result<Entry, ParseError> {
    var trim := StripExport(TrimSpace(line));
    var eq := IndexOf(trim, '=');
    if eq <= 0 then Err(MissingEquals(lineNo))
    else
      var key := TrimSpace(trim[..eq]);
      if !ValidKey(key) then Err(InvalidKey(lineNo))
      else match ParseValue(TrimLeft(trim[eq + 1..], IsBlank))
        case None => Err(Unterminated(lineNo))
        case Some(v) => Ok(Entry(lineNo, key, v))
  }

  predicate Skipped(line: string) {
    var trim := TrimSpace(line);
    trim == "" || trim[0] == '#'
  }

  function Content(raw: string, lineNo: nat): string {
    if lineNo == 1 then DropBOM(DropCR(raw)) else DropCR(raw)
  }

  /** The entries of the lines from number lineNo on. */
  function ParseLines(lines: seq<string>, lineNo: nat): Result<seq<Entry>, ParseError>
    decreases |lines|
  {
    if lines == [] then Ok([])
    else if ByteLen(lines[0]) >= MaxTokenSize then Err(LineTooLong(lineNo))
    else
      var line := Content(lines[0], lineNo);
      if Skipped(line) then ParseLines(lines[1..], lineNo + 1)
      else match ParseLine(line, lineNo)
        case Err(e) => Err(e)
        case Ok(entry) =>
          match ParseLines(lines[1..], lineNo + 1)
          case Err(e) => Err(e)
          case Ok(rest) => Ok([entry] + rest)
  }

  function ParseText(text: string): Result<seq<Entry>, ParseError> { ParseLines(ScanLines(text), 1) }

  method Parse(text: string) returns (r: Result<seq<Entry>, ParseError>)
    ensures r == ParseText(text)
  {
    hide ParseLine, Skipped, ByteLen, ScanLines, DropCR, DropBOM;
    var out: seq<Entry> := [];
    var lines := ScanLines(text);
    var lineNo := 0;
    assert lines[0..] == lines;
    AppendNothing(ParseText(text));
    while lineNo < |lines|
      invariant 0 <= lineNo <= |lines|
      invariant ParseText(text) == Append(out, ParseLines(lines[lineNo..], lineNo + 1))
    {
      var raw := lines[lineNo];
      assert lines[lineNo..][0] == raw && lines[lineNo..][1..] == lines[lineNo + 1..];
      lineNo := lineNo + 1;
      if ByteLen(raw) >= MaxTokenSize { return Err(LineTooLong(lineNo)); }
      var line := DropCR(raw);
      if lineNo == 1 { line := DropBOM(line); }
      if Skipped(line) { continue; }
      var entry := ParseLine(line, lineNo);
      if entry.Err? { return Err(entry.error); }
      AppendOne(out, entry.value, ParseLines(lines[lineNo..], lineNo + 1));
      out := out + [entry.value];
    }
    assert out + [] == out;
    return Ok(out);
  }

  lemma AppendNothing(r: Result<seq<Entry>, ParseError>)
    ensures Append([], r) == r
  {
    if r.Ok? { assert [] + r.value == r.value; }
  }

  function Append(out: seq<Entry>, r: Result<seq<Entry>, ParseError>): Result<seq<Entry>, ParseError> {
    match r case Err(e) => Err(e) case Ok(rest) => Ok(out + rest)
  }

  lemma AppendOne(out: seq<Entry>, e: Entry, r: Result<seq<Entry>, ParseError>)
    ensures r.Ok? ==> Append(out, Ok([e] + r.value)) == Append(out + [e], r)
  {
    if r.Ok? { assert out + ([e] + r.value) == (out + [e]) + r.value; }
  }

  // ---- Printing ----

  predicate Special(c: char) {
    || c == ' ' || c == '\t' || c == '\n' || c == '\r' || c == '"' || c == '\'' || c == '#' || c == '\\' || c == '$'
  }

  predicate MustQuote(v: string) { exists i :: 0 <= i < |v| && Special(v[i]) }

  method NeedsQuoting(v: string) returns (b: bool)
    ensures b == MustQuote(v)
  {
    for i := 0 to |v|
      invariant forall j :: 0 <= j < i ==> !Special(v[j])
    {
      if Special(v[i]) { return true; }
    }
    return false;
  }

  function EscapeChar(c: char): string {
    match c
    case '\\' => "\\\\"
    case '"' => "\\\""
    case '\n' => "\\n"
    case '\t' => "\\t"
    case '\r' => "\\r"
    case _ => [c]
  }

  function Escape(v: string, esc: char -> string): string {
    if v == "" then "" else esc(v[0]) + Escape(v[1..], esc)
  }

  function Quoted(v: string, esc: char -> string): string { "\"" + Escape(v, esc) + "\"" }

  function Format(v: string): string {
    if v == "" then "" else if MustQuote(v) then Quoted(v, EscapeChar) else v
  }

  lemma {:induction false} EscapeSnoc(v: string, c: char, esc: char -> string)
    ensures Escape(v + [c], esc) == Escape(v, esc) + esc(c)
  {
    if v == "" {
      assert [c][1..] == "" && "" + [c] == [c];
      assert esc(c) + "" == esc(c);
    } else {
      assert (v + [c])[1..] == v[1..] + [c];
      EscapeSnoc(v[1..], c, esc);
      assert esc(v[0]) + (Escape(v[1..], esc) + esc(c)) == (esc(v[0]) + Escape(v[1..], esc)) + esc(c);
    }
  }

  method FormatValue(v: string) returns (r: string)
    ensures r == Format(v)
  {
    if v == "" { return ""; }
    var quote := NeedsQuoting(v);
    if !quote { return v; }
    var b := "\"";
    for i := 0 to |v|
      invariant b == "\"" + Escape(v[..i], EscapeChar)
    {
      assert v[..i + 1] == v[..i] + [v[i]];
      EscapeSnoc(v[..i], v[i], EscapeChar);
      match v[i] {
        case '\\' => b := b + "\\\\";
        case '"' => b := b + "\\\"";
        case '\n' => b := b + "\\n";
        case '\t' => b := b + "\\t";
        case '\r' => b := b + "\\r";
        case _ => b := b + [v[i]];
      }
    }
    assert v[..|v|] == v;
    return b + "\"";
  }

  /** One printed line without its newline. */
  function LineOf(key: string, formatted: string): string { key + "=" + formatted }

  /** The printed text of a list of (key, formatted value) pairs. */
  function Text(items: seq<(string, string)>): string {
    if items == [] then "" else LineOf(items[0].0, items[0].1) + "\n" + Text(items[1..])
  }

  function Items(keys: seq<string>, m: map<string, string>): (items: seq<(string, string)>)
    requires forall k :: k in keys ==> k in m
    ensures |items| == |keys|
  {
    if keys == [] then [] else [(keys[0], Format(m[keys[0]]))] + Items(keys[1..], m)
  }

  lemma {:induction false} ItemsSnoc(keys: seq<string>, k: string, m: map<string, string>)
    requires k in m && forall x :: x in keys ==> x in m
    ensures Items(keys + [k], m) == Items(keys, m) + [(k, Format(m[k]))]
  {
    if keys == [] {
      assert [] + [k] == [k] && [k][1..] == [];
    } else {
      assert (keys + [k])[1..] == keys[1..] + [k];
      ItemsSnoc(keys[1..], k, m);
    }
  }

  lemma {:induction false} TextSnoc(items: seq<(string, string)>, it: (string, string))
    ensures Text(items + [it]) == Text(items) + (LineOf(it.0, it.1) + "\n")
  {
    if items == [] {
      assert [] + [it] == [it] && [it][1..] == [];
      assert Text([it]) == LineOf(it.0, it.1) + "\n" + "";
      assert "" + (LineOf(it.0, it.1) + "\n") == LineOf(it.0, it.1) + "\n" + "";
    } else {
      assert (items + [it])[1..] == items[1..] + [it];
      TextSnoc(items[1..], it);
      assert LineOf(items[0].0, items[0].1) + "\n" + (Text(items[1..]) + (LineOf(it.0, it.1) + "\n")) ==
             (LineOf(items[0].0, items[0].1) + "\n" + Text(items[1..])) + (LineOf(it.0, it.1) + "\n");
    }
  }

  /** text is m printed in the order of keys, which is the sorted one. */
  ghost predicate Printed(text: string, m: map<string, string>, keys: seq<string>) {
    && Sorted(keys) && Distinct(keys) && Elements(keys) == m.Keys
    && (forall k :: k in keys ==> k in m)
    && text == Text(Items(keys, m))
  }

  /** Printed in key order, one line a key. */
  method Emit(m: map<string, string>) returns (text: string)
    ensures exists keys :: Printed(text, m, keys)
  {
    var ks := SortedKeys(m.Keys);
    assert forall k :: k in ks ==> k in Elements(ks);
    text := "";
    for i := 0 to |ks|
      invariant forall k :: k in ks[..i] ==> k in m
      invariant text == Text(Items(ks[..i], m))
    {
      assert ks[..i + 1] == ks[..i] + [ks[i]];
      assert ks[i] in ks;
      ItemsSnoc(ks[..i], ks[i], m);
      TextSnoc(Items(ks[..i], m), (ks[i], Format(m[ks[i]])));
      var v := FormatValue(m[ks[i]]);
      text := text + (ks[i] + "=" + v + "\n");
    }
    assert ks[..|ks|] == ks;
    assert Printed(text, m, ks);
  }
}
