/** The part of Python's `json` module the core uses: `json.loads` on text (the strict
    decoder: no control characters inside strings, `NaN`/`Infinity` literals accepted) and
    `json.dumps` of a list of strings with the default `ensure_ascii` escaping and the
    `", "` item separator. */
module Json {
  import opened Wrappers
  import opened Text
  import opened Seqs

  /** A decoded JSON value. Numbers keep their literal text; object members keep their
      written order (duplicates included). */
  datatype Json =
    | JNull
    | JBool(b: bool)
    | JNumber(text: string)
    | JString(s: string)
    | JArray(items: seq<Json>)
    | JObject(members: seq<(string, Json)>)

  predicate IsWs(c: char) {
    c == ' ' || c == '\t' || c == '\n' || c == '\r'
  }

  /** `s` with its leading JSON whitespace removed. */
  function SkipWs(s: string): (r: string)
    ensures |r| <= |s| && r == s[|s| - |r|..]
    ensures r == [] || !IsWs(r[0])
    ensures forall k :: 0 <= k < |s| - |r| ==> IsWs(s[k])
  {
    if s != [] && IsWs(s[0]) then
      var r := SkipWs(s[1..]);
      assert s[1..][|s[1..]| - |r|..] == s[|s| - |r|..];
      r
    else s
  }

  predicate IsDigit(c: char) {
    '0' <= c <= '9'
  }

  /** Value of one hexadecimal digit, either case. */
  function HexVal(c: char): (r: Option<nat>)
    ensures r.Some? ==> r.value < 16
  {
    if '0' <= c <= '9' then Some(c as nat - '0' as nat)
    else if 'a' <= c <= 'f' then Some(c as nat - 'a' as nat + 10)
    else if 'A' <= c <= 'F' then Some(c as nat - 'A' as nat + 10)
    else None
  }

  /** Value of the four hexadecimal digits at the head of `s`. */
  function Hex4(s: string): (r: Option<nat>)
    ensures r.Some? ==> |s| >= 4 && r.value < 0x10000
  {
    if |s| < 4 then None
    else match (HexVal(s[0]), HexVal(s[1]), HexVal(s[2]), HexVal(s[3]))
      case (Some(a), Some(b), Some(c), Some(d)) => Some(((a * 16 + b) * 16 + c) * 16 + d)
      case _ => None
  }

  predicate IsHighSurrogate(u: nat) { 0xD800 <= u <= 0xDBFF }
  predicate IsLowSurrogate(u: nat) { 0xDC00 <= u <= 0xDFFF }

  /** The code point a surrogate pair stands for. */
  function Combine(hi: nat, lo: nat): (code: nat)
    requires IsHighSurrogate(hi) && IsLowSurrogate(lo)
    ensures 0x10000 <= code < 0x110000
  {
    0x10000 + (hi - 0xD800) * 0x400 + (lo - 0xDC00)
  }

  /** The high and the low surrogate of a code point above U+FFFF, `v` being its
      offset from U+10000. */
  function HighHalf(v: nat): nat { 0xD800 + v / 0x400 }
  function LowHalf(v: nat): nat { 0xDC00 + v % 0x400 }

  /** Decodes one character of a string literal, `s` being the text after the opening
      quote or after earlier characters; `s` does not start with the closing quote.
      A control character, an unknown escape or a bad `\u` escape fails. A lone
      surrogate also fails, since a Dafny string cannot hold one. */
  function ParseStrChar(s: string): (r: Option<(char, string)>)
    requires s != [] && s[0] != '"'
    ensures r.Some? ==> |r.value.1| < |s|
  {
    if s[0] < ' ' then None
    else if s[0] != '\\' then Some((s[0], s[1..]))
    else if |s| < 2 then None
    else
      var e := s[1];
      if e == '"' then Some(('"', s[2..]))
      else if e == '\\' then Some(('\\', s[2..]))
      else if e == '/' then Some(('/', s[2..]))
      else if e == 'b' then Some(('\U{8}', s[2..]))
      else if e == 'f' then Some(('\U{C}', s[2..]))
      else if e == 'n' then Some(('\n', s[2..]))
      else if e == 'r' then Some(('\r', s[2..]))
      else if e == 't' then Some(('\t', s[2..]))
      else if e != 'u' then None
      else match Hex4(s[2..])
        case None => None
        case Some(u) =>
          if IsHighSurrogate(u) then
            if |s| >= 12 && s[6] == '\\' && s[7] == 'u' then
              match Hex4(s[8..])
                case None => None
                case Some(w) =>
                  if IsLowSurrogate(w) then
                    Some((Combine(u, w) as char, s[12..]))
                  else None
            else None
          else if IsLowSurrogate(u) then None
          else Some((u as char, s[6..]))
  }

  /** Decodes the rest of a string literal up to and including its closing quote. */
  function ParseStringBody(s: string): (r: Option<(string, string)>)
    ensures r.Some? ==> |r.value.1| < |s|
    decreases |s|
  {
    if s == [] then None
    else if s[0] == '"' then Some(([], s[1..]))
    else match ParseStrChar(s)
      case None => None
      case Some((c, t)) =>
        match ParseStringBody(t)
          case None => None
          case Some((x, rest)) => Some(([c] + x, rest))
  }

  /** Number of digits at the head of `s`. */
  function Digits(s: string): (n: nat)
    ensures n <= |s|
    ensures forall k :: 0 <= k < n ==> IsDigit(s[k])
    ensures n < |s| ==> !IsDigit(s[n])
  {
    if s != [] && IsDigit(s[0]) then 1 + Digits(s[1..]) else 0
  }

  /** Length of the JSON number at the head of `s` (0 when there is none): an optional
      minus, `0` or a digit string not starting with `0`, then a fraction `.digits` and an
      exponent `e[+-]digits`, each taken only when complete. */
  function NumberLength(s: string): (n: nat)
    ensures n <= |s|
  {
    var sign := if s != [] && s[0] == '-' then 1 else 0;
    var t := s[sign..];
    var intLen := if t == [] then 0 else if t[0] == '0' then 1 else Digits(t);
    if intLen == 0 then 0
    else
      var i := sign + intLen;
      var fracLen := if i + 1 < |s| && s[i] == '.' && IsDigit(s[i + 1]) then 1 + Digits(s[i + 1..]) else 0;
      var j := i + fracLen;
      var expSign := if j + 1 < |s| && (s[j] == 'e' || s[j] == 'E') && (s[j + 1] == '+' || s[j + 1] == '-') then 1 else 0;
      var expLen := if j < |s| && (s[j] == 'e' || s[j] == 'E') then Digits(s[j + 1 + expSign..]) else 0;
      if expLen > 0 then j + 1 + expSign + expLen else j
  }

  /** Decodes the value at the head of `s` (no leading whitespace), returning it with the
      text that follows. */
  function ParseValue(s: string): (r: Option<(Json, string)>)
    ensures r.Some? ==> |r.value.1| < |s|
    decreases |s|, 0
  {
    if s == [] then None
    else if s[0] == '"' then
      match ParseStringBody(s[1..])
        case None => None
        case Some((x, rest)) => Some((JString(x), rest))
    else if s[0] == '[' then
      var t := SkipWs(s[1..]);
      if t != [] && t[0] == ']' then Some((JArray([]), t[1..]))
      else
        match ParseItems(t)
          case None => None
          case Some((items, rest)) => Some((JArray(items), rest))
    else if s[0] == '{' then
      var t := SkipWs(s[1..]);
      if t != [] && t[0] == '}' then Some((JObject([]), t[1..]))
      else
        match ParseMembers(t)
          case None => None
          case Some((members, rest)) => Some((JObject(members), rest))
    else if StartsWith(s, "null") then Some((JNull, s[4..]))
    else if StartsWith(s, "true") then Some((JBool(true), s[4..]))
    else if StartsWith(s, "false") then Some((JBool(false), s[5..]))
    else if StartsWith(s, "NaN") then Some((JNumber("NaN"), s[3..]))
    else if StartsWith(s, "Infinity") then Some((JNumber("Infinity"), s[8..]))
    else if StartsWith(s, "-Infinity") then Some((JNumber("-Infinity"), s[9..]))
    else
      var n := NumberLength(s);
      if n == 0 then None else Some((JNumber(s[..n]), s[n..]))
  }

  /** Decodes `value ws (',' ws value ws)* ']'`, the items of a non-empty array. */
  function ParseItems(s: string): (r: Option<(seq<Json>, string)>)
    ensures r.Some? ==> |r.value.1| < |s|
    decreases |s|, 1
  {
    match ParseValue(s)
      case None => None
      case Some((v, rest)) =>
        var t := SkipWs(rest);
        if t == [] then None
        else if t[0] == ']' then Some(([v], t[1..]))
        else if t[0] != ',' then None
        else
          match ParseItems(SkipWs(t[1..]))
            case None => None
            case Some((vs, rest')) => Some(([v] + vs, rest'))
  }

  /** Decodes `string ws ':' ws value ws (',' ws string ...)* '}'`, the members of a
      non-empty object. */
  function ParseMembers(s: string): (r: Option<(seq<(string, Json)>, string)>)
    ensures r.Some? ==> |r.value.1| < |s|
    decreases |s|, 1
  {
    if s == [] || s[0] != '"' then None
    else match ParseStringBody(s[1..])
      case None => None
      case Some((key, afterKey)) =>
        var t := SkipWs(afterKey);
        if t == [] || t[0] != ':' then None
        else
          var u := SkipWs(t[1..]);
          match ParseValue(u)
            case None => None
            case Some((v, rest)) =>
              var w := SkipWs(rest);
              if w == [] then None
              else if w[0] == '}' then Some(([(key, v)], w[1..]))
              else if w[0] != ',' then None
              else
                match ParseMembers(SkipWs(w[1..]))
                  case None => None
                  case Some((ms, rest')) => Some(([(key, v)] + ms, rest'))
  }

  /** Python's `json.loads(s)`: one value, optionally surrounded by whitespace, and
      nothing else. `None` stands for the `JSONDecodeError` it raises. */
  function Decode(s: string): (r: Option<Json>)
  {
    match ParseValue(SkipWs(s))
      case None => None
      case Some((v, rest)) => if SkipWs(rest) == [] then Some(v) else None
  }

  // ---------------------------------------------------------------- encoding

  function HexDigit(d: nat): (c: char)
    requires d < 16
    ensures HexVal(c) == Some(d)
  {
    if d < 10 then ('0' as nat + d) as char else ('a' as nat + d - 10) as char
  }

  /** Four lower-case hexadecimal digits of `u`. */
  function Hex4Of(u: nat): (h: string)
    requires u < 0x10000
    ensures |h| == 4 && Hex4(h) == Some(u)
  {
    var d0, n1 := u % 16, u / 16;
    var d1, n2 := n1 % 16, n1 / 16;
    var d2, d3 := n2 % 16, n2 / 16;
    var h := [HexDigit(d3), HexDigit(d2), HexDigit(d1), HexDigit(d0)];
    assert Hex4(h) == Some(((d3 * 16 + d2) * 16 + d1) * 16 + d0);
    h
  }

  /** How `json.dumps` (with `ensure_ascii`) writes one character inside a string
      literal: a backslash escape for quote, backslash and the five named controls,
      the character itself for the rest of printable ASCII, and `\uXXXX` otherwise
      (a surrogate pair above U+FFFF). */
  function EscapeChar(c: char): (e: string)
    ensures e != [] && e[0] != '"'
  {
    if c == '"' then "\\\""
    else if c == '\\' then "\\\\"
    else if c == '\n' then "\\n"
    else if c == '\r' then "\\r"
    else if c == '\t' then "\\t"
    else if c == '\U{8}' then "\\b"
    else if c == '\U{C}' then "\\f"
    else if ' ' <= c <= '~' then [c]
    else if (c as nat) < 0x10000 then "\\u" + Hex4Of(c as nat)
    else
      var v := c as nat - 0x10000;
      "\\u" + Hex4Of(HighHalf(v)) + "\\u" + Hex4Of(LowHalf(v))
  }

  function EscapeString(s: string): string {
    if s == [] then [] else EscapeChar(s[0]) + EscapeString(s[1..])
  }

  /** A string literal as `json.dumps` writes it. */
  function Quote(s: string): (q: string)
    ensures |q| >= 2 && q[0] == '"'
  {
    "\"" + EscapeString(s) + "\""
  }

  function JoinQuoted(xs: seq<string>): (r: string)
    ensures xs != [] ==> r != [] && r[0] == '"'
  {
    if xs == [] then []
    else if |xs| == 1 then Quote(xs[0])
    else Quote(xs[0]) + ", " + JoinQuoted(xs[1..])
  }

  /** Python's `json.dumps(xs)` for a list of strings. */
  function EncodeStrings(xs: seq<string>): (r: string)
    ensures |r| >= 2 && r[0] == '[' && r[|r| - 1] == ']'
  {
    "[" + JoinQuoted(xs) + "]"
  }

  function Strings(xs: seq<string>): (js: seq<Json>)
    ensures |js| == |xs| && forall i :: 0 <= i < |xs| ==> js[i] == JString(xs[i])
  {
    if xs == [] then [] else [JString(xs[0])] + Strings(xs[1..])
  }

  // ---------------------------------------------------------------- round trip

  lemma UnicodeEscapeDecodes(u: nat, t: string)
    requires u < 0x10000 && !IsHighSurrogate(u) && !IsLowSurrogate(u)
    ensures ParseStrChar("\\u" + Hex4Of(u) + t) == Some((u as char, t))
  {
    var h := Hex4Of(u);
    var s := "\\u" + h + t;
    assert s[0] == '\\' && s[1] == 'u';
    assert s[2..][..4] == h;
    assert Hex4(s[2..]) == Some(u);
    assert s[6..] == t;
  }

  /** `Hex4` reads only the four characters at the start. */
  lemma Hex4At(s: string, i: nat, h: string)
    requires |h| == 4 && i + 4 <= |s|
    requires s[i] == h[0] && s[i + 1] == h[1] && s[i + 2] == h[2] && s[i + 3] == h[3]
    ensures Hex4(s[i..]) == Hex4(h)
  {
  }

  /** The two halves of a surrogate pair are a high and a low surrogate that recombine
      to the original code point. */
  lemma SurrogateHalves(v: nat)
    requires v < 0x100000
    ensures HighHalf(v) < 0x10000 && LowHalf(v) < 0x10000
    ensures IsHighSurrogate(HighHalf(v)) && IsLowSurrogate(LowHalf(v))
    ensures Combine(HighHalf(v), LowHalf(v)) == 0x10000 + v
  {
  }

  /** Two `\\u` escapes holding a high and a low surrogate decode to one character. */
  lemma PairDecodes(hi: nat, lo: nat, t: string)
    requires IsHighSurrogate(hi) && IsLowSurrogate(lo)
    ensures ParseStrChar("\\u" + Hex4Of(hi) + "\\u" + Hex4Of(lo) + t) == Some((Combine(hi, lo) as char, t))
  {
    var h1, h2 := Hex4Of(hi), Hex4Of(lo);
    var s := "\\u" + h1 + "\\u" + h2 + t;
    assert s[0] == '\\' && s[1] == 'u' && s[6] == '\\' && s[7] == 'u';
    Hex4At(s, 2, h1);
    Hex4At(s, 8, h2);
    assert s[12..] == t;
  }

  lemma SurrogatePairDecodes(c: char, t: string)
    requires c as nat >= 0x10000
    ensures var v := c as nat - 0x10000;
      ParseStrChar("\\u" + Hex4Of(HighHalf(v)) + "\\u" + Hex4Of(LowHalf(v)) + t) == Some((c, t))
  {
    var v := c as nat - 0x10000;
    SurrogateHalves(v);
    PairDecodes(HighHalf(v), LowHalf(v), t);
  }

  lemma EscapeCharDecodes(c: char, t: string)
    ensures ParseStrChar(EscapeChar(c) + t) == Some((c, t))
  {
    var s := EscapeChar(c) + t;
    if c == '"' || c == '\\' || c == '\n' || c == '\r' || c == '\t' || c == '\U{8}' || c == '\U{C}' {
      assert s[0] == '\\' && s[2..] == t;
    } else if ' ' <= c <= '~' {
      assert s[1..] == t;
    } else if (c as nat) < 0x10000 {
      UnicodeEscapeDecodes(c as nat, t);
    } else {
      SurrogatePairDecodes(c, t);
    }
  }

  lemma {:induction false} EscapeStringDecodes(x: string, rest: string)
    ensures ParseStringBody(EscapeString(x) + "\"" + rest) == Some((x, rest))
    decreases |x|
  {
    if x == [] {
      assert EscapeString(x) + "\"" + rest == "\"" + rest;
    } else {
      var t := EscapeString(x[1..]) + "\"" + rest;
      assert EscapeString(x) == EscapeChar(x[0]) + EscapeString(x[1..]);
      ConcatAssoc(EscapeChar(x[0]), EscapeString(x[1..]), "\"");
      ConcatAssoc(EscapeChar(x[0]), EscapeString(x[1..]) + "\"", rest);
      EscapeCharDecodes(x[0], t);
      EscapeStringDecodes(x[1..], rest);
      assert [x[0]] + x[1..] == x;
    }
  }

  lemma QuoteDecodes(x: string, rest: string)
    ensures ParseValue(Quote(x) + rest) == Some((JString(x), rest))
  {
    var s := Quote(x) + rest;
    assert s[1..] == EscapeString(x) + "\"" + rest;
    EscapeStringDecodes(x, rest);
  }

  lemma ItemsLast(s: string, v: Json, after: string)
    requires ParseValue(s) == Some((v, after))
    requires after != [] && after[0] == ']'
    ensures ParseItems(s) == Some(([v], after[1..]))
  {
    assert SkipWs(after) == after;
  }

  /** The separator `", "` is no whitespace to skip, and after its comma only the space
      is skipped. */
  lemma SeparatorSkips(tail: string)
    requires tail != [] && !IsWs(tail[0])
    ensures SkipWs(", " + tail) == ", " + tail
    ensures SkipWs((", " + tail)[1..]) == tail
  {
    assert (", " + tail)[1..] == " " + tail;
    assert (" " + tail)[1..] == tail;
  }

  lemma ItemsNext(s: string, v: Json, tail: string, vs: seq<Json>, rest: string)
    requires ParseValue(s) == Some((v, ", " + tail))
    requires tail != [] && !IsWs(tail[0])
    requires ParseItems(tail) == Some((vs, rest))
    ensures ParseItems(s) == Some(([v] + vs, rest))
  {
    SeparatorSkips(tail);
  }

  /** The last item of an array: a quoted string and the closing bracket. */
  lemma LastQuotedDecodes(x: string, rest: string)
    ensures ParseItems(Quote(x) + "]" + rest) == Some(([JString(x)], rest))
  {
    var after := "]" + rest;
    ConcatAssoc(Quote(x), "]", rest);
    QuoteDecodes(x, after);
    DropPrefix("]", rest);
    ItemsLast(Quote(x) + after, JString(x), after);
  }

  /** An item followed by the separator and further items. */
  lemma NextQuotedDecodes(x: string, tail: string, vs: seq<Json>, rest: string)
    requires tail != [] && tail[0] == '"'
    requires ParseItems(tail) == Some((vs, rest))
    ensures ParseItems(Quote(x) + ", " + tail) == Some(([JString(x)] + vs, rest))
  {
    ConcatAssoc(Quote(x), ", ", tail);
    QuoteDecodes(x, ", " + tail);
    ItemsNext(Quote(x) + ", " + tail, JString(x), tail, vs, rest);
  }

  lemma {:induction false} JoinQuotedDecodes(xs: seq<string>, rest: string)
    requires xs != []
    ensures ParseItems(JoinQuoted(xs) + "]" + rest) == Some((Strings(xs), rest))
    decreases |xs|
  {
    if |xs| == 1 {
      LastQuotedDecodes(xs[0], rest);
      assert Strings(xs) == [JString(xs[0])];
    } else {
      var tail := JoinQuoted(xs[1..]) + "]" + rest;
      JoinQuotedDecodes(xs[1..], rest);
      NextQuotedDecodes(xs[0], tail, Strings(xs[1..]), rest);
      var head := Quote(xs[0]) + ", ";
      ConcatAssoc(head, JoinQuoted(xs[1..]), "]");
      ConcatAssoc(head, JoinQuoted(xs[1..]) + "]", rest);
      assert Strings(xs) == [JString(xs[0])] + Strings(xs[1..]);
    }
  }

  lemma ArrayValue(s: string, items: seq<Json>, rest: string)
    requires s != [] && s[0] == '['
    requires SkipWs(s[1..]) != [] && SkipWs(s[1..])[0] != ']'
    requires ParseItems(SkipWs(s[1..])) == Some((items, rest))
    ensures ParseValue(s) == Some((JArray(items), rest))
  {
  }

  lemma DecodeWhole(s: string, v: Json)
    requires s != [] && !IsWs(s[0]) && ParseValue(s) == Some((v, []))
    ensures Decode(s) == Some(v)
  {
    assert SkipWs(s) == s;
  }

  lemma EmptyArrayValue()
    ensures ParseValue("[]") == Some((JArray([]), []))
  {
    assert "[]"[1..] == "]";
    assert SkipWs("]") == "]";
    assert "]"[1..] == [];
  }

  lemma EncodeStringsParses(xs: seq<string>)
    ensures ParseValue(EncodeStrings(xs)) == Some((JArray(Strings(xs)), []))
  {
    var s := EncodeStrings(xs);
    if xs == [] {
      assert s == "[]";
      EmptyArrayValue();
    } else {
      ConcatAssoc("[", JoinQuoted(xs), "]");
      DropPrefix("[", JoinQuoted(xs) + "]");
      assert JoinQuoted(xs) + "]" + "" == JoinQuoted(xs) + "]";
      assert SkipWs(s[1..]) == s[1..];
      JoinQuotedDecodes(xs, "");
      ArrayValue(s, Strings(xs), "");
    }
  }

  /** `json.loads(json.dumps(xs))` gives back the list of strings `xs`. */
  lemma EncodeStringsDecodes(xs: seq<string>)
    ensures Decode(EncodeStrings(xs)) == Some(JArray(Strings(xs)))
  {
    EncodeStringsParses(xs);
    DecodeWhole(EncodeStrings(xs), JArray(Strings(xs)));
  }
}
