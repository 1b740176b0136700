/**
 * The JSON values serde_json writes for this program and their compact text
 * (serde_json's `to_writer`: no spaces, no newlines, members in the order given).
 */
module Json {

  import opened Options
  import opened Text

  datatype Json =
    | Null
    | Bool(b: bool)
    | Num(n: nat)
    | Str(s: string)
    | Array(items: seq<Json>)
    | Object(members: seq<Member>)

  datatype Member = Member(key: string, value: Json)

  /** A character JSON allows unescaped inside a string (RFC 8259 section 7). */
  predicate IsPrintable(c: char) {
    c as int >= 0x20
  }

  predicate Printable(s: string) {
    Every(s, IsPrintable)
  }

  /**
   * serde_json's escape of one character: the quote, the backslash and the
   * C0 control characters are escaped, everything else is written as is.
   */
  function EscapeChar(c: char): (r: string)
    ensures |r| > 0 && Printable(r)
    ensures r != [c] ==> r[0] == '\\'
    ensures r == [c] <==> IsPrintable(c) && c != '"' && c != '\\'
  {
    if c == '"' then "\\\""
    else if c == '\\' then "\\\\"
    else if c == '\n' then "\\n"
    else if c == '\r' then "\\r"
    else if c == '\t' then "\\t"
    else if c as int == 0x08 then "\\b"
    else if c as int == 0x0C then "\\f"
    else if c as int < 0x20 then "\\u00" + [HexDigitChar(c as int / 16), HexDigitChar(c as int % 16)]
    else [c]
  }

  function Escape(s: string): (r: string)
    ensures Printable(r)
  {
    if s == [] then ""
    else
      EveryConcat(EscapeChar(s[0]), Escape(s[1..]), IsPrintable);
      EscapeChar(s[0]) + Escape(s[1..])
  }

  /** No character of `s` needs escaping. */
  predicate NeedsNoEscape(s: string) {
    forall i | 0 <= i < |s| :: IsPrintable(s[i]) && s[i] != '"' && s[i] != '\\'
  }

  /** A string that needs no escaping is written unchanged. */
  lemma {:induction false} EscapePlain(s: string)
    requires NeedsNoEscape(s)
    ensures Escape(s) == s
  {
    if s != [] {
      EscapePlain(s[1..]);
      assert [s[0]] + s[1..] == s;
    }
  }

  /** The character an escape `\x` stands for, for the one-letter escapes. */
  function SimpleEscape(x: char): Option<char> {
    if x == '"' then Some('"')
    else if x == '\\' then Some('\\')
    else if x == '/' then Some('/')
    else if x == 'b' then Some(8 as char)
    else if x == 'f' then Some(12 as char)
    else if x == 'n' then Some('\n')
    else if x == 'r' then Some('\r')
    else if x == 't' then Some('\t')
    else None
  }

  /** The value of four hexadecimal digits, as in `\uXXXX`. */
  function HexQuad(s: string): (r: Option<nat>)
    requires |s| == 4
    ensures r.Some? ==> r.value < 0x10000
  {
    match (HexValue(s[0]), HexValue(s[1]), HexValue(s[2]), HexValue(s[3]))
    case (Some(a), Some(b), Some(c), Some(d)) => Some(((a * 16 + b) * 16 + c) * 16 + d)
    case _ => None
  }

  function Prepend(c: char, rest: Option<string>): Option<string> {
    match rest
    case Some(t) => Some([c] + t)
    case None => None
  }

  /**
   * Reads the text between the quotes of a JSON string back into the string it
   * denotes (RFC 8259 section 7); None when the text is not a valid string body.
   * Surrogate escapes are rejected rather than paired.
   */
  function Unescape(s: string): Option<string>
    decreases |s|
  {
    if s == [] then Some("")
    else if s[0] == '\\' then
      if |s| < 2 then None
      else if s[1] == 'u' then
        if |s| < 6 then None
        else match HexQuad(s[2..6])
          case None => None
          case Some(v) =>
            if 0xD800 <= v < 0xE000 then None else Prepend(v as char, Unescape(s[6..]))
      else match SimpleEscape(s[1])
        case None => None
        case Some(c) => Prepend(c, Unescape(s[2..]))
    else if s[0] == '"' || !IsPrintable(s[0]) then None
    else Prepend(s[0], Unescape(s[1..]))
  }

  lemma UnescapeEscapeChar(c: char, t: string)
    ensures Unescape(EscapeChar(c) + t) == Prepend(c, Unescape(t))
  {
    var e := EscapeChar(c);
    var s := e + t;
    if c == '"' || c == '\\' || c == '\n' || c == '\r' || c == '\t' || c as int == 0x08 || c as int == 0x0C {
      assert s[0] == '\\' && s[2..] == t;
    } else if c as int < 0x20 {
      var hi, lo := c as int / 16, c as int % 16;
      HexDigitRoundTrip(hi);
      HexDigitRoundTrip(lo);
      assert s[2..6] == ['0', '0', HexDigitChar(hi), HexDigitChar(lo)];
      assert s[6..] == t;
      assert HexQuad(s[2..6]) == Some(c as int);
    } else {
      assert s[1..] == t;
    }
  }

  /** Escaping loses nothing: the escaped text reads back as the original string. */
  lemma {:induction false} UnescapeEscape(s: string)
    ensures Unescape(Escape(s)) == Some(s)
  {
    if s != [] {
      UnescapeEscape(s[1..]);
      UnescapeEscapeChar(s[0], Escape(s[1..]));
      assert [s[0]] + s[1..] == s;
    }
  }

  /** A JSON string literal: the escaped text between double quotes. */
  function Quote(s: string): (r: string)
    ensures |r| >= 2 && r[0] == '"' && r[|r| - 1] == '"'
  {
    "\"" + Escape(s) + "\""
  }

  /** A string literal reads back, between its quotes, as the original text. */
  lemma QuoteUnescape(s: string)
    ensures var r := Quote(s); Unescape(r[1..|r| - 1]) == Some(s)
  {
    var r := Quote(s);
    UnescapeEscape(s);
    assert r[1..|r| - 1] == Escape(s);
  }

  /** serde_json's compact text of a value. */
  function Render(j: Json): (r: string)
    decreases j
    ensures |r| > 0
    ensures j.Object? <==> r[0] == '{'
    ensures j.Array? <==> r[0] == '['
    ensures j.Str? <==> r[0] == '"'
    ensures j.Num? <==> IsDigit(r[0])
  {
    match j
    case Null => "null"
    case Bool(b) => if b then "true" else "false"
    case Num(n) => NatText(n)
    case Str(s) => Quote(s)
    case Array(items) =>
      "[" + Join(seq(|items|, i requires 0 <= i < |items| => Render(items[i])), ",") + "]"
    case Object(ms) =>
      "{" + Join(seq(|ms|, i requires 0 <= i < |ms| => Quote(ms[i].key) + ":" + Render(ms[i].value)), ",") + "}"
  }

  lemma RenderSingleMember(key: string, v: Json)
    ensures Render(Object([Member(key, v)])) == "{" + Quote(key) + ":" + Render(v) + "}"
  {
    var ms := [Member(key, v)];
    var parts := seq(|ms|, i requires 0 <= i < |ms| => Quote(ms[i].key) + ":" + Render(ms[i].value));
    assert parts == [Quote(key) + ":" + Render(v)];
  }

  /** The texts of a sequence of values, in order. */
  function RenderAll(items: seq<Json>): (r: seq<string>)
    ensures |r| == |items| && forall i | 0 <= i < |items| :: r[i] == Render(items[i])
  {
    seq(|items|, i requires 0 <= i < |items| => Render(items[i]))
  }

  /** An array is its elements' texts, comma-separated, in brackets. */
  lemma RenderArray(items: seq<Json>)
    ensures Render(Array(items)) == "[" + Join(RenderAll(items), ",") + "]"
  {
    assert RenderAll(items) == seq(|items|, i requires 0 <= i < |items| => Render(items[i]));
  }

  /**
   * No rendered value contains a raw control character, in particular no
   * newline: every value serde_json writes fits on one line.
   */
  lemma {:induction false} RenderPrintable(j: Json)
    ensures Printable(Render(j))
  {
    match j
    case Null =>
    case Bool(b) =>
    case Num(n) =>
      assert Every(NatText(n), IsPrintable) by {
        forall i | 0 <= i < |NatText(n)| ensures IsPrintable(NatText(n)[i]) {
          assert IsDigit(NatText(n)[i]);
        }
      }
    case Str(s) =>
      EveryConcat("\"", Escape(s), IsPrintable);
      EveryConcat("\"" + Escape(s), "\"", IsPrintable);
    case Array(items) =>
      var parts := seq(|items|, i requires 0 <= i < |items| => Render(items[i]));
      forall k | 0 <= k < |parts| ensures Every(parts[k], IsPrintable) {
        RenderPrintable(items[k]);
      }
      JoinEvery(parts, ",", IsPrintable);
      EveryConcat("[", Join(parts, ","), IsPrintable);
      EveryConcat("[" + Join(parts, ","), "]", IsPrintable);
    case Object(ms) =>
      var parts := seq(|ms|, i requires 0 <= i < |ms| => Quote(ms[i].key) + ":" + Render(ms[i].value));
      forall k | 0 <= k < |parts| ensures Every(parts[k], IsPrintable) {
        RenderPrintable(ms[k].value);
        var q := Quote(ms[k].key);
        EveryConcat("\"", Escape(ms[k].key), IsPrintable);
        EveryConcat("\"" + Escape(ms[k].key), "\"", IsPrintable);
        EveryConcat(q, ":", IsPrintable);
        EveryConcat(q + ":", Render(ms[k].value), IsPrintable);
      }
      JoinEvery(parts, ",", IsPrintable);
      EveryConcat("{", Join(parts, ","), IsPrintable);
      EveryConcat("{" + Join(parts, ","), "}", IsPrintable);
  }
}
