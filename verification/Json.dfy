/**
 JSON string literals as the two signers write them: Go's `encoding/json` with HTML
 escaping off, and `JSON.stringify`. Strings are sequences of Unicode scalar values.
 */
module Json {
  import opened Prelude

  datatype Lang = Go | TypeScript

  predicate IsSeparator(c: char) {
    c as int == 0x2028 || c as int == 0x2029
  }

  predicate HasSeparator(s: string) {
    exists i :: 0 <= i < |s| && IsSeparator(s[i])
  }

  function HexDigit(d: nat): char
    requires d < 16
  {
    if d < 10 then ('0' as int + d) as char else ('a' as int + d - 10) as char
  }

  function HexValue(c: char): Option<nat> {
    if '0' <= c <= '9' then Some(c as int - '0' as int)
    else if 'a' <= c <= 'f' then Some(c as int - 'a' as int + 10)
    else if 'A' <= c <= 'F' then Some(c as int - 'A' as int + 10)
    else None
  }

  function UnicodeEscape(v: nat): string
    requires v < 0x10000
  {
    ['\\', 'u', HexDigit(v / 0x1000), HexDigit(v / 0x100 % 16), HexDigit(v / 16 % 16), HexDigit(v % 16)]
  }

  function EscapeChar(lang: Lang, c: char): string {
    var v := c as int;
    if c == '"' || c == '\\' then ['\\', c]
    else if v == 0x08 then "\\b"
    else if v == 0x09 then "\\t"
    else if v == 0x0A then "\\n"
    else if v == 0x0C then "\\f"
    else if v == 0x0D then "\\r"
    else if v < 0x20 then UnicodeEscape(v)
    else if lang.Go? && IsSeparator(c) then UnicodeEscape(v)
    else [c]
  }

  /** Characters a literal holds as they are: all but the quote, the backslash, controls and, in Go, the separators. */
  predicate Plain(lang: Lang, c: char) {
    c != '"' && c != '\\' && c as int >= 0x20 && !(lang.Go? && IsSeparator(c))
  }

  /** The other ones are escaped in the shortest form section 7 of RFC 8259 has for them, in lower-case digits. */
  lemma EscapesOnlyWhatItMust(lang: Lang, c: char)
    ensures Plain(lang, c) <==> EscapeChar(lang, c) == [c]
    ensures !Plain(lang, c) ==>
              var e, v := EscapeChar(lang, c), c as int;
              && e[0] == '\\'
              && |e| == (if c == '"' || c == '\\' || v in {8, 9, 10, 12, 13} then 2 else 6)
              && (|e| == 2 ==> SimpleUnescape(e[1]) == Some(c) && e[1] != 'u')
              && (|e| == 6 ==> e[1] == 'u' && HexUnescape(e[2..]) == Some(c) && forall i :: 2 <= i < 6 ==> !('A' <= e[i] <= 'F'))
  {
    if |EscapeChar(lang, c)| == 6 {
      HexRoundTrip(c as int);
      assert EscapeChar(lang, c)[2..6] == EscapeChar(lang, c)[2..];
    }
  }

  function Escape(lang: Lang, s: string): string {
    if s == [] then [] else EscapeChar(lang, s[0]) + Escape(lang, s[1..])
  }

  function SimpleUnescape(c: char): Option<char> {
    if c == '"' || c == '\\' || c == '/' then Some(c)
    else if c == 'b' then Some(8 as char)
    else if c == 't' then Some(9 as char)
    else if c == 'n' then Some(10 as char)
    else if c == 'f' then Some(12 as char)
    else if c == 'r' then Some(13 as char)
    else None
  }

  function HexUnescape(h: string): Option<char>
    requires |h| == 4
  {
    var a, b, c, d := HexValue(h[0]), HexValue(h[1]), HexValue(h[2]), HexValue(h[3]);
    if a.None? || b.None? || c.None? || d.None? then None
    else
      var v := a.value * 0x1000 + b.value * 0x100 + c.value * 16 + d.value;
      if v < 0xD800 || 0xE000 <= v < 0x10000 then Some(v as char) else None
  }

  /** Reads a string literal after its opening quote: the text and what follows the closing one. */
  function ReadString(s: string): Option<(string, string)> {
    if s == [] then None
    else if s[0] == '"' then Some(([], s[1..]))
    else if s[0] != '\\' then Prepend(Some(s[0]), ReadString(s[1..]))
    else if |s| < 2 then None
    else if s[1] != 'u' then Prepend(SimpleUnescape(s[1]), ReadString(s[2..]))
    else if |s| < 6 then None
    else Prepend(HexUnescape(s[2..6]), ReadString(s[6..]))
  }

  function Prepend(c: Option<char>, r: Option<(string, string)>): Option<(string, string)> {
    if c.None? || r.None? then None else Some(([c.value] + r.value.0, r.value.1))
  }

  lemma HexRoundTrip(v: nat)
    requires v < 0xD800
    ensures HexUnescape(UnicodeEscape(v)[2..6]) == Some(v as char)
  {
    var h := UnicodeEscape(v)[2..6];
    HexDigitRoundTrip(v / 0x1000);
    HexDigitRoundTrip(v / 0x100 % 16);
    HexDigitRoundTrip(v / 16 % 16);
    HexDigitRoundTrip(v % 16);
    assert v / 0x100 == v / 16 / 16 && v / 0x1000 == v / 0x100 / 16;
  }

  lemma HexDigitRoundTrip(d: nat)
    requires d < 16
    ensures HexValue(HexDigit(d)) == Some(d)
  {
  }

  /** Reading consumes exactly one escaped character at a time. */
  lemma ReadEscapedChar(lang: Lang, c: char, rest: string)
    ensures ReadString(EscapeChar(lang, c) + rest) == Prepend(Some(c), ReadString(rest))
  {
    var e := EscapeChar(lang, c);
    var s := e + rest;
    assert s[|e|..] == rest;
    if |e| == 6 {
      HexRoundTrip(c as int);
      assert s[2..6] == e[2..6];
    }
  }

  /**
   Section 7 of RFC 8259: what either signer writes for a string reads back as that string,
   and reading stops at its closing quote whatever comes next.
   */
  lemma {:induction false} StringRoundTrip(lang: Lang, s: string, rest: string)
    ensures ReadString(Escape(lang, s) + "\"" + rest) == Some((s, rest))
  {
    if s == [] {
      assert Escape(lang, s) + "\"" + rest == "\"" + rest;
    } else {
      var tail := Escape(lang, s[1..]) + "\"" + rest;
      assert Escape(lang, s) + "\"" + rest == EscapeChar(lang, s[0]) + tail;
      ReadEscapedChar(lang, s[0], tail);
      StringRoundTrip(lang, s[1..], rest);
      assert s == [s[0]] + s[1..];
    }
  }

  /** Go leaves no line or paragraph separator in its output; JSON.stringify keeps each one. */
  lemma {:induction false} SeparatorsInOutput(s: string)
    ensures !HasSeparator(Escape(Go, s))
    ensures HasSeparator(Escape(TypeScript, s)) <==> HasSeparator(s)
    ensures !HasSeparator(s) ==> Escape(Go, s) == Escape(TypeScript, s)
  {
    if s != [] {
      SeparatorsInOutput(s[1..]);
      EscapedCharSeparators(s[0]);
      AppendSeparators(EscapeChar(Go, s[0]), Escape(Go, s[1..]));
      AppendSeparators(EscapeChar(TypeScript, s[0]), Escape(TypeScript, s[1..]));
      AppendSeparators([s[0]], s[1..]);
      assert s == [s[0]] + s[1..];
    }
  }

  lemma EscapedCharSeparators(c: char)
    ensures !HasSeparator(EscapeChar(Go, c))
    ensures HasSeparator(EscapeChar(TypeScript, c)) <==> IsSeparator(c)
    ensures HasSeparator([c]) <==> IsSeparator(c)
  {
    if IsSeparator(c) {
      assert EscapeChar(TypeScript, c)[0] == c && [c][0] == c;
    }
  }

  lemma AppendSeparators(s: string, t: string)
    ensures HasSeparator(s + t) <==> HasSeparator(s) || HasSeparator(t)
  {
    if HasSeparator(s) {
      var i :| 0 <= i < |s| && IsSeparator(s[i]);
      assert (s + t)[i] == s[i];
    }
    if HasSeparator(t) {
      var i :| 0 <= i < |t| && IsSeparator(t[i]);
      assert (s + t)[|s| + i] == t[i];
    }
  }
}
