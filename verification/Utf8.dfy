/** UTF-8, section 3 of RFC 3629, over Unicode scalar values. */
module Utf8 {
  type byte = b: int | 0 <= b < 256

  function EncodeChar(c: char): (bytes: seq<byte>)
    ensures 1 <= |bytes| <= 4
  {
    var v := c as int;
    if v < 0x80 then [v]
    else if v < 0x800 then [0xC0 + v / 0x40, 0x80 + v % 0x40]
    else if v < 0x10000 then [0xE0 + v / 0x1000, 0x80 + v / 0x40 % 0x40, 0x80 + v % 0x40]
    else [0xF0 + v / 0x40000, 0x80 + v / 0x1000 % 0x40, 0x80 + v / 0x40 % 0x40, 0x80 + v % 0x40]
  }

  function Encode(s: string): seq<byte> {
    if s == [] then [] else EncodeChar(s[0]) + Encode(s[1..])
  }

  /** `utf8.RuneStart`: anything but a continuation byte. */
  predicate RuneStart(b: byte) {
    b / 0x40 != 2
  }

  /** Only the first byte of an encoded character starts a rune. */
  lemma EncodeCharStarts(c: char)
    ensures forall i :: 0 <= i < |EncodeChar(c)| ==> (RuneStart(EncodeChar(c)[i]) <==> i == 0)
  {
  }

  /** No character's encoding is a prefix of another's: a stream decodes one way. */
  lemma EncodeCharPrefixFree(c: char, x: seq<byte>, d: char, y: seq<byte>)
    requires EncodeChar(c) + x == EncodeChar(d) + y
    ensures c == d && x == y
  {
    var m, n := EncodeChar(c), EncodeChar(d);
    assert (m + x)[0] == m[0] && (n + y)[0] == n[0];
    assert |m| == |n|;
    assert m == (m + x)[..|m|] && n == (n + y)[..|m|];
    assert x == (m + x)[|m|..] && y == (n + y)[|m|..];
    SameBytesSameChar(c, d);
  }

  lemma SameBytesSameChar(c: char, d: char)
    requires EncodeChar(c) == EncodeChar(d)
    ensures c == d
  {
    var v, w := c as int, d as int;
    var m, n := EncodeChar(c), EncodeChar(d);
    assert |m| == |n| && forall i :: 0 <= i < |m| ==> m[i] == n[i];
    if |m| == 1 {
    } else if |m| == 2 {
      assert v / 0x40 == w / 0x40 && v % 0x40 == w % 0x40;
    } else if |m| == 3 {
      assert v / 0x1000 == w / 0x1000 && v / 0x40 % 0x40 == w / 0x40 % 0x40 && v % 0x40 == w % 0x40;
      Join(v); Join(w);
    } else {
      assert v / 0x40000 == w / 0x40000 && v / 0x1000 % 0x40 == w / 0x1000 % 0x40;
      assert v / 0x40 % 0x40 == w / 0x40 % 0x40 && v % 0x40 == w % 0x40;
      Join(v); Join(w);
    }
    assert v == w;
  }

  /** A number is rebuilt from its base-64 digits. */
  lemma Join(v: nat)
    ensures v == v / 0x40000 * 0x40000 + v / 0x1000 % 0x40 * 0x1000 + v / 0x40 % 0x40 * 0x40 + v % 0x40
    ensures v == v / 0x1000 * 0x1000 + v / 0x40 % 0x40 * 0x40 + v % 0x40
  {
    assert v / 0x1000 == v / 0x40 / 0x40;
    assert v / 0x40000 == v / 0x1000 / 0x40;
  }

  // Reading back

  /** A byte in the middle of a character. */
  predicate Continues(b: byte) {
    0x80 <= b < 0xC0
  }

  /** The six bits it carries. */
  function Bits(b: byte): nat {
    b as int % 0x40
  }

  /** The number at the front of a stream and how many bytes it takes, by the table of section 3. */
  function ReadFirst(s: seq<byte>): (nat, nat)
    requires s != []
  {
    var b := s[0] as int;
    if b < 0x80 then (b, 1)
    else if 0xC0 <= b < 0xE0 && |s| >= 2 then ((b - 0xC0) * 0x40 + Bits(s[1]), 2)
    else if 0xE0 <= b < 0xF0 && |s| >= 3 then ((b - 0xE0) * 0x1000 + Bits(s[1]) * 0x40 + Bits(s[2]), 3)
    else if 0xF0 <= b && |s| >= 4 then ((b - 0xF0) * 0x40000 + Bits(s[1]) * 0x1000 + Bits(s[2]) * 0x40 + Bits(s[3]), 4)
    else (0, 1)
  }

  lemma BitsBack(x: nat)
    ensures Bits(0x80 + x % 0x40) == x % 0x40 && Continues(0x80 + x % 0x40)
  {
  }

  /** Each character's number is read back from its bytes, all but the first of which continue it. */
  lemma EncodeCharReads(c: char, rest: seq<byte>)
    ensures ReadFirst(EncodeChar(c) + rest) == (c as int, |EncodeChar(c)|)
    ensures forall i :: 1 <= i < |EncodeChar(c)| ==> Continues(EncodeChar(c)[i])
  {
    hide Bits, Continues;
    var v, e := c as int, EncodeChar(c);
    assert forall i :: 0 <= i < |e| ==> (e + rest)[i] == e[i];
    Join(v);
    BitsBack(v);
    BitsBack(v / 0x40);
    BitsBack(v / 0x1000);
  }

  lemma {:induction false} EncodeInjective(s: string, t: string)
    requires Encode(s) == Encode(t)
    ensures s == t
  {
    if s == [] || t == [] {
      assert s == [] && t == [];
    } else {
      EncodeCharPrefixFree(s[0], Encode(s[1..]), t[0], Encode(t[1..]));
      EncodeInjective(s[1..], t[1..]);
      assert s == [s[0]] + s[1..] && t == [t[0]] + t[1..];
    }
  }

  lemma {:induction false} EncodeAppend(s: string, t: string)
    ensures Encode(s + t) == Encode(s) + Encode(t)
  {
    if s == [] {
      assert s + t == t;
    } else {
      EncodeAppend(s[1..], t);
      assert (s + t)[1..] == s[1..] + t;
    }
  }
}
