/** Text as bytes in UTF-8, and bytes read as text, well-formed or not. */
module Utf8 {
  import opened Options

  // ---- encoding ----

  function EncodeChar(c: char): (bytes: seq<Byte>)
    ensures 1 <= |bytes| <= 4
    ensures |bytes| == 1 <==> bytes[0] < 128
  {
    var n := c as int;
    var h := n / 64;
    var g := h / 64;
    if n < 0x80 then [n]
    else if n < 0x800 then [0xC0 + h, 0x80 + n % 64]
    else if n < 0x1_0000 then [0xE0 + g, 0x80 + h % 64, 0x80 + n % 64]
    else [0xF0 + g / 64, 0x80 + g % 64, 0x80 + h % 64, 0x80 + n % 64]
  }

  function Encode(s: string): seq<Byte> {
    if s == "" then [] else EncodeChar(s[0]) + Encode(s[1..])
  }

  /** Bytes of a text in UTF-8. */
  function Utf8Length(s: string): nat {
    if s == "" then 0
    else
      (if s[0] < '\U{80}' then 1 else if s[0] < '\U{800}' then 2 else if s[0] < '\U{10000}' then 3 else 4)
      + Utf8Length(s[1..])
  }

  lemma {:induction false} EncodedLength(s: string)
    ensures |Encode(s)| == Utf8Length(s) >= |s|
  {
    if s != "" { EncodedLength(s[1..]); }
  }

  lemma {:induction false} EncodeConcat(s: string, t: string)
    ensures Encode(s + t) == Encode(s) + Encode(t)
  {
    if s == "" {
      assert s + t == t;
    } else {
      EncodeConcat(s[1..], t);
      assert (s + t)[1..] == s[1..] + t;
    }
  }

  /** Past the first byte of a character come continuation bytes. */
  lemma {:induction false} Continues(c: char, i: nat)
    requires 0 < i < |EncodeChar(c)|
    ensures 0x80 <= EncodeChar(c)[i] < 0xC0
  {}

  // ---- decoding ----

  /** The bytes begin with this character. */
  predicate Starts(bytes: seq<Byte>, c: char) {
    EncodeChar(c) <= bytes
  }

  /** The number that the bytes of a character spell. */
  function Spelled(bytes: seq<Byte>): int
    requires 1 <= |bytes| <= 4
  {
    var b: int := bytes[0];
    if |bytes| == 1 then b
    else if |bytes| == 2 then SixMore(b - 0xC0, bytes[1])
    else if |bytes| == 3 then SixMore(SixMore(b - 0xE0, bytes[1]), bytes[2])
    else SixMore(SixMore(SixMore(b - 0xF0, bytes[1]), bytes[2]), bytes[3])
  }

  function SixMore(n: int, b: Byte): int { n * 64 + (b as int - 0x80) }

  lemma {:induction false} CharSpelled(c: char)
    ensures Spelled(EncodeChar(c)) == c as int
  {
    var n := c as int;
    var h := n / 64;
    var g := h / 64;
    assert SixMore(h, 0x80 + n % 64) == n && SixMore(g, 0x80 + h % 64) == h && SixMore(g / 64, 0x80 + g % 64) == g;
  }

  /** The first byte tells how many there are. */
  function Width(b: Byte): nat {
    if b < 0xC0 then 1 else if b < 0xE0 then 2 else if b < 0xF0 then 3 else 4
  }

  lemma {:induction false} CharWidth(c: char)
    ensures |EncodeChar(c)| == Width(EncodeChar(c)[0])
  {}

  lemma {:induction false} StartsOnce(bytes: seq<Byte>, c: char, d: char)
    requires Starts(bytes, c) && Starts(bytes, d)
    ensures c == d
  {
    CharWidth(c);
    CharWidth(d);
    assert EncodeChar(c)[0] == bytes[0] == EncodeChar(d)[0];
    SameChar(c, d, bytes);
  }

  lemma {:induction false} SameChar(c: char, d: char, bytes: seq<Byte>)
    requires Starts(bytes, c) && Starts(bytes, d) && |EncodeChar(c)| == |EncodeChar(d)|
    ensures c == d
  {
    assert EncodeChar(c) == bytes[..|EncodeChar(c)|] == EncodeChar(d);
    CharSpelled(c);
    CharSpelled(d);
  }

  lemma {:induction false} StartsUnique(bytes: seq<Byte>)
    ensures forall c: char, d: char :: Starts(bytes, c) && Starts(bytes, d) ==> c == d
  {
    forall c: char, d: char | Starts(bytes, c) && Starts(bytes, d) ensures c == d { StartsOnce(bytes, c, d); }
  }

  /** The character that stands at the front, if one does. */
  function FirstChar(bytes: seq<Byte>): Option<char> {
    StartsUnique(bytes);
    if exists c: char :: Starts(bytes, c) then
      var c: char :| Starts(bytes, c);
      Some(c)
    else None
  }

  const REPLACEMENT := '\U{FFFD}'

  /** The text up to the first NUL. A byte that is part of no character is
      replaced. */
  function Decode(bytes: seq<Byte>): string {
    if bytes == [] || bytes[0] == 0 then ""
    else
      match FirstChar(bytes)
      case Some(c) => [c] + Decode(bytes[|EncodeChar(c)|..])
      case None => [REPLACEMENT] + Decode(bytes[1..])
  }

  lemma {:induction false} DecodedLength(bytes: seq<Byte>)
    ensures |Decode(bytes)| <= |bytes|
  {
    if bytes != [] && bytes[0] != 0 {
      match FirstChar(bytes) {
        case Some(c) => DecodedLength(bytes[|EncodeChar(c)|..]);
        case None => DecodedLength(bytes[1..]);
      }
    }
  }

  // ---- what was encoded is decoded ----

  lemma {:induction false} FirstCharRead(c: char, rest: seq<Byte>)
    ensures FirstChar(EncodeChar(c) + rest) == Some(c)
  {
    StartsUnique(EncodeChar(c) + rest);
    assert Starts(EncodeChar(c) + rest, c);
  }

  lemma {:induction false} DecodeChar(c: char, rest: seq<Byte>)
    requires c != '\0'
    ensures Decode(EncodeChar(c) + rest) == [c] + Decode(rest)
  {
    FirstCharRead(c, rest);
    assert (EncodeChar(c) + rest)[|EncodeChar(c)|..] == rest;
  }

  /** Decoding an encoded text, whatever stands behind it. */
  lemma {:induction false} DecodeEncoded(s: string, rest: seq<Byte>)
    requires '\0' !in s
    ensures Decode(Encode(s) + rest) == s + Decode(rest)
  {
    if s == "" {
      assert Encode(s) + rest == rest;
    } else {
      DecodeEncoded(s[1..], rest);
      OneMoreDecoded(s[0], Encode(s[1..]), rest, s[1..]);
      assert s == [s[0]] + s[1..];
    }
  }

  lemma {:induction false} OneMoreDecoded(c: char, more: seq<Byte>, rest: seq<Byte>, text: string)
    requires c != '\0' && Decode(more + rest) == text + Decode(rest)
    ensures Decode(EncodeChar(c) + more + rest) == [c] + text + Decode(rest)
  {
    DecodeChar(c, more + rest);
    Regrouped(EncodeChar(c), more, rest);
    RegroupedText([c], text, Decode(rest));
  }

  lemma {:induction false} Regrouped(a: seq<Byte>, b: seq<Byte>, c: seq<Byte>)
    ensures a + b + c == a + (b + c)
  {}

  lemma {:induction false} RegroupedText(a: string, b: string, c: string)
    ensures a + b + c == a + (b + c)
  {}

  // ---- more bytes ----

  lemma {:induction false} FirstCharStays(a: seq<Byte>, b: seq<Byte>)
    requires a != [] && FirstChar(a).Some?
    ensures FirstChar(a + b) == FirstChar(a)
  {
    var c := FirstChar(a).value;
    assert a + b == EncodeChar(c) + (a[|EncodeChar(c)|..] + b);
    FirstCharRead(c, a[|EncodeChar(c)|..] + b);
  }

  /** Bytes of a character without its end: none of them is read as ASCII. */
  lemma {:induction false} NothingPlain(a: seq<Byte>, k: nat)
    requires k < |Decode(a)| && forall i :: 0 <= i < |a| ==> a[i] >= 128
    ensures Decode(a)[k] as int >= 128
  {
    match FirstChar(a) {
      case Some(c) =>
        assert EncodeChar(c)[0] == a[0];
        if k > 0 { NothingPlain(a[|EncodeChar(c)|..], k - 1); }
      case None =>
        if k > 0 { NothingPlain(a[1..], k - 1); }
    }
  }

  lemma {:induction false} CutCharacter(a: seq<Byte>, b: seq<Byte>)
    requires a != [] && FirstChar(a).None? && FirstChar(a + b).Some?
    ensures forall i :: 0 <= i < |a| ==> a[i] >= 128
  {
    var c := FirstChar(a + b).value;
    var e := EncodeChar(c);
    if |e| <= |a| { FirstCharWithin(c, a, b); }
    forall i | 0 <= i < |a| ensures a[i] >= 128 {
      assert e[i] == (a + b)[i] == a[i];
      if i > 0 { Continues(c, i); }
    }
  }

  lemma {:induction false} FirstCharWithin(c: char, a: seq<Byte>, b: seq<Byte>)
    requires |EncodeChar(c)| <= |a| && EncodeChar(c) <= a + b
    ensures FirstChar(a) == Some(c)
  {
    var e := EncodeChar(c);
    assert e == (a + b)[..|e|] == a[..|e|];
    assert a == e + a[|e|..];
    FirstCharRead(c, a[|e|..]);
  }

  /** What is decoded up to an ASCII character stays as it is when more bytes
      come, wherever the bytes are cut. */
  lemma {:induction false} DecodedStays(a: seq<Byte>, b: seq<Byte>, k: nat)
    requires k < |Decode(a)| && (Decode(a)[k] as int) < 128
    ensures Decode(a)[..k + 1] <= Decode(a + b)
    decreases |a|
  {
    match FirstChar(a) {
      case Some(c) =>
        var n := |EncodeChar(c)|;
        DecodeSome(a, b, c);
        if k > 0 {
          DecodedStays(a[n..], b, k - 1);
          OneMoreStays(c, Decode(a[n..]), Decode(a[n..] + b), k);
        }
      case None =>
        if FirstChar(a + b).Some? {
          CutCharacter(a, b);
          NothingPlain(a, k);
        } else {
          DecodeNone(a, b);
          DecodedStays(a[1..], b, k - 1);
          OneMoreStays(REPLACEMENT, Decode(a[1..]), Decode(a[1..] + b), k);
        }
    }
  }

  lemma {:induction false} OneMoreStays(c: char, s: string, s': string, k: nat)
    requires 0 < k <= |s| && s[..k] <= s'
    ensures ([c] + s)[..k + 1] <= [c] + s'
  {
    assert ([c] + s)[..k + 1] == [c] + s[..k];
  }

  lemma {:induction false} DecodeSome(a: seq<Byte>, b: seq<Byte>, c: char)
    requires a != [] && a[0] != 0 && FirstChar(a) == Some(c)
    ensures Decode(a + b) == [c] + Decode(a[|EncodeChar(c)|..] + b)
  {
    FirstCharStays(a, b);
    assert (a + b)[|EncodeChar(c)|..] == a[|EncodeChar(c)|..] + b;
  }

  lemma {:induction false} DecodeNone(a: seq<Byte>, b: seq<Byte>)
    requires a != [] && a[0] != 0 && FirstChar(a + b).None?
    ensures Decode(a + b) == [REPLACEMENT] + Decode(a[1..] + b)
  {
    assert (a + b)[1..] == a[1..] + b;
  }

  // ---- text that starts inside a character ----

  lemma {:induction false} StrayByte(b: Byte, rest: seq<Byte>)
    requires 0x80 <= b < 0xC0
    ensures Decode([b] + rest) == [REPLACEMENT] + Decode(rest)
  {
    assert ([b] + rest)[1..] == rest;
    assert EncodeChar(b as char)[0] != b;
  }
}
