/** The bytes of a frame, one by one and bit by bit: section 5.2 of RFC 6455, and
    for the masking its section 5.3. */
module WebSocketBytes {
  import opened Options
  import opened WebSocketFrames

  // ---- bits ----

  /** Bit k of a number, from the lowest. */
  predicate Bit(n: nat, k: nat) {
    if k == 0 then n % 2 == 1 else Bit(n / 2, k - 1)
  }

  lemma {:induction false} XorBitsAt(a: nat, b: nat, bits: nat, k: nat)
    requires k < bits
    ensures Bit(XorBits(a, b, bits), k) <==> Bit(a, k) != Bit(b, k)
  {
    var bit, rest := if a % 2 != b % 2 then 1 else 0, XorBits(a / 2, b / 2, bits - 1);
    assert XorBits(a, b, bits) == bit + 2 * rest;
    LowestBit(bit, rest);
    if k > 0 { XorBitsAt(a / 2, b / 2, bits - 1, k - 1); }
  }

  /** A byte masked with another: a bit is set where exactly one of them has it. */
  ghost predicate MaskedByte(masked: Byte, plain: Byte, key: Byte) {
    forall k: nat :: k < 8 ==> (Bit(masked, k) <==> Bit(plain, k) != Bit(key, k))
  }

  lemma {:induction false} XorMasks(plain: Byte, key: Byte)
    ensures MaskedByte(Xor(plain, key), plain, key)
  {
    EightBits();
    forall k: nat | k < 8 ensures Bit(Xor(plain, key), k) <==> Bit(plain, k) != Bit(key, k) { XorBitsAt(plain, key, 8, k); }
  }

  /** Every byte masked with the byte of the key whose turn it is. */
  ghost predicate MaskedBytes(masked: seq<Byte>, plain: seq<Byte>, key: Mask) {
    |masked| == |plain| && forall i :: 0 <= i < |plain| ==> MaskedByte(masked[i], plain[i], key[i % 4])
  }

  lemma {:induction false} MaskedMasks(plain: seq<Byte>, key: Mask)
    ensures MaskedBytes(Masked(plain, key), plain, key)
  {
    forall i | 0 <= i < |plain| ensures MaskedByte(Masked(plain, key)[i], plain[i], key[i % 4]) { XorMasks(plain[i], key[i % 4]); }
  }

  lemma {:induction false} SameBits(a: nat, b: nat, bits: nat)
    requires a < Power2(bits) && b < Power2(bits) && forall k: nat :: k < bits ==> (Bit(a, k) <==> Bit(b, k))
    ensures a == b
  {
    if bits > 0 {
      assert Bit(a, 0) <==> Bit(b, 0);
      forall k: nat | k < bits - 1 ensures Bit(a / 2, k) <==> Bit(b / 2, k) { assert Bit(a, k + 1) <==> Bit(b, k + 1); }
      SameBits(a / 2, b / 2, bits - 1);
    }
  }

  /** The bits leave no choice, so any masked bytes are the ones computed. */
  lemma {:induction false} OneMasking(masked: seq<Byte>, plain: seq<Byte>, key: Mask)
    ensures MaskedBytes(masked, plain, key) <==> masked == Masked(plain, key)
  {
    MaskedMasks(plain, key);
    if MaskedBytes(masked, plain, key) {
      forall i | 0 <= i < |plain| ensures masked[i] == Masked(plain, key)[i] {
        EightBits();
        assert MaskedByte(masked[i], plain[i], key[i % 4]) && MaskedByte(Masked(plain, key)[i], plain[i], key[i % 4]);
        SameBits(masked[i], Masked(plain, key)[i], 8);
      }
    }
  }

  // ---- the header ----

  function Number2(b: seq<Byte>): nat
    requires |b| >= 2
  {
    (b[0] as int) * 256 + b[1] as int
  }

  function Number8(b: seq<Byte>): nat
    requires |b| >= 8
  {
    Number2(b) * 0x1_0000_0000_0000 + Number2(b[2..]) * 0x1_0000_0000 + Number2(b[4..]) * 0x1_0000 + Number2(b[6..])
  }

  /** The header gives this length and ends before byte `start`. */
  predicate Announces(bytes: seq<Byte>, length: nat, start: nat) {
    && |bytes| >= 2
    && var low := bytes[1] % 128;
       if low < 126 then length == low && start == 2
       else if low == 126 then |bytes| >= 4 && length == Number2(bytes[2..4]) && start == 4
       else |bytes| >= 10 && length == Number8(bytes[2..10]) && start == 10
  }

  lemma {:induction false} TwoSpelled(b: seq<Byte>)
    requires |b| == 2
    ensures BigEndian(b) == Number2(b)
  {
    TwoMoreSpelled([], b);
    assert [] + b == b;
  }

  lemma {:induction false} OneMoreSpelled(front: seq<Byte>, last: Byte)
    ensures BigEndian(front + [last]) == BigEndian(front) * 256 + last
  {
    assert (front + [last])[..|front|] == front;
  }

  lemma {:induction false} TwoMoreSpelled(front: seq<Byte>, two: seq<Byte>)
    requires |two| == 2
    ensures BigEndian(front + two) == BigEndian(front) * 0x1_0000 + Number2(two)
  {
    OneMoreSpelled(front, two[0]);
    OneMoreSpelled(front + [two[0]], two[1]);
    assert front + two == front + [two[0]] + [two[1]];
  }

  lemma {:induction false} EightSpelled(b: seq<Byte>)
    requires |b| == 8
    ensures BigEndian(b) == Number8(b)
  {
    TwoSpelled(b[..2]);
    TwoMoreSpelled(b[..2], b[2..4]);
    TwoMoreSpelled(b[..4], b[4..6]);
    TwoMoreSpelled(b[..6], b[6..8]);
    assert b[..2] + b[2..4] == b[..4] && b[..4] + b[4..6] == b[..6] && b[..6] + b[6..8] == b;
  }

  // ---- reading ----

  /** Where a frame ends, with the mask before its payload or without. */
  function EndOf(bytes: seq<Byte>, length: nat, start: nat): nat
    requires |bytes| >= 2
  {
    start + (if Bit(bytes[1], 7) then 4 else 0) + length
  }

  lemma {:induction false} TopBit(b: Byte)
    ensures Bit(b, 7) <==> b >= 128
  {
    EightBits();
    HighestBit(b, 7);
  }

  lemma {:induction false} HighestBit(n: nat, k: nat)
    requires n < Power2(k + 1)
    ensures Bit(n, k) <==> n >= Power2(k)
  {
    if k > 0 { HighestBit(n / 2, k - 1); }
  }

  /** What a frame says, byte by byte: the top bit of its first byte and the low
      four, and its payload, unmasked bit by bit if the top bit of the second byte
      says so. */
  ghost predicate Says(bytes: seq<Byte>, length: nat, start: nat, raw: Raw)
    requires Announces(bytes, length, start) && raw.Got? && EndOf(bytes, length, start) <= |bytes|
  {
    var end := EndOf(bytes, length, start);
    && raw.fin == Bit(bytes[0], 7) && raw.opcode == bytes[0] % 16 && raw.rest == bytes[end..] && |raw.payload| == length
    && (if Bit(bytes[1], 7) then MaskedBytes(bytes[start + 4..end], raw.payload, bytes[start..start + 4]) else raw.payload == bytes[start..end])
  }

  /** Without a whole header, nothing is read; with one, a frame is read exactly
      when its length fits and all of its bytes are there, and then as they say. */
  lemma {:induction false} ReadExactly(bytes: seq<Byte>)
    ensures (forall length: nat, start: nat :: !Announces(bytes, length, start)) ==> ReadRaw(bytes) == Short
    ensures forall length: nat, start: nat :: Announces(bytes, length, start) ==>
      && (ReadRaw(bytes).Got? <==> length < TWO_TO_63 && EndOf(bytes, length, start) <= |bytes|)
      && (ReadRaw(bytes).Got? ==> Says(bytes, length, start, ReadRaw(bytes)))
  {
    if |bytes| >= 2 {
      ReadAnnounced(bytes);
      forall length: nat, start: nat | Announces(bytes, length, start)
        ensures ReadRaw(bytes).Got? <==> length < TWO_TO_63 && EndOf(bytes, length, start) <= |bytes|
        ensures ReadRaw(bytes).Got? ==> Says(bytes, length, start, ReadRaw(bytes))
      {
        ReadSays(bytes, length, start);
      }
    }
  }

  lemma {:induction false} ReadAnnounced(bytes: seq<Byte>)
    requires |bytes| >= 2
    ensures ReadLength(bytes[1] % 128, bytes[2..]).NoLength? <==> forall length: nat, start: nat :: !Announces(bytes, length, start)
    ensures forall length: nat, start: nat :: Announces(bytes, length, start) ==>
      ReadLength(bytes[1] % 128, bytes[2..]) == if length < TWO_TO_63 then Length(length, bytes[start..]) else Negative
  {
    var low := bytes[1] % 128;
    if low < 126 {
      assert Announces(bytes, low, 2);
    } else if low == 126 {
      if |bytes| >= 4 {
        assert Announces(bytes, Number2(bytes[2..4]), 4);
        TwoSpelled(bytes[2..4]);
        assert bytes[2..][..2] == bytes[2..4] && bytes[2..][2..] == bytes[4..];
      }
    } else if |bytes| >= 10 {
      assert Announces(bytes, Number8(bytes[2..10]), 10);
      EightSpelled(bytes[2..10]);
      assert bytes[2..][..8] == bytes[2..10] && bytes[2..][8..] == bytes[10..];
    }
  }

  lemma {:induction false} ReadSays(bytes: seq<Byte>, length: nat, start: nat)
    requires Announces(bytes, length, start)
    requires ReadLength(bytes[1] % 128, bytes[2..]) == if length < TWO_TO_63 then Length(length, bytes[start..]) else Negative
    ensures ReadRaw(bytes).Got? <==> length < TWO_TO_63 && EndOf(bytes, length, start) <= |bytes|
    ensures ReadRaw(bytes).Got? ==> Says(bytes, length, start, ReadRaw(bytes))
  {
    TopBit(bytes[0]);
    TopBit(bytes[1]);
    if length < TWO_TO_63 && EndOf(bytes, length, start) <= |bytes| { BodySays(bytes, length, start); }
  }

  lemma {:induction false} BodySays(bytes: seq<Byte>, length: nat, start: nat)
    requires Announces(bytes, length, start) && EndOf(bytes, length, start) <= |bytes|
    ensures Says(bytes, length, start, ReadBody(Bit(bytes[0], 7), bytes[0] % 16, Bit(bytes[1], 7), length, bytes[start..]))
  {
    var input, end := bytes[start..], EndOf(bytes, length, start);
    if Bit(bytes[1], 7) {
      var key: Mask, body := bytes[start..start + 4], bytes[start + 4..end];
      assert input[..4] == key && input[4..4 + length] == body && input[4 + length..] == bytes[end..];
      MaskedTwice(body, key);
      MaskedMasks(Masked(body, key), key);
    } else {
      assert input[0..length] == bytes[start..end] && input[length..] == bytes[end..];
    }
  }

  // ---- building ----

  /** A built frame, byte by byte: FIN with the opcode's low bits, the length in the
      shortest form with the mask bit, the mask, and the payload masked bit by bit. */
  ghost predicate BuiltAs(frame: seq<Byte>, opcode: Byte, payload: seq<Byte>, mask: Mask) {
    exists start: nat :: BuiltAt(frame, opcode, payload, mask, start)
  }

  ghost predicate BuiltAt(frame: seq<Byte>, opcode: Byte, payload: seq<Byte>, mask: Mask, start: nat) {
    && Announces(frame, |payload|, start) && start == (if |payload| <= 125 then 2 else if |payload| <= 0xFFFF then 4 else 10)
    && |frame| == start + 4 + |payload|
    && Bit(frame[0], 7) && frame[0] % 128 == opcode % 128 && Bit(frame[1], 7)
    && frame[start..start + 4] == mask
    && MaskedBytes(frame[start + 4..], payload, mask)
  }

  lemma {:induction false} WireBuilt(opcode: Byte, payload: seq<Byte>, mask: Mask)
    requires |payload| < TWO_TO_63
    ensures BuiltAs(Wire(ClientFrame(opcode, mask, payload)), opcode, payload, mask)
  {
    var f, length := ClientFrame(opcode, mask, payload), |payload|;
    var header := [HeadByte(f)] + LengthBytes(f.form, length, true);
    var start := if length < 126 then 2 else if length < 0x1_0000 then 4 else 10;
    HeaderBuilt(HeadByte(f), f.form, length, start);
    MaskedMasks(payload, mask);
    TopBit(HeadByte(f));
    var body := Masked(payload, mask);
    BehindHeader(header, mask, body, start, length);
    assert Wire(f) == header + mask + body;
    TopBit(header[1]);
    assert BuiltAt(Wire(f), opcode, payload, mask, start);
  }

  lemma {:induction false} HeaderBuilt(head: Byte, form: LengthForm, length: nat, start: nat)
    requires form == ShortestForm(length) && length < TWO_TO_63
    requires start == (if length < 126 then 2 else if length < 0x1_0000 then 4 else 10)
    ensures
      var header := [head] + LengthBytes(form, length, true);
      |header| == start && header[0] == head && header[1] >= 128 && Announces(header, length, start)
  {
    var header := [head] + LengthBytes(form, length, true);
    match form {
      case Seven =>
      case Two =>
        assert Power256(2) == 0x1_0000;
        SpelledRead(length, 2);
        assert header[2..4] == Spelled(length, 2);
        TwoSpelled(header[2..4]);
      case Eight =>
        EightBytes();
        SpelledRead(length, 8);
        assert header[2..10] == Spelled(length, 8);
        EightSpelled(header[2..10]);
    }
  }

  lemma {:induction false} BehindHeader(header: seq<Byte>, mask: Mask, body: seq<Byte>, start: nat, length: nat)
    requires |header| == start && Announces(header, length, start)
    ensures
      var frame := header + mask + body;
      && Announces(frame, length, start) && frame[0] == header[0] && frame[1] == header[1]
      && frame[start..start + 4] == mask && frame[start + 4..] == body
  {
    var frame := header + mask + body;
    if start == 4 { assert frame[2..4] == header[2..4]; }
    if start == 10 { assert frame[2..10] == header[2..10]; }
  }
}
