/** The framing of the gateway's event stream: RFC 6455, section 5. */
module WebSocketFrames {
  import opened Options

  type Mask = key: seq<Byte> | |key| == 4 witness [0, 0, 0, 0]

  const TWO_TO_63 := 0x8000_0000_0000_0000

  // ---- bytes ----

  function Power2(bits: nat): nat {
    if bits == 0 then 1 else 2 * Power2(bits - 1)
  }

  /** Exclusive or of the lowest bits, bit by bit. */
  function XorBits(a: nat, b: nat, bits: nat): (c: nat)
    ensures c < Power2(bits)
  {
    if bits == 0 then 0 else (if a % 2 != b % 2 then 1 else 0) + 2 * XorBits(a / 2, b / 2, bits - 1)
  }

  lemma {:induction false} LowestBit(bit: nat, rest: nat)
    requires bit < 2
    ensures (bit + 2 * rest) % 2 == bit && (bit + 2 * rest) / 2 == rest
  {}

  lemma {:induction false} XorBitsTwice(a: nat, key: nat, bits: nat)
    requires a < Power2(bits)
    ensures XorBits(XorBits(a, key, bits), key, bits) == a
  {
    if bits > 0 {
      var bit, rest := if a % 2 != key % 2 then 1 else 0, XorBits(a / 2, key / 2, bits - 1);
      LowestBit(bit, rest);
      XorBitsTwice(a / 2, key / 2, bits - 1);
      assert XorBits(a, key, bits) == bit + 2 * rest;
      assert XorBits(bit + 2 * rest, key, bits) == (if bit != key % 2 then 1 else 0) + 2 * (a / 2);
    }
  }

  lemma {:induction false} EightBits()
    ensures Power2(8) == 256
  {
    assert Power2(4) == 16;
  }

  function Xor(a: Byte, b: Byte): Byte {
    EightBits();
    XorBits(a, b, 8)
  }

  lemma {:induction false} XorTwice(a: Byte, key: Byte)
    ensures Xor(Xor(a, key), key) == a
  {
    EightBits();
    XorBitsTwice(a, key, 8);
  }

  function Masked(bytes: seq<Byte>, key: Mask): seq<Byte> {
    seq(|bytes|, i requires 0 <= i < |bytes| => Xor(bytes[i], key[i % 4]))
  }

  lemma {:induction false} MaskedTwice(bytes: seq<Byte>, key: Mask)
    ensures Masked(Masked(bytes, key), key) == bytes
  {
    forall i | 0 <= i < |bytes| ensures Masked(Masked(bytes, key), key)[i] == bytes[i] {
      XorTwice(bytes[i], key[i % 4]);
    }
  }

  /** The number that a list of bytes spells, most significant first. */
  function BigEndian(bytes: seq<Byte>): nat {
    if bytes == [] then 0 else BigEndian(bytes[..|bytes| - 1]) * 256 + bytes[|bytes| - 1]
  }

  function Spelled(n: nat, width: nat): seq<Byte> {
    if width == 0 then [] else Spelled(n / 256, width - 1) + [n % 256]
  }

  function Power256(width: nat): nat {
    if width == 0 then 1 else 256 * Power256(width - 1)
  }

  lemma {:induction false} SpelledRead(n: nat, width: nat)
    requires n < Power256(width)
    ensures |Spelled(n, width)| == width && BigEndian(Spelled(n, width)) == n
  {
    if width > 0 {
      SpelledRead(n / 256, width - 1);
      assert Spelled(n, width)[..width - 1] == Spelled(n / 256, width - 1);
    }
  }

  // ---- one frame on the wire ----

  /** How the length is written: in 7 bits, in 2 bytes, or in 8. */
  datatype LengthForm = Seven | Two | Eight

  datatype Frame = Frame(fin: bool, reserved: int, opcode: int, mask: Option<Mask>, form: LengthForm, payload: seq<Byte>)

  predicate Fits(form: LengthForm, length: nat) {
    match form
    case Seven => length < 126
    case Two => length < 0x1_0000
    case Eight => length < TWO_TO_63
  }

  predicate Valid(f: Frame) {
    0 <= f.reserved < 8 && 0 <= f.opcode < 16 && Fits(f.form, |f.payload|)
  }

  function LengthBytes(form: LengthForm, length: nat, masked: bool): seq<Byte>
    requires Fits(form, length)
  {
    var bit := if masked then 128 else 0;
    match form
    case Seven => [bit + length]
    case Two => [bit + 126] + Spelled(length, 2)
    case Eight => [bit + 127] + Spelled(length, 8)
  }

  function MaskBytes(mask: Option<Mask>): seq<Byte> {
    if mask.Some? then mask.value else []
  }

  function BodyBytes(mask: Option<Mask>, payload: seq<Byte>): seq<Byte> {
    if mask.Some? then Masked(payload, mask.value) else payload
  }

  function HeadByte(f: Frame): Byte
    requires Valid(f)
  {
    (if f.fin then 128 else 0) + f.reserved * 16 + f.opcode
  }

  /** The bytes of a frame, as section 5.2 lays them out. */
  function Wire(f: Frame): seq<Byte>
    requires Valid(f)
  {
    [HeadByte(f)]
    + LengthBytes(f.form, |f.payload|, f.mask.Some?) + MaskBytes(f.mask) + BodyBytes(f.mask, f.payload)
  }

  // ---- reading one frame ----

  /** A frame taken off the input; or the input ends inside it; or its length
      overflows and the reader panics. */
  datatype Raw = Got(fin: bool, opcode: int, payload: seq<Byte>, rest: seq<Byte>) | Short | Overflow

  /** What stands behind the first two bytes: the length and the bytes after it. */
  datatype Length = Length(length: nat, rest: seq<Byte>) | NoLength | Negative

  function ReadLength(low: int, input: seq<Byte>): Length
    requires 0 <= low < 128
  {
    if low == 126 then
      if |input| < 2 then NoLength else Length(BigEndian(input[..2]), input[2..])
    else if low == 127 then
      if |input| < 8 then NoLength
      else if BigEndian(input[..8]) >= TWO_TO_63 then Negative
      else Length(BigEndian(input[..8]), input[8..])
    else Length(low, input)
  }

  function ReadBody(fin: bool, opcode: int, masked: bool, length: nat, input: seq<Byte>): Raw {
    var start := if masked then 4 else 0;
    if |input| < start + length then Short
    else
      var body := input[start..start + length];
      Got(fin, opcode, if masked then Masked(body, input[..4]) else body, input[start + length..])
  }

  function ReadRaw(input: seq<Byte>): Raw {
    if |input| < 2 then Short
    else
      match ReadLength(input[1] % 128, input[2..])
      case NoLength => Short
      case Negative => if input[1] >= 128 && |input| < 14 then Short else Overflow
      case Length(length, rest) => ReadBody(input[0] >= 128, input[0] % 16, input[1] >= 128, length, rest)
  }

  lemma {:induction false} RawShrinks(input: seq<Byte>)
    requires ReadRaw(input).Got?
    ensures |ReadRaw(input).payload| + |ReadRaw(input).rest| < |input|
  {}

  // ---- reading a message ----

  datatype Read = Message(payload: seq<Byte>, opcode: int, rest: seq<Byte>) | Ended | Panicked

  /** Reads frames up to one with FIN, with `message` and `first` read so far. */
  function ReadMessage(input: seq<Byte>, message: seq<Byte>, first: int): Read
    decreases |input|
  {
    match ReadRaw(input)
    case Short => Ended
    case Overflow => Panicked
    case Got(fin, opcode, payload, rest) =>
      RawShrinks(input);
      var first' := if first == 0 then opcode else first;
      if fin then Message(message + payload, first', rest) else ReadMessage(rest, message + payload, first')
  }

  function ReadFirst(input: seq<Byte>): Read { ReadMessage(input, [], 0) }

  // ---- reading back what was written ----

  /** A spelled number in front of more bytes. */
  lemma {:induction false} SpelledFirst(first: Byte, n: nat, width: nat, more: seq<Byte>)
    requires n < Power256(width)
    ensures
      var bytes := [first] + Spelled(n, width) + more;
      && |bytes| > width && bytes[0] == first
      && bytes[1..][..width] == Spelled(n, width) && BigEndian(bytes[1..][..width]) == n && bytes[1..][width..] == more
  {
    SpelledRead(n, width);
    assert ([first] + Spelled(n, width) + more)[1..] == Spelled(n, width) + more;
  }

  lemma {:induction false} LengthRead(form: LengthForm, length: nat, masked: bool, more: seq<Byte>)
    requires Fits(form, length)
    ensures
      var bytes := LengthBytes(form, length, masked) + more;
      ReadLength(bytes[0] % 128, bytes[1..]) == Length(length, more) && (bytes[0] >= 128 <==> masked)
  {
    var bit := if masked then 128 else 0;
    match form {
      case Seven => assert ([bit + length] + more)[1..] == more;
      case Two => TwoByteLengthRead(bit, length, more);
      case Eight => EightByteLengthRead(bit, length, more);
    }
  }

  lemma {:induction false} TwoByteLengthRead(bit: int, length: nat, more: seq<Byte>)
    requires (bit == 0 || bit == 128) && length < 0x1_0000
    ensures ReadLength(126, ([bit + 126] + Spelled(length, 2) + more)[1..]) == Length(length, more)
  {
    assert Power256(2) == 0x1_0000;
    SpelledFirst(bit + 126, length, 2, more);
  }

  lemma {:induction false} EightByteLengthRead(bit: int, length: nat, more: seq<Byte>)
    requires (bit == 0 || bit == 128) && length < TWO_TO_63
    ensures ReadLength(127, ([bit + 127] + Spelled(length, 8) + more)[1..]) == Length(length, more)
  {
    EightBytes();
    SpelledFirst(bit + 127, length, 8, more);
  }

  lemma {:induction false} EightBytes()
    ensures Power256(8) == 2 * TWO_TO_63
  {
    assert Power256(4) == 0x1_0000_0000;
  }

  lemma {:induction false} BodyRead(fin: bool, opcode: int, mask: Option<Mask>, payload: seq<Byte>, more: seq<Byte>)
    ensures ReadBody(fin, opcode, mask.Some?, |payload|, MaskBytes(mask) + BodyBytes(mask, payload) + more) == Got(fin, opcode, payload, more)
  {
    var input := MaskBytes(mask) + BodyBytes(mask, payload) + more;
    var start := |MaskBytes(mask)|;
    assert input[start..start + |payload|] == BodyBytes(mask, payload);
    assert input[start + |payload|..] == more;
    if mask.Some? {
      assert input[..4] == mask.value;
      MaskedTwice(payload, mask.value);
    }
  }

  /** Any frame, in any length form, masked or not, is read back, and reading
      stops where the next one starts. */
  lemma {:induction false} WireRead(f: Frame, more: seq<Byte>)
    requires Valid(f)
    ensures ReadRaw(Wire(f) + more) == Got(f.fin, f.opcode, f.payload, more)
  {
    var length, tail := LengthBytes(f.form, |f.payload|, f.mask.Some?), MaskBytes(f.mask) + BodyBytes(f.mask, f.payload) + more;
    Regrouped([HeadByte(f)], length, MaskBytes(f.mask), BodyBytes(f.mask, f.payload), more);
    WireHead(f, tail);
    BodyRead(f.fin, f.opcode, f.mask, f.payload, more);
  }

  /** The first bytes of a frame lead to its body. */
  lemma {:induction false} WireHead(f: Frame, tail: seq<Byte>)
    requires Valid(f)
    ensures ReadRaw([HeadByte(f)] + (LengthBytes(f.form, |f.payload|, f.mask.Some?) + tail))
      == ReadBody(f.fin, f.opcode, f.mask.Some?, |f.payload|, tail)
  {
    LengthRead(f.form, |f.payload|, f.mask.Some?, tail);
    RawFromParts(HeadByte(f), LengthBytes(f.form, |f.payload|, f.mask.Some?) + tail, f.opcode, |f.payload|, tail);
  }

  lemma {:induction false} Regrouped(a: seq<Byte>, b: seq<Byte>, c: seq<Byte>, d: seq<Byte>, e: seq<Byte>)
    ensures a + b + c + d + e == a + (b + (c + d + e))
  {}

  lemma {:induction false} Regrouped3(a: seq<Byte>, b: seq<Byte>, c: seq<Byte>)
    ensures a + b + c == a + (b + c)
  {}

  lemma {:induction false} RawFromParts(head: Byte, bytes: seq<Byte>, opcode: int, length: nat, tail: seq<Byte>)
    requires bytes != [] && ReadLength(bytes[0] % 128, bytes[1..]) == Length(length, tail) && opcode == head % 16
    ensures ReadRaw([head] + bytes) == ReadBody(head >= 128, opcode, bytes[0] >= 128, length, tail)
  {
    assert ([head] + bytes)[2..] == bytes[1..];
  }

  // ---- a frame that is cut off ----

  lemma {:induction false} LengthGrows(low: int, a: seq<Byte>, b: seq<Byte>)
    requires 0 <= low < 128 && !ReadLength(low, a).NoLength?
    ensures
      var length := ReadLength(low, a);
      ReadLength(low, a + b) == if length.Length? then length.(rest := length.rest + b) else Negative
  {
    if low == 126 { CutThere(a, b, 2); } else if low == 127 { CutThere(a, b, 8); }
  }

  lemma {:induction false} CutThere(a: seq<Byte>, b: seq<Byte>, n: nat)
    requires n <= |a|
    ensures (a + b)[..n] == a[..n] && (a + b)[n..] == a[n..] + b
  {}

  lemma {:induction false} BodyGrows(fin: bool, opcode: int, masked: bool, length: nat, a: seq<Byte>, b: seq<Byte>)
    requires ReadBody(fin, opcode, masked, length, a).Got?
    ensures
      var raw := ReadBody(fin, opcode, masked, length, a);
      ReadBody(fin, opcode, masked, length, a + b) == raw.(rest := raw.rest + b)
  {
    var start := if masked then 4 else 0;
    CutThere(a, b, start);
    CutThere(a, b, start + length);
    assert (a + b)[start..start + length] == a[start..start + length];
  }

  /** What is read stays the same when more bytes come. */
  lemma {:induction false} RawGrows(a: seq<Byte>, b: seq<Byte>)
    requires !ReadRaw(a).Short?
    ensures
      var raw := ReadRaw(a);
      ReadRaw(a + b) == if raw.Got? then raw.(rest := raw.rest + b) else Overflow
  {
    var low := a[1] % 128;
    CutThere(a, b, 2);
    LengthGrows(low, a[2..], b);
    match ReadLength(low, a[2..]) {
      case NoLength =>
      case Negative =>
      case Length(length, rest) => BodyGrows(a[0] >= 128, a[0] % 16, a[1] >= 128, length, rest, b);
    }
  }

  /** Nothing is read of a frame without its end. */
  lemma {:induction false} CutIsShort(f: Frame, k: nat)
    requires Valid(f) && k < |Wire(f)|
    ensures ReadRaw(Wire(f)[..k]) == Short
  {
    var a, b := Wire(f)[..k], Wire(f)[k..];
    assert a + b == Wire(f) == Wire(f) + [];
    WireRead(f, []);
    if !ReadRaw(a).Short? { RawGrows(a, b); }
  }

  // ---- messages ----

  function WireAll(frames: seq<Frame>): seq<Byte>
    requires forall i :: 0 <= i < |frames| ==> Valid(frames[i])
  {
    if frames == [] then [] else Wire(frames[0]) + WireAll(frames[1..])
  }

  ghost predicate AllValid(frames: seq<Frame>) {
    forall i :: 0 <= i < |frames| ==> Valid(frames[i])
  }

  function Joined(frames: seq<Frame>): seq<Byte> {
    if frames == [] then [] else frames[0].payload + Joined(frames[1..])
  }

  /** The first opcode that is not zero, if any. */
  function FirstOpcode(frames: seq<Frame>, first: int): int {
    if frames == [] || first != 0 then first else FirstOpcode(frames[1..], frames[0].opcode)
  }

  /** Whatever the opcodes, frames up to the first with FIN become one message. */
  lemma {:induction false} FramesJoined(frames: seq<Frame>, message: seq<Byte>, first: int, more: seq<Byte>)
    requires frames != [] && AllValid(frames)
    requires forall i :: 0 <= i < |frames| ==> (frames[i].fin <==> i == |frames| - 1)
    ensures ReadMessage(WireAll(frames) + more, message, first)
      == Message(message + Joined(frames), FirstOpcode(frames, first), more)
    decreases |frames|
  {
    var f, rest := frames[0], WireAll(frames[1..]) + more;
    WireRead(f, rest);
    WireAllFirst(frames, more);
    var first' := if first == 0 then f.opcode else first;
    ReadContinues(Wire(f) + rest, f.fin, f.opcode, f.payload, rest, message, first);
    if |frames| == 1 {
      OnlyFrame(frames, first, more);
    } else {
      FramesJoined(frames[1..], message + f.payload, first', more);
      Regrouped3(message, f.payload, Joined(frames[1..]));
      OpcodeKept(frames, first);
    }
  }

  lemma {:induction false} WireAllFirst(frames: seq<Frame>, more: seq<Byte>)
    requires frames != [] && AllValid(frames)
    ensures WireAll(frames) + more == Wire(frames[0]) + (WireAll(frames[1..]) + more)
  {}

  lemma {:induction false} OnlyFrame(frames: seq<Frame>, first: int, more: seq<Byte>)
    requires |frames| == 1 && AllValid(frames)
    ensures WireAll(frames[1..]) + more == more && Joined(frames) == frames[0].payload
    ensures FirstOpcode(frames, first) == if first == 0 then frames[0].opcode else first
  {
    assert frames[1..] == [];
  }

  lemma {:induction false} ReadContinues(input: seq<Byte>, fin: bool, opcode: int, payload: seq<Byte>, rest: seq<Byte>, message: seq<Byte>, first: int)
    requires ReadRaw(input) == Got(fin, opcode, payload, rest)
    ensures
      var first' := if first == 0 then opcode else first;
      ReadMessage(input, message, first) == if fin then Message(message + payload, first', rest) else ReadMessage(rest, message + payload, first')
  {}

  lemma {:induction false} OpcodeKept(frames: seq<Frame>, first: int)
    requires frames != []
    ensures FirstOpcode(frames, first) == FirstOpcode(frames[1..], if first == 0 then frames[0].opcode else first)
  {}

  // ---- fragmented messages ----

  predicate Control(f: Frame) { f.opcode >= 8 }

  /** A message in fragments, perhaps with control frames between them, as
      section 5.4 allows: every frame but a continuation of the message is a
      control frame with FIN, and the message ends with the last frame. */
  ghost predicate Fragmented(frames: seq<Frame>) {
    && frames != [] && AllValid(frames)
    && 0 < frames[0].opcode < 8 && !Control(frames[|frames| - 1])
    && (forall i :: 0 < i < |frames| ==> frames[i].opcode == 0 || Control(frames[i]))
    && (forall i :: 0 <= i < |frames| ==> (frames[i].fin <==> i == |frames| - 1 || Control(frames[i])))
  }

  /** The payload of the message itself. */
  function DataOf(frames: seq<Frame>): seq<Byte> {
    if frames == [] then [] else (if Control(frames[0]) then [] else frames[0].payload) + DataOf(frames[1..])
  }

  lemma {:induction false} NoControlData(frames: seq<Frame>)
    requires forall i :: 0 <= i < |frames| ==> !Control(frames[i])
    ensures DataOf(frames) == Joined(frames)
  {
    if frames != [] { NoControlData(frames[1..]); }
  }

  lemma {:induction false} WireAllSplit(frames: seq<Frame>, n: nat)
    requires AllValid(frames) && n <= |frames|
    ensures WireAll(frames) == WireAll(frames[..n]) + WireAll(frames[n..])
  {
    if n == 0 {
      assert frames[..n] == [] && frames[n..] == frames;
      assert [] + WireAll(frames) == WireAll(frames);
    } else {
      WireAllSplit(frames[1..], n - 1);
      SlicesSplit(frames, n);
      WireAllCons(frames, frames[1..][..n - 1], n);
      Regrouped3(Wire(frames[0]), WireAll(frames[1..][..n - 1]), WireAll(frames[n..]));
    }
  }

  lemma {:induction false} SlicesSplit(frames: seq<Frame>, n: nat)
    requires 0 < n <= |frames|
    ensures frames[..n][1..] == frames[1..][..n - 1] && frames[n..] == frames[1..][n - 1..] && frames[..n][0] == frames[0]
  {}

  lemma {:induction false} WireAllCons(frames: seq<Frame>, rest: seq<Frame>, n: nat)
    requires AllValid(frames) && 0 < n <= |frames| && frames[..n][1..] == rest
    ensures AllValid(rest) && WireAll(frames[..n]) == Wire(frames[0]) + WireAll(rest)
  {
    assert forall i :: 0 <= i < |rest| ==> rest[i] == frames[i + 1];
  }

  /** A fragmented message is put together, in order and with the opcode of its
      first frame, exactly when no control frame stands between its fragments. */
  lemma {:induction false} FragmentsReassembled(frames: seq<Frame>, more: seq<Byte>)
    requires Fragmented(frames)
    ensures ReadFirst(WireAll(frames) + more) == Message(DataOf(frames), frames[0].opcode, more)
      <==> forall i :: 0 <= i < |frames| ==> !Control(frames[i])
  {
    var n := FirstFin(frames);
    FirstMessage(frames, n, more);
    if n == |frames| - 1 {
      WholeMessage(frames);
    } else {
      assert Control(frames[n]);
      NothingLost(frames, n);
    }
  }

  /** What is read: the frames up to the first with FIN. */
  lemma {:induction false} FirstMessage(frames: seq<Frame>, n: nat, more: seq<Byte>)
    requires AllValid(frames) && n < |frames| && frames[n].fin && forall i :: 0 <= i < n ==> !frames[i].fin
    ensures ReadFirst(WireAll(frames) + more)
      == Message(Joined(frames[..n + 1]), FirstOpcode(frames[..n + 1], 0), WireAll(frames[n + 1..]) + more)
  {
    WireAllSplit(frames, n + 1);
    FramesJoined(frames[..n + 1], [], 0, WireAll(frames[n + 1..]) + more);
    Regrouped3(WireAll(frames[..n + 1]), WireAll(frames[n + 1..]), more);
    assert [] + Joined(frames[..n + 1]) == Joined(frames[..n + 1]);
  }

  lemma {:induction false} WholeMessage(frames: seq<Frame>)
    requires Fragmented(frames) && forall i :: 0 <= i < |frames| - 1 ==> !frames[i].fin
    ensures (forall i :: 0 <= i < |frames| ==> !Control(frames[i]))
    ensures frames[..|frames|] == frames && frames[|frames|..] == []
    ensures Joined(frames) == DataOf(frames) && FirstOpcode(frames, 0) == frames[0].opcode
  {
    NoControlData(frames);
    OpcodeKept(frames, 0);
  }

  lemma {:induction false} NothingLost(frames: seq<Frame>, n: nat)
    requires AllValid(frames) && n < |frames| - 1
    ensures |WireAll(frames[n + 1..])| > 0
  {
    assert |Wire(frames[n + 1..][0])| > 0;
  }

  lemma {:induction false} FirstFin(frames: seq<Frame>) returns (n: nat)
    requires Fragmented(frames)
    ensures n < |frames| && frames[n].fin && forall i :: 0 <= i < n ==> !frames[i].fin
  {
    n := 0;
    while !frames[n].fin
      invariant n < |frames| && forall i :: 0 <= i < n ==> !frames[i].fin
      decreases |frames| - n
    {
      n := n + 1;
    }
  }

  // ---- the frames the client builds ----

  function ShortestForm(length: nat): LengthForm {
    if length < 126 then Seven else if length < 0x1_0000 then Two else Eight
  }

  /** The final frame with the low bits of a byte as its opcode. */
  function ClientFrame(opcode: Byte, mask: Mask, payload: seq<Byte>): Frame {
    Frame(true, opcode % 128 / 16, opcode % 16, Some(mask), ShortestForm(|payload|), payload)
  }

  /** Reading a built frame gives payload and opcode, and leaves what follows;
      no other length form would make the frame shorter. */
  lemma {:induction false} BuildThenRead(opcode: Byte, mask: Mask, payload: seq<Byte>, more: seq<Byte>)
    requires 0 <= opcode < 16 && |payload| < TWO_TO_63
    ensures Valid(ClientFrame(opcode, mask, payload))
    ensures ReadFirst(Wire(ClientFrame(opcode, mask, payload)) + more) == Message(payload, opcode, more)
    ensures forall form :: Fits(form, |payload|) ==>
      |Wire(ClientFrame(opcode, mask, payload))| <= |Wire(ClientFrame(opcode, mask, payload).(form := form))|
  {
    var f := ClientFrame(opcode, mask, payload);
    WireRead(f, more);
    assert [] + payload == payload;
    forall form | Fits(form, |payload|) ensures |Wire(f)| <= |Wire(f.(form := form))| {
      SpelledLength(|payload|, 2);
      SpelledLength(|payload|, 8);
    }
  }

  lemma {:induction false} SpelledLength(n: nat, width: nat)
    ensures |Spelled(n, width)| == width
  {
    if width > 0 { SpelledLength(n / 256, width - 1); }
  }

  // ---- lengths that do not fit ----

  /** The bytes start with a header whose length is 2 to the 63 or more: negative
      in 64 bits, so that no buffer of that length can be made. */
  predicate HugeHeader(input: seq<Byte>) {
    |input| >= 10 && input[1] % 128 == 127 && BigEndian(input[2..10]) >= TWO_TO_63 && (input[1] >= 128 ==> |input| >= 14)
  }

  /** Exactly such a header makes the reader panic. Any shorter length is taken to
      fit in memory: where a buffer can be no longer than some smaller limit, the
      lengths beyond that limit panic as well. */
  lemma {:induction false} OverflowsExactly(input: seq<Byte>)
    ensures ReadRaw(input) == Overflow <==> HugeHeader(input)
  {
    if |input| >= 10 { assert input[2..][..8] == input[2..10]; }
  }

  /** What follows k whole frames without FIN, if the bytes start with them. */
  function Behind(input: seq<Byte>, k: nat): Option<seq<Byte>>
    decreases k
  {
    if k == 0 then Some(input)
    else if ReadRaw(input).Got? && !ReadRaw(input).fin then Behind(ReadRaw(input).rest, k - 1)
    else None
  }

  predicate PanicsAfter(input: seq<Byte>, k: nat) {
    Behind(input, k).Some? && HugeHeader(Behind(input, k).value)
  }

  /** Reading a message panics exactly when a header that is too long stands
      behind some number of frames without FIN. */
  lemma {:induction false} PanicsExactly(input: seq<Byte>, message: seq<Byte>, first: int)
    ensures ReadMessage(input, message, first) == Panicked <==> exists k: nat :: PanicsAfter(input, k)
    decreases |input|
  {
    OverflowsExactly(input);
    var raw := ReadRaw(input);
    if raw.Got? && !raw.fin {
      RawShrinks(input);
      PanicsExactly(raw.rest, message + raw.payload, if first == 0 then raw.opcode else first);
      PanicsLater(input);
    } else {
      PanicsNow(input);
    }
  }

  lemma {:induction false} PanicsNow(input: seq<Byte>)
    requires !(ReadRaw(input).Got? && !ReadRaw(input).fin)
    ensures (exists k: nat :: PanicsAfter(input, k)) <==> HugeHeader(input)
  {
    if HugeHeader(input) { assert PanicsAfter(input, 0); }
    if k: nat :| PanicsAfter(input, k) { assert k == 0; }
  }

  lemma {:induction false} PanicsLater(input: seq<Byte>)
    requires ReadRaw(input).Got? && !ReadRaw(input).fin
    ensures (exists k: nat :: PanicsAfter(input, k)) <==> exists k: nat :: PanicsAfter(ReadRaw(input).rest, k)
  {
    OverflowsExactly(input);
    if k: nat :| PanicsAfter(input, k) { assert PanicsAfter(ReadRaw(input).rest, k - 1); }
    if k: nat :| PanicsAfter(ReadRaw(input).rest, k) { assert PanicsAfter(input, k + 1); }
  }

  /** A header with an 8-byte length, behind frames without FIN. */
  function HeaderBehind(frames: seq<Frame>, head: Byte, masked: bool, length: nat, more: seq<Byte>): seq<Byte>
    requires forall i :: 0 <= i < |frames| ==> Valid(frames[i])
  {
    WireAll(frames) + LongHeader(head, masked, length, more)
  }

  function LongHeader(head: Byte, masked: bool, length: nat, more: seq<Byte>): seq<Byte> {
    [head] + [if masked then 255 else 127] + Spelled(length, 8) + more
  }

  /** Behind any frames of a message, an 8-byte length makes the reader panic
      exactly when it is 2 to the 63 or more and its mask, if any, is there. */
  lemma {:induction false} HugeLengthPanics(frames: seq<Frame>, head: Byte, masked: bool, length: nat, more: seq<Byte>)
    requires AllValid(frames) && (forall i :: 0 <= i < |frames| ==> !frames[i].fin) && length < 2 * TWO_TO_63
    ensures
      var huge := length >= TWO_TO_63 && (masked ==> |more| >= 4);
      && (huge ==> ReadFirst(HeaderBehind(frames, head, masked, length, more)) == Panicked)
      && (head >= 128 && !huge ==> ReadFirst(HeaderBehind(frames, head, masked, length, more)) != Panicked)
  {
    var tail := LongHeader(head, masked, length, more);
    FramesSkipped(frames, [], 0, tail);
    LongHeaderOverflows(head, masked, length, more);
    assert ReadRaw(tail).Got? ==> ReadRaw(tail).fin == (head >= 128);
  }

  lemma {:induction false} LongHeaderOverflows(head: Byte, masked: bool, length: nat, more: seq<Byte>)
    requires length < 2 * TWO_TO_63
    ensures ReadRaw(LongHeader(head, masked, length, more)) == Overflow <==> length >= TWO_TO_63 && (masked ==> |more| >= 4)
    ensures LongHeader(head, masked, length, more)[0] == head
  {
    EightBytes();
    SpelledRead(length, 8);
    HeaderParts(head, if masked then 255 else 127, Spelled(length, 8), more);
    OverflowsExactly(LongHeader(head, masked, length, more));
  }

  lemma {:induction false} HeaderParts(head: Byte, second: Byte, eight: seq<Byte>, more: seq<Byte>)
    requires |eight| == 8
    ensures
      var input := [head] + [second] + eight + more;
      input[0] == head && input[1] == second && input[2..10] == eight && |input| == 10 + |more|
  {}

  /** Frames without FIN are read and kept. */
  lemma {:induction false} FramesSkipped(frames: seq<Frame>, message: seq<Byte>, first: int, more: seq<Byte>)
    requires AllValid(frames) && forall i :: 0 <= i < |frames| ==> !frames[i].fin
    ensures ReadMessage(WireAll(frames) + more, message, first) == ReadMessage(more, message + Joined(frames), FirstOpcode(frames, first))
    decreases |frames|
  {
    if frames == [] {
      assert WireAll(frames) + more == more && message + [] == message;
    } else {
      var f, rest := frames[0], WireAll(frames[1..]) + more;
      WireRead(f, rest);
      WireAllFirst(frames, more);
      ReadContinues(Wire(f) + rest, f.fin, f.opcode, f.payload, rest, message, first);
      FramesSkipped(frames[1..], message + f.payload, if first == 0 then f.opcode else first, more);
      Regrouped3(message, f.payload, Joined(frames[1..]));
      OpcodeKept(frames, first);
    }
  }

  // ---- a control frame between two fragments ----

  /** A text message in two fragments with a ping between them. */
  function Interrupted(a: seq<Byte>, ping: seq<Byte>, b: seq<Byte>): seq<Frame> {
    [Frame(false, 0, 1, None, Seven, a), Frame(true, 0, 9, None, Seven, ping), Frame(true, 0, 0, None, Seven, b)]
  }

  /** The ping ends the message: its payload is taken for text, and the second
      fragment is left as a message of its own, without an opcode. */
  lemma {:induction false} PingEndsMessage(a: seq<Byte>, ping: seq<Byte>, b: seq<Byte>, more: seq<Byte>)
    requires |a| < 126 && |ping| < 126 && |b| < 126
    ensures Fragmented(Interrupted(a, ping, b))
    ensures ReadFirst(WireAll(Interrupted(a, ping, b)) + more) == Message(a + ping, 1, Wire(Interrupted(a, ping, b)[2]) + more)
    ensures ReadFirst(Wire(Interrupted(a, ping, b)[2]) + more) == Message(b, 0, more)
    ensures DataOf(Interrupted(a, ping, b)) == a + b
  {
    var frames := Interrupted(a, ping, b);
    FirstMessage(frames, 1, more);
    ThreeCut(frames[0], frames[1], frames[2]);
    TwoJoined(frames[0], frames[1]);
    LastAlone(frames[2], more);
    DataAround(frames[0], frames[1], frames[2]);
  }

  lemma {:induction false} ThreeCut(first: Frame, second: Frame, last: Frame)
    ensures [first, second, last][..2] == [first, second] && [first, second, last][2..] == [last]
  {}

  /** A last fragment by itself. */
  lemma {:induction false} LastAlone(last: Frame, more: seq<Byte>)
    requires Valid(last) && last.fin
    ensures WireAll([last]) == Wire(last) && ReadFirst(Wire(last) + more) == Message(last.payload, last.opcode, more)
  {
    assert WireAll([last]) == Wire(last) + [] == Wire(last);
    WireRead(last, more);
    assert [] + last.payload == last.payload;
    ReadContinues(Wire(last) + more, true, last.opcode, last.payload, more, [], 0);
  }

  lemma {:induction false} TwoJoined(first: Frame, second: Frame)
    requires first.opcode != 0
    ensures Joined([first, second]) == first.payload + second.payload && FirstOpcode([first, second], 0) == first.opcode
  {
    assert [first, second][1..] == [second] && [second][1..] == [];
    assert Joined([second]) == second.payload + [] == second.payload;
  }

  lemma {:induction false} DataAround(first: Frame, control: Frame, last: Frame)
    requires !Control(first) && Control(control) && !Control(last)
    ensures DataOf([first, control, last]) == first.payload + last.payload
  {
    assert [first, control, last][1..] == [control, last] && [control, last][1..] == [last] && [last][1..] == [];
    assert DataOf([last]) == last.payload + [] == last.payload;
    assert DataOf([control, last]) == [] + last.payload == last.payload;
  }
}
