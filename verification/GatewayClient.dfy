/** The gateway client: building frames, reading messages, and the event loop. */
module GatewayClient {
  import opened Options
  import opened WebSocketFrames
  import opened WebSocketBytes

  // ---- building ----

  method MaskInPlace(bytes: array<Byte>, mask: Mask)
    modifies bytes
    ensures bytes[..] == Masked(old(bytes[..]), mask)
    ensures MaskedBytes(bytes[..], old(bytes[..]), mask)
  {
    MaskedMasks(bytes[..], mask);
    for i := 0 to bytes.Length
      invariant forall j :: 0 <= j < i ==> bytes[j] == Xor(old(bytes[j]), mask[j % 4])
      invariant forall j :: i <= j < bytes.Length ==> bytes[j] == old(bytes[j])
    {
      bytes[i] := Xor(bytes[i], mask[i % 4]);
    }
  }

  /** A number shifted right by so many bytes. */
  function Shifted(n: nat, bytes: nat): nat {
    if bytes == 0 then n else Shifted(n / 256, bytes - 1)
  }

  lemma {:induction false} SpelledAt(n: nat, width: nat, i: nat)
    requires i < width
    ensures |Spelled(n, width)| == width && Spelled(n, width)[i] == Shifted(n, width - 1 - i) % 256
  {
    SpelledLength(n / 256, width - 1);
    if i < width - 1 { SpelledAt(n / 256, width - 1, i); }
  }

  lemma {:induction false} SpelledTwo(n: nat)
    ensures Spelled(n, 2) == [Shifted(n, 1) % 256, n % 256]
  {
    SpelledAt(n, 2, 0);
    SpelledAt(n, 2, 1);
  }

  lemma {:induction false} SpelledEight(n: nat)
    ensures Spelled(n, 8) == [Shifted(n, 7) % 256, Shifted(n, 6) % 256, Shifted(n, 5) % 256, Shifted(n, 4) % 256,
                              Shifted(n, 3) % 256, Shifted(n, 2) % 256, Shifted(n, 1) % 256, n % 256]
  {
    forall i | 0 <= i < 8 ensures |Spelled(n, 8)| == 8 && Spelled(n, 8)[i] == Shifted(n, 7 - i) % 256 { SpelledAt(n, 8, i); }
    var s := Spelled(n, 8);
    assert s == [s[0], s[1], s[2], s[3], s[4], s[5], s[6], s[7]];
  }

  /** The header of a built frame up to its mask. */
  method BuildHeader(opcode: Byte, length: nat) returns (header: seq<Byte>)
    requires length < TWO_TO_63
    ensures header == [128 + opcode % 128] + LengthBytes(ShortestForm(length), length, true)
  {
    header := [if opcode < 128 then 128 + opcode else opcode];
    if length < 126 {
      header := header + [128 + length];
    } else if length <= 0xFFFF {
      SpelledTwo(length);
      header := header + [128 + 126, Shifted(length, 1) % 256, length % 256];
    } else {
      SpelledEight(length);
      header := header + [128 + 127, Shifted(length, 7) % 256, Shifted(length, 6) % 256, Shifted(length, 5) % 256, Shifted(length, 4) % 256,
                          Shifted(length, 3) % 256, Shifted(length, 2) % 256, Shifted(length, 1) % 256, length % 256];
    }
  }

  lemma {:induction false} ClientWire(opcode: Byte, mask: Mask, payload: seq<Byte>)
    requires |payload| < TWO_TO_63
    ensures Wire(ClientFrame(opcode, mask, payload))
      == [128 + opcode % 128] + LengthBytes(ShortestForm(|payload|), |payload|, true) + mask + Masked(payload, mask)
  {}

  /** Masks a copy of the payload in place and puts the header before it. */
  method BuildClientFrame(opcode: Byte, payload: seq<Byte>, mask: Mask) returns (frame: seq<Byte>)
    requires |payload| < TWO_TO_63
    ensures frame == Wire(ClientFrame(opcode, mask, payload))
    ensures BuiltAs(frame, opcode, payload, mask)
  {
    WireBuilt(opcode, payload, mask);
    var encoded := new Byte[|payload|](i requires 0 <= i < |payload| => payload[i]);
    assert encoded[..] == payload;
    MaskInPlace(encoded, mask);
    ClientWire(opcode, mask, payload);
    frame := BuildHeader(opcode, encoded.Length);
    frame := frame + mask;
    frame := frame + encoded[..];
  }

  // ---- the event loop ----

  /** What the loop gives: events handed out, and bytes written. */
  datatype Outcome = Outcome(events: seq<seq<Byte>>, written: seq<Byte>)

  function Pong(mask: Mask, payload: seq<Byte>): (frame: seq<Byte>)
    requires |payload| < TWO_TO_63
  {
    Wire(ClientFrame(10, mask, payload))
  }

  /** A pong is a final frame with opcode 10. */
  lemma {:induction false} PongBuilt(mask: Mask, payload: seq<Byte>)
    requires |payload| < TWO_TO_63
    ensures BuiltAs(Pong(mask, payload), 10, payload, mask)
  {
    WireBuilt(10, payload, mask);
  }

  /** What the loop has no hand in: the mask of each pong, and which messages it
      cannot deal with, because the context is done before an event is taken, or
      because so many bytes of a pong are written when the write fails. */
  datatype Outside = Outside(masks: nat -> Mask, stops: nat -> Option<nat>)

  /** A message with which the loop ends. */
  predicate Ends(opcode: int, stop: Option<nat>) {
    opcode == 8 || (stop.Some? && (opcode == 1 || opcode == 2 || opcode == 9))
  }

  /** What is written of a pong before its write fails. */
  function LastWritten(opcode: int, payload: seq<Byte>, mask: Mask, stop: Option<nat>): seq<Byte>
    requires |payload| < TWO_TO_63
  {
    if opcode != 9 || stop.None? then []
    else
      var frame := Pong(mask, payload);
      if stop.value < |frame| then frame[..stop.value] else frame
  }

  /** One message dealt with, the rest as `more`. */
  function Handled(opcode: int, payload: seq<Byte>, mask: Mask, more: Outcome): Outcome
    requires |payload| < TWO_TO_63
  {
    if opcode == 1 || opcode == 2 then more.(events := [payload] + more.events)
    else if opcode == 9 then more.(written := Pong(mask, payload) + more.written)
    else more
  }

  /** The loop over an input, n pings and m messages on. A read that fails, or
      panics, ends it. */
  function Run(input: seq<Byte>, out: Outside, n: nat, m: nat): Outcome
    requires |input| < TWO_TO_63
    decreases |input|
  {
    match ReadFirst(input)
    case Ended => Outcome([], [])
    case Panicked => Outcome([], [])
    case Message(payload, opcode, rest) =>
      MessageShrinks(input, [], 0);
      if Ends(opcode, out.stops(m)) then Outcome([], LastWritten(opcode, payload, out.masks(n), out.stops(m)))
      else Handled(opcode, payload, out.masks(n), Run(rest, out, if opcode == 9 then n + 1 else n, m + 1))
  }

  lemma {:induction false} MessageShrinks(input: seq<Byte>, message: seq<Byte>, first: int)
    requires ReadMessage(input, message, first).Message?
    ensures |ReadMessage(input, message, first).rest| < |input|
    ensures |ReadMessage(input, message, first).payload| + |ReadMessage(input, message, first).rest| < |message| + |input|
    decreases |input|
  {
    var raw := ReadRaw(input);
    RawShrinks(input);
    if !raw.fin {
      MessageShrinks(raw.rest, message + raw.payload, if first == 0 then raw.opcode else first);
    }
  }

  /** The client's reader, its connection, and the channel of events. */
  class Client {
    var reader: seq<Byte>
    var written: seq<Byte>
    var events: seq<seq<Byte>>
    var wsConnected: bool

    constructor (input: seq<Byte>)
      ensures reader == input && written == [] && events == [] && wsConnected
    {
      reader, written, events, wsConnected := input, [], [], true;
    }

    method ReadByte() returns (r: Option<Byte>)
      modifies this`reader
      ensures old(reader) == [] ==> r == None
      ensures old(reader) != [] ==> r == Some(old(reader)[0]) && reader == old(reader)[1..]
    {
      if reader == [] { return None; }
      r := Some(reader[0]);
      reader := reader[1..];
    }

    method ReadFull(n: nat) returns (r: Option<seq<Byte>>)
      modifies this`reader
      ensures |old(reader)| < n ==> r == None
      ensures |old(reader)| >= n ==> r == Some(old(reader)[..n]) && reader == old(reader)[n..]
    {
      if |reader| < n { return None; }
      r := Some(reader[..n]);
      reader := reader[n..];
    }

    /** The payload length, with its extension read and summed byte by byte. */
    method ReadPayloadLength(low: int) returns (length: Length)
      requires 0 <= low < 128
      modifies this`reader
      ensures length == ReadLength(low, old(reader))
      ensures length.Length? ==> reader == length.rest
      ensures length.Negative? ==> reader == old(reader)[8..]
    {
      if low == 126 {
        var extended := ReadFull(2);
        if extended.None? { return NoLength; }
        var high: nat, low8: nat := extended.value[0], extended.value[1];
        TwoSpelled(extended.value);
        length := Length(high * 256 + low8, reader);
      } else if low == 127 {
        var extended := ReadFull(8);
        if extended.None? { return NoLength; }
        var sum: nat := 0;
        for i := 0 to 8
          invariant sum == BigEndian(extended.value[..i])
        {
          assert extended.value[..i + 1][..i] == extended.value[..i];
          sum := sum * 256 + extended.value[i];
        }
        assert extended.value[..8] == extended.value;
        if sum >= TWO_TO_63 { return Negative; }
        length := Length(sum, reader);
      } else {
        length := Length(low, reader);
      }
    }

    /** One frame, its payload unmasked in place. */
    method ReadRawFrame() returns (raw: Raw)
      modifies this`reader
      ensures raw == ReadRaw(old(reader)) && (raw.Got? ==> reader == raw.rest)
    {
      var head1 := ReadByte();
      if head1.None? { return Short; }
      var head2 := ReadByte();
      if head2.None? { return Short; }
      var fin, opcode, masked := head1.value >= 128, head1.value % 16, head2.value >= 128;
      var length := ReadPayloadLength(head2.value % 128);
      if length.NoLength? { return Short; }
      if length.Negative? { return if masked && |reader| < 4 then Short else Overflow; }
      raw := ReadRest(fin, opcode, masked, length.length);
    }

    method ReadRest(fin: bool, opcode: int, masked: bool, length: nat) returns (raw: Raw)
      modifies this`reader
      ensures raw == ReadBody(fin, opcode, masked, length, old(reader)) && (raw.Got? ==> reader == raw.rest)
    {
      var key: Mask := [0, 0, 0, 0];
      ghost var input := reader;
      if masked {
        var k := ReadFull(4);
        if k.None? { return Short; }
        key := k.value;
      }
      var body := ReadFull(length);
      if body.None? { return Short; }
      var payload := new Byte[length](i requires 0 <= i < length => body.value[i]);
      assert payload[..] == body.value;
      assert body.value == input[if masked then 4 else 0..(if masked then 4 else 0) + length];
      if masked { MaskInPlace(payload, key); }
      raw := Got(fin, opcode, payload[..], reader);
    }

    /** Frames up to one with FIN, appended to one message. */
    method ReadFrame() returns (r: Read)
      modifies this`reader
      ensures r == ReadFirst(old(reader)) && (r.Message? ==> reader == r.rest)
    {
      var message: seq<Byte>, firstOpcode := [], 0;
      while true
        invariant ReadMessage(reader, message, firstOpcode) == ReadFirst(old(reader))
        decreases |reader|
      {
        ghost var before := reader;
        var raw := ReadRawFrame();
        if raw.Short? { return Ended; }
        if raw.Overflow? { return Panicked; }
        RawShrinks(before);
        ReadContinues(before, raw.fin, raw.opcode, raw.payload, raw.rest, message, firstOpcode);
        if raw.opcode != 0 && firstOpcode == 0 { firstOpcode := raw.opcode; }
        message := message + raw.payload;
        if raw.fin { return Message(message, firstOpcode, reader); }
      }
    }

    /** The loop: events out, pongs back, until a close, a failure or the end. */
    method ReadEvents(out: Outside)
      requires |reader| < TWO_TO_63
      modifies this
      ensures !wsConnected
      ensures Outcome(events, written) == Extended(old(events), old(written), Run(old(reader), out, 0, 0))
    {
      var n: nat, m: nat := 0, 0;
      var ended := false;
      while !ended
        invariant ended || |reader| < TWO_TO_63
        invariant Extended(events, written, if ended then Outcome([], []) else Run(reader, out, n, m))
          == Extended(old(events), old(written), Run(old(reader), out, 0, 0))
        decreases !ended, |reader|
      {
        ghost var before := reader;
        var r := ReadFrame();
        if !r.Message? {
          assert Run(before, out, n, m) == Outcome([], []);
          ended := true;
        } else {
          RunOneMore(before, r.payload, r.opcode, r.rest, out, n, m);
          ghost var events0, written0 := events, written;
          ended := HandleMessage(r.opcode, r.payload, out.masks(n), out.stops(m), Run(r.rest, out, if r.opcode == 9 then n + 1 else n, m + 1));
          if ended {
            NoMore(events, written);
            LastExtended(events0, written0, LastWritten(r.opcode, r.payload, out.masks(n), out.stops(m)));
            assert Extended(events, written, Outcome([], [])) == Extended(events0, written0, Run(before, out, n, m));
          } else {
            assert Extended(events, written, Run(reader, out, if r.opcode == 9 then n + 1 else n, m + 1)) == Extended(events0, written0, Run(before, out, n, m));
          }
          n, m := if r.opcode == 9 then n + 1 else n, m + 1;
        }
      }
      NoMore(events, written);
      wsConnected := false;
    }

    /** Deals with one message; says whether the loop ends with it. Text and binary
        payloads go out as events, a ping is answered with its payload, and nothing
        else has an effect. */
    method HandleMessage(opcode: int, payload: seq<Byte>, mask: Mask, stop: Option<nat>, ghost more: Outcome) returns (ended: bool)
      requires |payload| < TWO_TO_63
      modifies this`events, this`written
      ensures ended == Ends(opcode, stop)
      ensures ended <==> opcode == 8 || (stop.Some? && opcode in {1, 2, 9})
      ensures events == old(events) + (if !ended && opcode in {1, 2} then [payload] else [])
      ensures written <= old(written) + Pong(mask, payload) && old(written) <= written
      ensures opcode != 9 ==> written == old(written)
      ensures opcode == 9 ==>
        |written| == |old(written)| + (if stop.None? || stop.value > |Pong(mask, payload)| then |Pong(mask, payload)| else stop.value)
      ensures ended ==>
        events == old(events) && written == old(written) + LastWritten(opcode, payload, mask, stop)
      ensures !ended ==> Extended(events, written, more) == Extended(old(events), old(written), Handled(opcode, payload, mask, more))
    {
      ExtendedOneMore(events, written, opcode, payload, mask, more);
      if opcode == 1 || opcode == 2 {
        if stop.Some? { return true; }
        events := events + [payload];
      } else if opcode == 8 {
        return true;
      } else if opcode == 9 {
        ended := Answer(payload, mask, stop);
        return;
      }
      ended := false;
    }

    /** Writes a pong, or the front of it before its write fails. */
    method Answer(payload: seq<Byte>, mask: Mask, stop: Option<nat>) returns (failed: bool)
      requires |payload| < TWO_TO_63
      modifies this`written
      ensures failed == stop.Some?
      ensures written == old(written) + (if failed then LastWritten(9, payload, mask, stop) else Pong(mask, payload))
      ensures written <= old(written) + Pong(mask, payload) && old(written) <= written
      ensures |written| == |old(written)| + (if stop.None? || stop.value > |Pong(mask, payload)| then |Pong(mask, payload)| else stop.value)
    {
      var frame := BuildClientFrame(10, payload, mask);
      failed := stop.Some?;
      written := written + (if stop.Some? && stop.value < |frame| then frame[..stop.value] else frame);
    }
  }

  function Extended(events: seq<seq<Byte>>, written: seq<Byte>, more: Outcome): Outcome {
    Outcome(events + more.events, written + more.written)
  }

  lemma {:induction false} NoMore(events: seq<seq<Byte>>, written: seq<Byte>)
    ensures Extended(events, written, Outcome([], [])) == Outcome(events, written)
  {}

  lemma {:induction false} LastExtended(events: seq<seq<Byte>>, written: seq<Byte>, last: seq<Byte>)
    ensures Extended(events, written, Outcome([], last)) == Outcome(events, written + last)
  {}

  lemma {:induction false} ExtendedOneMore(events: seq<seq<Byte>>, written: seq<Byte>, opcode: int, payload: seq<Byte>, mask: Mask, more: Outcome)
    requires |payload| < TWO_TO_63
    ensures Extended(events, written, Handled(opcode, payload, mask, more)) ==
      if opcode == 1 || opcode == 2 then Extended(events + [payload], written, more)
      else if opcode == 9 then Extended(events, written + Pong(mask, payload), more)
      else Extended(events, written, more)
  {
    if opcode == 1 || opcode == 2 { assert events + ([payload] + more.events) == events + [payload] + more.events; }
    else if opcode == 9 { Regrouped3(written, Pong(mask, payload), more.written); }
  }

  // ---- what is delivered ----

  /** A message as it was sent, in one frame or more. */
  datatype Sent = Sent(opcode: int, payload: seq<Byte>)

  /** The frames of one message: only the last has FIN. No control frame can
      stand among them. */
  ghost predicate OneMessage(frames: seq<Frame>) {
    frames != [] && AllValid(frames) && forall i :: 0 <= i < |frames| ==> (frames[i].fin <==> i == |frames| - 1)
  }

  ghost predicate AllMessages(ms: seq<seq<Frame>>) {
    forall i :: 0 <= i < |ms| ==> OneMessage(ms[i])
  }

  function WireMessages(ms: seq<seq<Frame>>): seq<Byte>
    requires forall i, j :: 0 <= i < |ms| && 0 <= j < |ms[i]| ==> Valid(ms[i][j])
  {
    if ms == [] then [] else WireAll(ms[0]) + WireMessages(ms[1..])
  }

  function SentAll(ms: seq<seq<Frame>>): (sent: seq<Sent>)
    ensures |sent| == |ms|
  {
    if ms == [] then [] else [Sent(FirstOpcode(ms[0], 0), Joined(ms[0]))] + SentAll(ms[1..])
  }

  ghost predicate AllShort(sent: seq<Sent>) {
    forall i :: 0 <= i < |sent| ==> |sent[i].payload| < TWO_TO_63
  }

  /** Where the loop ends: at the first close, or the first message it cannot
      deal with; or the number of messages. */
  function FirstEnd(sent: seq<Sent>, stops: nat -> Option<nat>, m: nat): (n: nat)
    ensures n <= |sent|
  {
    if sent == [] || Ends(sent[0].opcode, stops(m)) then 0 else 1 + FirstEnd(sent[1..], stops, m + 1)
  }

  function PayloadsOf(sent: seq<Sent>, wanted: set<int>): (payloads: seq<seq<Byte>>)
    ensures AllShort(sent) ==> forall i :: 0 <= i < |payloads| ==> |payloads[i]| < TWO_TO_63
  {
    if sent == [] then []
    else (if sent[0].opcode in wanted then [sent[0].payload] else []) + PayloadsOf(sent[1..], wanted)
  }

  /** One pong per ping, the n-th masked with masks(n). */
  function Pongs(pings: seq<seq<Byte>>, masks: nat -> Mask, n: nat): seq<Byte>
    requires forall i :: 0 <= i < |pings| ==> |pings[i]| < TWO_TO_63
  {
    if pings == [] then [] else Pong(masks(n), pings[0]) + Pongs(pings[1..], masks, n + 1)
  }

  /** What the messages before the end amount to, with what is last written. */
  function Delivered(open: seq<Sent>, last: seq<Byte>, masks: nat -> Mask, n: nat): Outcome
    requires AllShort(open)
  {
    Outcome(PayloadsOf(open, {1, 2}), Pongs(PayloadsOf(open, {9}), masks, n) + last)
  }

  /** How many of the first e messages are pings. */
  function Pings(sent: seq<Sent>, e: nat): nat
    requires e <= |sent|
  {
    |PayloadsOf(sent[..e], {9})|
  }

  /** A message at which the loop ends, the mask drawn next, and why it ends. */
  datatype Last = Last(sent: Sent, mask: Mask, stop: Option<nat>)

  /** Message e, with n pings and m messages before `sent`. */
  function LastOf(sent: seq<Sent>, e: nat, out: Outside, n: nat, m: nat): Option<Last>
    requires e <= |sent|
  {
    if e == |sent| then None else Some(Last(sent[e], out.masks(n + Pings(sent, e)), out.stops(m + e)))
  }

  /** The pong that is cut off there, if the message is a ping. */
  function CutOff(last: Option<Last>): seq<Byte>
    requires last.Some? ==> |last.value.sent.payload| < TWO_TO_63
  {
    if last.None? then [] else LastWritten(last.value.sent.opcode, last.value.sent.payload, last.value.mask, last.value.stop)
  }

  lemma {:induction false} ShortLater(sent: seq<Sent>)
    requires AllShort(sent) && sent != []
    ensures AllShort(sent[1..])
  {
    assert forall i :: 0 <= i < |sent[1..]| ==> sent[1..][i] == sent[i + 1];
  }

  lemma {:induction false} PingsLater(sent: seq<Sent>, e: nat)
    requires 0 < e <= |sent|
    ensures Pings(sent, e) == (if sent[0].opcode == 9 then 1 else 0) + Pings(sent[1..], e - 1)
  {
    PingsOneMore(sent[..e]);
    assert sent[..e][1..] == sent[1..][..e - 1];
  }

  lemma {:induction false} LastLater(sent: seq<Sent>, e: nat, out: Outside, n: nat, m: nat)
    requires 0 < e <= |sent|
    ensures LastOf(sent, e, out, n, m) == LastOf(sent[1..], e - 1, out, if sent[0].opcode == 9 then n + 1 else n, m + 1)
  {
    PingsLater(sent, e);
    if e < |sent| { assert sent[1..][e - 1] == sent[e] && m + 1 + (e - 1) == m + e; }
  }

  lemma {:induction false} EventsOneMore(open: seq<Sent>)
    requires open != []
    ensures PayloadsOf(open, {1, 2})
      == if open[0].opcode == 1 || open[0].opcode == 2 then [open[0].payload] + PayloadsOf(open[1..], {1, 2}) else PayloadsOf(open[1..], {1, 2})
  {
    assert [] + PayloadsOf(open[1..], {1, 2}) == PayloadsOf(open[1..], {1, 2});
  }

  lemma {:induction false} PingsOneMore(open: seq<Sent>)
    requires open != []
    ensures PayloadsOf(open, {9}) == if open[0].opcode == 9 then [open[0].payload] + PayloadsOf(open[1..], {9}) else PayloadsOf(open[1..], {9})
  {
    assert [] + PayloadsOf(open[1..], {9}) == PayloadsOf(open[1..], {9});
  }

  lemma {:induction false} PongsOneMore(ping: seq<Byte>, pings: seq<seq<Byte>>, last: seq<Byte>, masks: nat -> Mask, n: nat)
    requires |ping| < TWO_TO_63 && forall i :: 0 <= i < |pings| ==> |pings[i]| < TWO_TO_63
    ensures Pongs([ping] + pings, masks, n) + last == Pong(masks(n), ping) + (Pongs(pings, masks, n + 1) + last)
  {
    assert ([ping] + pings)[1..] == pings;
    Regrouped3(Pong(masks(n), ping), Pongs(pings, masks, n + 1), last);
  }

  lemma {:induction false} DeliveredOneMore(open: seq<Sent>, last: seq<Byte>, masks: nat -> Mask, n: nat)
    requires AllShort(open) && open != []
    ensures AllShort(open[1..])
    ensures Delivered(open, last, masks, n)
      == Handled(open[0].opcode, open[0].payload, masks(n), Delivered(open[1..], last, masks, if open[0].opcode == 9 then n + 1 else n))
  {
    ShortLater(open);
    EventsOneMore(open);
    PingsOneMore(open);
    if open[0].opcode == 9 { PongsOneMore(open[0].payload, PayloadsOf(open[1..], {9}), last, masks, n); }
  }

  /** What the loop gives when it ends at message e, n pings and m messages on. */
  function ExpectedTo(sent: seq<Sent>, e: nat, out: Outside, n: nat, m: nat): Outcome
    requires AllShort(sent) && e <= |sent|
  {
    Delivered(sent[..e], CutOff(LastOf(sent, e, out, n, m)), out.masks, n)
  }

  function Expected(sent: seq<Sent>, out: Outside, n: nat, m: nat): Outcome
    requires AllShort(sent)
  {
    ExpectedTo(sent, FirstEnd(sent, out.stops, m), out, n, m)
  }

  lemma {:induction false} ExpectedToOneMore(sent: seq<Sent>, e: nat, out: Outside, n: nat, m: nat)
    requires AllShort(sent) && 0 < e <= |sent| && AllShort(sent[1..])
    ensures ExpectedTo(sent, e, out, n, m)
      == Handled(sent[0].opcode, sent[0].payload, out.masks(n),
                 ExpectedTo(sent[1..], e - 1, out, if sent[0].opcode == 9 then n + 1 else n, m + 1))
  {
    LastLater(sent, e, out, n, m);
    DeliveredOneMore(sent[..e], CutOff(LastOf(sent, e, out, n, m)), out.masks, n);
    assert sent[..e][1..] == sent[1..][..e - 1];
  }

  lemma {:induction false} ExpectedOneMore(sent: seq<Sent>, out: Outside, n: nat, m: nat)
    requires AllShort(sent) && sent != [] && !Ends(sent[0].opcode, out.stops(m)) && AllShort(sent[1..])
    ensures Expected(sent, out, n, m)
      == Handled(sent[0].opcode, sent[0].payload, out.masks(n), Expected(sent[1..], out, if sent[0].opcode == 9 then n + 1 else n, m + 1))
  {
    ExpectedToOneMore(sent, FirstEnd(sent, out.stops, m), out, n, m);
  }

  lemma {:induction false} ExpectedEnd(sent: seq<Sent>, out: Outside, n: nat, m: nat)
    requires AllShort(sent) && (sent == [] || Ends(sent[0].opcode, out.stops(m)))
    ensures Expected(sent, out, n, m)
      == Outcome([], if sent == [] then [] else LastWritten(sent[0].opcode, sent[0].payload, out.masks(n), out.stops(m)))
  {
    LastAtOnce(sent, out, n, m);
    NothingDelivered(sent[..0], CutOff(LastOf(sent, 0, out, n, m)), out.masks, n);
  }

  lemma {:induction false} LastAtOnce(sent: seq<Sent>, out: Outside, n: nat, m: nat)
    ensures LastOf(sent, 0, out, n, m) == if sent == [] then None else Some(Last(sent[0], out.masks(n), out.stops(m)))
  {
    NoPayloads(sent[..0]);
  }

  lemma {:induction false} NoPayloads(open: seq<Sent>)
    requires open == []
    ensures PayloadsOf(open, {9}) == []
  {}

  lemma {:induction false} RunOneMore(input: seq<Byte>, payload: seq<Byte>, opcode: int, rest: seq<Byte>, out: Outside, n: nat, m: nat)
    requires |input| < TWO_TO_63 && ReadFirst(input) == Message(payload, opcode, rest)
    ensures |rest| < |input| && |payload| < TWO_TO_63
    ensures Run(input, out, n, m) ==
      if Ends(opcode, out.stops(m)) then Outcome([], LastWritten(opcode, payload, out.masks(n), out.stops(m)))
      else Handled(opcode, payload, out.masks(n), Run(rest, out, if opcode == 9 then n + 1 else n, m + 1))
  {
    MessageShrinks(input, [], 0);
  }

  lemma {:induction false} NothingDelivered(open: seq<Sent>, last: seq<Byte>, masks: nat -> Mask, n: nat)
    requires open == []
    ensures Delivered(open, last, masks, n) == Outcome([], last)
  {
    assert [] + last == last;
  }

  lemma {:induction false} NothingRun(out: Outside, n: nat, m: nat)
    ensures Run([], out, n, m) == Outcome([], [])
  {
    assert ReadRaw([]) == Short;
  }

  lemma {:induction false} JoinedFits(frames: seq<Frame>)
    requires AllValid(frames)
    ensures |Joined(frames)| <= |WireAll(frames)|
  {
    if frames != [] {
      JoinedFits(frames[1..]);
      WireRead(frames[0], []);
      assert Wire(frames[0]) + [] == Wire(frames[0]);
      RawShrinks(Wire(frames[0]));
    }
  }

  /** What was sent is short, as long as the bytes are. */
  lemma {:induction false} SentIsShort(ms: seq<seq<Frame>>)
    requires AllMessages(ms) && |WireMessages(ms)| < TWO_TO_63
    ensures AllShort(SentAll(ms))
  {
    if ms != [] {
      assert OneMessage(ms[0]) && forall i :: 0 <= i < |ms[1..]| ==> ms[1..][i] == ms[i + 1];
      JoinedFits(ms[0]);
      SentIsShort(ms[1..]);
    }
  }

  /** Reading a message by itself. */
  lemma {:induction false} MessageRead(frames: seq<Frame>, more: seq<Byte>)
    requires OneMessage(frames)
    ensures ReadFirst(WireAll(frames) + more) == Message(Joined(frames), FirstOpcode(frames, 0), more)
  {
    FramesJoined(frames, [], 0, more);
    assert [] + Joined(frames) == Joined(frames);
  }

  lemma {:induction false} MessagesApart(ms: seq<seq<Frame>>)
    requires AllMessages(ms) && ms != []
    ensures OneMessage(ms[0]) && AllMessages(ms[1..]) && WireMessages(ms) == WireAll(ms[0]) + WireMessages(ms[1..])
    ensures SentAll(ms)[0] == Sent(FirstOpcode(ms[0], 0), Joined(ms[0])) && SentAll(ms)[1..] == SentAll(ms[1..])
  {
    assert forall i :: 0 <= i < |ms[1..]| ==> ms[1..][i] == ms[i + 1];
  }

  /** Over complete messages, in any number of fragments each, the loop hands out
      exactly the text and binary payloads before its end, in order, and answers
      exactly the pings before it, in order, each with its own payload. It ends at
      the first close, or where the context is done or a pong cannot be written;
      then of that pong only a front is written. */
  lemma {:induction false} EventsDelivered(ms: seq<seq<Frame>>, out: Outside, n: nat, m: nat)
    requires AllMessages(ms) && |WireMessages(ms)| < TWO_TO_63
    ensures AllShort(SentAll(ms))
    ensures Run(WireMessages(ms), out, n, m) == Expected(SentAll(ms), out, n, m)
    decreases |ms|
  {
    SentIsShort(ms);
    var sent := SentAll(ms);
    if ms == [] {
      ExpectedEnd(sent, out, n, m);
      NothingRun(out, n, m);
    } else {
      var rest := WireMessages(ms[1..]);
      MessagesApart(ms);
      MessageRead(ms[0], rest);
      RunOneMore(WireMessages(ms), sent[0].payload, sent[0].opcode, rest, out, n, m);
      if Ends(sent[0].opcode, out.stops(m)) {
        ExpectedEnd(sent, out, n, m);
      } else {
        ShortLater(sent);
        ExpectedOneMore(sent, out, n, m);
        EventsDelivered(ms[1..], out, if sent[0].opcode == 9 then n + 1 else n, m + 1);
      }
    }
  }

  /** What the other end reads: every message until the bytes run out. */
  function Messages(input: seq<Byte>): seq<(seq<Byte>, int)>
    decreases |input|
  {
    match ReadFirst(input)
    case Message(payload, opcode, rest) =>
      MessageShrinks(input, [], 0);
      [(payload, opcode)] + Messages(rest)
    case _ => []
  }

  /** The gateway reads back one pong per ping, with the ping's payload, and
      nothing of a next one that is cut off. */
  lemma {:induction false} PongsReadBack(pings: seq<seq<Byte>>, masks: nat -> Mask, n: nat, next: seq<Byte>, mask: Mask, k: nat)
    requires (forall i :: 0 <= i < |pings| ==> |pings[i]| < TWO_TO_63) && |next| < TWO_TO_63 && k < |Pong(mask, next)|
    ensures Messages(Pongs(pings, masks, n) + Pong(mask, next)[..k]) == seq(|pings|, i requires 0 <= i < |pings| => (pings[i], 10))
  {
    var cut := Pong(mask, next)[..k];
    if pings == [] {
      CutIsShort(ClientFrame(10, mask, next), k);
      assert [] + cut == cut;
      assert ReadFirst(cut) == Ended;
    } else {
      var first, rest := Pong(masks(n), pings[0]), Pongs(pings[1..], masks, n + 1);
      Regrouped3(first, rest, cut);
      BuildThenRead(10, masks(n), pings[0], rest + cut);
      MessagesFirst(first + (rest + cut), pings[0], 10, rest + cut);
      PongsReadBack(pings[1..], masks, n + 1, next, mask, k);
      FirstAnswer(pings);
    }
  }

  lemma {:induction false} MessagesFirst(input: seq<Byte>, payload: seq<Byte>, opcode: int, rest: seq<Byte>)
    requires ReadFirst(input) == Message(payload, opcode, rest)
    ensures Messages(input) == [(payload, opcode)] + Messages(rest)
  {
    MessageShrinks(input, [], 0);
  }

  lemma {:induction false} FirstAnswer(pings: seq<seq<Byte>>)
    requires pings != []
    ensures seq(|pings|, i requires 0 <= i < |pings| => (pings[i], 10))
      == [(pings[0], 10)] + seq(|pings[1..]|, i requires 0 <= i < |pings[1..]| => (pings[1..][i], 10))
  {}
}
