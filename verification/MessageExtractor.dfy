/** The editor client's incremental message extractor: bytes arrive in chunks of
    any size, and messages are cut out of a buffer either at newlines or by a
    Content-Length header. The buffer is searched as text and cut as bytes. */
module MessageExtractor {
  import opened Options
  import opened Text
  import opened Utf8

  // ---- text helpers ----

  predicate At(s: string, pat: string, n: int) {
    0 <= n && n + |pat| <= |s| && s[n..n + |pat|] == pat
  }

  /** Index of the first occurrence, or -1. */
  function FindText(s: string, pat: string): int {
    if |s| < |pat| then -1
    else if s[..|pat|] == pat then 0
    else if s == "" then -1
    else
      var m := FindText(s[1..], pat);
      if m < 0 then -1 else m + 1
  }

  lemma {:induction false} FindTextFirst(s: string, pat: string)
    requires pat != ""
    ensures FindText(s, pat) >= 0 ==> At(s, pat, FindText(s, pat))
    ensures forall i {:trigger At(s, pat, i)} :: At(s, pat, i) ==> 0 <= FindText(s, pat) <= i
  {
    if |pat| <= |s| && s[..|pat|] != pat {
      FindTextFirst(s[1..], pat);
      var m := FindText(s[1..], pat);
      if m >= 0 { AtBehind(s, pat, m + 1); }
      forall i | At(s, pat, i) ensures 0 <= FindText(s, pat) <= i {
        AtFront(s, pat);
        if i > 0 { AtBehind(s, pat, i); }
      }
    } else if |pat| <= |s| {
      AtFront(s, pat);
    }
  }

  lemma {:induction false} AtFront(s: string, pat: string)
    requires |pat| <= |s|
    ensures At(s, pat, 0) <==> s[..|pat|] == pat
  {
    assert s[0..|pat|] == s[..|pat|];
  }

  lemma {:induction false} AtBehind(s: string, pat: string, i: nat)
    requires 0 < i && s != ""
    ensures At(s, pat, i) <==> At(s[1..], pat, i - 1)
  {
    if i + |pat| <= |s| { assert s[1..][i - 1..i - 1 + |pat|] == s[i..i + |pat|]; }
  }

  /** A first occurrence stays the first when what follows it changes. */
  lemma {:induction false} FindTextStays(s: string, s': string, pat: string)
    requires pat != "" && FindText(s, pat) >= 0 && FindText(s, pat) + |pat| <= |s| && s[..FindText(s, pat) + |pat|] <= s'
    ensures FindText(s', pat) == FindText(s, pat)
  {
    var n := FindText(s, pat);
    FindTextFirst(s, pat);
    FindTextFirst(s', pat);
    SamePlace(s, s', pat, n, n);
    SamePlace(s, s', pat, n, FindText(s', pat));
  }

  lemma {:induction false} SamePlace(s: string, s': string, pat: string, n: nat, m: int)
    requires n + |pat| <= |s| && s[..n + |pat|] <= s' && m <= n
    ensures At(s', pat, m) <==> At(s, pat, m)
  {
    if 0 <= m {
      assert s'[m..m + |pat|] == s[..n + |pat|][m..m + |pat|] == s[m..m + |pat|];
    }
  }

  lemma {:induction false} FoundInside(s: string, pat: string)
    requires pat != ""
    ensures FindText(s, pat) == -1 || 0 <= FindText(s, pat) <= |s| - |pat|
  {
    if |pat| <= |s| && s[..|pat|] != pat { FoundInside(s[1..], pat); }
  }

  lemma {:induction false} FindTextAt(s: string, pat: string, n: nat)
    requires pat != "" && At(s, pat, n) && forall i :: 0 <= i < n ==> !At(s, pat, i)
    ensures FindText(s, pat) == n
  {
    FindTextFirst(s, pat);
  }

  predicate Edge(c: char) { c <= ' ' }

  function StripLeft(s: string): string {
    if s != "" && Edge(s[0]) then StripLeft(s[1..]) else s
  }

  function StripRight(s: string): string {
    if s != "" && Edge(s[|s| - 1]) then StripRight(s[..|s| - 1]) else s
  }

  function StripEdges(s: string): string {
    StripRight(StripLeft(s))
  }

  /** The parts between the line breaks of a header. */
  function HeaderLines(s: string): seq<string>
    decreases |s|
  {
    if |s| < 2 then [s]
    else if s[0] == '\r' && s[1] == '\n' then [""] + HeaderLines(s[2..])
    else
      var rest := HeaderLines(s[1..]);
      if rest == [] then [[s[0]]] else [[s[0]] + rest[0]] + rest[1..]
  }

  predicate IsDigit(c: char) { '0' <= c <= '9' }

  predicate AllDigits(s: string) { forall i :: 0 <= i < |s| ==> IsDigit(s[i]) }

  predicate Signed(s: string) { |s| > 1 && (s[0] == '+' || s[0] == '-') }

  predicate ValidInt(s: string) {
    s != "" && AllDigits(if Signed(s) then s[1..] else s)
  }

  function DigitValue(c: char): nat
    requires IsDigit(c)
  {
    c as int - '0' as int
  }

  function ToNat(s: string): nat
    requires AllDigits(s)
  {
    if s == "" then 0 else ToNat(s[..|s| - 1]) * 10 + DigitValue(s[|s| - 1])
  }

  function ToInt(s: string): int
    requires ValidInt(s)
  {
    if !Signed(s) then ToNat(s)
    else
      var n: int := ToNat(s[1..]);
      if s[0] == '-' then -n else n
  }

  // ---- one message ----

  const HEADER := "Content-Length:"
  const BREAK := "\r\n\r\n"

  function AtLeastZero(n: int): nat { if n > 0 then n else 0 }

  /** The length the first usable Content-Length line gives; a negative one is 0. */
  function FirstLength(lines: seq<string>): Option<nat> {
    if lines == [] then None
    else
      var colon := FindText(lines[0], ":");
      if colon < 0 || colon >= |lines[0]| then FirstLength(lines[1..])
      else
        var name := Lower(StripEdges(lines[0][..colon]));
        var value := StripEdges(lines[0][colon + 1..]);
        if name != "content-length" || !ValidInt(value) then FirstLength(lines[1..])
        else Some(AtLeastZero(ToInt(value)))
  }

  function ContentLength(header: string): Option<nat> {
    FirstLength(HeaderLines(header))
  }

  /** What the front of a buffer is: too little yet, a header that cannot be
      used, or something to take off, which may be a message. */
  datatype Front = Wait | Unusable | Take(message: Option<string>, rest: seq<Byte>)

  function FrontOf(buffer: seq<Byte>): Front
    requires buffer != []
  {
    if HEADER <= Decode(buffer) then SizedFront(buffer) else LineFront(buffer)
  }

  /** The header ends where its text does; the payload is so many bytes. */
  function SizedFront(buffer: seq<Byte>): Front {
    var text := Decode(buffer);
    var end := FindText(text, BREAK);
    FoundInside(text, BREAK);
    if end < 0 then Wait else PayloadFront(buffer, end + 4, ContentLength(text[..end]))
  }

  function PayloadFront(buffer: seq<Byte>, start: nat, length: Option<nat>): Front {
    if length.None? then Unusable
    else if |buffer| < start + length.value then Wait
    else Take(Some(Decode(buffer[start..start + length.value])), buffer[start + length.value..])
  }

  /** The line ends where its text does, and as many bytes go as it has characters. */
  function LineFront(buffer: seq<Byte>): Front {
    var text := Decode(buffer);
    var newline := FindText(text, "\n");
    FoundInside(text, "\n");
    DecodedLength(buffer);
    if newline < 0 then Wait
    else
      var line := StripEdges(text[..newline]);
      Take(if line == "" then None else Some(line), buffer[newline + 1..])
  }

  /** What is taken off leaves less. */
  lemma {:induction false} TakeShrinks(buffer: seq<Byte>)
    requires buffer != [] && FrontOf(buffer).Take?
    ensures |FrontOf(buffer).rest| < |buffer|
  {
    FoundInside(Decode(buffer), "\n");
    DecodedLength(buffer);
  }

  function Listed(message: Option<string>): seq<string> {
    if message.Some? then [message.value] else []
  }

  // ---- all messages ----

  datatype Extracted = Extracted(messages: seq<string>, rest: seq<Byte>)

  function Prepend(messages: seq<string>, e: Extracted): Extracted {
    Extracted(messages + e.messages, e.rest)
  }

  function Extract(buffer: seq<Byte>): Extracted
    decreases |buffer|
  {
    if buffer == [] then Extracted([], [])
    else
      match FrontOf(buffer)
      case Wait => Extracted([], buffer)
      case Unusable => Extracted([], [])
      case Take(message, rest) =>
        TakeShrinks(buffer);
        Prepend(Listed(message), Extract(rest))
  }

  /** Extraction comes upon a header without a usable length. */
  predicate Resets(buffer: seq<Byte>)
    decreases |buffer|
  {
    buffer != [] &&
    match FrontOf(buffer)
    case Wait => false
    case Unusable => true
    case Take(_, rest) => TakeShrinks(buffer); Resets(rest)
  }

  lemma {:induction false} ExtractTakes(buffer: seq<Byte>, message: Option<string>, rest: seq<Byte>)
    requires buffer != [] && FrontOf(buffer) == Take(message, rest)
    ensures |rest| < |buffer|
    ensures Extract(buffer) == Prepend(Listed(message), Extract(rest))
    ensures Resets(buffer) <==> Resets(rest)
  {
    TakeShrinks(buffer);
  }

  lemma {:induction false} OneMore(messages: seq<string>, buffer: seq<Byte>, message: Option<string>, rest: seq<Byte>)
    requires buffer != [] && FrontOf(buffer) == Take(message, rest)
    ensures |rest| < |buffer|
    ensures Prepend(messages, Extract(buffer)) == Prepend(if message.Some? then messages + [message.value] else messages, Extract(rest))
  {
    ExtractTakes(buffer, message, rest);
    Associate(Extracted(Listed(message), []), Extract(rest), messages);
  }

  lemma {:induction false} ExtractStops(buffer: seq<Byte>)
    requires buffer != [] && !FrontOf(buffer).Take?
    ensures Extract(buffer) == Extracted([], if FrontOf(buffer).Wait? then buffer else [])
    ensures Resets(buffer) <==> FrontOf(buffer).Unusable?
  {}

  lemma {:induction false} Associate(first: Extracted, second: Extracted, messages: seq<string>)
    ensures Prepend(messages, Prepend(first.messages, second)) == Prepend(Prepend(messages, first).messages, second)
  {}

  // ---- more bytes do not change what was decided ----

  lemma {:induction false} HeaderStays(a: seq<Byte>, b: seq<Byte>)
    requires HEADER <= Decode(a)
    ensures HEADER <= Decode(a + b)
  {
    DecodedStays(a, b, 14);
    assert HEADER == Decode(a)[..15];
  }

  lemma {:induction false} SizedFrontGrows(a: seq<Byte>, b: seq<Byte>)
    requires !SizedFront(a).Wait?
    ensures SizedFront(a + b) == Grown(SizedFront(a), b)
  {
    var end := FindText(Decode(a), BREAK);
    BreakStays(a, b);
    PayloadGrows(a, b, end + 4, ContentLength(Decode(a)[..end]));
  }

  lemma {:induction false} PayloadGrows(a: seq<Byte>, b: seq<Byte>, start: nat, length: Option<nat>)
    requires !PayloadFront(a, start, length).Wait?
    ensures PayloadFront(a + b, start, length) == Grown(PayloadFront(a, start, length), b)
  {
    if length.Some? { SliceGrows(a, b, start, start + length.value); }
  }

  lemma {:induction false} BreakStays(a: seq<Byte>, b: seq<Byte>)
    requires FindText(Decode(a), BREAK) >= 0
    ensures
      var end := FindText(Decode(a), BREAK);
      && end + 4 <= |Decode(a)| && end <= |Decode(a + b)|
      && FindText(Decode(a + b), BREAK) == end && Decode(a + b)[..end] == Decode(a)[..end]
  {
    BreakEnds(Decode(a));
    DecodedStays(a, b, FindText(Decode(a), BREAK) + 3);
    FoundAgain(Decode(a), Decode(a + b), BREAK);
  }

  lemma {:induction false} BreakEnds(text: string)
    requires FindText(text, BREAK) >= 0
    ensures FindText(text, BREAK) + 4 <= |text| && text[FindText(text, BREAK) + 3] == '\n'
  {
    var end := FindText(text, BREAK);
    FindTextFirst(text, BREAK);
    assert text[end + 3] == text[end..end + 4][3];
  }

  lemma {:induction false} FoundAgain(s: string, s': string, pat: string)
    requires pat != "" && FindText(s, pat) >= 0 && FindText(s, pat) + |pat| <= |s| && s[..FindText(s, pat) + |pat|] <= s'
    ensures FindText(s', pat) == FindText(s, pat) <= |s'| && s'[..FindText(s, pat)] == s[..FindText(s, pat)]
  {
    FindTextStays(s, s', pat);
    assert s'[..FindText(s, pat)] == s[..FindText(s, pat) + |pat|][..FindText(s, pat)];
  }

  lemma {:induction false} SliceGrows(a: seq<Byte>, b: seq<Byte>, i: nat, j: nat)
    requires i <= j <= |a|
    ensures (a + b)[i..j] == a[i..j] && (a + b)[j..] == a[j..] + b
  {}

  lemma {:induction false} NewlineStays(a: seq<Byte>, b: seq<Byte>)
    requires FindText(Decode(a), "\n") >= 0
    ensures
      var n := FindText(Decode(a), "\n");
      && n < |Decode(a)| && n < |Decode(a + b)| && Decode(a)[n] == '\n'
      && FindText(Decode(a + b), "\n") == n && Decode(a + b)[..n + 1] == Decode(a)[..n + 1]
  {
    var text, n := Decode(a), FindText(Decode(a), "\n");
    FindTextFirst(text, "\n");
    assert text[n] == text[n..n + 1][0] == '\n';
    DecodedStays(a, b, n);
    FindTextStays(text, Decode(a + b), "\n");
  }

  lemma {:induction false} LineFrontGrows(a: seq<Byte>, b: seq<Byte>)
    requires LineFront(a).Take?
    ensures LineFront(a + b) == Grown(LineFront(a), b)
  {
    var n := FindText(Decode(a), "\n");
    NewlineStays(a, b);
    assert Decode(a + b)[..n] == Decode(a + b)[..n + 1][..n] == Decode(a)[..n];
    DecodedLength(a);
    SliceGrows(a, b, n + 1, n + 1);
  }

  function Grown(front: Front, b: seq<Byte>): Front {
    if front.Take? then front.(rest := front.rest + b) else front
  }

  /** With a newline among the first characters, no header can grow. */
  lemma {:induction false} HeaderDecided(s: string, s': string, n: nat)
    requires n < |s| && n < |s'| && s[n] == '\n' && s'[..n + 1] == s[..n + 1]
    ensures HEADER <= s' <==> HEADER <= s
  {
    if |HEADER| <= n {
      assert s'[..|HEADER|] == s'[..n + 1][..|HEADER|] == s[..|HEADER|];
    } else {
      assert s'[n] == s'[..n + 1][n] == s[n] != HEADER[n];
    }
  }

  lemma {:induction false} NoHeaderLater(a: seq<Byte>, b: seq<Byte>)
    requires LineFront(a).Take?
    ensures HEADER <= Decode(a + b) <==> HEADER <= Decode(a)
  {
    NewlineStays(a, b);
    HeaderDecided(Decode(a), Decode(a + b), FindText(Decode(a), "\n"));
  }

  lemma {:induction false} FrontGrows(a: seq<Byte>, b: seq<Byte>)
    requires a != [] && !FrontOf(a).Wait?
    ensures FrontOf(a + b) == Grown(FrontOf(a), b)
  {
    if HEADER <= Decode(a) {
      HeaderStays(a, b);
      SizedFrontGrows(a, b);
    } else {
      NoHeaderLater(a, b);
      LineFrontGrows(a, b);
    }
  }

  // ---- chunk independence ----

  /** Extracting from a, then from what is left with b behind it, gives what
      extracting from both at once gives. */
  predicate Independent(a: seq<Byte>, b: seq<Byte>) {
    var first := Extract(a);
    var second := Extract(first.rest + b);
    Extract(a + b) == Prepend(first.messages, second)
  }

  lemma {:induction false} SplitAnywhere(a: seq<Byte>, b: seq<Byte>)
    requires !Resets(a)
    ensures Independent(a, b)
    decreases |a|
  {
    if a == [] {
      assert a + b == b;
    } else {
      var front := FrontOf(a);
      if front.Take? {
        FrontGrows(a, b);
        ExtractTakes(a, front.message, front.rest);
        ExtractTakes(a + b, front.message, front.rest + b);
        SplitAnywhere(front.rest, b);
        Associate(Extract(front.rest), Extract(Extract(front.rest).rest + b), Listed(front.message));
      } else {
        ExtractStops(a);
      }
    }
  }

  lemma {:induction false} ResetDropsAll(a: seq<Byte>, b: seq<Byte>)
    requires Resets(a)
    ensures Extract(a + b) == Extract(a) && Extract(a).rest == [] && Resets(a + b)
    decreases |a|
  {
    FrontGrows(a, b);
    var front := FrontOf(a);
    if front.Take? {
      ExtractTakes(a, front.message, front.rest);
      ExtractTakes(a + b, front.message, front.rest + b);
      ResetDropsAll(front.rest, b);
    } else {
      ExtractStops(a);
      ExtractStops(a + b);
    }
  }

  /** How the bytes are cut into chunks makes no difference exactly when no
      unusable header has emptied the buffer. */
  lemma {:induction false} ChunkIndependence(a: seq<Byte>)
    ensures (forall b: seq<Byte> :: Independent(a, b)) <==> !Resets(a)
  {
    if Resets(a) {
      ResetDropsAll(a, X);
      WaitsForMore(Extract(a).rest + X);
      assert !Independent(a, X);
    } else {
      forall b: seq<Byte> ensures Independent(a, b) { SplitAnywhere(a, b); }
    }
  }

  /** The bytes of the text "x". */
  const X: seq<Byte> := [120]

  lemma {:induction false} WaitsForMore(s: seq<Byte>)
    requires s == X
    ensures Extract(s) == Extracted([], s)
  {
    DecodedLength(s);
    DecodeAll("x");
    assert Encode("x") == EncodeChar('x') + [] == X;
    assert Decode(s)[..1][0] != '\n';
    assert FindText(Decode(s)[1..], "\n") == -1;
  }

  // ---- a stream in chunks ----

  function Concat(chunks: seq<seq<Byte>>): seq<Byte> {
    if chunks == [] then [] else Concat(chunks[..|chunks| - 1]) + chunks[|chunks| - 1]
  }

  /** Extracting after every chunk. */
  function FeedAll(chunks: seq<seq<Byte>>): Extracted {
    if chunks == [] then Extracted([], [])
    else
      var before := FeedAll(chunks[..|chunks| - 1]);
      Prepend(before.messages, Extract(before.rest + chunks[|chunks| - 1]))
  }

  /** Every way of cutting a stream into chunks yields the same messages, in
      order, and leaves the same bytes behind. */
  lemma {:induction false} AnyChunking(chunks: seq<seq<Byte>>)
    requires !Resets(Concat(chunks))
    ensures FeedAll(chunks) == Extract(Concat(chunks))
  {
    if chunks != [] {
      var front, last := chunks[..|chunks| - 1], chunks[|chunks| - 1];
      if Resets(Concat(front)) { ResetDropsAll(Concat(front), last); }
      AnyChunking(front);
      SplitAnywhere(Concat(front), last);
    }
  }

  // ---- what the server sends ----

  /** A message as it goes over the wire: on a line of its own, or behind a
      header with its length. */
  datatype Wire = Line(payload: string) | Sized(payload: string)

  lemma {:induction false} DigitsRead(n: nat)
    ensures AllDigits(Digits(n)) && Digits(n) != "" && ToNat(Digits(n)) == n
  {
    if n >= 10 {
      DigitsRead(n / 10);
      assert Digits(n)[..|Digits(n)| - 1] == Digits(n / 10);
    } else {
      assert Digits(n)[..0] == "";
    }
  }

  function HeaderOf(n: nat): string { HEADER + " " + Digits(n) }

  const NEWLINE: seq<Byte> := [10]

  function Encoded(wire: Wire): seq<Byte> {
    match wire
    case Line(payload) => Encode(payload) + NEWLINE
    case Sized(payload) => Encode(HeaderOf(|Encode(payload)|) + BREAK) + Encode(payload)
  }

  function Stream(wires: seq<Wire>): seq<Byte> {
    if wires == [] then [] else Encoded(wires[0]) + Stream(wires[1..])
  }

  function Payloads(wires: seq<Wire>): seq<string> {
    if wires == [] then [] else [wires[0].payload] + Payloads(wires[1..])
  }

  /** A text that can stand on a line: not blank at its ends, without a newline
      or NUL, and not like a header. */
  predicate LineText(s: string) {
    s != "" && !Edge(s[0]) && !Edge(s[|s| - 1]) && '\n' !in s && '\0' !in s && !(HEADER <= s)
  }

  /** How many more bytes than characters a text has. */
  function Extra(s: string): nat {
    EncodedLength(s);
    |Encode(s)| - |s|
  }

  /** What comes out as it was sent. A sized payload can be any text without NUL. */
  predicate Sendable(wire: Wire) {
    match wire
    case Line(payload) => LineText(payload) && Extra(payload) <= 1
    case Sized(payload) => '\0' !in payload
  }

  // ---- lines ----

  lemma {:induction false} NewlineDecoded(more: seq<Byte>)
    ensures Decode(NEWLINE + more) == "\n" + Decode(more)
  {
    DecodeChar('\n', more);
    assert EncodeChar('\n') == NEWLINE;
  }

  /** A line's text in front of other text. */
  lemma {:induction false} LineTextRead(payload: string, after: string)
    requires LineText(payload)
    ensures
      var text := payload + ("\n" + after);
      && FindText(text, "\n") == |payload| && text[..|payload|] == payload
      && StripEdges(payload) == payload && !(HEADER <= text)
  {
    var text := payload + ("\n" + after);
    assert text[|payload|] == '\n' && text[|payload|..|payload| + 1] == "\n";
    forall i | 0 <= i < |payload| ensures !At(text, "\n", i) {
      assert text[i..i + 1][0] == payload[i];
    }
    FindTextAt(text, "\n", |payload|);
    var line := payload + "\n";
    HeaderDecided(line, text, |payload|);
    assert |HEADER| == |line| ==> HEADER[|payload|] != line[|payload|];
    assert |HEADER| <= |payload| ==> line[..|HEADER|] == payload[..|HEADER|];
  }

  /** A line is taken off, with as many bytes as it has characters. */
  lemma {:induction false} LineFrontTaken(payload: string, more: seq<Byte>)
    requires LineText(payload)
    ensures
      var buffer := Encode(payload) + NEWLINE + more;
      |payload| < |buffer| && FrontOf(buffer) == Take(Some(payload), buffer[|payload| + 1..])
  {
    var buffer := Encode(payload) + NEWLINE + more;
    assert buffer == Encode(payload) + (NEWLINE + more);
    DecodeEncoded(payload, NEWLINE + more);
    NewlineDecoded(more);
    EncodedLength(payload);
    LineTextRead(payload, Decode(more));
  }

  /** What a newline by itself leads to. */
  lemma {:induction false} EmptyLineTaken(more: seq<Byte>)
    ensures FrontOf(NEWLINE + more) == Take(None, more)
  {
    NewlineDecoded(more);
    var text := "\n" + Decode(more);
    assert text[..1] == "\n" && text[..0] == "" && text[0] != HEADER[0];
    assert (NEWLINE + more)[1..] == more;
  }

  lemma {:induction false} LineTaken(payload: string, more: seq<Byte>)
    requires Sendable(Line(payload))
    ensures Extract(Encoded(Line(payload)) + more) == Prepend([payload], Extract(more))
    ensures Resets(Encoded(Line(payload)) + more) <==> Resets(more)
  {
    LineFrontTaken(payload, more);
    LeftBehind(Encode(payload), more, |payload|);
    var buffer := Encode(payload) + NEWLINE + more;
    ExtractTakes(buffer, Some(payload), buffer[|payload| + 1..]);
    if Extra(payload) == 1 { EmptyLineSkipped(more); }
  }

  lemma {:induction false} LeftBehind(bytes: seq<Byte>, more: seq<Byte>, n: nat)
    requires n <= |bytes| <= n + 1
    ensures (bytes + NEWLINE + more)[n + 1..] == if |bytes| == n then more else NEWLINE + more
  {}

  lemma {:induction false} EmptyLineSkipped(more: seq<Byte>)
    ensures Extract(NEWLINE + more) == Extract(more) && (Resets(NEWLINE + more) <==> Resets(more))
  {
    EmptyLineTaken(more);
    ExtractTakes(NEWLINE + more, None, more);
    assert [] + Extract(more).messages == Extract(more).messages;
  }

  // ---- lines with other characters ----

  /** Text that ends in a line which is not blank, its only line break behind it. */
  predicate EndsInLine(text: string) {
    |text| >= 2 && text[|text| - 1] == '\n' && !Edge(text[|text| - 2]) && forall i :: 0 <= i < |text| - 1 ==> text[i] != '\n'
  }

  lemma {:induction false} EndsMore(c: char, text: string)
    requires c != '\n' && (EndsInLine(text) || (text == "\n" && !Edge(c)))
    ensures EndsInLine([c] + text)
  {}

  /** Text without a newline or NUL, and not blank at its end. */
  predicate Ended(s: string) {
    s != "" && !Edge(s[|s| - 1]) && '\n' !in s && '\0' !in s
  }

  /** What the encoded text reads as from its j-th byte, with a newline behind it. */
  ghost predicate TailReads(s: string, j: nat, text: string) {
    j <= |Encode(s)| && Decode(Encode(s)[j..] + NEWLINE) == text
  }

  ghost predicate TailEnds(s: string, j: nat) {
    forall text {:trigger TailReads(s, j, text)} :: TailReads(s, j, text) ==> EndsInLine(text)
  }

  /** Wherever it starts, also inside a character. */
  lemma {:induction false} TailText(s: string, j: nat)
    requires Ended(s) && j < |Encode(s)|
    ensures TailEnds(s, j)
  {
    if j < |EncodeChar(s[0])| {
      FirstTail(s, j);
    } else {
      TailOfRest(s, j);
      TailText(s[1..], j - |EncodeChar(s[0])|);
      TailEndsToo(s, j);
    }
  }

  /** It starts at the first character, or inside it. */
  lemma {:induction false} FirstTail(s: string, j: nat)
    requires Ended(s) && j < |EncodeChar(s[0])| && j < |Encode(s)|
    ensures TailEnds(s, j)
    decreases 4 - j
  {
    if j == 0 {
      WholeText(s);
    } else {
      if j + 1 < |EncodeChar(s[0])| { FirstTail(s, j + 1); } else if j + 1 < |Encode(s)| { BehindFirst(s); }
      StrayTail(s, j);
    }
  }

  lemma {:induction false} BehindFirst(s: string)
    requires Ended(s) && |EncodeChar(s[0])| < |Encode(s)|
    ensures TailEnds(s, |EncodeChar(s[0])|)
  {
    TailOfRest(s, |EncodeChar(s[0])|);
    WholeText(s[1..]);
    TailEndsToo(s, |EncodeChar(s[0])|);
  }

  lemma {:induction false} WholeText(s: string)
    requires Ended(s)
    ensures TailEnds(s, 0)
  {
    assert Encode(s)[0..] == Encode(s);
    DecodeEncoded(s, NEWLINE);
    OneNewline();
  }

  lemma {:induction false} TailOfRest(s: string, j: nat)
    requires Ended(s) && |EncodeChar(s[0])| <= j < |Encode(s)|
    ensures Ended(s[1..]) && j - |EncodeChar(s[0])| < |Encode(s[1..])| == |Encode(s)| - |EncodeChar(s[0])|
  {}

  lemma {:induction false} TailEndsToo(s: string, j: nat)
    requires s != "" && |EncodeChar(s[0])| <= j < |Encode(s)| && |Encode(s)| == |EncodeChar(s[0])| + |Encode(s[1..])|
    requires TailEnds(s[1..], j - |EncodeChar(s[0])|)
    ensures TailEnds(s, j)
  {
    var n := |EncodeChar(s[0])|;
    assert Encode(s)[j..] == Encode(s[1..])[j - n..];
    forall text | TailReads(s, j, text) ensures EndsInLine(text) { assert TailReads(s[1..], j - n, text); }
  }

  lemma {:induction false} OneNewline()
    ensures Decode(NEWLINE) == "\n" && Decode([] + NEWLINE) == "\n"
  {
    NewlineDecoded([]);
    assert NEWLINE + [] == NEWLINE == [] + NEWLINE;
  }

  lemma {:induction false} NothingLeft(bytes: seq<Byte>)
    ensures Decode(bytes[|bytes|..] + NEWLINE) == "\n"
  {
    assert bytes[|bytes|..] == [];
    OneNewline();
  }

  lemma {:induction false} FirstApart(bytes: seq<Byte>, j: nat, more: seq<Byte>)
    requires j < |bytes|
    ensures bytes[j..] + more == [bytes[j]] + (bytes[j + 1..] + more)
  {}

  lemma {:induction false} StrayTail(s: string, j: nat)
    requires s != "" && 0 < j < |EncodeChar(s[0])| && j < |Encode(s)|
    requires j + 1 < |Encode(s)| ==> TailEnds(s, j + 1)
    ensures TailEnds(s, j)
  {
    var bytes := Encode(s);
    Continues(s[0], j);
    assert bytes[j] == EncodeChar(s[0])[j];
    FirstApart(bytes, j, NEWLINE);
    StrayByte(bytes[j], bytes[j + 1..] + NEWLINE);
    if j + 1 == |bytes| { NothingLeft(bytes); } else { assert TailReads(s, j + 1, Decode(bytes[j + 1..] + NEWLINE)); }
    EndsMore(REPLACEMENT, Decode(bytes[j + 1..] + NEWLINE));
  }

  lemma {:induction false} NewlineInBreak(text: string, i: nat)
    requires At(text, BREAK, i)
    ensures i + 1 < |text| - 1 && text[i + 1] == '\n'
  {
    assert text[i + 1] == text[i..i + 4][1];
  }

  lemma {:induction false} NoBreak(text: string)
    requires EndsInLine(text)
    ensures FindText(text, BREAK) == -1 && FindText(text, "\n") == |text| - 1
  {
    FindTextFirst(text, BREAK);
    FoundInside(text, BREAK);
    if At(text, BREAK, FindText(text, BREAK)) { NewlineInBreak(text, FindText(text, BREAK)); }
    assert text[|text| - 1..|text|] == "\n";
    forall i | 0 <= i < |text| - 1 ensures !At(text, "\n", i) {
      assert i + 1 <= |text| ==> text[i..i + 1][0] == text[i];
    }
    FindTextAt(text, "\n", |text| - 1);
  }

  lemma {:induction false} NotBlank(line: string)
    requires line != "" && !Edge(line[|line| - 1])
    ensures StripEdges(line) != ""
  {
    if Edge(line[0]) {
      NotBlank(line[1..]);
    }
  }

  /** Bytes whose text ends in a line give a message, or wait for more. */
  lemma {:induction false} NotNothing(bytes: seq<Byte>)
    requires EndsInLine(Decode(bytes))
    ensures Extract(bytes) != Extracted([], [])
  {
    var text := Decode(bytes);
    NoBreak(text);
    if HEADER <= text {
      ExtractStops(bytes);
    } else {
      var line := text[..|text| - 1];
      assert line[|line| - 1] == text[|text| - 2];
      NotBlank(line);
      DecodedLength(bytes);
      ExtractTakes(bytes, Some(StripEdges(line)), bytes[|text|..]);
    }
  }

  /** A message on a line comes out as it was sent, with nothing behind it, if and
      only if it has at most one byte more than it has characters. */
  lemma {:induction false} LineReceived(payload: string)
    requires LineText(payload)
    ensures Extract(Encoded(Line(payload))) == Extracted([payload], []) <==> Extra(payload) <= 1
  {
    assert Encoded(Line(payload)) + [] == Encoded(Line(payload));
    if Extra(payload) <= 1 { LineTaken(payload, []); } else { LineLeavesMore(payload); }
  }

  /** Otherwise what is left of the message gives another one, or stays behind. */
  lemma {:induction false} LineLeavesMore(payload: string)
    requires LineText(payload) && Extra(payload) >= 2
    ensures
      var more := Extract(Encode(payload)[|payload| + 1..] + NEWLINE);
      Extract(Encoded(Line(payload))) == Prepend([payload], more) && more != Extracted([], [])
  {
    var bytes := Encode(payload);
    LineFrontTaken(payload, []);
    CutBehind(bytes, |payload|);
    ExtractTakes(bytes + NEWLINE, Some(payload), bytes[|payload| + 1..] + NEWLINE);
    EndIsLeft(payload);
  }

  lemma {:induction false} CutBehind(bytes: seq<Byte>, n: nat)
    requires n < |bytes|
    ensures bytes + NEWLINE + [] == bytes + NEWLINE && (bytes + NEWLINE)[n + 1..] == bytes[n + 1..] + NEWLINE
  {}

  lemma {:induction false} EndIsLeft(payload: string)
    requires LineText(payload) && Extra(payload) >= 2
    ensures Extract(Encode(payload)[|payload| + 1..] + NEWLINE) != Extracted([], [])
  {
    var bytes := Encode(payload)[|payload| + 1..] + NEWLINE;
    TailText(payload, |payload| + 1);
    assert TailReads(payload, |payload| + 1, Decode(bytes));
    NotNothing(bytes);
  }

  // ---- headers ----

  lemma {:induction false} OneHeaderLine(s: string)
    requires '\r' !in s
    ensures HeaderLines(s) == [s]
    decreases |s|
  {
    if |s| >= 2 {
      OneHeaderLine(s[1..]);
      assert [s[0]] + s[1..] == s;
    }
  }

  lemma {:induction false} LowerName()
    ensures Lower("Content-Length") == "content-length"
  {}

  lemma {:induction false} HeaderName(n: nat)
    ensures FindText(HeaderOf(n), ":") == 14 && HeaderOf(n)[..14] == "Content-Length" && HeaderOf(n)[15..] == " " + Digits(n)
  {
    var line := HeaderOf(n);
    assert line == HEADER + (" " + Digits(n));
    assert line[14..15] == ":" && line[..14] == HEADER[..14] == "Content-Length";
    forall i | 0 <= i < 14 ensures !At(line, ":", i) { assert line[i..i + 1][0] == HEADER[i]; }
    FindTextAt(line, ":", 14);
  }

  lemma {:induction false} HeaderValue(digits: string)
    requires AllDigits(digits) && digits != ""
    ensures StripEdges(" " + digits) == digits && ValidInt(digits) && ToInt(digits) == ToNat(digits)
  {
    assert (" " + digits)[1..] == digits;
    assert StripLeft(" " + digits) == digits;
    assert !Signed(digits);
  }

  lemma {:induction false} NameStripped()
    ensures StripEdges("Content-Length") == "Content-Length"
  {
    var s := "Content-Length";
    assert StripLeft(s) == s && StripRight(s) == s;
  }

  lemma {:induction false} NoCarriageReturn(s: string)
    requires AllDigits(s)
    ensures '\r' !in HEADER + " " + s
  {}

  lemma {:induction false} HeaderRead(n: nat)
    ensures ContentLength(HeaderOf(n)) == Some(n)
  {
    DigitsRead(n);
    NoCarriageReturn(Digits(n));
    OneHeaderLine(HeaderOf(n));
    HeaderName(n);
    NameStripped();
    LowerName();
    HeaderValue(Digits(n));
  }

  /** A header without carriage returns ends at the first break. */
  lemma {:induction false} BreakFound(header: string, rest: string)
    requires '\r' !in header
    ensures FindText(header + BREAK + rest, BREAK) == |header|
  {
    var buffer := header + BREAK + rest;
    assert buffer[|header|..|header| + 4] == BREAK;
    forall i | 0 <= i < |header| ensures !At(buffer, BREAK, i) {
      assert buffer[i] == header[i];
      assert i + 4 <= |buffer| ==> buffer[i..i + 4][0] != BREAK[0];
    }
    FindTextAt(buffer, BREAK, |header|);
  }

  lemma {:induction false} Begins(head: string, header: string, rest: string)
    requires head <= header
    ensures head <= header + rest && (header + rest)[..|header|] == header
  {}

  /** A header in front of other text. */
  lemma {:induction false} HeaderText(header: string, after: string)
    requires HEADER <= header && '\r' !in header
    ensures
      var text := header + BREAK + after;
      HEADER <= text && FindText(text, BREAK) == |header| && text[..|header|] == header
  {
    BreakFound(header, after);
    RegroupedText(header, BREAK, after);
    Begins(HEADER, header, BREAK + after);
  }

  /** A header with any text for its length. */
  function HeaderWith(value: string): string { HEADER + value }

  lemma {:induction false} HeaderWithParts(value: string)
    ensures FindText(HeaderWith(value), ":") == 14 && HeaderWith(value)[15..] == value && |HeaderWith(value)| >= 15
  {
    var line := HeaderWith(value);
    assert line[14..15] == ":";
    forall i | 0 <= i < 14 ensures !At(line, ":", i) { assert line[i..i + 1][0] == HEADER[i]; }
    FindTextAt(line, ":", 14);
  }

  /** A line whose value is not a number gives no length. */
  lemma {:induction false} NoLengthInLine(line: string)
    requires 0 <= FindText(line, ":") < |line| && !ValidInt(StripEdges(line[FindText(line, ":") + 1..]))
    ensures FirstLength([line]) == None
  {
    assert [line][1..] == [];
  }

  lemma {:induction false} UnusableFront(header: string, rest: string, buffer: seq<Byte>)
    requires HEADER <= header && '\r' !in header && ContentLength(header) == None && Decode(buffer) == header + BREAK + rest
    ensures buffer != [] && FrontOf(buffer) == Unusable
  {
    HeaderText(header, rest);
  }

  lemma {:induction false} NoReturnAdded(value: string)
    requires '\r' !in value
    ensures '\r' !in HeaderWith(value)
  {}

  /** A header whose length is not a number empties the buffer, with whatever
      stands behind it: what comes in the same chunk is lost, while what comes in
      the next one is read. */
  lemma {:induction false} UnusableHeaderDrops(value: string, more: string, buffer: seq<Byte>)
    requires '\r' !in value && !ValidInt(StripEdges(value)) && Decode(buffer) == HeaderWith(value) + BREAK + more
    ensures Resets(buffer) && Extract(buffer) == Extracted([], [])
  {
    var header := HeaderWith(value);
    HeaderWithParts(value);
    NoReturnAdded(value);
    OneHeaderLine(header);
    NoLengthInLine(header);
    UnusableFront(header, more, buffer);
    ExtractStops(buffer);
  }

  /** For one, "Content-Length: x". */
  lemma {:induction false} NotANumberDrops(more: seq<Byte>, buffer: seq<Byte>)
    requires buffer == Encode(HeaderWith(" x") + BREAK) + more
    ensures Resets(buffer) && Extract(buffer) == Extracted([], [])
  {
    assert " x"[1..] == "x" && StripLeft("x") == "x" && StripRight("x") == "x";
    assert !IsDigit("x"[0]);
    DecodeEncoded(HeaderWith(" x") + BREAK, more);
    UnusableHeaderDrops(" x", Decode(more), buffer);
  }

  // ---- sized payloads ----

  predicate Ascii(s: string) { forall i :: 0 <= i < |s| ==> 0 < (s[i] as int) < 128 }

  lemma {:induction false} AsciiLength(s: string)
    requires Ascii(s)
    ensures |Encode(s)| == |s| && '\0' !in s
  {
    if s != "" { AsciiLength(s[1..]); }
  }

  lemma {:induction false} AsciiConcat(s: string, t: string)
    requires Ascii(s) && Ascii(t)
    ensures Ascii(s + t)
  {}

  lemma {:induction false} DigitsAscii(s: string)
    requires AllDigits(s)
    ensures Ascii(s)
  {}

  lemma {:induction false} HeaderAscii()
    ensures Ascii(HEADER)
  {}

  lemma {:induction false} HeaderIsAscii(n: nat)
    ensures |Encode(HeaderOf(n) + BREAK)| == |HeaderOf(n)| + 4 && '\0' !in HeaderOf(n) + BREAK
  {
    DigitsRead(n);
    DigitsAscii(Digits(n));
    HeaderAscii();
    AsciiConcat(HEADER, " ");
    AsciiConcat(HEADER + " ", Digits(n));
    AsciiConcat(HeaderOf(n), BREAK);
    AsciiLength(HeaderOf(n) + BREAK);
  }

  lemma {:induction false} SizedParts(front: seq<Byte>, body: seq<Byte>, more: seq<Byte>)
    ensures
      var buffer, end := front + body + more, |front|;
      && buffer == front + (body + more)
      && buffer[end..end + |body|] == body && buffer[end + |body|..] == more
  {}

  lemma {:induction false} DecodeAll(s: string)
    requires '\0' !in s
    ensures Decode(Encode(s)) == s
  {
    DecodeEncoded(s, []);
    assert Encode(s) + [] == Encode(s) && s + "" == s;
  }

  lemma {:induction false} SizedTaken(payload: string, more: seq<Byte>)
    requires '\0' !in payload
    ensures Encoded(Sized(payload)) + more != [] && FrontOf(Encoded(Sized(payload)) + more) == Take(Some(payload), more)
  {
    var n, body := |Encode(payload)|, Encode(payload);
    var front := Encode(HeaderOf(n) + BREAK);
    HeaderIsAscii(n);
    SizedParts(front, body, more);
    DecodeEncoded(HeaderOf(n) + BREAK, body + more);
    SizedText(n, Decode(body + more));
    DecodeAll(payload);
    PayloadTaken(front + body + more, |HeaderOf(n)| + 4, body, more);
  }

  /** A written header in front of other text. */
  lemma {:induction false} SizedText(n: nat, after: string)
    ensures
      var text := HeaderOf(n) + BREAK + after;
      && HEADER <= text && FindText(text, BREAK) == |HeaderOf(n)|
      && text[..|HeaderOf(n)|] == HeaderOf(n) && ContentLength(HeaderOf(n)) == Some(n)
  {
    DigitsRead(n);
    HeaderRead(n);
    NoCarriageReturn(Digits(n));
    HeaderText(HeaderOf(n), after);
  }

  lemma {:induction false} PayloadTaken(buffer: seq<Byte>, start: nat, body: seq<Byte>, more: seq<Byte>)
    requires start + |body| <= |buffer| && buffer[start..start + |body|] == body && buffer[start + |body|..] == more
    ensures PayloadFront(buffer, start, Some(|body|)) == Take(Some(Decode(body)), more)
  {}

  lemma {:induction false} WireTaken(wire: Wire, more: seq<Byte>)
    requires Sendable(wire)
    ensures Extract(Encoded(wire) + more) == Prepend([wire.payload], Extract(more))
    ensures Resets(Encoded(wire) + more) <==> Resets(more)
  {
    match wire {
      case Line(payload) => LineTaken(payload, more);
      case Sized(payload) =>
        SizedTaken(payload, more);
        ExtractTakes(Encoded(wire) + more, Some(payload), more);
    }
  }

  lemma {:induction false} StreamExtracted(wires: seq<Wire>)
    requires forall i :: 0 <= i < |wires| ==> Sendable(wires[i])
    ensures Extract(Stream(wires)) == Extracted(Payloads(wires), []) && !Resets(Stream(wires))
  {
    if wires != [] {
      WireTaken(wires[0], Stream(wires[1..]));
      StreamExtracted(wires[1..]);
    }
  }

  /** Whatever is sent comes out message for message, however it is cut, also
      inside a character. */
  lemma {:induction false} SentIsReceived(wires: seq<Wire>, chunks: seq<seq<Byte>>)
    requires forall i :: 0 <= i < |wires| ==> Sendable(wires[i])
    requires Concat(chunks) == Stream(wires)
    ensures FeedAll(chunks) == Extracted(Payloads(wires), [])
  {
    StreamExtracted(wires);
    AnyChunking(chunks);
  }

  // ---- the client ----

  datatype Read = Bytes(data: seq<Byte>) | ReadFailed

  /** The bytes read until the socket is empty, or None after a failure. */
  function ReadAll(buffer: seq<Byte>, incoming: seq<Read>): Option<seq<Byte>>
    decreases |incoming|
  {
    if incoming == [] then Some(buffer)
    else if incoming[0].ReadFailed? then None
    else if incoming[0].data == [] then Some(buffer)
    else ReadAll(buffer + incoming[0].data, incoming[1..])
  }

  class BridgeClient {
    var readBuffer: seq<Byte>
    var connected: bool

    constructor ()
      ensures connected && readBuffer == []
    {
      connected := true;
      readBuffer := [];
    }

    /** Deals with a buffer that starts with a header. */
    method TakeSized() returns (message: Option<string>, stop: bool)
      modifies this`readBuffer
      ensures Stepped(old(readBuffer), SizedFront(old(readBuffer)), message, stop)
    {
      var bufferText := Decode(readBuffer);
      var headerEnd := FindText(bufferText, BREAK);
      FoundInside(bufferText, BREAK);
      if headerEnd == -1 { return None, true; }
      var length := ContentLength(bufferText[..headerEnd]);
      if length.None? {
        readBuffer := [];
        return None, true;
      }
      var payloadStart := headerEnd + 4;
      var payloadEnd := payloadStart + length.value;
      if |readBuffer| < payloadEnd { return None, true; }
      message, stop := Some(Decode(readBuffer[payloadStart..payloadEnd])), false;
      readBuffer := readBuffer[payloadEnd..];
    }

    /** Deals with a buffer that starts with a line. */
    method TakeLine() returns (message: Option<string>, stop: bool)
      modifies this`readBuffer
      ensures Stepped(old(readBuffer), LineFront(old(readBuffer)), message, stop)
    {
      var bufferText := Decode(readBuffer);
      var newline := FindText(bufferText, "\n");
      FoundInside(bufferText, "\n");
      DecodedLength(readBuffer);
      if newline == -1 { return None, true; }
      var line := StripEdges(bufferText[..newline]);
      readBuffer := readBuffer[newline + 1..];
      message, stop := if line == "" then None else Some(line), false;
    }

    /** What is done with the front of a buffer. */
    ghost predicate Stepped(before: seq<Byte>, front: Front, message: Option<string>, stop: bool)
      reads this
    {
      match front
      case Wait => stop && message.None? && readBuffer == before
      case Unusable => stop && message.None? && readBuffer == []
      case Take(m, rest) => !stop && message == m && readBuffer == rest
    }

    /** Takes messages off the front of the buffer until it has to wait. */
    method ExtractMessages() returns (messages: seq<string>)
      modifies this`readBuffer
      ensures Extracted(messages, readBuffer) == Extract(old(readBuffer))
    {
      messages := [];
      while readBuffer != []
        invariant Extract(old(readBuffer)) == Prepend(messages, Extract(readBuffer))
        decreases |readBuffer|
      {
        ghost var before := readBuffer;
        var message, stop;
        if HEADER <= Decode(readBuffer) { message, stop := TakeSized(); } else { message, stop := TakeLine(); }
        assert Stepped(before, FrontOf(before), message, stop);
        if stop {
          ExtractStops(before);
          break;
        }
        OneMore(messages, before, message, readBuffer);
        if message.Some? { messages := messages + [message.value]; }
      }
    }

    /** Reads what is there, then extracts; a failed read drops the buffer. */
    method ProcessIncoming(incoming: seq<Read>) returns (messages: seq<string>)
      modifies this
      ensures !old(connected) ==> messages == [] && connected == old(connected) && readBuffer == old(readBuffer)
      ensures old(connected) ==> (connected <==> ReadAll(old(readBuffer), incoming).Some?)
      ensures old(connected) && connected ==>
        Extracted(messages, readBuffer) == Extract(ReadAll(old(readBuffer), incoming).value)
      ensures old(connected) && !connected ==> messages == [] && readBuffer == []
    {
      messages := [];
      if !connected { return; }
      var i := 0;
      while i < |incoming|
        invariant 0 <= i <= |incoming| && connected
        invariant ReadAll(readBuffer, incoming[i..]) == ReadAll(old(readBuffer), incoming)
      {
        assert incoming[i..][1..] == incoming[i + 1..];
        if incoming[i].ReadFailed? {
          readBuffer := [];
          connected := false;
          return;
        }
        if incoming[i].data == [] { break; }
        readBuffer := readBuffer + incoming[i].data;
        i := i + 1;
      }
      messages := ExtractMessages();
    }
  }

  // ---- calls one after the other ----

  lemma {:induction false} ReadAllAppends(buffer: seq<Byte>, incoming: seq<Read>)
    ensures ReadAll(buffer, incoming) ==
      if ReadAll([], incoming).Some? then Some(buffer + ReadAll([], incoming).value) else None
    decreases |incoming|
  {
    if incoming == [] || incoming[0].ReadFailed? || incoming[0].data == [] {
      assert buffer + [] == buffer;
    } else {
      var data := incoming[0].data;
      ReadAllAppends(buffer + data, incoming[1..]);
      ReadAllAppends(data, incoming[1..]);
      assert [] + data == data;
      if ReadAll([], incoming[1..]).Some? {
        assert buffer + data + ReadAll([], incoming[1..]).value == buffer + (data + ReadAll([], incoming[1..]).value);
      }
    }
  }

  /** What one call after the other finds on the socket. */
  function Chunks(calls: seq<seq<Read>>): seq<seq<Byte>>
    requires forall i :: 0 <= i < |calls| ==> ReadAll([], calls[i]).Some?
  {
    seq(|calls|, i requires 0 <= i < |calls| => ReadAll([], calls[i]).value)
  }

  /** Calls without a failed read feed the extractor chunk by chunk; so whatever
      the server sent comes out message for message. */
  method ReceiveAll(client: BridgeClient, calls: seq<seq<Read>>, ghost wires: seq<Wire>) returns (messages: seq<string>)
    requires client.connected && client.readBuffer == [] && forall i :: 0 <= i < |calls| ==> ReadAll([], calls[i]).Some?
    requires forall i :: 0 <= i < |wires| ==> Sendable(wires[i])
    modifies client
    ensures client.connected && Extracted(messages, client.readBuffer) == FeedAll(Chunks(calls))
    ensures Concat(Chunks(calls)) == Stream(wires) ==> messages == Payloads(wires) && client.readBuffer == []
  {
    messages := [];
    ghost var chunks := Chunks(calls);
    for n := 0 to |calls|
      invariant client.connected && Extracted(messages, client.readBuffer) == FeedAll(chunks[..n])
    {
      assert chunks[..n + 1][..n] == chunks[..n];
      ReadAllAppends(client.readBuffer, calls[n]);
      var more := client.ProcessIncoming(calls[n]);
      messages := messages + more;
    }
    assert chunks[..|calls|] == chunks;
    if Concat(chunks) == Stream(wires) { SentIsReceived(wires, chunks); }
  }
}
