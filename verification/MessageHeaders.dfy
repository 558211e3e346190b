/** Headers of any number of lines, and what the front of a buffer is. */
module MessageHeaders {
  import opened Options
  import opened Text
  import opened Utf8
  import opened MessageExtractor

  // ---- the lines of a header ----

  /** Lines with a line break between each two. */
  function Laid(lines: seq<string>): string
    requires lines != []
  {
    if |lines| == 1 then lines[0] else lines[0] + "\r\n" + Laid(lines[1..])
  }

  ghost predicate Unbroken(line: string) {
    forall i :: 0 <= i < |line| - 1 ==> !(line[i] == '\r' && line[i + 1] == '\n')
  }

  lemma {:induction false} FirstLine(line: string, rest: string)
    requires Unbroken(line)
    ensures HeaderLines(line + "\r\n" + rest) == [line] + HeaderLines(rest)
  {
    var s := line + "\r\n" + rest;
    if line == "" {
      assert s[2..] == rest;
    } else {
      RestUnbroken(line);
      FirstLine(line[1..], rest);
      assert s[1..] == line[1..] + "\r\n" + rest && s[0] == line[0];
      OneCharacter(s, line[1..], HeaderLines(rest));
      assert [line[0]] + line[1..] == line;
    }
  }

  lemma {:induction false} RestUnbroken(line: string)
    requires line != "" && Unbroken(line)
    ensures Unbroken(line[1..])
  {}

  /** A character that starts no line break goes to the front of the first line. */
  lemma {:induction false} OneCharacter(s: string, first: string, more: seq<string>)
    requires |s| >= 2 && !(s[0] == '\r' && s[1] == '\n') && HeaderLines(s[1..]) == [first] + more
    ensures HeaderLines(s) == [[s[0]] + first] + more
  {
    assert ([first] + more)[1..] == more;
  }

  lemma {:induction false} LastLine(line: string)
    requires Unbroken(line)
    ensures HeaderLines(line) == [line]
    decreases |line|
  {
    if |line| >= 2 {
      LastLine(line[1..]);
      assert [line[0]] + line[1..] == line;
    }
  }

  /** The lines of a header are what stands between its line breaks. */
  lemma {:induction false} HeaderLinesRead(lines: seq<string>)
    requires lines != [] && forall i :: 0 <= i < |lines| ==> Unbroken(lines[i])
    ensures HeaderLines(Laid(lines)) == lines
  {
    if |lines| == 1 {
      LastLine(lines[0]);
    } else {
      HeaderLinesRead(lines[1..]);
      FirstLine(lines[0], Laid(lines[1..]));
      assert [lines[0]] + lines[1..] == lines;
    }
  }

  // ---- numbers ----

  function Zeros(k: nat): string { seq(k, i => '0') }

  /** Digits, perhaps behind zeros and a sign. */
  ghost predicate Spells(text: string, n: int) {
    exists k: nat, m: nat :: SpelledBy(text, n, k, m)
  }

  predicate SpelledBy(text: string, n: int, k: nat, m: nat) {
    var digits := Zeros(k) + Digits(m);
    (n == m as int && (text == digits || text == "+" + digits)) || (n == 0 - (m as int) && text == "-" + digits)
  }

  lemma {:induction false} DigitsSpelled(s: string) returns (k: nat)
    requires s != "" && AllDigits(s)
    ensures s == Zeros(k) + Digits(ToNat(s))
  {
    var front, d := s[..|s| - 1], DigitValue(s[|s| - 1]);
    k := 0;
    assert [('0' as int + d) as char] == [s[|s| - 1]];
    if front == "" {
      assert ToNat(front) == 0;
      assert s == Zeros(0) + [s[0]];
    } else {
      k := DigitsSpelled(front);
      var m := ToNat(front);
      assert s == front + [s[|s| - 1]];
      if m == 0 {
        assert Digits(0) == "0" && Zeros(k + 1) == Zeros(k) + "0";
        assert Digits(d) == "" + [s[|s| - 1]];
        assert s == Zeros(k + 1) + Digits(d);
        k := k + 1;
      } else {
        OneDigitMore(m, d);
        assert s == Zeros(k) + (Digits(m) + [s[|s| - 1]]);
      }
    }
  }

  lemma {:induction false} OneDigitMore(m: nat, d: nat)
    requires m > 0 && d < 10
    ensures Digits(10 * m + d) == Digits(m) + [('0' as int + d) as char]
  {
    assert (10 * m + d) / 10 == m && (10 * m + d) % 10 == d;
  }

  lemma {:induction false} SpelledRead(k: nat, m: nat)
    ensures
      var s := Zeros(k) + Digits(m);
      s != "" && AllDigits(s) && ToNat(s) == m && IsDigit(s[0])
  {
    DigitsRead(m);
    var s := Zeros(k) + Digits(m);
    forall i | 0 <= i < |s| ensures IsDigit(s[i]) { assert i >= k ==> s[i] == Digits(m)[i - k]; }
    ZerosIgnored(k, Digits(m));
  }

  lemma {:induction false} ZerosIgnored(k: nat, s: string)
    requires AllDigits(s)
    ensures AllDigits(Zeros(k) + s) && ToNat(Zeros(k) + s) == ToNat(s)
    decreases k + |s|
  {
    var z := Zeros(k) + s;
    assert AllDigits(z);
    if s != "" {
      assert z[..|z| - 1] == Zeros(k) + s[..|s| - 1];
      ZerosIgnored(k, s[..|s| - 1]);
    } else if k > 0 {
      assert z[..|z| - 1] == Zeros(k - 1) + s;
      ZerosIgnored(k - 1, s);
    }
  }

  /** A text is taken for a number exactly when it is digits, perhaps behind a sign;
      and for the number they spell. */
  lemma {:induction false} NumberExactly(text: string, n: int)
    ensures ValidInt(text) && ToInt(text) == n <==> Spells(text, n)
  {
    if ValidInt(text) { ValidSpelled(text); }
    if Spells(text, n) {
      var k: nat, m: nat :| SpelledBy(text, n, k, m);
      SpelledValid(text, n, k, m);
    }
  }

  lemma {:induction false} ValidSpelled(text: string)
    requires ValidInt(text)
    ensures Spells(text, ToInt(text))
  {
    var digits := if Signed(text) then text[1..] else text;
    var k := DigitsSpelled(digits);
    if Signed(text) { assert text == [text[0]] + digits; }
    assert SpelledBy(text, ToInt(text), k, ToNat(digits));
  }

  lemma {:induction false} SpelledValid(text: string, n: int, k: nat, m: nat)
    requires SpelledBy(text, n, k, m)
    ensures ValidInt(text) && ToInt(text) == n
  {
    var digits := Zeros(k) + Digits(m);
    SpelledRead(k, m);
    if text == digits {
      assert !Signed(text);
    } else {
      assert text[1..] == digits;
      assert Signed(text);
    }
  }

  // ---- the length ----

  /** Without white space and control characters around it. */
  ghost predicate StrippedTo(s: string, t: string) {
    exists i, j :: StripAt(s, i, j) && t == s[i..j]
  }

  predicate StripAt(s: string, i: int, j: int) {
    && 0 <= i <= j <= |s| && (forall k :: 0 <= k < i ==> s[k] <= ' ') && (forall k :: j <= k < |s| ==> s[k] <= ' ')
    && (i < j ==> s[i] > ' ' && s[j - 1] > ' ')
  }

  lemma {:induction false} LeftStripped(s: string) returns (i: nat)
    ensures i <= |s| && StripLeft(s) == s[i..] && (i < |s| ==> s[i] > ' ') && forall k :: 0 <= k < i ==> s[k] <= ' '
  {
    i := 0;
    if s != "" && s[0] <= ' ' {
      i := LeftStripped(s[1..]);
      assert s[1..][i..] == s[i + 1..] && forall k :: 0 < k < i + 1 ==> s[k] == s[1..][k - 1];
      i := i + 1;
    }
  }

  lemma {:induction false} RightStripped(s: string) returns (j: nat)
    ensures j <= |s| && StripRight(s) == s[..j] && (j > 0 ==> s[j - 1] > ' ') && forall k :: j <= k < |s| ==> s[k] <= ' '
  {
    j := |s|;
    if s != "" && s[|s| - 1] <= ' ' {
      j := RightStripped(s[..|s| - 1]);
      assert s[..|s| - 1][..j] == s[..j] && forall k :: j <= k < |s| - 1 ==> s[k] == s[..|s| - 1][k];
    }
  }

  lemma {:induction false} StripExactly(s: string, t: string)
    ensures StrippedTo(s, t) <==> t == StripEdges(s)
  {
    var i := LeftStripped(s);
    var k := RightStripped(s[i..]);
    assert s[i..][..k] == s[i..i + k] && forall x :: i + k <= x < |s| ==> s[x] == s[i..][x - i];
    assert i < |s| ==> s[i..][0] == s[i];
    assert StripAt(s, i, i + k);
    if x, y :| StripAt(s, x, y) && t == s[x..y] {
      assert x < y ==> i <= x && y <= i + k;
      assert i < i + k ==> x <= i && i + k <= y;
    }
  }

  /** A line that gives a length: content-length in any case of letters before its
      first colon, and a number behind it, a negative one for 0. */
  ghost predicate GivesLength(line: string, length: nat) {
    exists c, name, value, n :: GivenBy(line, length, c, name, value, n)
  }

  ghost predicate GivenBy(line: string, length: nat, c: int, name: string, value: string, n: int) {
    Parts(line, c, name, value) && Lower(name) == "content-length" && Spells(value, n) && length == if n > 0 then n else 0
  }

  ghost predicate Parts(line: string, c: int, name: string, value: string) {
    0 <= c < |line| && line[c] == ':' && (forall k :: 0 <= k < c ==> line[k] != ':') && StrippedTo(line[..c], name) && StrippedTo(line[c + 1..], value)
  }

  lemma {:induction false} ColonFound(line: string)
    ensures
      var c := FindText(line, ":");
      && (c >= 0 ==> c < |line| && line[c] == ':')
      && forall k :: 0 <= k < |line| && line[k] == ':' ==> 0 <= c <= k
  {
    FindTextFirst(line, ":");
    var c := FindText(line, ":");
    if c >= 0 { assert line[c..c + 1][0] == line[c]; }
    forall k | 0 <= k < |line| && line[k] == ':' ensures 0 <= c <= k {
      assert line[k..k + 1] == ":";
      assert At(line, ":", k);
    }
  }

  lemma {:induction false} LineGives(line: string, length: nat)
    ensures FirstLength([line]) == Some(length) <==> GivesLength(line, length)
  {
    if FirstLength([line]) == Some(length) { LineRead(line, length); }
    if c, name, value, n :| GivenBy(line, length, c, name, value, n) { LineGiven(line, length, c, name, value, n); }
  }

  lemma {:induction false} LineRead(line: string, length: nat)
    requires FirstLength([line]) == Some(length)
    ensures GivesLength(line, length)
  {
    var c := FindText(line, ":");
    ColonFound(line);
    assert [line][1..] == [];
    var name, value := StripEdges(line[..c]), StripEdges(line[c + 1..]);
    StripExactly(line[..c], name);
    StripExactly(line[c + 1..], value);
    NumberExactly(value, ToInt(value));
    assert GivenBy(line, length, c, name, value, ToInt(value));
  }

  lemma {:induction false} LineGiven(line: string, length: nat, c: int, name: string, value: string, n: int)
    requires GivenBy(line, length, c, name, value, n)
    ensures FirstLength([line]) == Some(length)
  {
    ColonFound(line);
    assert c == FindText(line, ":");
    assert [line][1..] == [];
    StripExactly(line[..c], name);
    StripExactly(line[c + 1..], value);
    NumberExactly(value, n);
  }

  /** The first line that gives a length counts; without one there is none. */
  lemma {:induction false} LengthExactly(lines: seq<string>, length: nat)
    ensures FirstLength(lines) == Some(length) <==>
      exists i :: 0 <= i < |lines| && GivesLength(lines[i], length) && NoLengthBefore(lines, i)
    ensures FirstLength(lines) == None <==> NoLengthBefore(lines, |lines|)
  {
    if lines != [] {
      var first, rest := lines[0], lines[1..];
      LengthExactly(rest, length);
      FirstOrRest(lines);
      if FirstLength([first]).Some? {
        LineGives(first, FirstLength([first]).value);
        LineGives(first, length);
        assert NoLengthBefore(lines, 0);
        FirstGives(lines, FirstLength([first]).value);
      } else {
        forall n: nat ensures !GivesLength(first, n) { LineGives(first, n); }
        forall i | 0 <= i <= |rest| ensures NoLengthBefore(lines, i + 1) <==> NoLengthBefore(rest, i) { OneMoreBefore(lines, i); }
        if i :| 0 <= i < |rest| && GivesLength(rest[i], length) && NoLengthBefore(rest, i) { assert lines[i + 1] == rest[i]; }
        if i :| 0 <= i < |lines| && GivesLength(lines[i], length) && NoLengthBefore(lines, i) { assert lines[i] == rest[i - 1]; assert NoLengthBefore(rest, i - 1); }
      }
    }
  }

  ghost predicate NoLengthBefore(lines: seq<string>, n: nat) {
    forall i, length :: 0 <= i < n && i < |lines| ==> !GivesLength(lines[i], length)
  }

  lemma {:induction false} FirstGives(lines: seq<string>, length: nat)
    requires lines != [] && GivesLength(lines[0], length)
    ensures forall i :: 0 < i <= |lines| ==> !NoLengthBefore(lines, i)
  {}

  lemma {:induction false} OneMoreBefore(lines: seq<string>, i: nat)
    requires lines != [] && (forall n: nat :: !GivesLength(lines[0], n)) && i < |lines|
    ensures NoLengthBefore(lines, i + 1) <==> NoLengthBefore(lines[1..], i)
  {
    var rest := lines[1..];
    if NoLengthBefore(lines, i + 1) {
      forall j, length | 0 <= j < i && j < |rest| ensures !GivesLength(rest[j], length) { assert rest[j] == lines[j + 1]; }
    }
    if NoLengthBefore(rest, i) {
      forall j, length | 0 <= j < i + 1 && j < |lines| ensures !GivesLength(lines[j], length) { assert j > 0 ==> lines[j] == rest[j - 1]; }
    }
  }

  lemma {:induction false} FirstOrRest(lines: seq<string>)
    requires lines != []
    ensures FirstLength(lines) == if FirstLength([lines[0]]).Some? then FirstLength([lines[0]]) else FirstLength(lines[1..])
  {
    assert [lines[0]][1..] == [];
  }

  // ---- the front of a buffer ----

  /** The text before the first occurrence of a pattern. */
  ghost predicate UpTo(text: string, pat: string, n: int) {
    At(text, pat, n) && forall i :: 0 <= i < n ==> !At(text, pat, i)
  }

  /** What the front of a buffer is, from its text: a header that ends at the first
      blank line, with a payload of so many bytes; or a line, without what stands
      around it. */
  ghost predicate FrontIs(buffer: seq<Byte>, front: Front) {
    var text := Decode(buffer);
    if "Content-Length:" <= text then
      if exists end :: UpTo(text, "\r\n\r\n", end) then exists end :: UpTo(text, "\r\n\r\n", end) && HeaderIs(buffer, text[..end], end + 4, front)
      else front == Wait
    else if exists end :: UpTo(text, "\n", end) then exists end :: UpTo(text, "\n", end) && LineIs(buffer, text[..end], end, front)
    else front == Wait
  }

  ghost predicate HeaderIs(buffer: seq<Byte>, header: string, start: nat, front: Front) {
    match ContentLength(header)
    case None => front == Unusable
    case Some(length) =>
      if |buffer| < start + length then front == Wait
      else front == Take(Some(Decode(buffer[start..start + length])), buffer[start + length..])
  }

  ghost predicate LineIs(buffer: seq<Byte>, line: string, end: nat, front: Front) {
    exists t :: StrippedTo(line, t) && end < |buffer| && front == Take(if t == "" then None else Some(t), buffer[end + 1..])
  }

  lemma {:induction false} FoundFirst(text: string, pat: string)
    requires pat != ""
    ensures
      var n := FindText(text, pat);
      if n < 0 then forall end :: !UpTo(text, pat, end) else UpTo(text, pat, n)
  {
    FindTextFirst(text, pat);
  }

  lemma {:induction false} FrontExactly(buffer: seq<Byte>)
    requires buffer != []
    ensures FrontIs(buffer, FrontOf(buffer))
  {
    if "Content-Length:" <= Decode(buffer) { SizedExactly(buffer); } else { LineExactly(buffer); }
  }

  lemma {:induction false} SizedExactly(buffer: seq<Byte>)
    ensures
      var text, front := Decode(buffer), SizedFront(buffer);
      if exists end :: UpTo(text, "\r\n\r\n", end) then exists end :: UpTo(text, "\r\n\r\n", end) && HeaderIs(buffer, text[..end], end + 4, front)
      else front == Wait
  {
    var text := Decode(buffer);
    FoundFirst(text, "\r\n\r\n");
    FoundInside(text, BREAK);
    var end := FindText(text, BREAK);
    if end >= 0 { assert HeaderIs(buffer, text[..end], end + 4, SizedFront(buffer)); }
  }

  lemma {:induction false} LineExactly(buffer: seq<Byte>)
    ensures
      var text, front := Decode(buffer), LineFront(buffer);
      if exists end :: UpTo(text, "\n", end) then exists end :: UpTo(text, "\n", end) && LineIs(buffer, text[..end], end, front)
      else front == Wait
  {
    var text := Decode(buffer);
    FoundFirst(text, "\n");
    FoundInside(text, "\n");
    DecodedLength(buffer);
    var end := FindText(text, "\n");
    if end >= 0 {
      StripExactly(text[..end], StripEdges(text[..end]));
      assert LineIs(buffer, text[..end], end, LineFront(buffer));
    }
  }

  // ---- what is read from the socket ----

  /** The reads up to the first that fails or gives nothing. */
  ghost predicate Until(incoming: seq<Read>, n: nat) {
    && n <= |incoming| && (forall i :: 0 <= i < n ==> incoming[i].Bytes? && incoming[i].data != [])
    && (n < |incoming| ==> incoming[n].ReadFailed? || incoming[n].data == [])
  }

  function DataOf(incoming: seq<Read>, n: nat): seq<Byte>
    requires n <= |incoming| && forall i :: 0 <= i < n ==> incoming[i].Bytes?
  {
    if n == 0 then [] else DataOf(incoming, n - 1) + incoming[n - 1].data
  }

  /** Reading takes what comes until nothing more is there; a failure loses it. */
  lemma {:induction false} ReadExactly(buffer: seq<Byte>, incoming: seq<Read>, n: nat)
    requires Until(incoming, n)
    ensures ReadAll(buffer, incoming) == if n < |incoming| && incoming[n].ReadFailed? then None else Some(buffer + DataOf(incoming, n))
  {
    var read := buffer;
    assert incoming[0..] == incoming && buffer + [] == buffer;
    for i := 0 to n
      invariant read == buffer + DataOf(incoming, i) && ReadAll(read, incoming[i..]) == ReadAll(buffer, incoming)
    {
      assert incoming[i..][1..] == incoming[i + 1..];
      assert buffer + DataOf(incoming, i) + incoming[i].data == buffer + DataOf(incoming, i + 1);
      read := read + incoming[i].data;
    }
  }
}
