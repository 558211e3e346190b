/** The indentation-stack parser for assets.lock. */
module LockYaml {
  import opened Text
  import opened Utf8
  import opened LockText

  datatype Yaml = Scalar(text: string) | Mapping(fields: map<string, Yaml>)

  /** An open mapping: its indentation and the keys that lead to it. */
  datatype Frame = Frame(indent: int, path: seq<string>)

  datatype State = State(root: map<string, Yaml>, stack: seq<Frame>)

  datatype ParseError = OddIndent | IndentJump | NoColon | EmptyKey | LineTooLong

  datatype Result<T> = Ok(value: T) | Err(error: ParseError)

  const START: State := State(map[], [Frame(-2, [])])

  // ---- lines ----

  /** The line scanner's buffer: a line and its newline have to fit. */
  const MAX_TOKEN := 65536

  predicate Fits(line: string) { Utf8Length(line) < MAX_TOKEN }

  function DropCR(s: string): string {
    if s != "" && s[|s| - 1] == '\r' then s[..|s| - 1] else s
  }

  datatype Scanned = Scanned(lines: seq<string>, tooLong: bool)

  /** Splits a text into lines, stopping at one that is too long. */
  function ScanLines(text: string): Scanned
    decreases |text|
  {
    if text == "" then Scanned([], false)
    else
      var n := FindChar(text, '\n');
      if !Fits(text[..n]) then Scanned([], true)
      else if n == |text| then Scanned([DropCR(text)], false)
      else
        var rest := ScanLines(text[n + 1..]);
        Scanned([DropCR(text[..n])] + rest.lines, rest.tooLong)
  }

  function JoinLines(lines: seq<string>): string {
    if lines == [] then "" else lines[0] + "\n" + JoinLines(lines[1..])
  }

  predicate PlainLine(line: string) { '\n' !in line && DropCR(line) == line }

  lemma {:induction false} ScanInvertsJoin(lines: seq<string>)
    requires forall i :: 0 <= i < |lines| ==> PlainLine(lines[i])
    ensures (forall i :: 0 <= i < |lines| ==> Fits(lines[i])) ==> ScanLines(JoinLines(lines)) == Scanned(lines, false)
    ensures (exists i :: 0 <= i < |lines| && !Fits(lines[i])) ==> ScanLines(JoinLines(lines)).tooLong
  {
    if lines != [] {
      var text, rest := JoinLines(lines), JoinLines(lines[1..]);
      ScanInvertsJoin(lines[1..]);
      FindInLine(lines[0], rest);
      assert text == lines[0] + ("\n" + rest);
      assert text[..|lines[0]|] == lines[0] && text[|lines[0]| + 1..] == rest;
      assert forall i :: 0 < i < |lines| ==> lines[i] == lines[1..][i - 1];
    }
  }

  lemma {:induction false} FindInLine(line: string, rest: string)
    requires '\n' !in line
    ensures FindChar(line + "\n" + rest, '\n') == |line|
  {
    var text := line + "\n" + rest;
    var n := FindChar(text, '\n');
    assert text[|line|] == '\n';
    assert forall i :: 0 <= i < |line| ==> text[i] == line[i];
  }

  // ---- one line ----

  function LeadingSpaces(s: string): nat {
    if s != "" && s[0] == ' ' then 1 + LeadingSpaces(s[1..]) else 0
  }

  /** Closes the mappings that an indentation does not lie inside. */
  function Pop(stack: seq<Frame>, indent: int): (r: seq<Frame>)
    ensures stack != [] ==> r != []
  {
    if |stack| > 1 && indent <= stack[|stack| - 1].indent then Pop(stack[..|stack| - 1], indent) else stack
  }

  function SetIn(m: map<string, Yaml>, path: seq<string>, key: string, value: Yaml): map<string, Yaml>
    decreases |path|
  {
    if path == [] then m[key := value]
    else if path[0] in m && m[path[0]].Mapping? then m[path[0] := Mapping(SetIn(m[path[0]].fields, path[1..], key, value))]
    else m
  }

  function ParseLine(st: State, raw: string): Result<State>
    requires st.stack != []
    ensures ParseLine(st, raw).Ok? ==> ParseLine(st, raw).value.stack != []
  {
    var line := StripInlineComment(raw);
    var trimmed := TrimSpace(line);
    if trimmed == "" || trimmed == "---" || trimmed == "..." then Ok(st)
    else ParseEntry(st, LeadingSpaces(line), trimmed)
  }

  function ParseEntry(st: State, indent: nat, trimmed: string): Result<State>
    requires st.stack != []
    ensures ParseEntry(st, indent, trimmed).Ok? ==> ParseEntry(st, indent, trimmed).value.stack != []
  {
    var stack := Pop(st.stack, indent);
    var top := stack[|stack| - 1];
    var colon := FindChar(trimmed, ':');
    if indent % 2 != 0 then Err(OddIndent)
    else if indent > top.indent + 2 then Err(IndentJump)
    else if colon == |trimmed| then Err(NoColon)
    else
      var key := TrimSpace(trimmed[..colon]);
      var value := TrimSpace(trimmed[colon + 1..]);
      if key == "" then Err(EmptyKey)
      else if value == "" then
        Ok(State(SetIn(st.root, top.path, key, Mapping(map[])), stack + [Frame(indent, top.path + [key])]))
      else
        Ok(State(SetIn(st.root, top.path, key, Scalar(UnquoteScalar(value))), stack))
  }

  function ParseLines(st: State, lines: seq<string>): Result<State>
    requires st.stack != []
    decreases |lines|
  {
    if lines == [] then Ok(st)
    else
      match ParseLine(st, lines[0])
      case Err(e) => Err(e)
      case Ok(st1) => ParseLines(st1, lines[1..])
  }

  function Parse(text: string): Result<map<string, Yaml>> {
    var scanned := ScanLines(text);
    match ParseLines(START, scanned.lines)
    case Err(e) => Err(e)
    case Ok(st) => if scanned.tooLong then Err(LineTooLong) else Ok(st.root)
  }

  /** One line, as the loop deals with it: the mappings it does not lie in are
      closed, then its key is set. */
  method ParseOneLine(st: State, raw: string) returns (r: Result<State>)
    requires st.stack != []
    ensures r == ParseLine(st, raw)
  {
    var line := StripComment(raw);
    var trimmed := TrimSpace(line);
    if trimmed == "" || trimmed == "---" || trimmed == "..." { return Ok(st); }
    var indent := LeadingSpaces(line);
    if indent % 2 != 0 { return Err(OddIndent); }
    var stack := st.stack;
    while |stack| > 1 && indent <= stack[|stack| - 1].indent
      invariant stack != [] && Pop(stack, indent) == Pop(st.stack, indent)
    {
      stack := stack[..|stack| - 1];
    }
    var top := stack[|stack| - 1];
    if indent > top.indent + 2 { return Err(IndentJump); }
    var colon := FindChar(trimmed, ':');
    if colon == |trimmed| { return Err(NoColon); }
    var key := TrimSpace(trimmed[..colon]);
    if key == "" { return Err(EmptyKey); }
    var value := TrimSpace(trimmed[colon + 1..]);
    if value == "" {
      return Ok(State(SetIn(st.root, top.path, key, Mapping(map[])), stack + [Frame(indent, top.path + [key])]));
    }
    return Ok(State(SetIn(st.root, top.path, key, Scalar(UnquoteScalar(value))), stack));
  }

  lemma {:induction false} NextLine(st: State, lines: seq<string>, n: nat)
    requires st.stack != [] && n < |lines|
    ensures ParseLines(st, lines[n..]) ==
      match ParseLine(st, lines[n])
      case Err(e) => Err(e)
      case Ok(st1) => ParseLines(st1, lines[n + 1..])
  {
    assert lines[n..][1..] == lines[n + 1..];
  }

  /** The parser as a loop that updates the tree and the stack. */
  method ParseYamlMap(text: string) returns (r: Result<map<string, Yaml>>)
    ensures r == Parse(text)
  {
    var scanned := ScanLines(text);
    var st := START;
    for n := 0 to |scanned.lines|
      invariant st.stack != []
      invariant ParseLines(st, scanned.lines[n..]) == ParseLines(START, scanned.lines)
    {
      NextLine(st, scanned.lines, n);
      var next := ParseOneLine(st, scanned.lines[n]);
      if next.Err? { return Err(next.error); }
      st := next.value;
    }
    if scanned.tooLong { return Err(LineTooLong); }
    return Ok(st.root);
  }
}
