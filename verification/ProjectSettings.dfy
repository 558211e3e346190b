/** The line editor for the sections and keys of project.godot. */
module ProjectSettings {
  import opened Options
  import opened Text

  // ---- the path of a setting ----

  datatype Setting = Setting(section: string, key: string)

  function TrimLeftSlashes(s: string): string {
    if s != "" && s[0] == '/' then TrimLeftSlashes(s[1..]) else s
  }

  function TrimRightSlashes(s: string): string {
    if s != "" && s[|s| - 1] == '/' then TrimRightSlashes(s[..|s| - 1]) else s
  }

  function TrimSlashes(s: string): string { TrimRightSlashes(TrimLeftSlashes(s)) }

  /** section/key, cut at the first slash; neither part may be blank. */
  function SplitSetting(path: string): (r: Option<Setting>)
    ensures r.Some? ==>
      && '/' !in r.value.section && !Blank(r.value.section) && !Blank(r.value.key)
      && r.value.section + "/" + r.value.key == TrimSlashes(TrimSpace(path))
  {
    var p := TrimSlashes(TrimSpace(path));
    var n := FindChar(p, '/');
    if n == |p| || Blank(p[..n]) || Blank(p[n + 1..]) then None
    else
      assert p[..n] + "/" + p[n + 1..] == p;
      Some(Setting(p[..n], p[n + 1..]))
  }

  // ---- text and lines ----

  function CollapseCRLF(s: string): string
    decreases |s|
  {
    if |s| < 2 then s
    else if s[0] == '\r' && s[1] == '\n' then "\n" + CollapseCRLF(s[2..])
    else [s[0]] + CollapseCRLF(s[1..])
  }

  function ReplaceCR(s: string): string {
    if s == "" then "" else [if s[0] == '\r' then '\n' else s[0]] + ReplaceCR(s[1..])
  }

  function NormalizeNewlines(s: string): string {
    ReplaceCR(CollapseCRLF(s))
  }

  function SplitLines(s: string): (lines: seq<string>)
    ensures lines != []
  {
    if s == "" then [""]
    else
      var rest := SplitLines(s[1..]);
      if s[0] == '\n' then [""] + rest else [[s[0]] + rest[0]] + rest[1..]
  }

  function JoinLines(lines: seq<string>): string {
    if lines == [] then ""
    else if |lines| == 1 then lines[0]
    else lines[0] + "\n" + JoinLines(lines[1..])
  }

  function LinesOf(text: string): seq<string> {
    SplitLines(NormalizeNewlines(text))
  }

  function TrimTrailing(lines: seq<string>): seq<string> {
    if lines != [] && Blank(lines[|lines| - 1]) then TrimTrailing(lines[..|lines| - 1]) else lines
  }

  /** The text written for some lines. */
  function Written(lines: seq<string>): string {
    JoinLines(TrimTrailing(lines)) + "\n"
  }

  predicate OneLine(s: string) { '\n' !in s && '\r' !in s }

  ghost predicate OneLiners(lines: seq<string>) {
    forall i :: 0 <= i < |lines| ==> OneLine(lines[i])
  }

  // ---- reading back what was written ----

  lemma {:induction false} NoCRLeft(s: string)
    ensures '\r' !in ReplaceCR(s)
  {
    if s != "" { NoCRLeft(s[1..]); }
  }

  lemma {:induction false} SplitOneLiners(s: string)
    requires '\r' !in s
    ensures OneLiners(SplitLines(s))
  {
    if s != "" { SplitOneLiners(s[1..]); }
  }

  lemma {:induction false} LinesAreOneLiners(text: string)
    ensures OneLiners(LinesOf(text))
  {
    NoCRLeft(CollapseCRLF(text));
    SplitOneLiners(NormalizeNewlines(text));
  }

  lemma {:induction false} NormalizedAlready(s: string)
    requires '\r' !in s
    ensures NormalizeNewlines(s) == s
  {
    CollapseNothing(s);
    ReplaceNothing(s);
  }

  lemma {:induction false} CollapseNothing(s: string)
    requires '\r' !in s
    ensures CollapseCRLF(s) == s
    decreases |s|
  {
    if |s| >= 2 { CollapseNothing(s[1..]); }
  }

  lemma {:induction false} ReplaceNothing(s: string)
    requires '\r' !in s
    ensures ReplaceCR(s) == s
  {
    if s != "" { ReplaceNothing(s[1..]); }
  }

  lemma {:induction false} SplitFirst(line: string, rest: string)
    requires '\n' !in line
    ensures SplitLines(line + "\n" + rest) == [line] + SplitLines(rest)
  {
    if line == "" {
      assert line + "\n" + rest == "\n" + rest;
      assert ("\n" + rest)[1..] == rest;
    } else {
      SplitFirst(line[1..], rest);
      assert (line + "\n" + rest)[1..] == line[1..] + "\n" + rest;
      assert [line[0]] + line[1..] == line;
    }
  }

  lemma {:induction false} SplitInvertsJoin(lines: seq<string>)
    requires OneLiners(lines) && lines != []
    ensures SplitLines(JoinLines(lines) + "\n") == lines + [""]
    ensures '\r' !in JoinLines(lines)
  {
    if |lines| == 1 {
      SplitFirst(lines[0], "");
      assert JoinLines(lines) + "\n" == lines[0] + "\n" + "";
    } else {
      SplitInvertsJoin(lines[1..]);
      SplitFirst(lines[0], JoinLines(lines[1..]) + "\n");
      LastBreak(lines[0], JoinLines(lines[1..]));
      assert lines + [""] == [lines[0]] + (lines[1..] + [""]);
    }
  }

  lemma {:induction false} LastBreak(first: string, rest: string)
    ensures (first + "\n" + rest) + "\n" == first + "\n" + (rest + "\n")
  {}

  lemma {:induction false} TrimTrailingFacts(lines: seq<string>)
    ensures TrimTrailing(lines) <= lines
    ensures TrimTrailing(lines) == [] || !Blank(TrimTrailing(lines)[|TrimTrailing(lines)| - 1])
    ensures forall i :: |TrimTrailing(lines)| <= i < |lines| ==> Blank(lines[i])
  {
    if lines != [] && Blank(lines[|lines| - 1]) { TrimTrailingFacts(lines[..|lines| - 1]); }
  }

  /** Lines come back, without trailing blanks and with one empty line more. */
  lemma {:induction false} WrittenReadBack(lines: seq<string>)
    requires OneLiners(lines) && TrimTrailing(lines) != []
    ensures LinesOf(Written(lines)) == TrimTrailing(lines) + [""]
  {
    var trimmed := TrimTrailing(lines);
    TrimTrailingFacts(lines);
    assert OneLiners(trimmed);
    SplitInvertsJoin(trimmed);
    NormalizedAlready(Written(lines));
  }

  // ---- sections ----

  predicate Bracketed(line: string) {
    HasPrefix(TrimSpace(line), "[") && HasSuffix(TrimSpace(line), "]")
  }

  predicate IsHeader(line: string, header: string) { TrimSpace(line) == header }

  /** Where a section starts and ends, scanning from a line on; a repeated
      header moves the start. */
  function BoundsFrom(lines: seq<string>, header: string, idx: nat, start: int): (int, int)
    requires idx <= |lines|
    decreases |lines| - idx
  {
    if idx == |lines| then (start, |lines|)
    else if IsHeader(lines[idx], header) then BoundsFrom(lines, header, idx + 1, idx)
    else if start != -1 && Bracketed(lines[idx]) then (start, idx)
    else BoundsFrom(lines, header, idx + 1, start)
  }

  function Bounds(lines: seq<string>, header: string): (int, int) {
    BoundsFrom(lines, header, 0, -1)
  }

  method FindSectionBounds(lines: seq<string>, header: string) returns (start: int, end: int)
    ensures (start, end) == Bounds(lines, header)
  {
    start, end := -1, |lines|;
    for idx := 0 to |lines|
      invariant end == |lines|
      invariant BoundsFrom(lines, header, idx, start) == Bounds(lines, header)
    {
      var line := lines[idx];
      if IsHeader(line, header) {
        start := idx;
        continue;
      }
      if start != -1 && Bracketed(line) {
        end := idx;
        break;
      }
    }
  }

  predicate IsKeyLine(line: string, prefix: string) { HasPrefix(TrimSpace(line), prefix) }

  /** Neither the header nor another section's. */
  ghost predicate Inner(lines: seq<string>, header: string) {
    forall i :: 0 <= i < |lines| ==> !IsHeader(lines[i], header) && !Bracketed(lines[i])
  }

  /** The lines up to a section's header, its own lines, and what follows. */
  ghost predicate Located(before: seq<string>, own: seq<string>, after: seq<string>, header: string) {
    && before != [] && Bounds(before, header) == (|before| - 1, |before|)
    && Inner(own, header)
    && (after != [] ==> Bracketed(after[0]) && !IsHeader(after[0], header))
  }

  lemma {:induction false} BoundsGrow(lines: seq<string>, more: seq<string>, header: string, idx: nat, start: int)
    requires idx <= |lines| && BoundsFrom(lines, header, idx, start).1 == |lines|
    ensures BoundsFrom(lines + more, header, idx, start)
      == BoundsFrom(lines + more, header, |lines|, BoundsFrom(lines, header, idx, start).0)
    decreases |lines| - idx
  {
    if idx < |lines| {
      assert (lines + more)[idx] == lines[idx];
      if IsHeader(lines[idx], header) { BoundsGrow(lines, more, header, idx + 1, idx); }
      else if start == -1 || !Bracketed(lines[idx]) { BoundsGrow(lines, more, header, idx + 1, start); }
    }
  }

  lemma {:induction false} BoundsSkip(lines: seq<string>, header: string, idx: nat, end: nat, start: int)
    requires idx <= end <= |lines|
    requires forall i :: idx <= i < end ==> !IsHeader(lines[i], header) && !Bracketed(lines[i])
    ensures BoundsFrom(lines, header, idx, start) == BoundsFrom(lines, header, end, start)
    decreases end - idx
  {
    if idx < end { BoundsSkip(lines, header, idx + 1, end, start); }
  }

  /** A located section is where the scan finds it. */
  lemma {:induction false} BoundsOfLocated(before: seq<string>, own: seq<string>, after: seq<string>, header: string)
    requires Located(before, own, after, header)
    ensures Bounds(before + own + after, header) == (|before| - 1, |before| + |own|)
  {
    var lines := before + (own + after);
    assert lines == before + own + after;
    BoundsGrow(before, own + after, header, 0, -1);
    assert forall i :: 0 <= i < |own| ==> lines[|before| + i] == own[i];
    forall i | |before| <= i < |before| + |own| ensures !IsHeader(lines[i], header) && !Bracketed(lines[i]) {
      assert lines[i] == own[i - |before|];
    }
    BoundsSkip(lines, header, |before|, |before| + |own|, |before| - 1);
    if after != [] { assert lines[|before| + |own|] == after[0]; }
  }

  /** What a scan from idx on, with this start so far, can find. */
  ghost predicate Spans(lines: seq<string>, header: string, idx: nat, start: int, s: int, e: int) {
    && start <= s < e + 1 && idx <= e <= |lines|
    && (s == start || (idx <= s < e && IsHeader(lines[s], header)))
    && (s == -1 ==> e == |lines|)
    && (forall i :: idx <= i < e && s < i ==> !IsHeader(lines[i], header))
    && (s != -1 ==> forall i :: idx <= i < e && s < i ==> !Bracketed(lines[i]))
    && (e < |lines| ==> Bracketed(lines[e]) && !IsHeader(lines[e], header))
  }

  lemma {:induction false} SpansPastHeader(lines: seq<string>, header: string, idx: nat, start: int, s: int, e: int)
    requires idx < |lines| && -1 <= start < idx && IsHeader(lines[idx], header) && Spans(lines, header, idx + 1, idx, s, e)
    ensures Spans(lines, header, idx, start, s, e)
  {}

  lemma {:induction false} SpansPastLine(lines: seq<string>, header: string, idx: nat, start: int, s: int, e: int)
    requires idx < |lines| && -1 <= start < idx && !IsHeader(lines[idx], header) && (start == -1 || !Bracketed(lines[idx]))
    requires Spans(lines, header, idx + 1, start, s, e)
    ensures Spans(lines, header, idx, start, s, e)
  {}

  lemma {:induction false} BoundsFacts(lines: seq<string>, header: string, idx: nat, start: int)
    requires idx <= |lines| && -1 <= start < idx
    ensures
      var (s, e) := BoundsFrom(lines, header, idx, start);
      Spans(lines, header, idx, start, s, e)
    decreases |lines| - idx
  {
    var (s, e) := BoundsFrom(lines, header, idx, start);
    if idx < |lines| {
      if IsHeader(lines[idx], header) {
        BoundsFacts(lines, header, idx + 1, idx);
        SpansPastHeader(lines, header, idx, start, s, e);
      } else if start == -1 || !Bracketed(lines[idx]) {
        BoundsFacts(lines, header, idx + 1, start);
        SpansPastLine(lines, header, idx, start, s, e);
      }
    }
  }

  /** Cut behind the start that was found, the scan finds the same start. */
  lemma {:induction false} BoundsOfPrefix(lines: seq<string>, header: string, idx: nat, start: int)
    requires idx <= |lines| && -1 <= start < idx
    ensures
      var s := BoundsFrom(lines, header, idx, start).0;
      s >= idx ==> s < |lines| && BoundsFrom(lines[..s + 1], header, idx, start) == (s, s + 1)
    decreases |lines| - idx
  {
    StartFound(lines, header, idx, start);
    var s := BoundsFrom(lines, header, idx, start).0;
    if s >= idx {
      var next := if IsHeader(lines[idx], header) then idx else start;
      StartFound(lines, header, idx + 1, next);
      BoundsOfPrefix(lines, header, idx + 1, next);
      PrefixStep(lines, header, idx, start, s);
    }
  }

  lemma {:induction false} StartFound(lines: seq<string>, header: string, idx: nat, start: int)
    requires idx <= |lines| && -1 <= start < idx
    ensures
      var s := BoundsFrom(lines, header, idx, start).0;
      && (s == start || idx <= s < |lines|)
      && (s >= idx ==> s == BoundsFrom(lines, header, idx + 1, if IsHeader(lines[idx], header) then idx else start).0)
      && (s >= idx && !IsHeader(lines[idx], header) ==> start == -1 || !Bracketed(lines[idx]))
  {
    BoundsFacts(lines, header, idx, start);
  }

  lemma {:induction false} PrefixStep(lines: seq<string>, header: string, idx: nat, start: int, s: int)
    requires idx <= s < |lines| && -1 <= start < idx
    requires
      var next := if IsHeader(lines[idx], header) then idx else start;
      (s == idx && next == idx) || (s > idx && BoundsFrom(lines[..s + 1], header, idx + 1, next) == (s, s + 1))
    requires !IsHeader(lines[idx], header) ==> start == -1 || !Bracketed(lines[idx])
    ensures BoundsFrom(lines[..s + 1], header, idx, start) == (s, s + 1)
  {
    assert lines[..s + 1][idx] == lines[idx];
    if s == idx { assert BoundsFrom(lines[..s + 1], header, idx + 1, idx) == (s, s + 1); }
  }

  /** Where the scan finds a section, it is located. */
  lemma {:induction false} LocateFound(lines: seq<string>, header: string)
    requires Bounds(lines, header).0 != -1
    ensures
      var (s, e) := Bounds(lines, header);
      && 0 <= s < e <= |lines|
      && lines == lines[..s + 1] + lines[s + 1..e] + lines[e..]
      && Located(lines[..s + 1], lines[s + 1..e], lines[e..], header)
      && IsHeader(lines[s], header)
  {
    BoundsFacts(lines, header, 0, -1);
    BoundsOfPrefix(lines, header, 0, -1);
    var (s, e) := Bounds(lines, header);
    CutTwice(lines, s + 1, e);
    SpannedInner(lines, header, s, e);
  }

  lemma {:induction false} CutTwice(lines: seq<string>, i: nat, j: nat)
    requires i <= j <= |lines|
    ensures lines == lines[..i] + lines[i..j] + lines[j..]
  {}

  lemma {:induction false} SpannedInner(lines: seq<string>, header: string, s: int, e: int)
    requires 0 <= s && Spans(lines, header, 0, -1, s, e)
    ensures Inner(lines[s + 1..e], header)
  {}

  // ---- editing ----

  /** A section's lines with every line of a key replaced, or one line added. */
  function ReplaceKey(own: seq<string>, prefix: string, target: string): seq<string> {
    if own == [] then []
    else ReplaceKey(own[..|own| - 1], prefix, target) + [if IsKeyLine(own[|own| - 1], prefix) then target else own[|own| - 1]]
  }

  function DropKey(own: seq<string>, prefix: string): seq<string> {
    if own == [] then []
    else DropKey(own[..|own| - 1], prefix) + (if IsKeyLine(own[|own| - 1], prefix) then [] else [own[|own| - 1]])
  }

  predicate HasKey(own: seq<string>, prefix: string) {
    exists i :: 0 <= i < |own| && IsKeyLine(own[i], prefix)
  }

  function SetOwn(own: seq<string>, prefix: string, target: string): seq<string> {
    if HasKey(own, prefix) then ReplaceKey(own, prefix, target) else own + [target]
  }

  function SetLines(lines: seq<string>, header: string, prefix: string, target: string): seq<string> {
    var (s, e) := Bounds(lines, header);
    if s == -1 || !(0 <= s < e <= |lines|) then
      lines + (if lines != [] && !Blank(lines[|lines| - 1]) then [""] else []) + [header, target]
    else lines[..s + 1] + SetOwn(lines[s + 1..e], prefix, target) + lines[e..]
  }

  function RemoveLines(lines: seq<string>, header: string, prefix: string): seq<string> {
    var (s, e) := Bounds(lines, header);
    if s == -1 || !(0 <= s < e <= |lines|) then lines
    else lines[..s + 1] + DropKey(lines[s + 1..e], prefix) + lines[e..]
  }

  function Header(section: string): string { "[" + section + "]" }

  function KeyPrefix(key: string): string { key + "=" }

  /** The text after setting a key of a section. */
  function SetText(text: string, section: string, key: string, value: string): string {
    Written(SetLines(LinesOf(text), Header(section), KeyPrefix(key), KeyPrefix(key) + value))
  }

  /** The text after removing a key; the file is left alone without it. */
  function RemoveText(text: string, section: string, key: string): string {
    var lines := LinesOf(text);
    var removed := RemoveLines(lines, Header(section), KeyPrefix(key));
    if removed == lines then text else Written(removed)
  }

  // ---- the editor as loops ----

  method TrimTrailingBlankLines(lines: seq<string>) returns (trimmed: seq<string>)
    ensures trimmed == TrimTrailing(lines)
  {
    var end := |lines|;
    assert lines[..end] == lines;
    while end > 0 && Blank(lines[end - 1])
      invariant 0 <= end <= |lines| && TrimTrailing(lines[..end]) == TrimTrailing(lines)
    {
      assert lines[..end][..end - 1] == lines[..end - 1];
      end := end - 1;
    }
    trimmed := lines[..end];
  }

  lemma {:induction false} HasKeyMore(own: seq<string>, line: string, prefix: string)
    ensures HasKey(own + [line], prefix) <==> HasKey(own, prefix) || IsKeyLine(line, prefix)
  {
    var more := own + [line];
    assert more[|own|] == line;
    if HasKey(own, prefix) { var i :| 0 <= i < |own| && IsKeyLine(own[i], prefix); assert more[i] == own[i]; }
  }

  lemma {:induction false} ReplaceNoKey(own: seq<string>, prefix: string, target: string)
    requires !HasKey(own, prefix)
    ensures ReplaceKey(own, prefix, target) == own && DropKey(own, prefix) == own
  {
    if own != [] {
      var front, last := own[..|own| - 1], own[|own| - 1];
      assert own == front + [last];
      HasKeyMore(front, last, prefix);
      ReplaceNoKey(front, prefix, target);
    }
  }

  /** What the loops over all lines have produced so far. */
  datatype Progress = Progress(result: seq<string>, updated: bool)

  function SetUpTo(lines: seq<string>, s: int, e: int, prefix: string, target: string, n: nat): Progress
    requires n <= |lines|
  {
    if n == 0 then Progress([], false)
    else
      var p := SetUpTo(lines, s, e, prefix, target, n - 1);
      if s < n - 1 < e && IsKeyLine(lines[n - 1], prefix) then Progress(p.result + [target], true)
      else if n - 1 == e - 1 && !p.updated then Progress(p.result + [lines[n - 1], target], true)
      else Progress(p.result + [lines[n - 1]], p.updated)
  }

  lemma {:induction false} SliceMore(front: seq<string>, lines: seq<string>, e: nat, n: nat)
    requires e < n <= |lines|
    ensures front + lines[e..n] == front + lines[e..n - 1] + [lines[n - 1]]
  {
    assert lines[e..n] == lines[e..n - 1] + [lines[n - 1]];
  }

  lemma {:induction false} NoSlice(front: seq<string>, lines: seq<string>, e: nat)
    requires e <= |lines|
    ensures front + lines[e..e] == front
  {}

  lemma {:induction false} SetBefore(lines: seq<string>, s: int, e: int, prefix: string, target: string, n: nat)
    requires 0 <= s < e <= |lines| && n <= s + 1 && n < e
    ensures SetUpTo(lines, s, e, prefix, target, n) == Progress(lines[..n], false)
  {
    if n > 0 {
      SetBefore(lines, s, e, prefix, target, n - 1);
      assert lines[..n] == lines[..n - 1] + [lines[n - 1]];
    }
  }

  lemma {:induction false} SetInside(lines: seq<string>, s: int, e: int, prefix: string, target: string, n: nat)
    requires 0 <= s < n < e <= |lines|
    ensures SetUpTo(lines, s, e, prefix, target, n)
      == Progress(lines[..s + 1] + ReplaceKey(lines[s + 1..n], prefix, target), HasKey(lines[s + 1..n], prefix))
  {
    SetBefore(lines, s, e, prefix, target, s + 1);
    SetPastHeader(lines, s, e, prefix, target, n, lines[..s + 1]);
    SetFound(lines, s, e, prefix, target, n);
  }

  lemma {:induction false} SetFound(lines: seq<string>, s: int, e: int, prefix: string, target: string, n: nat)
    requires 0 <= s < n < e <= |lines| && !SetUpTo(lines, s, e, prefix, target, s + 1).updated
    ensures SetUpTo(lines, s, e, prefix, target, n).updated <==> HasKey(lines[s + 1..n], prefix)
  {
    if n > s + 1 {
      SetFound(lines, s, e, prefix, target, n - 1);
      SetStepInside(lines, s, e, prefix, target, n);
      OwnKeyMore(lines, s, n, prefix);
    }
  }

  lemma {:induction false} NothingYet(lines: seq<string>, n: nat, prefix: string, target: string, before: seq<string>)
    requires n <= |lines|
    ensures before + ReplaceKey(lines[n..n], prefix, target) == before == before + DropKey(lines[n..n], prefix)
  {
    assert lines[n..n] == [];
  }

  lemma {:induction false} SetPastHeader(lines: seq<string>, s: int, e: int, prefix: string, target: string, n: nat, before: seq<string>)
    requires 0 <= s < n < e <= |lines| && SetUpTo(lines, s, e, prefix, target, s + 1).result == before
    ensures SetUpTo(lines, s, e, prefix, target, n).result == before + ReplaceKey(lines[s + 1..n], prefix, target)
  {
    NothingYet(lines, s + 1, prefix, target, before);
    for i := s + 1 to n
      invariant SetUpTo(lines, s, e, prefix, target, i).result == before + ReplaceKey(lines[s + 1..i], prefix, target)
    {
      SetStepBehind(lines, s, e, prefix, target, i + 1, before);
    }
  }

  lemma {:induction false} SetStepBehind(lines: seq<string>, s: int, e: int, prefix: string, target: string, n: nat, before: seq<string>)
    requires 0 <= s < n - 1 && n < e <= |lines|
    requires SetUpTo(lines, s, e, prefix, target, n - 1).result == before + ReplaceKey(lines[s + 1..n - 1], prefix, target)
    ensures SetUpTo(lines, s, e, prefix, target, n).result == before + ReplaceKey(lines[s + 1..n], prefix, target)
  {
    SetStepInside(lines, s, e, prefix, target, n);
    OwnMore(lines, s, n, prefix, target);
    GrownBehind(before, ReplaceKey(lines[s + 1..n - 1], prefix, target), [if IsKeyLine(lines[n - 1], prefix) then target else lines[n - 1]],
                ReplaceKey(lines[s + 1..n], prefix, target), SetUpTo(lines, s, e, prefix, target, n - 1).result,
                SetUpTo(lines, s, e, prefix, target, n).result);
  }

  lemma {:induction false} SetStepInside(lines: seq<string>, s: int, e: int, prefix: string, target: string, n: nat)
    requires s < n - 1 && n < e <= |lines| && 0 < n
    ensures
      var p := SetUpTo(lines, s, e, prefix, target, n - 1);
      SetUpTo(lines, s, e, prefix, target, n) ==
        Progress(p.result + [if IsKeyLine(lines[n - 1], prefix) then target else lines[n - 1]], p.updated || IsKeyLine(lines[n - 1], prefix))
  {}

  /** What grows behind `before` grows at the end of the whole. */
  lemma {:induction false} GrownBehind(before: seq<string>, own: seq<string>, more: seq<string>, own': seq<string>,
                                       whole: seq<string>, whole': seq<string>)
    requires whole == before + own && whole' == whole + more && own' == own + more
    ensures whole' == before + own'
  {}

  lemma {:induction false} OwnMore(lines: seq<string>, s: int, n: nat, prefix: string, target: string)
    requires 0 <= s < n - 1 < |lines|
    ensures
      var front, last := lines[s + 1..n - 1], lines[n - 1];
      && ReplaceKey(lines[s + 1..n], prefix, target) == ReplaceKey(front, prefix, target) + [if IsKeyLine(last, prefix) then target else last]
      && DropKey(lines[s + 1..n], prefix) == DropKey(front, prefix) + (if IsKeyLine(last, prefix) then [] else [last])
  {
    var own := lines[s + 1..n];
    assert own[..|own| - 1] == lines[s + 1..n - 1];
  }

  lemma {:induction false} OwnKeyMore(lines: seq<string>, s: int, n: nat, prefix: string)
    requires 0 <= s < n - 1 < |lines|
    ensures HasKey(lines[s + 1..n], prefix) <==> HasKey(lines[s + 1..n - 1], prefix) || IsKeyLine(lines[n - 1], prefix)
  {
    assert lines[s + 1..n] == lines[s + 1..n - 1] + [lines[n - 1]];
    HasKeyMore(lines[s + 1..n - 1], lines[n - 1], prefix);
  }

  lemma {:induction false} SetAtEnd(lines: seq<string>, s: int, e: int, prefix: string, target: string)
    requires 0 <= s < e <= |lines|
    ensures SetUpTo(lines, s, e, prefix, target, e) == Progress(lines[..s + 1] + SetOwn(lines[s + 1..e], prefix, target), true)
  {
    if e == s + 1 {
      SetEmpty(lines, s, prefix, target);
    } else {
      var own := lines[s + 1..e];
      SetInside(lines, s, e, prefix, target, e - 1);
      assert own[..|own| - 1] == lines[s + 1..e - 1] && own[|own| - 1] == lines[e - 1];
      LastLine(lines[..s + 1], own, prefix, target);
    }
  }

  /** A section of its header only: the target follows the header. */
  lemma {:induction false} SetEmpty(lines: seq<string>, s: nat, prefix: string, target: string)
    requires s < |lines|
    ensures SetUpTo(lines, s, s + 1, prefix, target, s + 1) == Progress(lines[..s + 1] + SetOwn(lines[s + 1..s + 1], prefix, target), true)
  {
    SetBefore(lines, s, s + 1, prefix, target, s);
    assert lines[s + 1..s + 1] == [] && lines[..s + 1] == lines[..s] + [lines[s]];
    assert lines[..s] + [lines[s], target] == lines[..s + 1] + [target];
  }

  /** At the section's last line: nothing replaced so far means one is added. */
  lemma {:induction false} LastLine(before: seq<string>, own: seq<string>, prefix: string, target: string)
    requires own != []
    ensures
      var front, last := own[..|own| - 1], own[|own| - 1];
      var r, updated := before + ReplaceKey(front, prefix, target), HasKey(front, prefix);
      before + SetOwn(own, prefix, target) ==
        if IsKeyLine(last, prefix) then r + [target] else if !updated then r + [last, target] else r + [last]
  {
    var front, last := own[..|own| - 1], own[|own| - 1];
    assert own == front + [last];
    HasKeyMore(front, last, prefix);
    if !HasKey(own, prefix) { ReplaceNoKey(front, prefix, target); }
  }

  lemma {:induction false} SetAfter(lines: seq<string>, s: int, e: int, prefix: string, target: string, n: nat)
    requires 0 <= s < e <= n <= |lines|
    ensures SetUpTo(lines, s, e, prefix, target, n)
      == Progress(lines[..s + 1] + SetOwn(lines[s + 1..e], prefix, target) + lines[e..n], true)
  {
    SetAtEnd(lines, s, e, prefix, target);
    SetPastSection(lines, s, e, prefix, target, n, lines[..s + 1] + SetOwn(lines[s + 1..e], prefix, target));
  }

  lemma {:induction false} SetPastSection(lines: seq<string>, s: int, e: int, prefix: string, target: string, n: nat, edited: seq<string>)
    requires 0 <= s < e <= n <= |lines| && SetUpTo(lines, s, e, prefix, target, e) == Progress(edited, true)
    ensures SetUpTo(lines, s, e, prefix, target, n) == Progress(edited + lines[e..n], true)
  {
    if n == e {
      NoSlice(edited, lines, e);
    } else {
      SetPastSection(lines, s, e, prefix, target, n - 1, edited);
      SliceMore(edited, lines, e, n);
      SetStepAfter(lines, s, e, prefix, target, n);
    }
  }

  lemma {:induction false} SetStepAfter(lines: seq<string>, s: int, e: int, prefix: string, target: string, n: nat)
    requires 0 <= s < e < n <= |lines| && SetUpTo(lines, s, e, prefix, target, n - 1).updated
    ensures SetUpTo(lines, s, e, prefix, target, n) == Progress(SetUpTo(lines, s, e, prefix, target, n - 1).result + [lines[n - 1]], true)
  {}

  /** Goes through all lines, replacing the key's lines inside the section, or
      adding one where the section ends; the line after the loop never runs. */
  method SetInSection(lines: seq<string>, s: int, e: int, prefix: string, target: string) returns (result: seq<string>)
    requires 0 <= s < e <= |lines|
    ensures result == lines[..s + 1] + SetOwn(lines[s + 1..e], prefix, target) + lines[e..]
  {
    result := [];
    var updated := false;
    for n := 0 to |lines|
      invariant Progress(result, updated) == SetUpTo(lines, s, e, prefix, target, n)
    {
      ghost var p := SetUpTo(lines, s, e, prefix, target, n);
      var line := lines[n];
      if n > s && n < e && IsKeyLine(line, prefix) {
        result := result + [target];
        updated := true;
        continue;
      }
      result := result + [line];
      if n == e - 1 && !updated {
        result := result + [target];
        updated := true;
        assert result == p.result + [line, target];
      }
    }
    SetAfter(lines, s, e, prefix, target, |lines|);
    assert updated && lines[e..|lines|] == lines[e..];
    if !updated { result := result + [target]; }
  }

  function DropUpTo(lines: seq<string>, s: int, e: int, prefix: string, n: nat): Progress
    requires n <= |lines|
  {
    if n == 0 then Progress([], false)
    else
      var p := DropUpTo(lines, s, e, prefix, n - 1);
      if s < n - 1 < e && IsKeyLine(lines[n - 1], prefix) then Progress(p.result, true)
      else Progress(p.result + [lines[n - 1]], p.updated)
  }

  lemma {:induction false} DropBefore(lines: seq<string>, s: int, e: int, prefix: string, n: nat)
    requires 0 <= s < e <= |lines| && n <= s + 1
    ensures DropUpTo(lines, s, e, prefix, n) == Progress(lines[..n], false)
  {
    if n > 0 {
      DropBefore(lines, s, e, prefix, n - 1);
      assert lines[..n] == lines[..n - 1] + [lines[n - 1]];
    }
  }

  lemma {:induction false} DropInside(lines: seq<string>, s: int, e: int, prefix: string, n: nat)
    requires 0 <= s < n <= e <= |lines|
    ensures DropUpTo(lines, s, e, prefix, n)
      == Progress(lines[..s + 1] + DropKey(lines[s + 1..n], prefix), HasKey(lines[s + 1..n], prefix))
  {
    DropBefore(lines, s, e, prefix, s + 1);
    DropPastHeader(lines, s, e, prefix, n, lines[..s + 1]);
    DropFound(lines, s, e, prefix, n);
  }

  lemma {:induction false} DropFound(lines: seq<string>, s: int, e: int, prefix: string, n: nat)
    requires 0 <= s < n <= e <= |lines| && !DropUpTo(lines, s, e, prefix, s + 1).updated
    ensures DropUpTo(lines, s, e, prefix, n).updated <==> HasKey(lines[s + 1..n], prefix)
  {
    if n > s + 1 {
      DropFound(lines, s, e, prefix, n - 1);
      DropStepInside(lines, s, e, prefix, n);
      OwnKeyMore(lines, s, n, prefix);
    }
  }

  lemma {:induction false} DropPastHeader(lines: seq<string>, s: int, e: int, prefix: string, n: nat, before: seq<string>)
    requires 0 <= s < n <= e <= |lines| && DropUpTo(lines, s, e, prefix, s + 1).result == before
    ensures DropUpTo(lines, s, e, prefix, n).result == before + DropKey(lines[s + 1..n], prefix)
  {
    if n == s + 1 {
      NothingYet(lines, n, prefix, "", before);
    } else {
      DropPastHeader(lines, s, e, prefix, n - 1, before);
      DropStepBehind(lines, s, e, prefix, n, before);
    }
  }

  lemma {:induction false} DropStepBehind(lines: seq<string>, s: int, e: int, prefix: string, n: nat, before: seq<string>)
    requires 0 <= s < n - 1 < e && n <= |lines|
    requires DropUpTo(lines, s, e, prefix, n - 1).result == before + DropKey(lines[s + 1..n - 1], prefix)
    ensures DropUpTo(lines, s, e, prefix, n).result == before + DropKey(lines[s + 1..n], prefix)
  {
    DropStepInside(lines, s, e, prefix, n);
    OwnMore(lines, s, n, prefix, "");
    GrownBehind(before, DropKey(lines[s + 1..n - 1], prefix), if IsKeyLine(lines[n - 1], prefix) then [] else [lines[n - 1]],
                DropKey(lines[s + 1..n], prefix), DropUpTo(lines, s, e, prefix, n - 1).result, DropUpTo(lines, s, e, prefix, n).result);
  }

  lemma {:induction false} DropStepInside(lines: seq<string>, s: int, e: int, prefix: string, n: nat)
    requires s < n - 1 < e && 0 < n <= |lines|
    ensures
      var p := DropUpTo(lines, s, e, prefix, n - 1);
      DropUpTo(lines, s, e, prefix, n) ==
        Progress(p.result + (if IsKeyLine(lines[n - 1], prefix) then [] else [lines[n - 1]]), p.updated || IsKeyLine(lines[n - 1], prefix))
  {
    var p := DropUpTo(lines, s, e, prefix, n - 1);
    assert p.result + [] == p.result;
  }

  lemma {:induction false} DropAfter(lines: seq<string>, s: int, e: int, prefix: string, n: nat)
    requires 0 <= s < e <= n <= |lines|
    ensures DropUpTo(lines, s, e, prefix, n)
      == Progress(lines[..s + 1] + DropKey(lines[s + 1..e], prefix) + lines[e..n], HasKey(lines[s + 1..e], prefix))
  {
    var edited := lines[..s + 1] + DropKey(lines[s + 1..e], prefix);
    if n == e {
      DropInside(lines, s, e, prefix, e);
      NoSlice(edited, lines, e);
    } else {
      DropAfter(lines, s, e, prefix, n - 1);
      SliceMore(edited, lines, e, n);
    }
  }

  lemma {:induction false} DropShorter(own: seq<string>, prefix: string)
    ensures |DropKey(own, prefix)| <= |own| && (HasKey(own, prefix) ==> |DropKey(own, prefix)| < |own|)
  {
    if own != [] {
      var front, last := own[..|own| - 1], own[|own| - 1];
      assert own == front + [last];
      HasKeyMore(front, last, prefix);
      DropShorter(front, prefix);
    }
  }

  lemma {:induction false} DropChanges(lines: seq<string>, s: int, e: int, prefix: string)
    requires 0 <= s < e <= |lines|
    ensures HasKey(lines[s + 1..e], prefix) <==> lines[..s + 1] + DropKey(lines[s + 1..e], prefix) + lines[e..] != lines
  {
    DropShorter(lines[s + 1..e], prefix);
    if !HasKey(lines[s + 1..e], prefix) { ReplaceNoKey(lines[s + 1..e], prefix, ""); }
    assert lines == lines[..s + 1] + lines[s + 1..e] + lines[e..];
  }

  method RemoveInSection(lines: seq<string>, s: int, e: int, prefix: string) returns (result: seq<string>, updated: bool)
    requires 0 <= s < e <= |lines|
    ensures result == lines[..s + 1] + DropKey(lines[s + 1..e], prefix) + lines[e..]
    ensures updated <==> result != lines
  {
    result, updated := [], false;
    for n := 0 to |lines|
      invariant Progress(result, updated) == DropUpTo(lines, s, e, prefix, n)
    {
      var line := lines[n];
      if n > s && n < e && IsKeyLine(line, prefix) {
        updated := true;
        continue;
      }
      result := result + [line];
    }
    DropAfter(lines, s, e, prefix, |lines|);
    DropChanges(lines, s, e, prefix);
    assert lines[e..|lines|] == lines[e..];
  }

  method SetSetting(text: string, section: string, key: string, value: string) returns (edited: string)
    ensures edited == SetText(text, section, key, value)
  {
    var lines, header := LinesOf(text), Header(section);
    var prefix := KeyPrefix(key);
    var start, end := FindSectionBounds(lines, header);
    BoundsFacts(lines, header, 0, -1);
    var result;
    if start == -1 {
      result := lines;
      if |result| > 0 && !Blank(result[|result| - 1]) { result := result + [""]; }
      assert lines + [] == lines;
      result := result + [header, prefix + value];
    } else {
      result := SetInSection(lines, start, end, prefix, prefix + value);
    }
    var trimmed := TrimTrailingBlankLines(result);
    edited := JoinLines(trimmed) + "\n";
  }

  method RemoveSetting(text: string, section: string, key: string) returns (edited: string)
    ensures edited == RemoveText(text, section, key)
  {
    var lines, header := LinesOf(text), Header(section);
    var start, end := FindSectionBounds(lines, header);
    BoundsFacts(lines, header, 0, -1);
    if start == -1 { return text; }
    var result, updated := RemoveInSection(lines, start, end, KeyPrefix(key));
    if !updated { return text; }
    var trimmed := TrimTrailingBlankLines(result);
    edited := JoinLines(trimmed) + "\n";
  }
}
