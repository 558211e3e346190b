/** Setting and removing a key, line by line: where a section is, which lines are
    the key's, and what is written for them. */
module SettingsLines {
  import opened Options
  import opened Text
  import opened ProjectSettings
  import opened SettingsEdits

  // ---- lines ----

  predicate SectionLine(line: string) {
    |TrimSpace(line)| >= 2 && TrimSpace(line)[0] == '[' && TrimSpace(line)[|TrimSpace(line)| - 1] == ']'
  }

  predicate HeaderLine(line: string, section: string) { TrimSpace(line) == "[" + section + "]" }

  predicate KeyLine(line: string, key: string) {
    |TrimSpace(line)| > |key| && TrimSpace(line)[..|key|] == key && TrimSpace(line)[|key|] == '='
  }

  lemma {:induction false} SectionTold(line: string, section: string)
    ensures Bracketed(line) <==> SectionLine(line)
    ensures IsHeader(line, Header(section)) <==> HeaderLine(line, section)
    ensures HeaderLine(line, section) ==> SectionLine(line)
  {
    BracketsTold(TrimSpace(line));
  }

  lemma {:induction false} BracketsTold(t: string)
    ensures HasPrefix(t, "[") && HasSuffix(t, "]") <==> |t| >= 2 && t[0] == '[' && t[|t| - 1] == ']'
  {
    if t != "" { assert t[|t| - 1..] == [t[|t| - 1]]; }
  }

  lemma {:induction false} KeyTold(line: string, key: string)
    ensures IsKeyLine(line, KeyPrefix(key)) <==> KeyLine(line, key)
  {
    PrefixTold(TrimSpace(line), key);
  }

  lemma {:induction false} PrefixTold(t: string, key: string)
    ensures key + "=" <= t <==> |t| > |key| && t[..|key|] == key && t[|key|] == '='
  {
    if |t| > |key| { assert t[..|key| + 1] == t[..|key|] + [t[|key|]]; }
  }

  // ---- where a section is ----

  /** Some header of the section comes first; the section goes on to the next line
      that opens another; and its last header before that is line s. */
  ghost predicate SectionAt(lines: seq<string>, section: string, s: int, e: int) {
    && 0 <= s < e <= |lines| && HeaderLine(lines[s], section)
    && (forall i :: s < i < e ==> !HeaderLine(lines[i], section))
    && (e < |lines| ==> Opens(lines[e], section))
    && exists first :: 0 <= first <= s && FirstHeader(lines, section, first, e)
  }

  /** A line that opens another section. */
  predicate Opens(line: string, section: string) { SectionLine(line) && !HeaderLine(line, section) }

  ghost predicate FirstHeader(lines: seq<string>, section: string, first: nat, e: nat)
    requires first < e <= |lines|
  {
    && HeaderLine(lines[first], section) && (forall i :: 0 <= i < first ==> !HeaderLine(lines[i], section))
    && forall i :: first <= i < e ==> !Opens(lines[i], section)
  }

  ghost predicate NoSection(lines: seq<string>, section: string) {
    forall i :: 0 <= i < |lines| ==> !HeaderLine(lines[i], section)
  }

  /** A scan that has passed a header stops at the first line that opens another
      section. */
  lemma {:induction false} NothingOpens(lines: seq<string>, header: string, idx: nat, start: nat)
    requires start < idx <= |lines|
    ensures forall i :: idx <= i < BoundsFrom(lines, header, idx, start).1 && i < |lines| ==> IsHeader(lines[i], header) || !Bracketed(lines[i])
    decreases |lines| - idx
  {
    if idx < |lines| {
      if IsHeader(lines[idx], header) { NothingOpens(lines, header, idx + 1, idx); }
      else if !Bracketed(lines[idx]) { NothingOpens(lines, header, idx + 1, start); }
    }
  }

  lemma {:induction false} FirstFound(lines: seq<string>, header: string) returns (first: nat)
    ensures first <= |lines| && (forall i :: 0 <= i < first ==> !IsHeader(lines[i], header))
    ensures first < |lines| ==> IsHeader(lines[first], header) && Bounds(lines, header) == BoundsFrom(lines, header, first + 1, first)
    ensures first == |lines| ==> Bounds(lines, header) == (-1, |lines|)
  {
    first := 0;
    while first < |lines| && !IsHeader(lines[first], header)
      invariant first <= |lines| && (forall i :: 0 <= i < first ==> !IsHeader(lines[i], header))
      invariant Bounds(lines, header) == BoundsFrom(lines, header, first, -1)
    {
      first := first + 1;
    }
  }

  /** The scan finds a section exactly where it is. */
  lemma {:induction false} BoundsExactly(lines: seq<string>, section: string)
    ensures Bounds(lines, Header(section)).0 == -1 <==> NoSection(lines, section)
    ensures !NoSection(lines, section) ==> exists s, e :: SectionAt(lines, section, s, e) && Bounds(lines, Header(section)) == (s, e)
  {
    var header := Header(section);
    var first := FirstFound(lines, header);
    AllTold(lines, section);
    if first < |lines| {
      BoundsFacts(lines, header, first + 1, first);
      NothingOpens(lines, header, first + 1, first);
      var b := Bounds(lines, header);
      FoundAt(lines, section, header, first, b.0, b.1);
    }
  }

  lemma {:induction false} AllTold(lines: seq<string>, section: string)
    ensures forall i :: 0 <= i < |lines| ==> (IsHeader(lines[i], Header(section)) <==> HeaderLine(lines[i], section))
    ensures forall i :: 0 <= i < |lines| ==> (Bracketed(lines[i]) && !IsHeader(lines[i], Header(section)) <==> Opens(lines[i], section))
  {
    forall i | 0 <= i < |lines|
      ensures IsHeader(lines[i], Header(section)) <==> HeaderLine(lines[i], section)
      ensures Bracketed(lines[i]) && !IsHeader(lines[i], Header(section)) <==> Opens(lines[i], section)
    {
      SectionTold(lines[i], section);
    }
  }

  lemma {:induction false} FoundAt(lines: seq<string>, section: string, header: string, first: nat, s: int, e: int)
    requires first < |lines| && Spans(lines, header, first + 1, first, s, e)
    requires forall i :: 0 <= i < |lines| ==> (IsHeader(lines[i], header) <==> HeaderLine(lines[i], section))
    requires forall i :: 0 <= i < |lines| ==> (Bracketed(lines[i]) && !IsHeader(lines[i], header) <==> Opens(lines[i], section))
    requires IsHeader(lines[first], header) && forall i :: 0 <= i < first ==> !IsHeader(lines[i], header)
    requires forall i :: first + 1 <= i < e && i < |lines| ==> IsHeader(lines[i], header) || !Bracketed(lines[i])
    ensures s >= 0 && SectionAt(lines, section, s, e)
  {
    assert FirstHeader(lines, section, first, e);
  }

  /** A section can be in one place only. */
  lemma {:induction false} OneSection(lines: seq<string>, section: string, s: int, e: int, s': int, e': int)
    requires SectionAt(lines, section, s, e) && SectionAt(lines, section, s', e')
    ensures s == s' && e == e'
  {
    var first :| 0 <= first <= s && FirstHeader(lines, section, first, e);
    var first' :| 0 <= first' <= s' && FirstHeader(lines, section, first', e');
    assert first == first';
    assert e < |lines| ==> Opens(lines[e], section);
    assert e' < |lines| ==> Opens(lines[e'], section);
  }

  // ---- what setting does ----

  /** Setting leaves every line but the key's in its section, where each becomes
      the new line; without one, the new line ends the section; without a section,
      it comes at the end behind the section's header, which a blank line sets off. */
  ghost predicate SetBy(lines: seq<string>, section: string, key: string, value: string, after: seq<string>) {
    var target := key + "=" + value;
    if NoSection(lines, section) then
      after == lines + (if lines != [] && !Blank(lines[|lines| - 1]) then [""] else []) + ["[" + section + "]", target]
    else
      exists s, e :: SectionAt(lines, section, s, e) &&
        if (exists i :: s < i < e && KeyLine(lines[i], key)) then
          |after| == |lines| && forall i :: 0 <= i < |lines| ==> after[i] == if s < i < e && KeyLine(lines[i], key) then target else lines[i]
        else after == lines[..e] + [target] + lines[e..]
  }

  lemma {:induction false} OwnKey(lines: seq<string>, s: int, e: int, key: string)
    requires 0 <= s < e <= |lines|
    ensures HasKey(lines[s + 1..e], KeyPrefix(key)) <==> exists i :: s < i < e && KeyLine(lines[i], key)
  {
    var own := lines[s + 1..e];
    forall i | 0 <= i < |lines| ensures IsKeyLine(lines[i], KeyPrefix(key)) <==> KeyLine(lines[i], key) { KeyTold(lines[i], key); }
    if i :| 0 <= i < |own| && IsKeyLine(own[i], KeyPrefix(key)) { assert KeyLine(lines[s + 1 + i], key); }
    if i :| s < i < e && KeyLine(lines[i], key) { assert IsKeyLine(own[i - s - 1], KeyPrefix(key)); }
  }

  lemma {:induction false} SetInside(lines: seq<string>, s: int, e: int, key: string, target: string)
    requires 0 <= s < e <= |lines|
    ensures
      var after := lines[..s + 1] + SetOwn(lines[s + 1..e], KeyPrefix(key), target) + lines[e..];
      if (exists i :: s < i < e && KeyLine(lines[i], key)) then
        |after| == |lines| && forall i :: 0 <= i < |lines| ==> after[i] == if s < i < e && KeyLine(lines[i], key) then target else lines[i]
      else after == lines[..e] + [target] + lines[e..]
  {
    OwnKey(lines, s, e, key);
    var own := lines[s + 1..e];
    if HasKey(own, KeyPrefix(key)) {
      ReplaceInPlace(own, KeyPrefix(key), target);
      ReplacedAmong(lines, s, e, key, target, ReplaceKey(own, KeyPrefix(key), target));
    } else {
      EndsSection(lines, s, e, target);
    }
  }

  lemma {:induction false} EndsSection(lines: seq<string>, s: int, e: int, target: string)
    requires 0 <= s < e <= |lines|
    ensures lines[..s + 1] + (lines[s + 1..e] + [target]) + lines[e..] == lines[..e] + [target] + lines[e..]
  {}

  lemma {:induction false} ReplacedAmong(lines: seq<string>, s: int, e: int, key: string, target: string, own: seq<string>)
    requires 0 <= s < e <= |lines| && |own| == e - s - 1
    requires forall i :: 0 <= i < |own| ==> own[i] == if IsKeyLine(lines[s + 1 + i], KeyPrefix(key)) then target else lines[s + 1 + i]
    ensures
      var after := lines[..s + 1] + own + lines[e..];
      |after| == |lines| && forall i :: 0 <= i < |lines| ==> after[i] == if s < i < e && KeyLine(lines[i], key) then target else lines[i]
  {
    var after := lines[..s + 1] + own + lines[e..];
    forall i | 0 <= i < |lines| ensures after[i] == if s < i < e && KeyLine(lines[i], key) then target else lines[i] {
      KeyTold(lines[i], key);
      if s < i < e { assert after[i] == own[i - s - 1] && lines[s + 1 + (i - s - 1)] == lines[i]; }
    }
  }

  lemma {:induction false} SetLinesExactly(lines: seq<string>, section: string, key: string, value: string)
    ensures SetBy(lines, section, key, value, SetLines(lines, Header(section), KeyPrefix(key), KeyPrefix(key) + value))
  {
    BoundsExactly(lines, section);
    var (s, e) := Bounds(lines, Header(section));
    assert KeyPrefix(key) + value == key + "=" + value;
    if s == -1 {
      assert Header(section) == "[" + section + "]";
    } else {
      SetInside(lines, s, e, key, key + "=" + value);
      assert !NoSection(lines, section);
    }
  }

  // ---- what removing does ----

  /** The lines that are not the key's, in order. */
  function Except(lines: seq<string>, key: string): seq<string> {
    if lines == [] then []
    else Except(lines[..|lines| - 1], key) + (if KeyLine(lines[|lines| - 1], key) then [] else [lines[|lines| - 1]])
  }

  ghost predicate RemovedBy(lines: seq<string>, section: string, key: string, after: seq<string>) {
    if NoSection(lines, section) then after == lines
    else exists s, e :: SectionAt(lines, section, s, e) && after == lines[..s + 1] + Except(lines[s + 1..e], key) + lines[e..]
  }

  lemma {:induction false} DropIsExcept(own: seq<string>, key: string)
    ensures DropKey(own, KeyPrefix(key)) == Except(own, key)
  {
    if own != [] {
      DropIsExcept(own[..|own| - 1], key);
      KeyTold(own[|own| - 1], key);
    }
  }

  lemma {:induction false} RemoveLinesExactly(lines: seq<string>, section: string, key: string)
    ensures RemovedBy(lines, section, key, RemoveLines(lines, Header(section), KeyPrefix(key)))
  {
    BoundsExactly(lines, section);
    var (s, e) := Bounds(lines, Header(section));
    if s != -1 {
      DropIsExcept(lines[s + 1..e], key);
      assert !NoSection(lines, section);
    }
  }

  // ---- the lines of a text ----

  predicate IsBreak(b: string) { b == "\n" || b == "\r\n" || b == "\r" }

  /** Lines with a line break behind each but the last. */
  function Laid(lines: seq<string>, breaks: seq<string>): string
    requires |lines| == |breaks| + 1
  {
    if breaks == [] then lines[0] else lines[0] + breaks[0] + Laid(lines[1..], breaks[1..])
  }

  /** No carriage return stands right before a line feed that breaks another line. */
  ghost predicate Apart(lines: seq<string>, breaks: seq<string>)
    requires |lines| == |breaks| + 1
  {
    forall i :: 0 <= i < |breaks| - 1 && breaks[i] == "\r" && lines[i + 1] == "" ==> breaks[i + 1] != "\n"
  }

  lemma {:induction false} NormalizeLine(line: string, b: string, rest: string)
    requires OneLine(line) && IsBreak(b) && (b == "\r" && rest != "" ==> rest[0] != '\n')
    ensures NormalizeNewlines(line + b + rest) == line + "\n" + NormalizeNewlines(rest)
    decreases |line|
  {
    var t := line + b + rest;
    if line == "" {
      assert t == b + rest;
      NormalizeBreak(b, rest);
    } else {
      assert t[1..] == line[1..] + b + rest && t[0] == line[0];
      NormalizeLine(line[1..], b, rest);
      assert CollapseCRLF(t) == [t[0]] + CollapseCRLF(t[1..]);
      ReplaceFirst(t[0], CollapseCRLF(t[1..]));
      assert [line[0]] + (line[1..] + "\n" + NormalizeNewlines(rest)) == line + "\n" + NormalizeNewlines(rest);
    }
  }

  lemma {:induction false} ReplaceFirst(c: char, rest: string)
    ensures ReplaceCR([c] + rest) == [if c == '\r' then '\n' else c] + ReplaceCR(rest)
  {
    assert ([c] + rest)[1..] == rest;
  }

  lemma {:induction false} NormalizeBreak(b: string, rest: string)
    requires IsBreak(b) && (b == "\r" && rest != "" ==> rest[0] != '\n')
    ensures NormalizeNewlines(b + rest) == "" + "\n" + NormalizeNewlines(rest)
  {
    var t := b + rest;
    if b == "\r\n" {
      assert t[2..] == rest;
      assert CollapseCRLF(t) == ['\n'] + CollapseCRLF(rest);
      ReplaceFirst('\n', CollapseCRLF(rest));
    } else {
      assert t[1..] == rest && t[0] == b[0];
      assert CollapseCRLF(t) == [b[0]] + CollapseCRLF(rest);
      ReplaceFirst(b[0], CollapseCRLF(rest));
    }
  }

  /** The lines of a text are what stands between its line breaks, whichever form
      each of them has. */
  lemma {:induction false} LinesRead(lines: seq<string>, breaks: seq<string>)
    requires |lines| == |breaks| + 1 && OneLiners(lines) && (forall i :: 0 <= i < |breaks| ==> IsBreak(breaks[i])) && Apart(lines, breaks)
    ensures LinesOf(Laid(lines, breaks)) == lines
  {
    if breaks == [] {
      NormalizedAlready(lines[0]);
      SplitAlone(lines[0]);
      assert lines == [lines[0]];
    } else {
      var lines', breaks' := lines[1..], breaks[1..];
      forall i | 0 <= i < |breaks'| - 1 && breaks'[i] == "\r" && lines'[i + 1] == "" ensures breaks'[i + 1] != "\n" {
        assert breaks[i + 1] == "\r" && lines[i + 2] == "";
      }
      LinesRead(lines', breaks');
      var rest := Laid(lines', breaks');
      assert breaks[0] == "\r" && rest != "" ==> rest[0] != '\n' by {
        assert lines'[0] == lines[1];
        if breaks' != [] && lines'[0] == "" { assert rest == breaks'[0] + Laid(lines'[1..], breaks'[1..]); }
      }
      NormalizeLine(lines[0], breaks[0], rest);
      SplitFirst(lines[0], NormalizeNewlines(rest));
      assert [lines[0]] + lines' == lines;
    }
  }

  lemma {:induction false} SplitAlone(line: string)
    requires '\n' !in line
    ensures SplitLines(line) == [line]
  {
    if line != "" {
      SplitAlone(line[1..]);
      assert [line[0]] + line[1..] == line;
    }
  }

  /** Only trailing blank lines are left out of what is written, and a line feed
      ends each line. */
  lemma {:induction false} WrittenExactly(lines: seq<string>)
    ensures
      var kept := TrimTrailing(lines);
      && kept <= lines && (kept == [] || !Blank(kept[|kept| - 1])) && (forall i :: |kept| <= i < |lines| ==> Blank(lines[i]))
      && Written(lines) == if kept == [] then "\n" else Laid(kept, seq(|kept| - 1, i => "\n")) + "\n"
  {
    TrimTrailingFacts(lines);
    if TrimTrailing(lines) != [] { JoinedLaid(TrimTrailing(lines)); }
  }

  lemma {:induction false} JoinedLaid(lines: seq<string>)
    requires lines != []
    ensures JoinLines(lines) == Laid(lines, seq(|lines| - 1, i => "\n"))
  {
    if |lines| > 1 {
      JoinedLaid(lines[1..]);
      assert seq(|lines| - 1, i => "\n")[1..] == seq(|lines[1..]| - 1, i => "\n");
    }
  }

  // ---- the two edits ----

  /** Setting a key writes the lines of the text, edited. */
  lemma {:induction false} SetExactly(text: string, section: string, key: string, value: string) returns (after: seq<string>)
    ensures SetBy(LinesOf(text), section, key, value, after) && SetText(text, section, key, value) == Written(after)
  {
    after := SetLines(LinesOf(text), Header(section), KeyPrefix(key), KeyPrefix(key) + value);
    SetLinesExactly(LinesOf(text), section, key, value);
  }

  /** So does removing one, but that leaves a text alone in which it finds nothing. */
  lemma {:induction false} RemoveExactly(text: string, section: string, key: string) returns (after: seq<string>)
    ensures RemovedBy(LinesOf(text), section, key, after)
    ensures RemoveText(text, section, key) == if after == LinesOf(text) then text else Written(after)
  {
    after := RemoveLines(LinesOf(text), Header(section), KeyPrefix(key));
    RemoveLinesExactly(LinesOf(text), section, key);
  }

  // ---- the path ----

  /** The path without white space and slashes around it. */
  ghost predicate Stripped(path: string, p: string) {
    var t := TrimSpace(path);
    exists i, j :: SlashesAround(t, i, j) && p == t[i..j]
  }

  predicate SlashesAround(t: string, i: int, j: int) {
    && 0 <= i <= j <= |t| && (forall k :: 0 <= k < i ==> t[k] == '/') && (forall k :: j <= k < |t| ==> t[k] == '/')
    && (i < j ==> t[i] != '/' && t[j - 1] != '/')
  }

  lemma {:induction false} LeftSlashes(s: string) returns (i: nat)
    ensures i <= |s| && TrimLeftSlashes(s) == s[i..] && (i < |s| ==> s[i] != '/') && forall k :: 0 <= k < i ==> s[k] == '/'
  {
    i := 0;
    if s != "" && s[0] == '/' {
      i := LeftSlashes(s[1..]);
      assert s[1..][i..] == s[i + 1..] && forall k :: 0 < k < i + 1 ==> s[k] == s[1..][k - 1];
      i := i + 1;
    }
  }

  lemma {:induction false} RightSlashes(s: string) returns (j: nat)
    ensures j <= |s| && TrimRightSlashes(s) == s[..j] && (j > 0 ==> s[j - 1] != '/') && forall k :: j <= k < |s| ==> s[k] == '/'
  {
    j := |s|;
    if s != "" && s[|s| - 1] == '/' {
      j := RightSlashes(s[..|s| - 1]);
      assert s[..|s| - 1][..j] == s[..j] && forall k :: j <= k < |s| - 1 ==> s[k] == s[..|s| - 1][k];
    }
  }

  lemma {:induction false} TrimSlashesExactly(path: string)
    ensures Stripped(path, TrimSlashes(TrimSpace(path)))
  {
    var t := TrimSpace(path);
    var i := LeftSlashes(t);
    var k := RightSlashes(t[i..]);
    assert t[i..][..k] == t[i..i + k] && forall x :: i + k <= x < |t| ==> t[x] == t[i..][x - i];
    assert i < |t| ==> t[i..][0] == t[i];
    assert SlashesAround(t, i, i + k);
  }

  /** A path names a section and a key exactly when a slash stands between two
      parts that are not blank; the section is the part before the first slash. */
  lemma {:induction false} SplitExactly(path: string, section: string, key: string)
    ensures SplitSetting(path) == Some(Setting(section, key)) <==>
      Stripped(path, section + "/" + key) && '/' !in section && !Blank(section) && !Blank(key)
  {
    var p := TrimSlashes(TrimSpace(path));
    TrimSlashesExactly(path);
    if Stripped(path, section + "/" + key) && '/' !in section && !Blank(section) && !Blank(key) {
      OneStripped(path, p, section + "/" + key);
      var n := FindChar(p, '/');
      assert p[|section|] == '/' && p[..|section|] == section && p[|section| + 1..] == key;
      assert forall i :: 0 <= i < |section| ==> p[i] == section[i];
      assert n == |section|;
    }
  }

  lemma {:induction false} OneStripped(path: string, p: string, q: string)
    requires Stripped(path, p) && Stripped(path, q)
    ensures p == q
  {
    var t := TrimSpace(path);
    var i, j :| SlashesAround(t, i, j) && p == t[i..j];
    var x, y :| SlashesAround(t, x, y) && q == t[x..y];
    assert i < j ==> x <= i && j <= y;
    assert x < y ==> i <= x && y <= j;
  }
}
