/** What setting and removing a key do to the sections of project.godot. */
module SettingsEdits {
  import opened Options
  import opened Text
  import opened ProjectSettings
  import opened SettingsCounts

  // ---- trailing blanks ----

  lemma {:induction false} TrimConcat(a: seq<string>, b: seq<string>)
    ensures TrimTrailing(a + b) == if TrimTrailing(b) == [] then TrimTrailing(a) else a + TrimTrailing(b)
    decreases |b|
  {
    if b == [] { assert a + b == a; }
    else if Blank(b[|b| - 1]) {
      assert (a + b)[..|a + b| - 1] == a + b[..|b| - 1];
      TrimConcat(a, b[..|b| - 1]);
    }
  }

  lemma {:induction false} TrimAgain(lines: seq<string>)
    ensures TrimTrailing(TrimTrailing(lines)) == TrimTrailing(lines)
    ensures TrimTrailing(TrimTrailing(lines) + [""]) == TrimTrailing(lines)
  {
    TrimTrailingFacts(lines);
    assert Blank("");
    assert (TrimTrailing(lines) + [""])[..|TrimTrailing(lines)|] == TrimTrailing(lines);
  }

  /** Lines as they are read back after being written. */
  function Settled(lines: seq<string>): seq<string> {
    TrimTrailing(lines) + [""]
  }

  // ---- keys in a section ----

  lemma {:induction false} BlankIsNoKey(line: string, prefix: string)
    requires Blank(line) && prefix != ""
    ensures !IsKeyLine(line, prefix)
  {}

  lemma {:induction false} DropConcat(a: seq<string>, b: seq<string>, prefix: string)
    ensures DropKey(a + b, prefix) == DropKey(a, prefix) + DropKey(b, prefix)
  {
    if b == [] { assert a + b == a; }
    else {
      assert (a + b)[..|a + b| - 1] == a + b[..|b| - 1];
      DropConcat(a, b[..|b| - 1], prefix);
    }
  }

  lemma {:induction false} DropBlanks(lines: seq<string>, prefix: string)
    requires prefix != "" && forall i :: 0 <= i < |lines| ==> Blank(lines[i])
    ensures DropKey(lines, prefix) == lines && TrimTrailing(lines) == []
  {
    if lines != [] {
      BlankIsNoKey(lines[|lines| - 1], prefix);
      DropBlanks(lines[..|lines| - 1], prefix);
      assert lines == lines[..|lines| - 1] + [lines[|lines| - 1]];
    }
  }

  /** Trimming blanks first makes no difference to dropping a key. */
  lemma {:induction false} DropTrimmed(own: seq<string>, prefix: string)
    requires prefix != ""
    ensures TrimTrailing(DropKey(Settled(own), prefix)) == TrimTrailing(DropKey(own, prefix))
  {
    var kept := TrimTrailing(own);
    TrimTrailingFacts(own);
    var blanks := own[|kept|..];
    forall i | 0 <= i < |blanks| ensures Blank(blanks[i]) { assert blanks[i] == own[|kept| + i]; }
    assert own == kept + blanks;
    DropBehindBlanks(kept, blanks, prefix);
    DropBehindBlanks(kept, [""], prefix);
  }

  lemma {:induction false} DropBehindBlanks(kept: seq<string>, blanks: seq<string>, prefix: string)
    requires prefix != "" && forall i :: 0 <= i < |blanks| ==> Blank(blanks[i])
    ensures TrimTrailing(DropKey(kept + blanks, prefix)) == TrimTrailing(DropKey(kept, prefix))
  {
    DropBlanks(blanks, prefix);
    DropConcat(kept, blanks, prefix);
    TrimConcat(DropKey(kept, prefix), blanks);
  }

  /** Every line of the key is the target. */
  ghost predicate OnlyTarget(own: seq<string>, prefix: string, target: string) {
    forall i :: 0 <= i < |own| && IsKeyLine(own[i], prefix) ==> own[i] == target
  }

  lemma {:induction false} ReplaceFacts(own: seq<string>, prefix: string, target: string)
    requires IsKeyLine(target, prefix)
    ensures |ReplaceKey(own, prefix, target)| == |own|
    ensures forall i :: 0 <= i < |own| ==> ReplaceKey(own, prefix, target)[i] == if IsKeyLine(own[i], prefix) then target else own[i]
    ensures DropKey(ReplaceKey(own, prefix, target), prefix) == DropKey(own, prefix)
  {
    ReplaceInPlace(own, prefix, target);
    ReplaceKeepsRest(own, prefix, target);
  }

  lemma {:induction false} ReplaceInPlace(own: seq<string>, prefix: string, target: string)
    ensures |ReplaceKey(own, prefix, target)| == |own|
    ensures forall i :: 0 <= i < |own| ==> ReplaceKey(own, prefix, target)[i] == if IsKeyLine(own[i], prefix) then target else own[i]
  {
    if own != [] { ReplaceInPlace(own[..|own| - 1], prefix, target); }
  }

  lemma {:induction false} ReplaceKeepsRest(own: seq<string>, prefix: string, target: string)
    requires IsKeyLine(target, prefix)
    ensures DropKey(ReplaceKey(own, prefix, target), prefix) == DropKey(own, prefix)
  {
    if own != [] {
      var front := ReplaceKey(own[..|own| - 1], prefix, target);
      ReplaceKeepsRest(own[..|own| - 1], prefix, target);
      DropKeyMore(front, if IsKeyLine(own[|own| - 1], prefix) then target else own[|own| - 1], prefix);
    }
  }

  lemma {:induction false} DropKeyMore(front: seq<string>, last: string, prefix: string)
    ensures DropKey(front + [last], prefix) == DropKey(front, prefix) + (if IsKeyLine(last, prefix) then [] else [last])
  {
    assert (front + [last])[..|front|] == front;
  }

  lemma {:induction false} SetOwnFacts(own: seq<string>, prefix: string, target: string)
    requires IsKeyLine(target, prefix)
    ensures OnlyTarget(SetOwn(own, prefix, target), prefix, target)
    ensures HasKey(SetOwn(own, prefix, target), prefix)
    ensures DropKey(SetOwn(own, prefix, target), prefix) == DropKey(own, prefix)
  {
    if HasKey(own, prefix) { ReplacedFacts(own, prefix, target); } else { AddedFacts(own, prefix, target); }
  }

  lemma {:induction false} ReplacedFacts(own: seq<string>, prefix: string, target: string)
    requires IsKeyLine(target, prefix) && HasKey(own, prefix)
    ensures OnlyTarget(ReplaceKey(own, prefix, target), prefix, target) && HasKey(ReplaceKey(own, prefix, target), prefix)
    ensures DropKey(ReplaceKey(own, prefix, target), prefix) == DropKey(own, prefix)
  {
    ReplaceFacts(own, prefix, target);
    PlacedFacts(own, ReplaceKey(own, prefix, target), prefix, target);
  }

  lemma {:induction false} PlacedFacts(own: seq<string>, r: seq<string>, prefix: string, target: string)
    requires IsKeyLine(target, prefix) && HasKey(own, prefix) && |r| == |own|
    requires forall i :: 0 <= i < |own| ==> r[i] == if IsKeyLine(own[i], prefix) then target else own[i]
    ensures OnlyTarget(r, prefix, target) && HasKey(r, prefix)
  {
    var i :| 0 <= i < |own| && IsKeyLine(own[i], prefix);
    assert IsKeyLine(r[i], prefix);
  }

  lemma {:induction false} SetOwnInside(own: seq<string>, prefix: string, target: string)
    ensures forall x :: x in SetOwn(own, prefix, target) ==> x == target || x in own
  {
    var r := SetOwn(own, prefix, target);
    ReplaceInPlace(own, prefix, target);
    forall x | x in r ensures x == target || x in own { var j :| 0 <= j < |r| && r[j] == x; }
  }

  lemma {:induction false} AddedFacts(own: seq<string>, prefix: string, target: string)
    requires IsKeyLine(target, prefix) && !HasKey(own, prefix)
    ensures OnlyTarget(own + [target], prefix, target) && HasKey(own + [target], prefix)
    ensures DropKey(own + [target], prefix) == DropKey(own, prefix)
  {
    HasKeyMore(own, target, prefix);
    assert (own + [target])[..|own|] == own;
  }

  lemma {:induction false} SetOwnAgain(own: seq<string>, prefix: string, target: string)
    requires IsKeyLine(target, prefix) && OnlyTarget(own, prefix, target) && HasKey(own, prefix)
    ensures SetOwn(own, prefix, target) == own
  {
    ReplaceFacts(own, prefix, target);
  }

  lemma {:induction false} DroppedNoKey(own: seq<string>, prefix: string)
    ensures !HasKey(DropKey(own, prefix), prefix)
  {
    if own != [] {
      var front, last := DropKey(own[..|own| - 1], prefix), own[|own| - 1];
      DroppedNoKey(own[..|own| - 1], prefix);
      HasKeyMore(front, last, prefix);
      assert front + [] == front;
    }
  }

  lemma {:induction false} DroppedInside(own: seq<string>, prefix: string)
    ensures forall x :: x in DropKey(own, prefix) ==> x in own
  {
    if own != [] { DroppedInside(own[..|own| - 1], prefix); }
  }

  // ---- a section that is written and read back ----

  /** A file cut at one section: up to its header, its own lines, the rest. */
  datatype Cut = Cut(before: seq<string>, own: seq<string>, after: seq<string>)

  function Whole(c: Cut): seq<string> { c.before + c.own + c.after }

  ghost predicate CutAt(c: Cut, header: string) {
    OpenCut(c, header) && Inner(c.own, header)
  }

  /** The same, whatever the section's own lines are. */
  ghost predicate OpenCut(c: Cut, header: string) {
    && c.before != [] && Bounds(c.before, header) == (|c.before| - 1, |c.before|) && !Blank(c.before[|c.before| - 1])
    && (c.after != [] ==> Bracketed(c.after[0]) && !IsHeader(c.after[0], header))
  }

  /** The same cut after writing and reading back. */
  function SettledCut(c: Cut): Cut {
    if c.after == [] then c.(own := Settled(c.own)) else c.(after := Settled(c.after))
  }

  lemma {:induction false} SettledInner(own: seq<string>, header: string)
    requires Inner(own, header) && header != ""
    ensures Inner(Settled(own), header)
  {
    TrimTrailingFacts(own);
    assert Blank("") && !Bracketed("");
  }

  lemma {:induction false} SettledKeepsCut(c: Cut, header: string)
    requires OpenCut(c, header) && header != ""
    ensures Settled(Whole(c)) == Whole(SettledCut(c)) && OpenCut(SettledCut(c), header)
    ensures Inner(c.own, header) ==> CutAt(SettledCut(c), header)
    ensures TrimTrailing(Whole(c)) != []
  {
    if Inner(c.own, header) { SettledInner(c.own, header); }
    if c.after == [] { SettledLast(c); } else { SettledBefore(c); }
  }

  lemma {:induction false} SettledLast(c: Cut)
    requires c.after == [] && c.before != [] && !Blank(c.before[|c.before| - 1])
    ensures Settled(Whole(c)) == Whole(SettledCut(c)) && TrimTrailing(Whole(c)) != []
  {
    SettledEnd(c.before, c.own);
    assert Whole(c) == c.before + c.own;
    assert Whole(SettledCut(c)) == c.before + Settled(c.own);
  }

  lemma {:induction false} SettledBefore(c: Cut)
    requires c.after != [] && Bracketed(c.after[0])
    ensures Settled(Whole(c)) == Whole(SettledCut(c)) && TrimTrailing(Whole(c)) != []
    ensures Settled(c.after) != [] && Settled(c.after)[0] == c.after[0]
  {
    TrimStartsSame(c.after);
    SettledRest(c.before + c.own, c.after);
  }

  lemma {:induction false} SettledRest(a: seq<string>, b: seq<string>)
    requires TrimTrailing(b) != []
    ensures Settled(a + b) == a + Settled(b) && TrimTrailing(a + b) != []
  {
    TrimConcat(a, b);
    assert a + TrimTrailing(b) + [""] == a + (TrimTrailing(b) + [""]);
  }

  lemma {:induction false} SettledEnd(a: seq<string>, b: seq<string>)
    requires a != [] && !Blank(a[|a| - 1])
    ensures Settled(a + b) == a + Settled(b) && TrimTrailing(a + b) != []
  {
    if TrimTrailing(b) == [] {
      TrimConcat(a, b);
      assert TrimTrailing(a) == a && [] + [""] == [""];
    } else {
      SettledRest(a, b);
    }
  }

  lemma {:induction false} TrimStartsSame(after: seq<string>)
    requires after != [] && Bracketed(after[0])
    ensures TrimTrailing(after) != [] && TrimTrailing(after)[0] == after[0]
  {
    TrimTrailingFacts(after);
  }

  /** Reading a located cut: its bounds, and the edits on its own lines. */
  lemma {:induction false} CutEdits(c: Cut, header: string, prefix: string, target: string)
    requires CutAt(c, header)
    ensures Bounds(Whole(c), header) == (|c.before| - 1, |c.before| + |c.own|)
    ensures SetLines(Whole(c), header, prefix, target) == Whole(c.(own := SetOwn(c.own, prefix, target)))
    ensures RemoveLines(Whole(c), header, prefix) == Whole(c.(own := DropKey(c.own, prefix)))
  {
    BoundsOfLocated(c.before, c.own, c.after, header);
    var lines := Whole(c);
    assert lines[..|c.before|] == c.before && lines[|c.before|..|c.before| + |c.own|] == c.own && lines[|c.before| + |c.own|..] == c.after;
  }

  lemma {:induction false} CutOf(lines: seq<string>, header: string) returns (c: Cut)
    requires Bounds(lines, header).0 != -1 && header != ""
    ensures lines == Whole(c) && CutAt(c, header)
  {
    LocateFound(lines, header);
    var (s, e) := Bounds(lines, header);
    c := Cut(lines[..s + 1], lines[s + 1..e], lines[e..]);
  }

  // ---- setting a key ----

  /** Inputs on one line each, with a key: what the editor is made for. */
  predicate OneLineInputs(section: string, key: string, value: string) {
    OneLine(section) && OneLine(key) && OneLine(value) && !Blank(key)
  }

  /** The key does not start with white space, and its line could not be taken
      for a section. */
  predicate Settable(key: string, value: string) {
    key != "" && !IsSpace(key[0]) && !Bracketed(KeyPrefix(key) + value)
  }

  lemma {:induction false} HeaderFacts(section: string)
    ensures Header(section) != "" && Trimmed(Header(section)) && IsHeader(Header(section), Header(section))
    ensures Bracketed(Header(section)) && !Blank(Header(section))
    ensures OneLine(section) ==> OneLine(Header(section))
  {
    TrimSpaceOfTrimmed(Header(section));
    var h := Header(section);
    assert h[0] == '[' && h[|h| - 1] == ']' && h[|h| - 1..] == "]";
  }

  lemma {:induction false} TargetIsKeyLine(key: string, value: string)
    requires key != "" && !IsSpace(key[0])
    ensures IsKeyLine(KeyPrefix(key) + value, KeyPrefix(key))
  {
    var target := KeyPrefix(key) + value;
    TrimLeftAt(target, 0);
    assert target == key + ("=" + value);
    TrimRightConcat(key, "=" + value);
    TrimRightStarts("=" + value);
    assert key + TrimRight("=" + value) == TrimSpace(target);
    assert KeyPrefix(key) <= TrimSpace(target);
  }

  lemma {:induction false} HeaderIsBracketed(line: string, section: string)
    requires IsHeader(line, Header(section))
    ensures Bracketed(line)
  {
    HeaderFacts(section);
    TrimSpaceOfTrimmed(Header(section));
  }

  lemma {:induction false} TargetFacts(section: string, key: string, value: string)
    requires Settable(key, value)
    ensures IsKeyLine(KeyPrefix(key) + value, KeyPrefix(key))
    ensures !IsHeader(KeyPrefix(key) + value, Header(section))
  {
    TargetIsKeyLine(key, value);
    if IsHeader(KeyPrefix(key) + value, Header(section)) { HeaderIsBracketed(KeyPrefix(key) + value, section); }
  }

  lemma {:induction false} TrimRightStarts(s: string)
    requires s != "" && s[0] == '='
    ensures TrimRight(s) != "" && TrimRight(s)[0] == '='
  {
    TrimRightConcat("", s);
  }

  lemma {:induction false} InnerKept(own: seq<string>, own': seq<string>, target: string, header: string)
    requires Inner(own, header) && forall x :: x in own' ==> x == target || x in own
    requires !IsHeader(target, header) && !Bracketed(target)
    ensures Inner(own', header)
  {
    forall i | 0 <= i < |own'| ensures !IsHeader(own'[i], header) && !Bracketed(own'[i]) {
      assert own'[i] in own';
      if own'[i] != target { var j :| 0 <= j < |own| && own[j] == own'[i]; }
    }
  }

  /** Lines with a new header at the end, behind a blank line. */
  function WithHeader(lines: seq<string>, header: string): seq<string> {
    lines + (if lines != [] && !Blank(lines[|lines| - 1]) then [""] else []) + [header]
  }

  lemma {:induction false} NewSection(lines: seq<string>, header: string)
    requires Bounds(lines, header).0 == -1 && IsHeader(header, header) && header != ""
    ensures
      var before := WithHeader(lines, header);
      Bounds(before, header) == (|before| - 1, |before|) && before[|before| - 1] == header
  {
    BoundsFacts(lines, header, 0, -1);
    var gap: seq<string> := if lines != [] && !Blank(lines[|lines| - 1]) then [""] else [];
    var before := WithHeader(lines, header);
    assert before == lines + (gap + [header]);
    BoundsGrow(lines, gap + [header], header, 0, -1);
    if gap != [] {
      assert before[|lines|] == "" && !IsHeader("", header);
      assert BoundsFrom(before, header, |lines|, -1) == BoundsFrom(before, header, |lines| + 1, -1);
    }
    assert before[|before| - 1] == header;
    assert BoundsFrom(before, header, |before| - 1, -1) == BoundsFrom(before, header, |before|, |before| - 1);
  }

  /** A section found again: its own lines of the key, all of them the target,
      and everything else. */
  ghost predicate HoldsTarget(lines: seq<string>, header: string, prefix: string, target: string) {
    var (s, e) := Bounds(lines, header);
    && 0 <= s < e <= |lines|
    && (forall i :: s < i < e && IsKeyLine(lines[i], prefix) ==> lines[i] == target)
    && exists i :: s < i < e && IsKeyLine(lines[i], prefix)
  }

  lemma {:induction false} CutHolds(c: Cut, header: string, prefix: string, target: string)
    requires CutAt(c, header) && OnlyTarget(c.own, prefix, target) && HasKey(c.own, prefix)
    ensures HoldsTarget(Whole(c), header, prefix, target)
  {
    BoundsOfLocated(c.before, c.own, c.after, header);
    var lines, n := Whole(c), |c.before|;
    assert forall i :: 0 <= i < |c.own| ==> lines[n + i] == c.own[i];
    forall i | n - 1 < i < n + |c.own| && IsKeyLine(lines[i], prefix) ensures lines[i] == target {
      assert lines[i] == c.own[i - n];
    }
    var i :| 0 <= i < |c.own| && IsKeyLine(c.own[i], prefix);
    assert IsKeyLine(lines[n + i], prefix);
  }

  /** Settling a cut keeps what its own lines say about a key. */
  lemma {:induction false} SettledHolds(c: Cut, prefix: string, target: string)
    requires prefix != "" && OnlyTarget(c.own, prefix, target) && HasKey(c.own, prefix)
    ensures OnlyTarget(SettledCut(c).own, prefix, target) && HasKey(SettledCut(c).own, prefix)
  {
    if c.after == [] {
      var kept := TrimTrailing(c.own);
      TrimTrailingFacts(c.own);
      BlankIsNoKey("", prefix);
      HasKeyMore(kept, "", prefix);
      var i :| 0 <= i < |c.own| && IsKeyLine(c.own[i], prefix);
      if i >= |kept| { BlankIsNoKey(c.own[i], prefix); }
      assert IsKeyLine(kept[i], prefix);
      assert forall j :: 0 <= j < |kept| ==> kept[j] == c.own[j];
    }
  }

  lemma {:induction false} OneLinersWhole(c: Cut, target: string, lines: seq<string>)
    requires OneLiners(lines) && OneLine(target)
    requires forall x :: x in Whole(c) ==> x == target || x in lines
    ensures OneLiners(Whole(c))
  {
    forall i | 0 <= i < |Whole(c)| ensures OneLine(Whole(c)[i]) {
      assert Whole(c)[i] in Whole(c);
      if Whole(c)[i] != target { var j :| 0 <= j < |lines| && lines[j] == Whole(c)[i]; }
    }
  }

  /** Writing a cut's lines and reading them back gives the settled cut. */
  lemma {:induction false} CutReadBack(c: Cut, header: string)
    requires OpenCut(c, header) && header != "" && OneLiners(Whole(c))
    ensures LinesOf(Written(Whole(c))) == Whole(SettledCut(c)) && OpenCut(SettledCut(c), header)
    ensures Inner(c.own, header) ==> CutAt(SettledCut(c), header)
    ensures TrimTrailing(Whole(SettledCut(c))) == TrimTrailing(Whole(c))
  {
    SettledKeepsCut(c, header);
    WrittenReadBack(Whole(c));
    TrimAgain(Whole(c));
  }

  /** Dropping a key before or after settling leaves the same lines. */
  lemma {:induction false} SettledDrops(c: Cut, prefix: string)
    requires prefix != "" && (c.after != [] ==> Bracketed(c.after[0]))
    ensures
      var settled := SettledCut(c);
      TrimTrailing(Whole(settled.(own := DropKey(settled.own, prefix)))) == TrimTrailing(Whole(c.(own := DropKey(c.own, prefix))))
  {
    var settled := SettledCut(c);
    if c.after == [] {
      DropTrimmed(c.own, prefix);
      assert Whole(settled.(own := DropKey(settled.own, prefix))) == c.before + DropKey(Settled(c.own), prefix);
      assert Whole(c.(own := DropKey(c.own, prefix))) == c.before + DropKey(c.own, prefix);
      TrimConcat(c.before, DropKey(Settled(c.own), prefix));
      TrimConcat(c.before, DropKey(c.own, prefix));
    } else {
      TrimAgain(c.after);
      TrimStartsSame(c.after);
      TrimConcat(c.before + DropKey(c.own, prefix), Settled(c.after));
      TrimConcat(c.before + DropKey(c.own, prefix), c.after);
    }
  }

  /** The cut that setting writes, from the section's own lines as they were. */
  lemma {:induction false} SetWrites(text: string, section: string, key: string, value: string) returns (c: Cut, own: seq<string>)
    requires OneLineInputs(section, key, value)
    ensures OpenCut(c, Header(section)) && OneLiners(Whole(c)) && Inner(own, Header(section))
    ensures SetText(text, section, key, value) == Written(Whole(c))
    ensures c.own == SetOwn(own, KeyPrefix(key), KeyPrefix(key) + value)
    ensures Whole(c.(own := DropKey(own, KeyPrefix(key)))) == Others(LinesOf(text), Header(section), KeyPrefix(key))
  {
    var lines, header, prefix, target := LinesOf(text), Header(section), KeyPrefix(key), KeyPrefix(key) + value;
    LinesAreOneLiners(text);
    HeaderFacts(section);
    if Bounds(lines, header).0 != -1 {
      var c0 := CutOf(lines, header);
      own, c := c0.own, c0.(own := SetOwn(c0.own, prefix, target));
      SetOwnInside(own, prefix, target);
      OneLinersWhole(c, target, lines);
      CutEdits(c0, header, prefix, target);
    } else {
      own, c := [], Cut(WithHeader(lines, header), [target], []);
      NewSection(lines, header);
      assert SetOwn([], prefix, target) == [target];
      NewOneLiners(lines, header, target);
      NewWhole(lines, header, target);
    }
  }

  lemma {:induction false} NewWhole(lines: seq<string>, header: string, target: string)
    ensures Whole(Cut(WithHeader(lines, header), [target], [])) == WithHeader(lines, header) + [target]
    ensures WithHeader(lines, header) + [target]
      == lines + (if lines != [] && !Blank(lines[|lines| - 1]) then [""] else []) + [header, target]
    ensures Whole(Cut(WithHeader(lines, header), [], [])) == WithHeader(lines, header)
  {}

  /** With settable inputs the section's own lines stay its own. */
  lemma {:induction false} SetStaysInner(own: seq<string>, section: string, key: string, value: string)
    requires Settable(key, value) && Inner(own, Header(section))
    ensures Inner(SetOwn(own, KeyPrefix(key), KeyPrefix(key) + value), Header(section))
  {
    TargetFacts(section, key, value);
    SetOwnInside(own, KeyPrefix(key), KeyPrefix(key) + value);
    InnerKept(own, SetOwn(own, KeyPrefix(key), KeyPrefix(key) + value), KeyPrefix(key) + value, Header(section));
  }

  /** All lines but a section's lines of a key; with the section, if it is new. */
  function Others(lines: seq<string>, header: string, prefix: string): seq<string> {
    if Bounds(lines, header).0 == -1 then WithHeader(lines, header) else RemoveLines(lines, header, prefix)
  }

  lemma {:induction false} NewOneLiners(lines: seq<string>, header: string, target: string)
    requires OneLiners(lines) && OneLine(header) && OneLine(target)
    ensures OneLiners(Whole(Cut(WithHeader(lines, header), [target], [])))
  {
    var gap: seq<string> := if lines != [] && !Blank(lines[|lines| - 1]) then [""] else [];
    assert Whole(Cut(WithHeader(lines, header), [target], [])) == lines + gap + [header] + [target];
  }

  /** With settable inputs: what is read back is a settled cut that holds the
      target. */
  lemma {:induction false} SettableRead(text: string, section: string, key: string, value: string) returns (c: Cut, own: seq<string>)
    requires OneLineInputs(section, key, value) && Settable(key, value)
    ensures SetText(text, section, key, value) == Written(Whole(c))
    ensures LinesOf(Written(Whole(c))) == Whole(SettledCut(c)) && CutAt(SettledCut(c), Header(section)) && CutAt(c, Header(section))
    ensures TrimTrailing(Whole(SettledCut(c))) == TrimTrailing(Whole(c))
    ensures OnlyTarget(SettledCut(c).own, KeyPrefix(key), KeyPrefix(key) + value) && HasKey(SettledCut(c).own, KeyPrefix(key))
    ensures DropKey(c.own, KeyPrefix(key)) == DropKey(own, KeyPrefix(key))
    ensures Whole(c.(own := DropKey(own, KeyPrefix(key)))) == Others(LinesOf(text), Header(section), KeyPrefix(key))
  {
    c, own := SetWrites(text, section, key, value);
    TargetFacts(section, key, value);
    HeaderFacts(section);
    SetOwnFacts(own, KeyPrefix(key), KeyPrefix(key) + value);
    SetStaysInner(own, section, key, value);
    CutReadBack(c, Header(section));
    SettledHolds(c, KeyPrefix(key), KeyPrefix(key) + value);
  }

  lemma {:induction false} SettableHolds(text: string, section: string, key: string, value: string)
    requires OneLineInputs(section, key, value) && Settable(key, value)
    ensures HoldsTarget(LinesOf(SetText(text, section, key, value)), Header(section), KeyPrefix(key), KeyPrefix(key) + value)
  {
    var c, own := SettableRead(text, section, key, value);
    CutHolds(SettledCut(c), Header(section), KeyPrefix(key), KeyPrefix(key) + value);
  }

  lemma {:induction false} SettableKeepsOthers(text: string, section: string, key: string, value: string)
    requires OneLineInputs(section, key, value) && Settable(key, value)
    ensures KeepsOthers(text, section, key, value)
  {
    var c, own := SettableRead(text, section, key, value);
    CutEdits(SettledCut(c), Header(section), KeyPrefix(key), KeyPrefix(key) + value);
    SettledDrops(c, KeyPrefix(key));
  }

  lemma {:induction false} SettableTwice(text: string, section: string, key: string, value: string)
    requires OneLineInputs(section, key, value) && Settable(key, value)
    ensures SetText(SetText(text, section, key, value), section, key, value) == SetText(text, section, key, value)
  {
    var prefix, target := KeyPrefix(key), KeyPrefix(key) + value;
    var c, own := SettableRead(text, section, key, value);
    TargetFacts(section, key, value);
    var settled := SettledCut(c);
    CutEdits(settled, Header(section), prefix, target);
    SetOwnAgain(settled.own, prefix, target);
    assert settled.(own := settled.own) == settled;
  }

  /** The lines without those of the key are what they were, up to blanks at the
      end. */
  ghost predicate KeepsOthers(text: string, section: string, key: string, value: string) {
    TrimTrailing(RemoveLines(LinesOf(SetText(text, section, key, value)), Header(section), KeyPrefix(key)))
      == TrimTrailing(Others(LinesOf(text), Header(section), KeyPrefix(key)))
  }

  ghost predicate NoKeyIn(lines: seq<string>, header: string, prefix: string) {
    var (s, e) := Bounds(lines, header);
    forall i :: s < i < e && 0 <= s && e <= |lines| ==> !IsKeyLine(lines[i], prefix)
  }

  lemma {:induction false} CutNoKey(c: Cut, header: string, prefix: string)
    requires CutAt(c, header) && !HasKey(c.own, prefix)
    ensures NoKeyIn(Whole(c), header, prefix)
  {
    BoundsOfLocated(c.before, c.own, c.after, header);
    var lines, n := Whole(c), |c.before|;
    forall i | n - 1 < i < n + |c.own| ensures !IsKeyLine(lines[i], prefix) {
      assert lines[i] == c.own[i - n];
    }
  }

  lemma {:induction false} SettledNoKey(c: Cut, prefix: string)
    requires prefix != "" && !HasKey(c.own, prefix)
    ensures !HasKey(SettledCut(c).own, prefix)
  {
    if c.after == [] {
      var kept := TrimTrailing(c.own);
      TrimTrailingFacts(c.own);
      BlankIsNoKey("", prefix);
      HasKeyMore(kept, "", prefix);
      forall i | 0 <= i < |kept| ensures !IsKeyLine(kept[i], prefix) { assert kept[i] == c.own[i]; }
    }
  }

  // ---- when setting fails ----

  /** A prefix that starts with white space starts no trimmed line. */
  lemma {:induction false} SpacedIsNoKey(line: string, prefix: string)
    requires prefix != "" && IsSpace(prefix[0])
    ensures !IsKeyLine(line, prefix)
  {
    TrimSpaceTrims(line);
  }

  /** A scan that has its start goes no further than the next section. */
  lemma {:induction false} StopsBy(lines: seq<string>, header: string, idx: nat, start: int, end: nat)
    requires idx <= end < |lines| && start >= 0 && Bracketed(lines[end]) && !IsHeader(lines[end], header)
    ensures BoundsFrom(lines, header, idx, start).1 <= end
    decreases end - idx
  {
    if idx < end { StopsBy(lines, header, idx + 1, if IsHeader(lines[idx], header) then idx else start, end); }
  }

  /** In a cut whatever its own lines are, the section is found, no earlier than
      its header and no further than the next section. */
  lemma {:induction false} OpenBounds(c: Cut, header: string)
    requires OpenCut(c, header)
    ensures
      var (s, e) := Bounds(Whole(c), header);
      && |c.before| - 1 <= s < e <= |Whole(c)| && (c.after != [] ==> e <= |c.before| + |c.own|)
      && forall i :: s < i < e ==> !Bracketed(Whole(c)[i])
  {
    var lines, n := Whole(c), |c.before|;
    assert lines == c.before + (c.own + c.after);
    BoundsGrow(c.before, c.own + c.after, header, 0, -1);
    BoundsFacts(lines, header, n, n - 1);
    BoundsFacts(lines, header, 0, -1);
    if c.after != [] {
      assert lines[n + |c.own|] == c.after[0];
      StopsBy(lines, header, n, n - 1, n + |c.own|);
    }
  }

  /** Where every line of the key looks like a section, the located section has
      no line of the key. */
  lemma {:induction false} BracketedNotFound(c: Cut, header: string, prefix: string, target: string)
    requires OpenCut(c, header) && OnlyTarget(c.own, prefix, target) && Bracketed(target)
    ensures NoKeyIn(Whole(c), header, prefix)
  {
    OpenBounds(c, header);
    var lines, n := Whole(c), |c.before|;
    var (s, e) := Bounds(lines, header);
    forall i | s < i < e ensures !IsKeyLine(lines[i], prefix) {
      assert lines[i] == c.own[i - n];
    }
  }

  /** Settling keeps that every line of the key is the target. */
  lemma {:induction false} SettledOnlyTarget(c: Cut, prefix: string, target: string)
    requires prefix != "" && OnlyTarget(c.own, prefix, target)
    ensures OnlyTarget(SettledCut(c).own, prefix, target)
  {
    if c.after == [] {
      TrimTrailingFacts(c.own);
      BlankIsNoKey("", prefix);
    }
  }

  /** Without settable inputs, the section that is found afterwards has no line
      of the key. */
  lemma {:induction false} NotFoundAgain(c: Cut, own: seq<string>, section: string, key: string, value: string)
    requires OneLineInputs(section, key, value) && !Settable(key, value) && OpenCut(c, Header(section))
    requires c.own == SetOwn(own, KeyPrefix(key), KeyPrefix(key) + value)
    ensures NoKeyIn(Whole(SettledCut(c)), Header(section), KeyPrefix(key)) && Bounds(Whole(SettledCut(c)), Header(section)).0 != -1
  {
    var header, prefix, target := Header(section), KeyPrefix(key), KeyPrefix(key) + value;
    HeaderFacts(section);
    SettledKeepsCut(c, header);
    OpenBounds(SettledCut(c), header);
    assert key != "";
    if IsSpace(key[0]) {
      forall line ensures !IsKeyLine(line, prefix) { SpacedIsNoKey(line, prefix); }
    } else {
      TargetIsKeyLine(key, value);
      SetOwnFacts(own, prefix, target);
      SettledOnlyTarget(c, prefix, target);
      BracketedNotFound(SettledCut(c), header, prefix, target);
    }
  }

  /** Setting a key that the located section does not have adds a line. */
  lemma {:induction false} NoKeyAddsLine(text: string, section: string, key: string, value: string)
    requires OneLineInputs(section, key, value)
    requires Bounds(LinesOf(text), Header(section)).0 != -1 && NoKeyIn(LinesOf(text), Header(section), KeyPrefix(key))
    ensures Filled(LinesOf(SetText(text, section, key, value))) == Filled(LinesOf(text)) + 1
  {
    var header, prefix, target := Header(section), KeyPrefix(key), KeyPrefix(key) + value;
    HeaderFacts(section);
    LinesAreOneLiners(text);
    var c0 := CutOf(LinesOf(text), header);
    var c := c0.(own := SetOwn(c0.own, prefix, target));
    CutEdits(c0, header, prefix, target);
    NoKeyInCut(c0, header, prefix);
    SetOwnInside(c0.own, prefix, target);
    OneLinersWhole(c, target, LinesOf(text));
    CutReadBack(c, header);
    TargetFilled(key, value);
    SetOwnFilled(c0.own, prefix, target);
    FilledThree(c0.before, c0.own, c0.after);
    FilledThree(c.before, c.own, c.after);
    ReadBackFilled(c);
  }

  lemma {:induction false} NoKeyInCut(c: Cut, header: string, prefix: string)
    requires CutAt(c, header) && NoKeyIn(Whole(c), header, prefix)
    ensures !HasKey(c.own, prefix)
  {
    BoundsOfLocated(c.before, c.own, c.after, header);
    forall i | 0 <= i < |c.own| ensures !IsKeyLine(c.own[i], prefix) {
      assert Whole(c)[|c.before| + i] == c.own[i];
    }
  }

  lemma {:induction false} ReadBackFilled(c: Cut)
    requires TrimTrailing(Whole(SettledCut(c))) == TrimTrailing(Whole(c))
    ensures Filled(Whole(SettledCut(c))) == Filled(Whole(c))
  {
    FilledTrimmed(Whole(SettledCut(c)));
    FilledTrimmed(Whole(c));
  }

  /** What is read back after setting without settable inputs: the section is
      there without a line of the key, and there are more lines than the others. */
  lemma {:induction false} UnsettableRead(text: string, section: string, key: string, value: string)
    requires OneLineInputs(section, key, value) && !Settable(key, value)
    ensures
      var lines := LinesOf(SetText(text, section, key, value));
      && Bounds(lines, Header(section)).0 != -1 && NoKeyIn(lines, Header(section), KeyPrefix(key))
      && Filled(lines) > Filled(Others(LinesOf(text), Header(section), KeyPrefix(key)))
  {
    var header, prefix, target := Header(section), KeyPrefix(key), KeyPrefix(key) + value;
    HeaderFacts(section);
    var c, own := SetWrites(text, section, key, value);
    NotFoundAgain(c, own, section, key, value);
    CutReadBack(c, header);
    ReadBackFilled(c);
    TargetFilled(key, value);
    SetOwnFilled(own, prefix, target);
    FilledThree(c.before, c.own, c.after);
    FilledThree(c.before, DropKey(own, prefix), c.after);
  }

  /** Removing a key that the located section does not have changes nothing. */
  lemma {:induction false} NoKeyRemoved(lines: seq<string>, section: string, prefix: string)
    requires Bounds(lines, Header(section)).0 != -1 && NoKeyIn(lines, Header(section), prefix)
    ensures RemoveLines(lines, Header(section), prefix) == lines
  {
    HeaderFacts(section);
    var c := CutOf(lines, Header(section));
    CutEdits(c, Header(section), prefix, "");
    NoKeyInCut(c, Header(section), prefix);
    ReplaceNoKey(c.own, prefix, "");
    assert c.(own := c.own) == c;
  }

  // ---- what setting promises, and when ----

  /** After setting, the section is there, it has the key, and every line of the
      key in it is the line that was set: exactly for settable inputs. */
  lemma {:induction false} SetHolds(text: string, section: string, key: string, value: string)
    requires OneLineInputs(section, key, value)
    ensures HoldsTarget(LinesOf(SetText(text, section, key, value)), Header(section), KeyPrefix(key), KeyPrefix(key) + value)
      <==> Settable(key, value)
  {
    if Settable(key, value) { SettableHolds(text, section, key, value); } else { UnsettableRead(text, section, key, value); }
  }

  /** All other lines keep their content and order, up to blanks at the end:
      exactly for settable inputs. */
  lemma {:induction false} SetKeepsOthers(text: string, section: string, key: string, value: string)
    requires OneLineInputs(section, key, value)
    ensures KeepsOthers(text, section, key, value) <==> Settable(key, value)
  {
    if Settable(key, value) {
      SettableKeepsOthers(text, section, key, value);
    } else {
      UnsettableRead(text, section, key, value);
      var lines := LinesOf(SetText(text, section, key, value));
      NoKeyRemoved(lines, section, KeyPrefix(key));
      FilledTrimmed(lines);
      FilledTrimmed(Others(LinesOf(text), Header(section), KeyPrefix(key)));
    }
  }

  /** Setting twice is setting once, exactly for settable inputs: with others,
      every time adds a line. */
  lemma {:induction false} SetTwice(text: string, section: string, key: string, value: string)
    requires OneLineInputs(section, key, value)
    ensures SetText(SetText(text, section, key, value), section, key, value) == SetText(text, section, key, value) <==> Settable(key, value)
  {
    if Settable(key, value) {
      SettableTwice(text, section, key, value);
    } else {
      UnsettableRead(text, section, key, value);
      NoKeyAddsLine(SetText(text, section, key, value), section, key, value);
    }
  }

  /** A path leads to a key that starts with white space. */
  lemma {:induction false} SpacedKeyFromPath()
    ensures SplitSetting("a/ b") == Some(Setting("a", " b")) && !Settable(" b", "1")
  {
    var path := "a/ b";
    TrimSpaceOfTrimmed(path);
    assert TrimSlashes(path) == path;
    assert FindChar(path, '/') == 1 && path[..1] == "a" && path[2..] == " b";
    assert " b"[1] == 'b';
    if Blank(" b") { BlankIsSpaces(" b"); }
    if Blank("a") { BlankIsSpaces("a"); }
  }

  // ---- removing a key ----

  /** After removing, the section has no line of the key, and the file is what
      it was without those lines, up to blanks at the end. */
  lemma {:induction false} RemoveHolds(text: string, section: string, key: string)
    ensures NoKeyIn(LinesOf(RemoveText(text, section, key)), Header(section), KeyPrefix(key))
    ensures TrimTrailing(LinesOf(RemoveText(text, section, key)))
      == TrimTrailing(RemoveLines(LinesOf(text), Header(section), KeyPrefix(key)))
  {
    var lines, header, prefix := LinesOf(text), Header(section), KeyPrefix(key);
    HeaderFacts(section);
    if Bounds(lines, header).0 != -1 {
      var c := CutOf(lines, header);
      CutEdits(c, header, prefix, "");
      DroppedNoKey(c.own, prefix);
      DroppedInside(c.own, prefix);
      var c' := c.(own := DropKey(c.own, prefix));
      if Whole(c') == lines {
        SameOwn(c, DropKey(c.own, prefix));
        CutNoKey(c, header, prefix);
      } else {
        InnerLess(c.own, c'.own, header);
        LinesAreOneLiners(text);
        OneLinersWhole(c', "", lines);
        CutReadBack(c', header);
        SettledNoKey(c', prefix);
        CutNoKey(SettledCut(c'), header, prefix);
      }
    }
  }

  lemma {:induction false} SameOwn(c: Cut, own: seq<string>)
    requires Whole(c.(own := own)) == Whole(c)
    ensures own == c.own
  {
    assert |own| == |c.own|;
    var n := |c.before|;
    assert Whole(c)[n..n + |own|] == c.own && Whole(c.(own := own))[n..n + |own|] == own;
  }

  lemma {:induction false} InnerLess(own: seq<string>, own': seq<string>, header: string)
    requires Inner(own, header) && forall x :: x in own' ==> x in own
    ensures Inner(own', header)
  {
    forall i | 0 <= i < |own'| ensures !IsHeader(own'[i], header) && !Bracketed(own'[i]) {
      assert own'[i] in own';
      var j :| 0 <= j < |own| && own[j] == own'[i];
    }
  }

  // ---- values of several lines ----

  lemma {:induction false} OneLinersApart(c: Cut)
    requires OneLiners(Whole(c))
    ensures OneLiners(c.before) && OneLiners(c.own) && OneLiners(c.after)
  {
    var lines, n := Whole(c), |c.before|;
    assert forall i :: 0 <= i < n ==> lines[i] == c.before[i];
    assert forall i :: 0 <= i < |c.own| ==> lines[n + i] == c.own[i];
    assert forall i :: 0 <= i < |c.after| ==> lines[n + |c.own| + i] == c.after[i];
  }

  lemma {:induction false} WholeWeight(c: Cut, own: seq<string>)
    requires OneLiners(c.before) && OneLiners(c.after) && Weight(own) > Filled(c.own)
    ensures Weight(Whole(c.(own := own))) > Filled(Whole(c))
  {
    WeightConcat(c.before + own, c.after);
    WeightConcat(c.before, own);
    WeightOfOneLiners(c.before);
    WeightOfOneLiners(c.after);
    FilledThree(c.before, c.own, c.after);
  }

  /** On one line each, but for the target, which has no carriage return. */
  ghost predicate OneLinersBut(lines: seq<string>, target: string) {
    forall i :: 0 <= i < |lines| ==> OneLine(lines[i]) || lines[i] == target
  }

  lemma {:induction false} NoReturns(c: Cut, target: string, lines: seq<string>)
    requires OneLiners(lines) && forall x :: x in Whole(c) ==> x == target || x in lines
    ensures OneLinersBut(Whole(c), target)
  {
    forall i | 0 <= i < |Whole(c)| ensures OneLine(Whole(c)[i]) || Whole(c)[i] == target {
      assert Whole(c)[i] in Whole(c);
      if Whole(c)[i] != target { var j :| 0 <= j < |lines| && lines[j] == Whole(c)[i]; }
    }
  }

  lemma {:induction false} NewSectionOneLiners(lines: seq<string>, header: string)
    requires OneLiners(lines) && OneLine(header)
    ensures OneLiners(WithHeader(lines, header))
  {}

  lemma {:induction false} FilledBehind(lines: seq<string>, before: seq<string>)
    requires lines <= before
    ensures Filled(lines) <= Filled(before)
  {
    assert before == lines + before[|lines|..];
    FilledConcat(lines, before[|lines|..]);
  }

  lemma {:induction false} JoinedNoReturn(lines: seq<string>, target: string)
    requires OneLinersBut(lines, target) && '\r' !in target
    ensures '\r' !in JoinLines(lines)
  {
    if |lines| > 1 { JoinedNoReturn(lines[1..], target); }
  }

  lemma {:induction false} TrimmedWeight(lines: seq<string>, target: string)
    requires OneLinersBut(lines, target) && !Blank(target)
    ensures Weight(TrimTrailing(lines)) == Weight(lines)
  {
    if lines != [] && Blank(lines[|lines| - 1]) {
      var front, last := lines[..|lines| - 1], lines[|lines| - 1];
      TrimmedWeight(front, target);
      assert front + [last] == lines;
      WeightMore(front, last);
      SplitOneLine(last);
      OneFilled(last);
    }
  }

  /** The lines read back from what is written, the target's own included. */
  lemma {:induction false} WrittenWeight(lines: seq<string>, target: string)
    requires OneLinersBut(lines, target) && '\r' !in target && !Blank(target) && Weight(lines) > 0
    ensures Filled(LinesOf(Written(lines))) == Weight(lines)
  {
    var trimmed := TrimTrailing(lines);
    TrimTrailingFacts(lines);
    TrimmedWeight(lines, target);
    assert trimmed != [] by { assert Weight([]) == 0; }
    JoinedNoReturn(trimmed, target);
    NormalizedAlready(Written(lines));
    JoinedWeight(trimmed);
    assert Written(lines) == JoinLines(trimmed) + "\n" + "";
    SplitAtBreak(JoinLines(trimmed), "");
    FilledMore(SplitLines(JoinLines(trimmed)), "");
    assert Blank("");
  }

  /** A value of several lines, more than one of them not blank: whatever the
      text, setting it adds to the lines, so setting twice is never setting once. */
  lemma {:induction false} LinesLeftBehind(text: string, section: string, key: string, value: string)
    requires OneLine(section) && OneLine(key) && '\r' !in value && Filled(SplitLines(KeyPrefix(key) + value)) >= 2
    ensures Filled(LinesOf(SetText(text, section, key, value))) > Filled(LinesOf(text))
    ensures SetText(text, section, key, value) != text
  {
    var lines, header, prefix, target := LinesOf(text), Header(section), KeyPrefix(key), KeyPrefix(key) + value;
    HeaderFacts(section);
    LinesAreOneLiners(text);
    TargetFilled(key, value);
    if Bounds(lines, header).0 != -1 {
      var c := CutOf(lines, header);
      CutEdits(c, header, prefix, target);
      SetOwnInside(c.own, prefix, target);
      OneLinersApart(c);
      SetOwnWeight(c.own, prefix, target);
      WholeWeight(c, SetOwn(c.own, prefix, target));
      NoReturns(c.(own := SetOwn(c.own, prefix, target)), target, lines);
      WrittenWeight(Whole(c.(own := SetOwn(c.own, prefix, target))), target);
    } else {
      NewWhole(lines, header, target);
      var before := WithHeader(lines, header);
      NewSectionOneLiners(lines, header);
      WeightOfOneLiners(before);
      WeightMore(before, target);
      FilledBehind(lines, before);
      WrittenWeight(before + [target], target);
    }
  }
}
