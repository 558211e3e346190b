/** Counting the lines of project.godot that are not blank: what setting a key
    adds to them. */
module SettingsCounts {
  import opened Text
  import opened ProjectSettings

  /** How many lines are not blank. */
  function Filled(lines: seq<string>): nat {
    if lines == [] then 0
    else Filled(lines[..|lines| - 1]) + (if Blank(lines[|lines| - 1]) then 0 else 1)
  }

  lemma {:induction false} FilledMore(front: seq<string>, last: string)
    ensures Filled(front + [last]) == Filled(front) + (if Blank(last) then 0 else 1)
  {
    assert (front + [last])[..|front|] == front;
  }

  lemma {:induction false} FilledConcat(a: seq<string>, b: seq<string>)
    ensures Filled(a + b) == Filled(a) + Filled(b)
  {
    if b == [] { assert a + b == a; }
    else {
      var front, last := b[..|b| - 1], b[|b| - 1];
      FilledConcat(a, front);
      FilledMore(a + front, last);
      assert a + front + [last] == a + b;
    }
  }

  lemma {:induction false} FilledThree(a: seq<string>, b: seq<string>, c: seq<string>)
    ensures Filled(a + b + c) == Filled(a) + Filled(b) + Filled(c)
  {
    FilledConcat(a + b, c);
    FilledConcat(a, b);
  }

  lemma {:induction false} FilledTrimmed(lines: seq<string>)
    ensures Filled(TrimTrailing(lines)) == Filled(lines)
  {
    if lines != [] && Blank(lines[|lines| - 1]) { FilledTrimmed(lines[..|lines| - 1]); }
  }

  // ---- blank lines ----

  lemma {:induction false} TrimmedAway(s: string)
    requires TrimLeft(s) == ""
    ensures forall i :: 0 <= i < |s| ==> IsSpace(s[i])
  {
    if s != "" { TrimmedAway(s[1..]); }
  }

  lemma {:induction false} BlankIsSpaces(s: string)
    requires Blank(s)
    ensures forall i :: 0 <= i < |s| ==> IsSpace(s[i])
  {
    TrimLeftFacts(s);
    if TrimLeft(s) != "" { TrimRightConcat("", TrimLeft(s)); }
    TrimmedAway(s);
  }

  /** The line of a key is never blank. */
  lemma {:induction false} TargetFilled(key: string, value: string)
    ensures !Blank(KeyPrefix(key) + value)
  {
    var target := KeyPrefix(key) + value;
    assert target[|key|] == '=';
    if Blank(target) { BlankIsSpaces(target); }
  }

  // ---- a section's lines ----

  lemma {:induction false} ReplacedFilled(own: seq<string>, prefix: string, target: string)
    requires prefix != "" && !Blank(target)
    ensures Filled(ReplaceKey(own, prefix, target)) == Filled(own)
  {
    if own != [] {
      var front, last := own[..|own| - 1], own[|own| - 1];
      ReplacedFilled(front, prefix, target);
      FilledMore(ReplaceKey(front, prefix, target), if IsKeyLine(last, prefix) then target else last);
    }
  }

  lemma {:induction false} DroppedFilled(own: seq<string>, prefix: string)
    requires prefix != ""
    ensures Filled(DropKey(own, prefix)) <= Filled(own)
    ensures HasKey(own, prefix) ==> Filled(DropKey(own, prefix)) < Filled(own)
  {
    if own != [] {
      var front, last := own[..|own| - 1], own[|own| - 1];
      assert own == front + [last];
      DroppedFilled(front, prefix);
      HasKeyMore(front, last, prefix);
      FilledConcat(DropKey(front, prefix), if IsKeyLine(last, prefix) then [] else [last]);
      OneFilled(last);
    }
  }

  lemma {:induction false} OneFilled(line: string)
    ensures Filled([line]) == if Blank(line) then 0 else 1
  {
    assert [] + [line] == [line];
    FilledMore([], line);
  }

  /** Setting a key adds a line when it replaces none; with the key's lines
      dropped there are fewer in any case. */
  lemma {:induction false} SetOwnFilled(own: seq<string>, prefix: string, target: string)
    requires prefix != "" && !Blank(target)
    ensures Filled(SetOwn(own, prefix, target)) == Filled(own) + (if HasKey(own, prefix) then 0 else 1)
    ensures Filled(DropKey(own, prefix)) < Filled(SetOwn(own, prefix, target))
  {
    DroppedFilled(own, prefix);
    if HasKey(own, prefix) { ReplacedFilled(own, prefix, target); } else { FilledMore(own, target); }
  }

  // ---- values of several lines ----

  function Total(weight: string -> nat, lines: seq<string>): nat {
    if lines == [] then 0 else Total(weight, lines[..|lines| - 1]) + weight(lines[|lines| - 1])
  }

  lemma {:induction false} TotalMore(weight: string -> nat, front: seq<string>, last: string)
    ensures Total(weight, front + [last]) == Total(weight, front) + weight(last)
  {
    assert (front + [last])[..|front|] == front;
  }

  lemma {:induction false} TotalConcat(weight: string -> nat, a: seq<string>, b: seq<string>)
    ensures Total(weight, a + b) == Total(weight, a) + Total(weight, b)
  {
    if b == [] { assert a + b == a; }
    else {
      var front, last := b[..|b| - 1], b[|b| - 1];
      TotalConcat(weight, a, front);
      TotalMore(weight, a + front, last);
      assert a + front + [last] == a + b;
    }
  }

  function LineWeight(text: string): nat { Filled(SplitLines(text)) }

  /** How many lines that are not blank there are in some texts. */
  function Weight(lines: seq<string>): nat { Total(LineWeight, lines) }

  lemma {:induction false} WeightMore(front: seq<string>, last: string)
    ensures Weight(front + [last]) == Weight(front) + LineWeight(last)
  {
    TotalMore(LineWeight, front, last);
  }

  lemma {:induction false} WeightConcat(a: seq<string>, b: seq<string>)
    ensures Weight(a + b) == Weight(a) + Weight(b)
  {
    TotalConcat(LineWeight, a, b);
  }

  lemma {:induction false} SplitOneLine(s: string)
    requires '\n' !in s
    ensures SplitLines(s) == [s]
  {
    if s != "" { SplitOneLine(s[1..]); assert [s[0]] + s[1..] == s; }
  }

  lemma {:induction false} WeightOfOneLiners(lines: seq<string>)
    requires OneLiners(lines)
    ensures Weight(lines) == Filled(lines)
  {
    if lines != [] {
      WeightOfOneLiners(lines[..|lines| - 1]);
      SplitOneLine(lines[|lines| - 1]);
      OneFilled(lines[|lines| - 1]);
    }
  }

  lemma {:induction false} SplitAtBreak(a: string, b: string)
    ensures SplitLines(a + "\n" + b) == SplitLines(a) + SplitLines(b)
  {
    var s := a + "\n" + b;
    if a == "" {
      assert s[0] == '\n' && s[1..] == b;
    } else {
      SplitAtBreak(a[1..], b);
      assert s[0] == a[0] && s[1..] == a[1..] + "\n" + b;
      FirstJoined(a, SplitLines(a[1..]), SplitLines(b));
    }
  }

  /** Putting a character before the first of two lists of lines. */
  lemma {:induction false} FirstJoined(a: string, front: seq<string>, back: seq<string>)
    requires a != "" && front != []
    ensures [""] + (front + back) == [""] + front + back
    ensures [[a[0]] + (front + back)[0]] + (front + back)[1..] == [[a[0]] + front[0]] + front[1..] + back
  {
    assert (front + back)[1..] == front[1..] + back;
  }

  lemma {:induction false} JoinMore(front: seq<string>, last: string)
    requires front != []
    ensures JoinLines(front + [last]) == JoinLines(front) + "\n" + last
  {
    if |front| > 1 {
      JoinMore(front[1..], last);
      assert (front + [last])[1..] == front[1..] + [last];
      assert JoinLines(front + [last]) == front[0] + "\n" + (JoinLines(front[1..]) + "\n" + last);
    } else {
      assert (front + [last])[1..] == [last];
    }
  }

  /** Joining lines keeps their weight, whatever breaks they contain. */
  lemma {:induction false} JoinedWeight(lines: seq<string>)
    requires lines != []
    ensures Filled(SplitLines(JoinLines(lines))) == Weight(lines)
  {
    var front, last := lines[..|lines| - 1], lines[|lines| - 1];
    if front == [] {
      assert lines == [last] && JoinLines(lines) == last;
      assert Weight(lines) == Weight([]) + LineWeight(last);
    } else {
      JoinedWeight(front);
      JoinMore(front, last);
      assert front + [last] == lines;
      SplitAtBreak(JoinLines(front), last);
      FilledConcat(SplitLines(JoinLines(front)), SplitLines(last));
    }
  }

  lemma {:induction false} ReplacedWeight(own: seq<string>, prefix: string, target: string)
    requires OneLiners(own) && prefix != "" && Filled(SplitLines(target)) >= 2
    ensures Weight(ReplaceKey(own, prefix, target)) >= Filled(own) + (if HasKey(own, prefix) then 1 else 0)
  {
    if own != [] {
      var front, last := own[..|own| - 1], own[|own| - 1];
      assert own == front + [last];
      ReplacedWeight(front, prefix, target);
      HasKeyMore(front, last, prefix);
      WeightMore(ReplaceKey(front, prefix, target), if IsKeyLine(last, prefix) then target else last);
      SplitOneLine(last);
      OneFilled(last);
    }
  }

  lemma {:induction false} SetOwnWeight(own: seq<string>, prefix: string, target: string)
    requires OneLiners(own) && prefix != "" && Filled(SplitLines(target)) >= 2
    ensures Weight(SetOwn(own, prefix, target)) > Filled(own)
  {
    if HasKey(own, prefix) {
      ReplacedWeight(own, prefix, target);
    } else {
      WeightOfOneLiners(own);
      WeightMore(own, target);
    }
  }
}
