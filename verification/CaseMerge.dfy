/** Merging the test cases of a run: one case per key, which is a group-by. */
module CaseMerge {
  import opened Text

  datatype TestCase = TestCase(name: string, suite: string, passed: bool, duration: int, output: string, error: string)

  datatype RunResult = RunResult(passed: bool, total: nat, failed: nat, skipped: nat, cases: seq<TestCase>)

  function Key(c: TestCase): string {
    FirstNonEmpty([c.suite, "global"]) + "::" + FirstNonEmpty([c.name, "unnamed"])
  }

  /** A case that has taken in another of the same key. */
  function Absorb(a: TestCase, b: TestCase): TestCase {
    a.(output := TrimSpace(TrimSpace(a.output) + "\n" + TrimSpace(b.output)),
       passed := a.passed && b.passed,
       error := if b.passed then a.error else FirstNonEmpty([b.error, a.error]),
       duration := if b.duration > a.duration then b.duration else a.duration)
  }

  // ---- the group-by ----

  /** The keys in order of first appearance. */
  function Keys(cases: seq<TestCase>): seq<string> {
    if cases == [] then []
    else
      var before, k := Keys(cases[..|cases| - 1]), Key(cases[|cases| - 1]);
      if k in before then before else before + [k]
  }

  function Group(cases: seq<TestCase>, k: string): seq<TestCase> {
    if cases == [] then []
    else Group(cases[..|cases| - 1], k) + (if Key(cases[|cases| - 1]) == k then [cases[|cases| - 1]] else [])
  }

  function Combined(group: seq<TestCase>): TestCase
    requires group != []
  {
    if |group| == 1 then group[0] else Absorb(Combined(group[..|group| - 1]), group[|group| - 1])
  }

  lemma {:induction false} GroupOfKey(cases: seq<TestCase>, k: string)
    ensures k in Keys(cases) <==> Group(cases, k) != []
  {
    if cases != [] { GroupOfKey(cases[..|cases| - 1], k); }
  }

  lemma {:induction false} GroupMembers(cases: seq<TestCase>, k: string, c: TestCase)
    ensures c in Group(cases, k) <==> c in cases && Key(c) == k
  {
    if cases != [] {
      var front, last := cases[..|cases| - 1], cases[|cases| - 1];
      GroupMembers(front, k, c);
      assert cases == front + [last];
    }
  }

  lemma {:induction false} KeysDistinct(cases: seq<TestCase>)
    ensures forall i, j :: 0 <= i < j < |Keys(cases)| ==> Keys(cases)[i] != Keys(cases)[j]
  {
    if cases != [] { KeysDistinct(cases[..|cases| - 1]); }
  }

  /** Key k shows up before key l does. */
  ghost predicate ComesFirst(cases: seq<TestCase>, k: string, l: string) {
    exists i :: 0 <= i < |cases| && Key(cases[i]) == k && forall j :: 0 <= j <= i ==> Key(cases[j]) != l
  }

  lemma {:induction false} KeysInOrder(cases: seq<TestCase>)
    ensures forall i, j :: 0 <= i < j < |Keys(cases)| ==> ComesFirst(cases, Keys(cases)[i], Keys(cases)[j])
  {
    if cases != [] {
      var front, last := cases[..|cases| - 1], cases[|cases| - 1];
      KeysInOrder(front);
      assert cases == front + [last];
      forall i, j | 0 <= i < j < |Keys(cases)| ensures ComesFirst(cases, Keys(cases)[i], Keys(cases)[j]) {
        if j < |Keys(front)| { StillFirst(front, last, Keys(front)[i], Keys(front)[j]); } else { NewKeyIsLast(front, last, Keys(front)[i]); }
      }
    }
  }

  lemma {:induction false} StillFirst(front: seq<TestCase>, last: TestCase, k: string, l: string)
    requires ComesFirst(front, k, l)
    ensures ComesFirst(front + [last], k, l)
  {
    var i :| 0 <= i < |front| && Key(front[i]) == k && forall j :: 0 <= j <= i ==> Key(front[j]) != l;
    assert Key((front + [last])[i]) == k;
  }

  lemma {:induction false} NewKeyIsLast(front: seq<TestCase>, last: TestCase, k: string)
    requires k in Keys(front) && Key(last) !in Keys(front)
    ensures ComesFirst(front + [last], k, Key(last))
  {
    GroupOfKey(front, k);
    GroupOfKey(front, Key(last));
    GroupMembers(front, k, Group(front, k)[0]);
    var i :| 0 <= i < |front| && front[i] == Group(front, k)[0];
    forall j | 0 <= j < |front| ensures Key(front[j]) != Key(last) { GroupMembers(front, Key(last), front[j]); }
    assert Key((front + [last])[i]) == k;
  }

  /** One case per key, each combined from its group. */
  function MergedAt(cases: seq<TestCase>, i: nat): TestCase
    requires i < |Keys(cases)|
  {
    GroupOfKey(cases, Keys(cases)[i]);
    Combined(Group(cases, Keys(cases)[i]))
  }

  function Merged(cases: seq<TestCase>): seq<TestCase> {
    seq(|Keys(cases)|, i requires 0 <= i < |Keys(cases)| => MergedAt(cases, i))
  }

  // ---- the loop ----

  lemma {:induction false} KeysMore(cases: seq<TestCase>, c: TestCase, k: string)
    ensures Keys(cases + [c]) == if Key(c) in Keys(cases) then Keys(cases) else Keys(cases) + [Key(c)]
    ensures Group(cases + [c], k) == if Key(c) == k then Group(cases, k) + [c] else Group(cases, k)
  {
    assert (cases + [c])[..|cases|] == cases;
  }

  lemma {:induction false} MergedKnown(cases: seq<TestCase>, c: TestCase, idx: nat)
    requires idx < |Keys(cases)| && Keys(cases)[idx] == Key(c)
    ensures Merged(cases + [c]) == Merged(cases)[idx := Absorb(Merged(cases)[idx], c)]
  {
    KeysMore(cases, c, Key(c));
    KeysDistinct(cases);
    forall i | 0 <= i < |Keys(cases)|
      ensures MergedAt(cases + [c], i) == if i == idx then Absorb(MergedAt(cases, i), c) else MergedAt(cases, i)
    {
      KeysMore(cases, c, Keys(cases)[i]);
      GroupOfKey(cases, Keys(cases)[i]);
      if i == idx { CombinedMore(Group(cases, Key(c)), c); }
    }
  }

  lemma {:induction false} CombinedMore(group: seq<TestCase>, c: TestCase)
    requires group != []
    ensures Combined(group + [c]) == Absorb(Combined(group), c)
  {
    assert (group + [c])[..|group|] == group;
  }

  lemma {:induction false} MergedNew(cases: seq<TestCase>, c: TestCase)
    requires Key(c) !in Keys(cases)
    ensures Merged(cases + [c]) == Merged(cases) + [c]
  {
    KeysMore(cases, c, Key(c));
    GroupOfKey(cases, Key(c));
    var n := |Keys(cases)|;
    forall i | 0 <= i < n ensures MergedAt(cases + [c], i) == MergedAt(cases, i) {
      OldGroup(cases, c, i);
    }
    assert MergedAt(cases + [c], n) == c by { assert Group(cases + [c], Key(c)) == [c]; }
  }

  lemma {:induction false} OldGroup(cases: seq<TestCase>, c: TestCase, i: nat)
    requires Key(c) !in Keys(cases) && i < |Keys(cases)|
    ensures i < |Keys(cases + [c])| && MergedAt(cases + [c], i) == MergedAt(cases, i)
  {
    KeysMore(cases, c, Keys(cases)[i]);
    assert Keys(cases)[i] in Keys(cases);
  }

  /** The loop over an index of keys computes the group-by. */
  method MergeCases(cases: seq<TestCase>) returns (merged: seq<TestCase>)
    ensures merged == Merged(cases)
  {
    merged := [];
    if |cases| == 0 { return; }
    var seen: map<string, nat> := map[];
    for n := 0 to |cases|
      invariant merged == Merged(cases[..n])
      invariant forall k :: k in seen <==> k in Keys(cases[..n])
      invariant forall k :: k in seen ==> seen[k] < |Keys(cases[..n])| && Keys(cases[..n])[seen[k]] == k
    {
      var c := cases[n];
      var key := Key(c);
      assert cases[..n + 1] == cases[..n] + [c];
      KeysMore(cases[..n], c, key);
      if key in seen {
        MergedKnown(cases[..n], c, seen[key]);
        merged := merged[seen[key] := Absorb(merged[seen[key]], c)];
      } else {
        MergedNew(cases[..n], c);
        seen := seen[key := |merged|];
        merged := merged + [c];
      }
    }
    assert cases[..|cases|] == cases;
  }

  // ---- which cases share a key ----

  /** How a case's suite or name is shown: trimmed, or a word for a blank one. */
  predicate ShownAs(text: string, missing: string, shown: string) {
    shown == if Blank(text) then missing else TrimSpace(text)
  }

  /** The suite and the name both count, with two colons between them. */
  lemma {:induction false} KeyOf(c: TestCase, suite: string, name: string)
    requires ShownAs(c.suite, "global", suite) && ShownAs(c.name, "unnamed", name)
    ensures Key(c) == suite + "::" + name
  {
    Shows(c.suite, "global");
    Shows(c.name, "unnamed");
  }

  lemma {:induction false} Shows(text: string, missing: string)
    requires missing != "" && Trimmed(missing)
    ensures FirstNonEmpty([text, missing]) == if Blank(text) then missing else TrimSpace(text)
  {
    TrimSpaceOfTrimmed(missing);
    assert [text, missing][1..] == [missing];
  }

  /** Whether a longer suite can take over the colons and the front of a name. */
  predicate RunsInto(suite: string, other: string) {
    other == suite + ":" || (suite + "::" <= other && (|other| == |suite| + 2 || !IsSpace(other[|suite| + 2])))
  }

  ghost predicate Confused(suite: string, other: string) {
    exists n, m :: n != "" && m != "" && Trimmed(n) && Trimmed(m) && suite + "::" + n == other + "::" + m
  }

  /** Cases of one suite share a key exactly when they share the name. Cases of two
      suites can share one exactly when one suite is the other with a colon behind
      it, or goes on behind the other with two colons. */
  lemma {:induction false} SuitesConfused(suite: string, other: string, n: string, m: string)
    requires Trimmed(suite) && Trimmed(other)
    ensures suite + "::" + n == suite + "::" + m <==> n == m
    ensures suite != other ==> (Confused(suite, other) <==> RunsInto(suite, other) || RunsInto(other, suite))
  {
    assert (suite + "::" + n)[|suite| + 2..] == n && (suite + "::" + m)[|suite| + 2..] == m;
    if suite != other {
      if RunsInto(suite, other) { RunsIntoConfuses(suite, other); }
      if RunsInto(other, suite) { RunsIntoConfuses(other, suite); }
      forall n, m | n != "" && m != "" && Trimmed(n) && Trimmed(m) && suite + "::" + n == other + "::" + m
        ensures RunsInto(suite, other) || RunsInto(other, suite)
      {
        if |suite| <= |other| { ConfusedRunsInto(suite, other, n, m); } else { ConfusedRunsInto(other, suite, m, n); }
      }
    }
  }

  lemma {:induction false} RunsIntoConfuses(suite: string, other: string)
    requires RunsInto(suite, other) && Trimmed(other)
    ensures Confused(suite, other) && Confused(other, suite)
  {
    var n := if other == suite + ":" then ":x" else other[|suite| + 2..] + "::x";
    if other == suite + ":" {
      assert suite + "::" + n == other + "::" + "x";
    } else {
      assert other == suite + "::" + other[|suite| + 2..];
      assert suite + "::" + n == other + "::" + "x";
    }
    assert n[|n| - 1] == 'x';
    assert Trimmed(n) && Trimmed("x");
  }

  lemma {:induction false} ConfusedRunsInto(suite: string, other: string, n: string, m: string)
    requires |suite| <= |other| && suite != other && suite + "::" + n == other + "::" + m && n != "" && Trimmed(n)
    ensures RunsInto(suite, other)
  {
    var key := suite + "::" + n;
    assert key == other + "::" + m;
    assert key[..|other|] == other && key[..|suite|] == suite;
    assert |suite| < |other|;
    assert other[|suite|] == key[|suite|] == ':';
    if |other| > |suite| + 1 {
      assert other[|suite| + 1] == key[|suite| + 1] == ':';
      assert other[..|suite| + 2] == suite + "::";
      if |other| > |suite| + 2 { assert other[|suite| + 2] == key[|suite| + 2] == n[0]; }
    } else {
      assert other == suite + ":";
    }
  }

  // ---- the texts of a group ----

  /** The outputs of a group that are not blank, trimmed, a line break between them. */
  function Outputs(group: seq<TestCase>): string {
    if group == [] then ""
    else
      var before, last := Outputs(group[..|group| - 1]), group[|group| - 1];
      if Blank(last.output) then before
      else if before == "" then TrimSpace(last.output)
      else before + "\n" + TrimSpace(last.output)
  }

  lemma {:induction false} JoinTrimmed(a: string, b: string)
    requires Trimmed(a) && Trimmed(b)
    ensures TrimSpace(a + "\n" + b) == if b == "" then a else if a == "" then b else a + "\n" + b
  {
    var s := a + "\n" + b;
    var i, j := if a == "" then 1 else 0, if b == "" then |a| else |s|;
    if a == "" && b == "" {
      TrimmedFromTo(s, 0, 0);
    } else {
      assert s[i..j] == if b == "" then a else if a == "" then b else a + "\n" + b;
      TrimmedFromTo(s, i, j);
    }
  }

  lemma {:induction false} OutputsTrimmed(group: seq<TestCase>)
    ensures Trimmed(Outputs(group))
  {
    if group != [] {
      OutputsTrimmed(group[..|group| - 1]);
      TrimSpaceTrims(group[|group| - 1].output);
    }
  }

  /** A lone case keeps its output; several are joined. */
  lemma {:induction false} CombinedOutput(group: seq<TestCase>)
    requires group != []
    ensures |group| == 1 ==> Combined(group).output == group[0].output
    ensures |group| > 1 ==> Combined(group).output == Outputs(group)
    ensures TrimSpace(Combined(group).output) == Outputs(group)
  {
    var front, last := group[..|group| - 1], group[|group| - 1];
    TrimSpaceTrims(last.output);
    OutputsTrimmed(front);
    OutputsTrimmed(group);
    if |group| == 1 {
      assert front == [];
    } else {
      CombinedOutput(front);
      JoinTrimmed(Outputs(front), TrimSpace(last.output));
    }
    TrimSpaceOfTrimmed(Outputs(group));
  }

  /** The last case behind the first that failed with an error text; the first case,
      if there is none. */
  function ErrorPlace(group: seq<TestCase>): (n: nat)
    requires group != []
    ensures n < |group| && (n > 0 ==> !group[n].passed && !Blank(group[n].error))
    ensures forall j :: n < j < |group| ==> group[j].passed || Blank(group[j].error)
  {
    var last := |group| - 1;
    if last == 0 || (!group[last].passed && !Blank(group[last].error)) then last else ErrorPlace(group[..last])
  }

  predicate RestPassed(group: seq<TestCase>) {
    forall i :: 0 < i < |group| ==> group[i].passed
  }

  /** The error is that of the last case that failed with one behind the first, or
      the first case's own; trimmed, once a case behind the first has failed. */
  lemma {:induction false} CombinedError(group: seq<TestCase>)
    requires group != []
    ensures Combined(group).error == if RestPassed(group) then group[0].error else TrimSpace(group[ErrorPlace(group)].error)
  {
    var n := |group| - 1;
    if n > 0 {
      var front, last := group[..n], group[n];
      CombinedError(front);
      assert RestPassed(group) <==> RestPassed(front) && last.passed;
      FirstOfTwo(last.error, Combined(front).error);
      TrimmedOnce(front[ErrorPlace(front)].error);
      if RestPassed(front) { FirstPlace(front); }
    }
  }

  lemma {:induction false} FirstPlace(group: seq<TestCase>)
    requires group != [] && RestPassed(group)
    ensures ErrorPlace(group) == 0
  {}

  lemma {:induction false} TrimmedOnce(s: string)
    ensures TrimSpace(TrimSpace(s)) == TrimSpace(s)
  {
    TrimSpaceTrims(s);
    TrimSpaceOfTrimmed(TrimSpace(s));
  }

  lemma {:induction false} FirstOfTwo(a: string, b: string)
    ensures FirstNonEmpty([a, b]) == if Blank(a) then TrimSpace(b) else TrimSpace(a)
  {
    assert FirstNonEmpty([b]) == TrimSpace(b);
    assert [a, b][1..] == [b];
  }

  // ---- what merging keeps ----

  /** A combined case keeps its first case's name and suite, and has passed
      exactly when all of its group have. */
  lemma {:induction false} CombinedFacts(group: seq<TestCase>)
    requires group != []
    ensures Combined(group).name == group[0].name && Combined(group).suite == group[0].suite
    ensures Combined(group).passed <==> forall i :: 0 <= i < |group| ==> group[i].passed
  {
    if |group| > 1 {
      var front := group[..|group| - 1];
      CombinedFacts(front);
      assert forall i :: 0 <= i < |front| ==> group[i] == front[i];
    }
  }

  lemma {:induction false} CombinedDuration(group: seq<TestCase>)
    requires group != []
    ensures forall i :: 0 <= i < |group| ==> group[i].duration <= Combined(group).duration
    ensures exists i :: 0 <= i < |group| && group[i].duration == Combined(group).duration
  {
    var last := |group| - 1;
    if last > 0 {
      var front := group[..last];
      CombinedDuration(front);
      forall i | 0 <= i < |group| ensures group[i].duration <= Combined(group).duration {
        if i < last { assert group[i] == front[i]; }
      }
      var i :| 0 <= i < |front| && front[i].duration == Combined(front).duration;
      assert group[i].duration == Combined(front).duration;
      assert group[last].duration == Combined(group).duration || group[i].duration == Combined(group).duration;
    } else {
      assert group[0].duration == Combined(group).duration;
    }
  }

  /** The merged cases are one per key, in order of first appearance, each with
      the verdict and the longest duration of its group. */
  lemma {:induction false} MergeIsGroupBy(cases: seq<TestCase>, i: nat)
    requires i < |Merged(cases)|
    ensures |Merged(cases)| == |Keys(cases)|
    ensures forall j :: i < j < |Keys(cases)| ==> ComesFirst(cases, Keys(cases)[i], Keys(cases)[j])
    ensures
      var c, k := Merged(cases)[i], Keys(cases)[i];
      && Key(c) == k
      && (c.passed <==> forall x :: x in cases && Key(x) == k ==> x.passed)
      && (forall x :: x in cases && Key(x) == k ==> x.duration <= c.duration)
      && (exists x :: x in cases && Key(x) == k && x.duration == c.duration)
    ensures GroupOf(cases, Keys(cases)[i], Merged(cases)[i])
  {
    var k := Keys(cases)[i];
    var group := Group(cases, k);
    assert Merged(cases)[i] == MergedAt(cases, i);
    KeysInOrder(cases);
    GroupOfKey(cases, k);
    forall c: TestCase ensures c in group <==> c in cases && Key(c) == k { GroupMembers(cases, k, c); }
    CombinedFacts(group);
    CombinedDuration(group);
    CombinedOutput(group);
    CombinedError(group);
    assert group[0] in group;
    SameKey(Combined(group), group[0]);
    assert forall j :: 0 <= j < |group| ==> group[j] in group;
    assert forall x :: x in group ==> exists j :: 0 <= j < |group| && group[j] == x;
  }

  /** The merged case has the name and suite of the first of its group, all of its
      outputs, and the last of its errors. */
  ghost predicate GroupOf(cases: seq<TestCase>, k: string, c: TestCase) {
    var group := Group(cases, k);
    && group != [] && c.name == group[0].name && c.suite == group[0].suite
    && c.output == (if |group| == 1 then group[0].output else Outputs(group))
    && c.error == (if RestPassed(group) then group[0].error else TrimSpace(group[ErrorPlace(group)].error))
  }

  lemma {:induction false} SameKey(a: TestCase, b: TestCase)
    requires a.name == b.name && a.suite == b.suite
    ensures Key(a) == Key(b)
  {}

  ghost predicate DistinctKeys(cases: seq<TestCase>) {
    forall i, j :: 0 <= i < j < |cases| ==> Key(cases[i]) != Key(cases[j])
  }

  lemma {:induction false} NoneOfKey(cases: seq<TestCase>, k: string)
    requires forall i :: 0 <= i < |cases| ==> Key(cases[i]) != k
    ensures Group(cases, k) == []
  {
    if cases != [] { NoneOfKey(cases[..|cases| - 1], k); }
  }

  lemma {:induction false} MergedDistinct(cases: seq<TestCase>)
    requires DistinctKeys(cases)
    ensures Merged(cases) == cases
  {
    assert cases[..0] == [] && Merged(cases[..0]) == [];
    for n := 0 to |cases|
      invariant Merged(cases[..n]) == cases[..n]
    {
      NextIsNew(cases, n);
      MergedNew(cases[..n], cases[n]);
      assert cases[..n + 1] == cases[..n] + [cases[n]];
    }
    assert cases[..|cases|] == cases;
  }

  lemma {:induction false} NextIsNew(cases: seq<TestCase>, n: nat)
    requires DistinctKeys(cases) && n < |cases|
    ensures Key(cases[n]) !in Keys(cases[..n])
  {
    NoneOfKey(cases[..n], Key(cases[n]));
    GroupOfKey(cases[..n], Key(cases[n]));
  }

  lemma {:induction false} MergedKeysDistinct(cases: seq<TestCase>)
    ensures DistinctKeys(Merged(cases))
  {
    KeysDistinct(cases);
    forall i, j | 0 <= i < j < |Merged(cases)| ensures Key(Merged(cases)[i]) != Key(Merged(cases)[j]) {
      MergeIsGroupBy(cases, i);
      MergeIsGroupBy(cases, j);
    }
  }

  /** Merging again changes nothing. */
  lemma {:induction false} MergeTwice(cases: seq<TestCase>)
    ensures Merged(Merged(cases)) == Merged(cases)
  {
    MergedKeysDistinct(cases);
    MergedDistinct(Merged(cases));
  }

  // ---- the verdict ----

  predicate IsSkipped(c: TestCase) {
    Contains(Lower(TrimSpace(c.error + " " + c.output)), "skip")
  }

  /** The word stands somewhere in the error or the output, in any case of letters. */
  lemma {:induction false} SkippedExactly(c: TestCase)
    ensures IsSkipped(c) <==> exists i :: SkipAt(c.error + " " + c.output, i)
  {
    var t := c.error + " " + c.output;
    ContainsExactly(Lower(TrimSpace(t)), "skip");
    if i :| FoundAt(Lower(TrimSpace(t)), "skip", i) { SkipOutside(t, i); }
    if i :| SkipAt(t, i) { SkipInside(t, i); }
  }

  lemma {:induction false} SkipOutside(t: string, i: int)
    requires FoundAt(Lower(TrimSpace(t)), "skip", i)
    ensures exists j :: SkipAt(t, j)
  {
    var x, y := TrimSpaceExactly(t);
    SkipFound(t, x, y, i);
    assert SkipAt(t, x + i);
  }

  lemma {:induction false} SkipInside(t: string, i: int)
    requires SkipAt(t, i)
    ensures exists j :: FoundAt(Lower(TrimSpace(t)), "skip", j)
  {
    var x, y := TrimSpaceExactly(t);
    SkipHasNoSpace(t, i);
    assert x <= i && i + 4 <= y;
    SkipFound(t, x, y, i - x);
    assert FoundAt(Lower(TrimSpace(t)), "skip", i - x);
  }

  predicate FoundAt(text: string, find: string, i: int) { 0 <= i <= |text| - |find| && text[i..i + |find|] == find }

  lemma {:induction false} SkipFound(t: string, x: nat, y: nat, i: int)
    requires x <= y <= |t|
    ensures FoundAt(Lower(t[x..y]), "skip", i) <==> 0 <= i && x + i + 4 <= y && SkipAt(t, x + i)
  {
    if 0 <= i && x + i + 4 <= y { LowerSlice(t, x, y, i); }
  }

  predicate SkipAt(t: string, i: int) { 0 <= i <= |t| - 4 && Lower(t[i..i + 4]) == "skip" }

  lemma {:induction false} LowerSlice(t: string, x: nat, y: nat, i: nat)
    requires x + i + 4 <= y <= |t|
    ensures Lower(t[x..y])[i..i + 4] == Lower(t[x + i..x + i + 4])
  {
    var a, b := Lower(t[x..y])[i..i + 4], Lower(t[x + i..x + i + 4]);
    forall k | 0 <= k < 4 ensures a[k] == b[k] {
      assert a[k] == LowerChar(t[x..y][i + k]) && b[k] == LowerChar(t[x + i..x + i + 4][k]);
    }
  }

  lemma {:induction false} SkipHasNoSpace(t: string, i: int)
    requires SkipAt(t, i)
    ensures !IsSpace(t[i]) && !IsSpace(t[i + 1]) && !IsSpace(t[i + 2]) && !IsSpace(t[i + 3])
  {
    var l := Lower(t[i..i + 4]);
    assert l[0] == LowerChar(t[i]) && l[1] == LowerChar(t[i + 1]) && l[2] == LowerChar(t[i + 2]) && l[3] == LowerChar(t[i + 3]);
  }

  lemma {:induction false} ContainsExactly(text: string, find: string)
    ensures Contains(text, find) <==> exists i :: FoundAt(text, find, i)
  {
    FoundFirst(text, find);
    if !(find <= text) && text != "" {
      ContainsExactly(text[1..], find);
      if i :| FoundAt(text[1..], find, i) { FoundLater(text, find, i + 1); }
      if i :| FoundAt(text, find, i) { FoundLater(text, find, i); }
    }
  }

  lemma {:induction false} FoundFirst(text: string, find: string)
    ensures FoundAt(text, find, 0) <==> find <= text
  {
    if |find| <= |text| { assert text[0..|find|] == text[..|find|]; }
  }

  lemma {:induction false} FoundLater(text: string, find: string, i: int)
    requires text != "" && !(find <= text)
    ensures FoundAt(text, find, i) <==> FoundAt(text[1..], find, i - 1)
  {
    FoundFirst(text, find);
    if 0 < i <= |text| - |find| { assert text[1..][i - 1..i - 1 + |find|] == text[i..i + |find|]; }
  }

  function Count(cases: seq<TestCase>, p: TestCase -> bool): nat {
    if cases == [] then 0 else Count(cases[..|cases| - 1], p) + (if p(cases[|cases| - 1]) then 1 else 0)
  }

  lemma {:induction false} CountNone(cases: seq<TestCase>, p: TestCase -> bool)
    ensures Count(cases, p) == 0 <==> forall c :: c in cases ==> !p(c)
    ensures Count(cases, p) <= |cases|
  {
    if cases != [] {
      var front, last := cases[..|cases| - 1], cases[|cases| - 1];
      CountNone(front, p);
      assert cases == front + [last];
    }
  }

  /** Passed exactly when no case failed. */
  method BuildRunResult(cases: seq<TestCase>) returns (r: RunResult)
    ensures r.cases == cases && r.total == |cases|
    ensures r.failed == Count(cases, (c: TestCase) => !c.passed) && r.skipped == Count(cases, (c: TestCase) => IsSkipped(c))
    ensures r.passed <==> r.failed == 0
    ensures r.passed <==> forall c :: c in cases ==> c.passed
  {
    var passed, failed, skipped := true, 0, 0;
    for n := 0 to |cases|
      invariant failed == Count(cases[..n], (c: TestCase) => !c.passed) && skipped == Count(cases[..n], (c: TestCase) => IsSkipped(c))
      invariant passed <==> failed == 0
    {
      assert cases[..n + 1][..n] == cases[..n];
      if IsSkipped(cases[n]) { skipped := skipped + 1; }
      if !cases[n].passed {
        failed := failed + 1;
        passed := false;
      }
    }
    assert cases[..|cases|] == cases;
    CountNone(cases, (c: TestCase) => !c.passed);
    r := RunResult(passed, |cases|, failed, skipped, cases);
  }

  /** Merging leaves the verdict of the whole run as it was. */
  lemma {:induction false} MergeKeepsVerdict(cases: seq<TestCase>)
    ensures (forall c :: c in Merged(cases) ==> c.passed) <==> (forall c :: c in cases ==> c.passed)
  {
    var merged := Merged(cases);
    forall c | c in cases ensures exists i :: 0 <= i < |merged| && Keys(cases)[i] == Key(c) {
      GroupOfKey(cases, Key(c));
      GroupMembers(cases, Key(c), c);
      assert c in Group(cases, Key(c));
      var i :| 0 <= i < |Keys(cases)| && Keys(cases)[i] == Key(c);
      assert i < |merged|;
    }
    forall i | 0 <= i < |merged|
      ensures merged[i].passed <==> forall x :: x in cases && Key(x) == Keys(cases)[i] ==> x.passed
    {
      MergeIsGroupBy(cases, i);
    }
    assert forall i :: 0 <= i < |merged| ==> merged[i] in merged;
  }
}
