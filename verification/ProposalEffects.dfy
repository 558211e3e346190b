/** What a proposal's operations leave in the project and in the change set, said
    without the functions that carry them out. */
module ProposalEffects {
  import opened Options
  import opened Text
  import opened FileTree
  import opened JournalModel
  import opened ProjectSettings
  import opened Proposal
  import opened ProposalEngine
  import opened ProposalProofs

  // ---- find and replace ----

  predicate OccursAt(text: string, find: string, i: nat) {
    i + |find| <= |text| && text[i..i + |find|] == find
  }

  ghost predicate NotBefore(text: string, find: string, n: nat) {
    forall i :: 0 <= i < n ==> !OccursAt(text, find, i)
  }

  /** The first occurrence replaced: what stands before and behind it stays. */
  ghost predicate FirstReplaced(text: string, f: FindReplace, result: string) {
    exists n: nat :: ReplacedAt(text, f, result, n)
  }

  ghost predicate ReplacedAt(text: string, f: FindReplace, result: string, n: nat) {
    OccursAt(text, f.find, n) && NotBefore(text, f.find, n) && result == text[..n] + f.replace + text[n + |f.find|..]
  }

  function Joined(parts: seq<string>, between: string): string
    requires parts != []
  {
    if |parts| == 1 then parts[0] else parts[0] + between + Joined(parts[1..], between)
  }

  /** The text cut at every occurrence, from the left, none overlapping; an empty
      one stands before every character and at the end. */
  ghost predicate CutAtAll(text: string, find: string, parts: seq<string>) {
    parts != [] && text == Joined(parts, find) &&
    if find == "" then |parts| == |text| + 2 && parts[0] == "" && forall k :: 0 < k < |parts| - 1 ==> |parts[k]| == 1
    else
      && NotBefore(parts[|parts| - 1], find, |parts[|parts| - 1]|)
      && forall k :: 0 <= k < |parts| - 1 ==> NotBefore(parts[k] + find, find, |parts[k]|)
  }

  /** Every occurrence replaced: the parts between them stay. */
  ghost predicate AllReplaced(text: string, f: FindReplace, result: string) {
    exists parts: seq<string> :: CutAtAll(text, f.find, parts) && result == Joined(parts, f.replace)
  }

  lemma {:induction false} OccursLater(text: string, find: string, i: nat)
    requires text != ""
    ensures OccursAt(text, find, i + 1) <==> OccursAt(text[1..], find, i)
  {
    if i + 1 + |find| <= |text| { assert text[1..][i..i + |find|] == text[i + 1..i + 1 + |find|]; }
  }

  lemma {:induction false} OccursNow(text: string, find: string)
    ensures OccursAt(text, find, 0) <==> find <= text
  {}

  lemma {:induction false} ContainsIsOccurs(text: string, find: string)
    ensures Contains(text, find) <==> exists n: nat :: OccursAt(text, find, n)
  {
    OccursNow(text, find);
    if find <= text {
      assert OccursAt(text, find, 0);
    } else if text != "" {
      ContainsIsOccurs(text[1..], find);
      if Contains(text[1..], find) {
        var n: nat :| OccursAt(text[1..], find, n);
        OccursLater(text, find, n);
      }
      forall n: nat | OccursAt(text, find, n) ensures Contains(text[1..], find) {
        if n > 0 { OccursLater(text, find, n - 1); }
      }
    }
  }

  lemma {:induction false} ReplaceFirstReplaces(text: string, f: FindReplace)
    requires Contains(text, f.find)
    ensures FirstReplaced(text, f, ReplaceFirst(text, f.find, f.replace))
  {
    if f.find <= text {
      OccursNow(text, f.find);
      assert text[..0] + f.replace + text[|f.find|..] == f.replace + text[|f.find|..];
      assert ReplacedAt(text, f, ReplaceFirst(text, f.find, f.replace), 0);
    } else {
      ReplaceFirstReplaces(text[1..], f);
      ReplacedLater(text, f, ReplaceFirst(text[1..], f.find, f.replace));
    }
  }

  lemma {:induction false} ReplacedLater(text: string, f: FindReplace, r: string)
    requires text != "" && !(f.find <= text) && FirstReplaced(text[1..], f, r)
    ensures FirstReplaced(text, f, [text[0]] + r)
  {
    var n: nat :| ReplacedAt(text[1..], f, r, n);
    ReplacedAtLater(text, f, r, n);
  }

  lemma {:induction false} ReplacedAtLater(text: string, f: FindReplace, r: string, n: nat)
    requires text != "" && !(f.find <= text) && ReplacedAt(text[1..], f, r, n)
    ensures ReplacedAt(text, f, [text[0]] + r, n + 1)
  {
    OccursLater(text, f.find, n);
    NotBeforeLater(text, f.find, n);
    FirstCharBack(text, f, n);
  }

  lemma {:induction false} NotBeforeLater(text: string, find: string, n: nat)
    requires text != "" && !(find <= text) && NotBefore(text[1..], find, n)
    ensures NotBefore(text, find, n + 1)
  {
    OccursNow(text, find);
    forall i | 0 <= i < n + 1 ensures !OccursAt(text, find, i) {
      if i > 0 { OccursLater(text, find, i - 1); }
    }
  }

  lemma {:induction false} FirstCharBack(text: string, f: FindReplace, n: nat)
    requires text != "" && n + |f.find| < |text|
    ensures [text[0]] + (text[1..][..n] + f.replace + text[1..][n + |f.find|..]) == text[..n + 1] + f.replace + text[n + 1 + |f.find|..]
  {}

  lemma {:induction false} ReplaceAllReplaces(text: string, f: FindReplace)
    ensures AllReplaced(text, f, ReplaceAll(text, f.find, f.replace))
  {
    if f.find == "" { EverywhereReplaced(text, f.replace); } else { OccurrencesReplaced(text, f); }
    assert FindReplace(f.find, f.replace, f.all) == f;
  }

  lemma {:induction false} JoinedMore(first: string, parts: seq<string>, between: string)
    requires parts != []
    ensures Joined([first] + parts, between) == first + between + Joined(parts, between)
  {
    assert ([first] + parts)[1..] == parts;
  }

  /** A character more before the first part. */
  lemma {:induction false} JoinedLonger(c: char, parts: seq<string>, between: string)
    requires parts != []
    ensures Joined(parts[0 := [c] + parts[0]], between) == [c] + Joined(parts, between)
  {
    var longer := parts[0 := [c] + parts[0]];
    if |parts| > 1 {
      assert longer[1..] == parts[1..];
      assert [c] + parts[0] + between + Joined(parts[1..], between) == [c] + (parts[0] + between + Joined(parts[1..], between));
    }
  }

  /** Characters one by one, and the empty text behind them. */
  function Singles(text: string): (parts: seq<string>)
    ensures |parts| == |text| + 1
    ensures forall k :: 0 <= k < |parts| - 1 ==> |parts[k]| == 1
  {
    if text == "" then [""] else [[text[0]]] + Singles(text[1..])
  }

  lemma {:induction false} SinglesJoined(text: string, replace: string)
    ensures Joined(Singles(text), "") == text
    ensures replace + Joined(Singles(text), replace) == ReplaceAll(text, "", replace)
  {
    if text != "" {
      SinglesJoined(text[1..], replace);
      JoinedMore([text[0]], Singles(text[1..]), "");
      JoinedMore([text[0]], Singles(text[1..]), replace);
      var rest := Joined(Singles(text[1..]), replace);
      assert replace + ([text[0]] + replace + rest) == replace + [text[0]] + (replace + rest);
      assert [text[0]] + "" + text[1..] == text;
    } else {
      assert replace + "" == replace;
    }
  }

  lemma {:induction false} EverywhereReplaced(text: string, replace: string)
    ensures exists parts: seq<string> :: CutAtAll(text, "", parts) && ReplaceAll(text, "", replace) == Joined(parts, replace)
  {
    var parts := [""] + Singles(text);
    SinglesJoined(text, replace);
    JoinedMore("", Singles(text), "");
    JoinedMore("", Singles(text), replace);
    assert "" + "" + text == text && "" + replace == replace;
    forall k | 0 < k < |parts| - 1 ensures |parts[k]| == 1 { assert parts[k] == Singles(text)[k - 1]; }
    assert CutAtAll(text, "", parts);
  }

  lemma {:induction false} OccurrencesReplaced(text: string, f: FindReplace)
    requires f.find != ""
    ensures AllReplaced(text, f, ReplaceAll(text, f.find, f.replace))
    decreases |text|
  {
    if text == "" {
      assert CutAtAll(text, f.find, [""]);
      assert Joined([""], f.replace) == "";
    } else if f.find <= text {
      OccurrencesReplaced(text[|f.find|..], f);
      OneMoreReplaced(text, f);
    } else {
      OccurrencesReplaced(text[1..], f);
      OneMoreKept(text, f);
    }
  }

  lemma {:induction false} OneMoreReplaced(text: string, f: FindReplace)
    requires f.find != "" && f.find <= text && AllReplaced(text[|f.find|..], f, ReplaceAll(text[|f.find|..], f.find, f.replace))
    ensures AllReplaced(text, f, ReplaceAll(text, f.find, f.replace))
  {
    var rest := text[|f.find|..];
    var parts: seq<string> :| CutAtAll(rest, f.find, parts) && ReplaceAll(rest, f.find, f.replace) == Joined(parts, f.replace);
    CutInFront(rest, f.find, parts, text);
    JoinedMore("", parts, f.replace);
    assert "" + f.replace + Joined(parts, f.replace) == f.replace + Joined(parts, f.replace);
  }

  lemma {:induction false} OneMoreKept(text: string, f: FindReplace)
    requires f.find != "" && text != "" && !(f.find <= text) && AllReplaced(text[1..], f, ReplaceAll(text[1..], f.find, f.replace))
    ensures AllReplaced(text, f, ReplaceAll(text, f.find, f.replace))
  {
    var parts: seq<string> :| CutAtAll(text[1..], f.find, parts) && ReplaceAll(text[1..], f.find, f.replace) == Joined(parts, f.replace);
    CutLonger(text, f.find, parts);
    JoinedLonger(text[0], parts, f.replace);
  }

  lemma {:induction false} CutInFront(rest: string, find: string, parts: seq<string>, text: string)
    requires find != "" && CutAtAll(rest, find, parts) && text == find + rest
    ensures CutAtAll(text, find, [""] + parts)
  {
    JoinedMore("", parts, find);
    assert "" + find + rest == text && "" + find == find;
    var more := [""] + parts;
    forall k | 0 <= k < |more| - 1 ensures NotBefore(more[k] + find, find, |more[k]|) {
      if k > 0 { assert more[k] == parts[k - 1]; }
    }
  }

  lemma {:induction false} CutLonger(text: string, find: string, parts: seq<string>)
    requires find != "" && text != "" && !(find <= text) && CutAtAll(text[1..], find, parts)
    ensures CutAtAll(text, find, parts[0 := [text[0]] + parts[0]])
  {
    var longer := parts[0 := [text[0]] + parts[0]];
    JoinedLonger(text[0], parts, find);
    assert [text[0]] + text[1..] == text;
    if |parts| == 1 {
      NotBeforeLater(text, find, |parts[0]|);
    } else {
      var front := longer[0] + find;
      StartsJoined(parts, find);
      assert front == [text[0]] + (parts[0] + find);
      assert front[1..] == parts[0] + find;
      assert find <= front ==> find <= text by {
        StartsJoined(longer, find);
      }
      NotBeforeLater(front, find, |parts[0]|);
      forall k | 0 <= k < |longer| - 1 ensures NotBefore(longer[k] + find, find, |longer[k]|) {
        if k > 0 { assert longer[k] == parts[k]; }
      }
    }
  }

  lemma {:induction false} StartsJoined(parts: seq<string>, between: string)
    requires |parts| > 1
    ensures parts[0] + between <= Joined(parts, between)
  {}

  // ---- words ----

  /** Which word says what, and how the change set writes it down. */
  lemma {:induction false} WordsMean(text: string)
    ensures
      var word, said := Lower(TrimSpace(text)), WordOf(text);
      && (said.Unsaid? <==> word == "")
      && (said == Said(Create) <==> word == "create") && (said == Said(Write) <==> word == "write")
      && (said == Said(Replace) <==> word == "replace") && (said == Said(Append) <==> word == "append")
      && (said == Said(Modify) <==> word == "modify" || word == "update")
      && (said == Said(Delete) <==> word == "delete" || word == "remove")
      && (said == Said(Action.Rename) <==> word == "rename" || word == "move")
      && (said == Said(ApplyPatch) <==> word == "apply_patch") && (said == Said(Set) <==> word == "set")
      && (said.Said? ==>
            ActionName(said.action) == if word == "update" then "modify" else if word == "remove" then "delete" else if word == "move" then "rename" else word)
  {}

  lemma {:induction false} KindsMean(text: string)
    ensures
      var word, kind := Lower(TrimSpace(text)), KindOf(text);
      && (kind == Some(TextPatch) <==> word == "text_patch") && (kind == Some(SceneOp) <==> word == "scene_op")
      && (kind == Some(ResourceOp) <==> word == "resource_op") && (kind == Some(AssetImport) <==> word == "asset_import")
      && (kind == Some(ProjectSetting) <==> word == "project_setting" || word == "project_setting_set")
      && (kind.Some? ==> KindName(kind.value) == if word == "project_setting_set" then "project_setting" else word)
  {}

  // ---- one operation ----

  /** The content an operation brings with it. */
  function Brought(op: Operation): Option<string> {
    if op.kind.AssetImport? then op.decoded else Some(op.content)
  }

  /** The content that a file operation leaves at its path. */
  ghost predicate Leaves(t: Tree, op: Operation, action: Action, p: Path, content: string) {
    match action
    case Create => Brought(op) == Some(content)
    case Append => Brought(op).Some? && IsFile(t, p) && content == t[p].content + Brought(op).value
    case Write => Transforms(t, op, p, content)
    case Replace => Transforms(t, op, p, content)
    case Modify => Transforms(t, op, p, content)
    case _ => false
  }

  ghost predicate Transforms(t: Tree, op: Operation, p: Path, content: string) {
    if op.kind.AssetImport? then op.decoded == Some(content)
    else if op.find.None? then content == op.content && !Blank(content)
    else
      && IsFile(t, p)
      && if op.find.value.all then AllReplaced(t[p].content, op.find.value, content) else FirstReplaced(t[p].content, op.find.value, content)
  }

  /** The content that a change of a setting leaves in the project file. */
  predicate Configures(t: Tree, op: Operation, action: Action, content: string) {
    var setting := SplitSetting(op.setting);
    && setting.Some? && IsFile(t, PROJECT_FILE)
    && if action.Remove? then content == RemoveText(t[PROJECT_FILE].content, setting.value.section, setting.value.key)
       else op.value.Some? && content == SetText(t[PROJECT_FILE].content, setting.value.section, setting.value.key, op.value.value)
  }

  /** From t to s, at every path: what the operation asks for. */
  ghost predicate Does(t: Tree, op: Operation, action: Action, s: Tree) {
    if op.kind.ProjectSetting? then
      exists content :: Configures(t, op, action, content) && Puts(t, PROJECT_FILE, content, s)
    else
      op.path.Some? &&
      var p := op.path.value;
      if action.Delete? then forall q :: At(s, q) == if q == p then None else At(t, q)
      else if action.Rename? then
        op.target.To? && forall q :: At(s, q) == if q == op.target.path then At(t, p) else if q == p then None else At(t, q)
      else exists content :: Leaves(t, op, action, p, content) && Puts(t, p, content, s)
  }

  ghost predicate Puts(t: Tree, p: Path, content: string, s: Tree) {
    forall q :: At(s, q) == if q == p then Some(File(content)) else At(t, q)
  }

  /** Whether an operation that passed preflight, on the tree it meets, goes through. */
  predicate Applicable(t: Tree, op: Operation, action: Action) {
    if op.kind.ProjectSetting? then SplitSetting(op.setting).Some? && IsFile(t, PROJECT_FILE) && (action.Remove? || op.value.Some?)
    else
      && op.path.Some? && ((op.kind.SceneOp? || op.kind.ResourceOp?) ==> op.extension)
      && var p := op.path.value;
         match action
         case Create => p !in t && Brought(op).Some?
         case Append => IsFile(t, p) && Brought(op).Some?
         case Write => Transformable(t, op, p)
         case Replace => Transformable(t, op, p)
         case Modify => Transformable(t, op, p)
         case Delete => p in t
         case Rename => op.target.To? && p in t
         case _ => false
  }

  predicate Transformable(t: Tree, op: Operation, p: Path) {
    if op.kind.AssetImport? then op.decoded.Some?
    else if op.find.None? then !Blank(op.content)
    else IsFile(t, p) && Contains(t[p].content, op.find.value.find)
  }

  lemma {:induction false} WritePuts(t: Tree, p: Path, content: string)
    requires WellFormed(t) && Filed(t, p)
    ensures WriteAtomic(t, p, content).Ok? && Puts(t, p, content, WriteAtomic(t, p, content).tree)
  {
    WriteFiled(t, p, content);
  }

  lemma {:induction false} TransformedTransforms(t: Tree, op: Operation, p: Path)
    ensures TransformedContent(t, p, op).Some? <==> Transformable(t, op, p)
    ensures TransformedContent(t, p, op).Some? ==> Transforms(t, op, p, TransformedContent(t, p, op).value)
  {
    if !op.kind.AssetImport? && op.find.Some? && IsFile(t, p) && Contains(t[p].content, op.find.value.find) {
      ReplaceFirstReplaces(t[p].content, op.find.value);
      ReplaceAllReplaces(t[p].content, op.find.value);
    }
  }

  lemma {:induction false} TransformDoes(t: Tree, op: Operation, action: Action)
    requires WellFormed(t) && op.path.Some? && Filed(t, op.path.value) && !op.kind.ProjectSetting?
    requires action.Write? || action.Replace? || action.Modify?
    ensures
      var p := op.path.value;
      var r := WriteIfAny(t, p, TransformedContent(t, p, op));
      (r.Ok? <==> Transformable(t, op, p)) && (r.Ok? ==> Does(t, op, action, r.tree)) && (r.Fail? ==> r.tree == t)
  {
    var p := op.path.value;
    TransformedTransforms(t, op, p);
    if TransformedContent(t, p, op).Some? {
      WritePuts(t, p, TransformedContent(t, p, op).value);
      assert Leaves(t, op, action, p, TransformedContent(t, p, op).value);
    }
  }

  lemma {:induction false} SettingDoes(t: Tree, op: Operation, action: Action)
    requires WellFormed(t) && Filed(t, PROJECT_FILE) && op.kind.ProjectSetting?
    ensures
      var r := ApplySetting(t, op, action);
      (r.Ok? <==> Applicable(t, op, action)) && (r.Ok? ==> Does(t, op, action, r.tree)) && (r.Fail? ==> r.tree == t)
  {
    var setting := SplitSetting(op.setting);
    if setting.Some? && IsFile(t, PROJECT_FILE) {
      var text := t[PROJECT_FILE].content;
      var removed := RemoveText(text, setting.value.section, setting.value.key);
      if action.Remove? {
        WritePuts(t, PROJECT_FILE, removed);
        assert Configures(t, op, action, removed);
        if removed == text { assert Puts(t, PROJECT_FILE, removed, t); }
      } else if op.value.Some? {
        var set1 := SetText(text, setting.value.section, setting.value.key, op.value.value);
        WritePuts(t, PROJECT_FILE, set1);
        assert Configures(t, op, action, set1);
      }
    }
  }

  lemma {:induction false} RenameDoes(t: Tree, op: Operation)
    requires WellFormed(t) && op.path.Some? && Filed(t, op.path.value) && !op.kind.ProjectSetting?
    requires op.target.To? && Filed(t, op.target.path)
    ensures
      var r := ApplyFile(t, op, op.path.value, Action.Rename);
      (r.Ok? <==> op.path.value in t) && (r.Ok? ==> Does(t, op, Action.Rename, r.tree)) && (r.Fail? ==> r.tree == t)
  {
    var p, q := op.path.value, op.target.path;
    FiledParents(t, q);
    RenameFiled(t, p, q);
    if p == q { MoveSelf(t, p); }
  }

  /** An operation that passed preflight goes through exactly when it is applicable
      to the tree that it meets; then it does what it asks for, else nothing. */
  lemma {:induction false} MutationDoes(t: Tree, op: Operation, action: Action)
    requires WellFormed(t) && SafeOp(t, op) && NormalizeAction(t, op) == Some(action)
    ensures
      var r := Mutation(t, op, action);
      (r.Ok? <==> Applicable(t, op, action)) && (r.Ok? ==> Does(t, op, action, r.tree)) && (r.Fail? ==> r.tree == t)
  {
    if op.kind.ProjectSetting? {
      SettingDoes(t, op, action);
    } else if !((op.kind.SceneOp? || op.kind.ResourceOp?) && !op.extension) {
      var p := op.path.value;
      assert p in Touched(op);
      match action {
        case Create => if Brought(op).Some? { WritePuts(t, p, Brought(op).value); assert Leaves(t, op, action, p, Brought(op).value); }
        case Append =>
          if Brought(op).Some? && IsFile(t, p) {
            WritePuts(t, p, t[p].content + Brought(op).value);
            assert Leaves(t, op, action, p, t[p].content + Brought(op).value);
          }
        case Write => TransformDoes(t, op, action);
        case Replace => TransformDoes(t, op, action);
        case Modify => TransformDoes(t, op, action);
        case Delete => RemoveFiled(t, p);
        case Rename =>
          assert Renames(op) && op.target.path in Touched(op);
          RenameDoes(t, op);
        case _ =>
      }
    }
  }

  // ---- one operation and its change set ----

  /** Where an operation's preimage is taken, and where its postimage. */
  function From(op: Operation): Path
    requires op.kind.ProjectSetting? || op.path.Some?
  {
    if op.kind.ProjectSetting? then PROJECT_FILE else op.path.value
  }

  function Into(op: Operation, action: Action): Path
    requires op.kind.ProjectSetting? || op.path.Some?
  {
    if !op.kind.ProjectSetting? && action.Rename? && op.target.To? then op.target.path else From(op)
  }

  /** The hash of a file, or the word for none. */
  function HashOf(t: Tree, p: Path, hash: string -> string): string {
    if IsFile(t, p) then hash(t[p].content) else "missing"
  }

  /** The change set's line for an operation. */
  predicate Describes(line: OperationEntry, op: Operation, action: Action)
    requires op.kind.ProjectSetting? || op.path.Some?
  {
    && line.kind == KindName(op.kind) && line.path == Some(Into(op, action)) && line.reversible == op.reversible
    && line.description ==
       if TrimSpace(op.description) != "" then TrimSpace(op.description) else ActionName(action) + " " + PathText(Into(op, action))
  }

  /** An applied operation has its line and both hashes; nothing else changes in
      the change set. */
  predicate Notes(s: Snapshot, op: Operation, action: Action, hash: string -> string, after: Snapshot)
    requires op.kind.ProjectSetting? || op.path.Some?
  {
    && |after.entry.operations| == |s.entry.operations| + 1
    && Describes(after.entry.operations[|s.entry.operations|], op, action)
    && after.entry == s.entry.(operations := s.entry.operations + [after.entry.operations[|s.entry.operations|]],
                               preimages := s.entry.preimages[From(op) := HashOf(s.tree, From(op), hash)],
                               postimages := s.entry.postimages[Into(op, action) := HashOf(after.tree, Into(op, action), hash)])
  }

  lemma {:induction false} PathsAre(t: Tree, op: Operation, action: Action)
    requires SafeOp(t, op) && NormalizeAction(t, op) == Some(action)
    ensures op.kind.ProjectSetting? || op.path.Some?
    ensures OperationPaths(op, Some(action)) == Paths(From(op), Into(op, action), Into(op, action))
    ensures From(op) in Touched(op) && Into(op, action) in Touched(op) && From(op) != [] && Into(op, action) != []
    ensures Filed(t, From(op)) && Filed(t, Into(op, action))
  {
    PathsTouched(t, op);
    assert From(op) in Touched(op) && Into(op, action) in Touched(op);
    assert Filed(t, From(op)) && Filed(t, Into(op, action));
  }

  lemma {:induction false} FiledHashOf(t: Tree, p: Path, hash: string -> string)
    requires Filed(t, p)
    ensures HashAt(t, p, hash) == Some(HashOf(t, p, hash))
  {}

  /** After the change: applied when its hash can be taken and recorded. */
  lemma {:induction false} PostDoes(passed: seq<Snapshot>, s4: Snapshot, changed: bool, paths: Paths, hash: string -> string, fault: Option<Stage>)
    requires paths.Paths? && paths.post != [] && Filed(s4.tree, paths.post)
    ensures
      var r := RunPost(passed, s4, changed, paths, hash, fault);
      && r.last.tree == s4.tree
      && (r.ending == Applied(paths.display) || r.ending == FailedAt(Some(paths.display)))
      && (r.ending.Applied? <==> changed && fault != Some(AtPostHash) && fault != Some(AtPostimage))
      && (r.ending.Applied? ==> r.last.entry == WithImage(s4.entry, paths.post, HashOf(s4.tree, paths.post, hash), false))
      && (!r.ending.Applied? ==> r.last.entry == WithStatus(
           if changed && fault == Some(AtPostimage) then WithImage(s4.entry, paths.post, HashOf(s4.tree, paths.post, hash), false) else s4.entry, Failed, "failed"))
  {
    FiledHashOf(s4.tree, paths.post, hash);
  }

  /** The tree changes only when no call fails up to the change. */
  predicate Reaches(fault: Option<Stage>) {
    fault == None || fault == Some(AtPostHash) || fault == Some(AtPostimage)
  }

  lemma {:induction false} MutationRun(s1: Snapshot, s2: Snapshot, op: Operation, action: Action, paths: Paths, hash: string -> string,
                                       fault: Option<Stage>)
    requires WellFormed(s2.tree) && SafeOp(s2.tree, op) && NormalizeAction(s2.tree, op) == Some(action)
    requires paths == OperationPaths(op, Some(action)) && fault != Some(AtMutation)
    ensures paths.Paths?
    ensures
      var r, t := RunMutation(s1, s2, op, action, paths, hash, fault), Mutation(s2.tree, op, action);
      && r.last.tree == t.tree && !r.ending.Cancelled?
      && (r.ending.Applied? <==> t.Ok? && fault != Some(AtPostHash) && fault != Some(AtPostimage))
      && (r.ending.Applied? ==> r.ending == Applied(paths.display))
      && (r.ending.Applied? ==> r.last.entry == WithImage(s2.entry, paths.post, HashOf(t.tree, paths.post, hash), false))
      && (!r.ending.Applied? ==> r.ending == FailedAt(Some(paths.display)))
      && (!r.ending.Applied? ==> r.last.entry == WithStatus(
           if t.Ok? && fault == Some(AtPostimage) then WithImage(s2.entry, paths.post, HashOf(t.tree, paths.post, hash), false) else s2.entry, Failed, "failed"))
  {
    PathsAre(s2.tree, op, action);
    MutationFollows(s2.tree, op, action);
    var s3, s4 := Snapshot(ParentsMade(s2.tree, op, action), s2.entry), Snapshot(Mutation(s2.tree, op, action).tree, s2.entry);
    PostDoes([s1, s2, s3, s4], s4, Mutation(s2.tree, op, action).Ok?, paths, hash, fault);
  }

  lemma {:induction false} LineDescribes(op: Operation, action: Action)
    requires op.kind.ProjectSetting? || op.path.Some?
    ensures Describes(Logged(op, action, Into(op, action)), op, action)
  {}

  /** One operation that passed preflight, with any call failing or none: it is
      applied exactly when no call fails and it is applicable; applied, it has done
      what it asks for and is in the change set with both hashes. Otherwise the
      change set is marked failed, and the project is as before, unless only what
      follows the change went wrong. */
  lemma {:induction false} OperationDoes(s: Snapshot, op: Operation, action: Action, hash: string -> string, fault: Option<Stage>)
    requires WellFormed(s.tree) && SafeOp(s.tree, op) && NormalizeAction(s.tree, op) == Some(action)
    ensures op.kind.ProjectSetting? || op.path.Some?
    ensures
      var r := RunOp(s, op, hash, fault);
      && (r.ending.Applied? <==> fault.None? && Applicable(s.tree, op, action))
      && (r.ending.Applied? ==> r.ending == Applied(Into(op, action)) && Notes(s, op, action, hash, r.last))
      && (r.ending.Cancelled? <==> fault == Some(AtContext))
      && (!r.ending.Applied? ==> r.last.entry.status == Failed)
      && (if Reaches(fault) && Applicable(s.tree, op, action) then Does(s.tree, op, action, r.last.tree) else r.last.tree == s.tree)
  {
    PathsAre(s.tree, op, action);
    MutationDoes(s.tree, op, action);
    FiledHashOf(s.tree, From(op), hash);
    LineDescribes(op, action);
    var paths := OperationPaths(op, Some(action));
    var s1 := Snapshot(s.tree, WithOperation(s.entry, Logged(op, action, paths.display)));
    var s2 := Snapshot(s.tree, WithImage(s1.entry, paths.pre, HashOf(s.tree, paths.pre, hash), true));
    if Reaches(fault) {
      MutationRun(s1, s2, op, action, paths, hash, fault);
      ReachedRun(s, s1, s2, op, action, paths, hash, fault);
    } else {
      UnreachedRun(s, op, action, paths, hash, fault);
    }
  }

  /** What an operation that is not applied leaves in the change set, by the call
      that failed: its line unless it was cancelled, its preimage once that was
      taken, and its postimage only if recording that is what failed. */
  predicate FailureNoted(s: Snapshot, op: Operation, action: Action, hash: string -> string, fault: Option<Stage>, after: Snapshot)
    requires op.kind.ProjectSetting? || op.path.Some?
  {
    var e, e' := s.entry, after.entry;
    && e'.status == Failed && e'.errorMessage == (if fault == Some(AtContext) then "cancelled" else "failed")
    && (if fault == Some(AtContext) then e'.operations == e.operations
        else |e'.operations| == |e.operations| + 1 && e'.operations[..|e.operations|] == e.operations && Describes(e'.operations[|e.operations|], op, action))
    && e'.preimages == (if fault in {Some(AtContext), Some(AtAddOperation), Some(AtPreHash)} then e.preimages
                        else e.preimages[From(op) := HashOf(s.tree, From(op), hash)])
    && e'.postimages == (if fault == Some(AtPostimage) && Applicable(s.tree, op, action)
                         then e.postimages[Into(op, action) := HashOf(after.tree, Into(op, action), hash)] else e.postimages)
  }

  lemma {:induction false} FailureDoes(s: Snapshot, op: Operation, action: Action, hash: string -> string, fault: Option<Stage>)
    requires WellFormed(s.tree) && SafeOp(s.tree, op) && NormalizeAction(s.tree, op) == Some(action)
    requires fault.Some? || !Applicable(s.tree, op, action)
    ensures op.kind.ProjectSetting? || op.path.Some?
    ensures
      var r := RunOp(s, op, hash, fault);
      && r.ending == (if fault == Some(AtContext) then Cancelled else FailedAt(Some(Into(op, action))))
      && FailureNoted(s, op, action, hash, fault, r.last)
  {
    PathsAre(s.tree, op, action);
    FiledHashOf(s.tree, From(op), hash);
    LineDescribes(op, action);
    var paths := OperationPaths(op, Some(action));
    var s1 := Snapshot(s.tree, WithOperation(s.entry, Logged(op, action, paths.display)));
    var s2 := Snapshot(s.tree, WithImage(s1.entry, paths.pre, HashOf(s.tree, paths.pre, hash), true));
    if Reaches(fault) {
      MutationDoes(s.tree, op, action);
      MutationRun(s1, s2, op, action, paths, hash, fault);
      ReachedRun(s, s1, s2, op, action, paths, hash, fault);
    } else {
      UnreachedEntry(s, s1, s2, op, action, paths, hash, fault);
    }
  }

  lemma {:induction false} UnreachedEntry(s: Snapshot, s1: Snapshot, s2: Snapshot, op: Operation, action: Action, paths: Paths,
                                          hash: string -> string, fault: Option<Stage>)
    requires NormalizeAction(s.tree, op) == Some(action) && OperationPaths(op, Some(action)) == paths && paths.Paths? && !Reaches(fault)
    requires paths.pre != [] && HashAt(s.tree, paths.pre, hash) == Some(HashOf(s.tree, paths.pre, hash))
    requires s1 == Snapshot(s.tree, WithOperation(s.entry, Logged(op, action, paths.display)))
    requires s2 == Snapshot(s.tree, WithImage(s1.entry, paths.pre, HashOf(s.tree, paths.pre, hash), true))
    ensures
      var r := RunOp(s, op, hash, fault);
      var at := if fault == Some(AtContext) then s else if fault == Some(AtAddOperation) || fault == Some(AtPreHash) then s1 else s2;
      && r.ending == (if fault == Some(AtContext) then Cancelled else FailedAt(Some(paths.display)))
      && r.last == Snapshot(at.tree, WithStatus(at.entry, Failed, if fault == Some(AtContext) then "cancelled" else "failed"))
  {
    match fault.value {
      case AtContext =>
      case AtMutation => FailedChange(s, s1, s2, op, action, paths, hash);
      case _ =>
    }
  }

  lemma {:induction false} FailedChange(s: Snapshot, s1: Snapshot, s2: Snapshot, op: Operation, action: Action, paths: Paths, hash: string -> string)
    requires NormalizeAction(s.tree, op) == Some(action) && OperationPaths(op, Some(action)) == paths && paths.Paths?
    requires paths.pre != [] && HashAt(s.tree, paths.pre, hash) == Some(HashOf(s.tree, paths.pre, hash))
    requires s1 == Snapshot(s.tree, WithOperation(s.entry, Logged(op, action, paths.display)))
    requires s2 == Snapshot(s.tree, WithImage(s1.entry, paths.pre, HashOf(s.tree, paths.pre, hash), true))
    ensures RunOp(s, op, hash, Some(AtMutation)) == Stop([s1, s2], s2, FailedAt(Some(paths.display)))
  {
    assert RunOp(s, op, hash, Some(AtMutation)) == RunMutation(s1, s2, op, action, paths, hash, Some(AtMutation));
  }

  /** Without a failing call, the tree after an operation is what its change leaves. */
  lemma {:induction false} RunIsMutation(s: Snapshot, op: Operation, action: Action, hash: string -> string)
    requires WellFormed(s.tree) && SafeOp(s.tree, op) && NormalizeAction(s.tree, op) == Some(action)
    ensures RunOp(s, op, hash, None).last.tree == Mutation(s.tree, op, action).tree
  {
    PathsAre(s.tree, op, action);
    FiledHashOf(s.tree, From(op), hash);
    var paths := OperationPaths(op, Some(action));
    var s1 := Snapshot(s.tree, WithOperation(s.entry, Logged(op, action, paths.display)));
    var s2 := Snapshot(s.tree, WithImage(s1.entry, paths.pre, HashOf(s.tree, paths.pre, hash), true));
    MutationRun(s1, s2, op, action, paths, hash, None);
    ReachedRun(s, s1, s2, op, action, paths, hash, None);
  }

  lemma {:induction false} ReachedRun(s: Snapshot, s1: Snapshot, s2: Snapshot, op: Operation, action: Action, paths: Paths,
                                      hash: string -> string, fault: Option<Stage>)
    requires NormalizeAction(s.tree, op) == Some(action) && OperationPaths(op, Some(action)) == paths && paths.Paths? && Reaches(fault)
    requires paths.pre != [] && HashAt(s.tree, paths.pre, hash) == Some(HashOf(s.tree, paths.pre, hash))
    requires s1 == Snapshot(s.tree, WithOperation(s.entry, Logged(op, action, paths.display)))
    requires s2 == Snapshot(s.tree, WithImage(s1.entry, paths.pre, HashOf(s.tree, paths.pre, hash), true))
    ensures RunOp(s, op, hash, fault) == RunMutation(s1, s2, op, action, paths, hash, fault)
  {}

  lemma {:induction false} UnreachedRun(s: Snapshot, op: Operation, action: Action, paths: Paths, hash: string -> string, fault: Option<Stage>)
    requires NormalizeAction(s.tree, op) == Some(action) && OperationPaths(op, Some(action)) == paths && paths.Paths? && !Reaches(fault)
    ensures
      var r := RunOp(s, op, hash, fault);
      && !r.ending.Applied? && r.last.tree == s.tree && r.last.entry.status == Failed && (r.ending.Cancelled? <==> fault == Some(AtContext))
  {
    if fault == Some(AtContext) {
      StopLeaves([], s, Cancelled);
    } else {
      UnreachedPaths(s, op, action, paths, hash, fault);
    }
  }

  lemma {:induction false} StopLeaves(passed: seq<Snapshot>, s: Snapshot, ending: Ending)
    ensures
      var r := Stop(passed, s, ending);
      r.ending == ending && r.last.tree == s.tree && r.last.entry.status == Failed
  {}

  lemma {:induction false} FaultStops(s1: Snapshot, s2: Snapshot, op: Operation, action: Action, paths: Paths, hash: string -> string)
    requires paths.Paths?
    ensures
      var r := RunMutation(s1, s2, op, action, paths, hash, Some(AtMutation));
      r.ending == FailedAt(Some(paths.display)) && r.last.tree == s2.tree && r.last.entry.status == Failed
  {
    assert RunMutation(s1, s2, op, action, paths, hash, Some(AtMutation)) == Stop([s1, s2], s2, FailedAt(Some(paths.display)));
  }

  lemma {:induction false} UnreachedPaths(s: Snapshot, op: Operation, action: Action, paths: Paths, hash: string -> string, fault: Option<Stage>)
    requires paths.Paths? && !Reaches(fault) && fault != Some(AtContext)
    ensures
      var r := RunPaths(s, op, action, paths, hash, fault);
      r.ending == FailedAt(Some(paths.display)) && r.last.tree == s.tree && r.last.entry.status == Failed
  {
    var r, ending := RunPaths(s, op, action, paths, hash, fault), FailedAt(Some(paths.display));
    var s1 := Snapshot(s.tree, WithOperation(s.entry, Logged(op, action, paths.display)));
    var pre := HashAt(s.tree, paths.pre, hash);
    if fault == Some(AtAddOperation) {
      assert r == Stop([], s1, ending);
    } else if pre.None? || fault == Some(AtPreHash) || paths.pre == [] {
      assert r == Stop([s1], s1, ending);
    } else {
      var s2 := Snapshot(s.tree, WithImage(s1.entry, paths.pre, pre.value, true));
      if fault == Some(AtPreimage) {
        assert r == Stop([s1], s2, ending);
      } else {
        assert fault.Some? && fault.value.AtMutation?;
        assert r == RunMutation(s1, s2, op, action, paths, hash, Some(AtMutation));
        FaultStops(s1, s2, op, action, paths, hash);
      }
    }
  }

  // ---- a whole run ----

  /** What the n-th operation of a run adds to what the ones before it left. */
  ghost predicate Continues(before: AllRun, op: Operation, action: Action, hash: string -> string, fault: Option<Stage>, after: AllRun)
    requires op.kind.ProjectSetting? || op.path.Some?
  {
    var goes := Applicable(before.last.tree, op, action);
    && (after.going <==> fault.None? && goes)
    && (if Reaches(fault) && goes then Does(before.last.tree, op, action, after.last.tree) else after.last.tree == before.last.tree)
    && (if after.going then
          Notes(before.last, op, action, hash, after.last) && after.applied == before.applied + [Into(op, action)] && after.failed == before.failed
        else
          FailureNoted(before.last, op, action, hash, fault, after.last) && after.applied == before.applied &&
          after.failed == before.failed + (if fault == Some(AtContext) then [] else [Some(Into(op, action))]))
  }

  lemma {:induction false} AddDoes(before: AllRun, op: Operation, action: Action, hash: string -> string, fault: Option<Stage>)
    requires before.going && WellFormed(before.last.tree) && SafeOp(before.last.tree, op) && NormalizeAction(before.last.tree, op) == Some(action)
    ensures op.kind.ProjectSetting? || op.path.Some?
    ensures Continues(before, op, action, hash, fault, AddRun(before, op, hash, fault))
  {
    OperationDoes(before.last, op, action, hash, fault);
    if fault.Some? || !Applicable(before.last.tree, op, action) { FailureDoes(before.last, op, action, hash, fault); }
  }

  /** Operation by operation: while none has failed, each does what it asks for, on
      what the ones before it left, and is written down; the first that does not go
      through ends the run. */
  lemma {:induction false} RunDoes(start: Snapshot, ops: seq<Operation>, n: nat, hash: string -> string, faults: nat -> Option<Stage>)
    requires WellFormed(start.tree) && AllSafe(start.tree, ops) && 0 < n <= |ops|
    ensures RunAll(start, ops, 0, hash, faults) == AllRun([start], start, [], [], true)
    ensures
      var before, after := RunAll(start, ops, n - 1, hash, faults), RunAll(start, ops, n, hash, faults);
      var action := NormalizeAction(before.last.tree, ops[n - 1]);
      && action.Some? && (ops[n - 1].kind.ProjectSetting? || ops[n - 1].path.Some?)
      && (if before.going then Continues(before, ops[n - 1], action.value, hash, faults(n - 1), after) else after == before)
  {
    var before, op := RunAll(start, ops, n - 1, hash, faults), ops[n - 1];
    RunAllHonest(start, ops, n - 1, hash, faults);
    assert SafeAt(start.tree, ops, n - 1);
    SafeStays(start.tree, before.last.tree, op);
    PathsTouched(before.last.tree, op);
    RunAllMore(start, ops, n, hash, faults);
    if before.going {
      AddDoes(before, op, NormalizeAction(before.last.tree, op).value, hash, faults(n - 1));
    } else {
      NotGoingOn(before, op, hash, faults(n - 1));
    }
  }

  /** The run ends completed exactly when every operation went through. */
  lemma {:induction false} FinishDoes(r: AllRun)
    ensures Finish(r).last.tree == r.last.tree && Finish(r).applied == r.applied && Finish(r).failed == r.failed
    ensures r.going ==> Finish(r).last.entry == r.last.entry.(status := Completed, errorMessage := "")
    ensures !r.going ==> Finish(r) == r
  {}
}
