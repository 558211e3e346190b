/** Applying a proposal: each operation is journaled before it changes a file. */
module ProposalEngine {
  import opened Options
  import opened Text
  import opened FileTree
  import opened JournalModel
  import opened ProjectSettings
  import opened Proposal

  const MISSING := "missing"

  // ---- contents ----

  function ReplaceFirst(text: string, find: string, replace: string): string {
    if find <= text then replace + text[|find|..]
    else if text == "" then ""
    else [text[0]] + ReplaceFirst(text[1..], find, replace)
  }

  /** An empty pattern matches before every character and at the end. */
  function ReplaceAll(text: string, find: string, replace: string): string
    decreases |text|
  {
    if find == "" then
      if text == "" then replace else replace + [text[0]] + ReplaceAll(text[1..], find, replace)
    else if text == "" then ""
    else if find <= text then replace + ReplaceAll(text[|find|..], find, replace)
    else [text[0]] + ReplaceAll(text[1..], find, replace)
  }

  /** The content an operation writes as it is. */
  function ContentBytes(op: Operation): Option<string> {
    if op.kind.AssetImport? then op.decoded else Some(op.content)
  }

  function TransformedContent(t: Tree, p: Path, op: Operation): Option<string> {
    if op.kind.AssetImport? then op.decoded
    else if op.find.Some? then
      if !IsFile(t, p) || !Contains(t[p].content, op.find.value.find) then None
      else
        var f := op.find.value;
        Some(if f.all then ReplaceAll(t[p].content, f.find, f.replace) else ReplaceFirst(t[p].content, f.find, f.replace))
    else if Blank(op.content) then None
    else Some(op.content)
  }

  /** Content written beside the file and renamed over it. */
  function WriteAtomic(t: Tree, p: Path, content: string): Outcome {
    match MkdirAll(t, Parent(p))
    case Fail(t1, e) => Fail(t1, e)
    case Ok(t1) => WriteFile(t1, p, content)
  }

  function WriteIfAny(t: Tree, p: Path, content: Option<string>): Outcome {
    if content.None? then Fail(t, Invalid) else WriteAtomic(t, p, content.value)
  }

  /** One file operation. `git apply` is not part of this model. */
  function ApplyFile(t: Tree, op: Operation, p: Path, action: Action): Outcome {
    match action
    case Create => if p in t then Fail(t, Exists) else WriteIfAny(t, p, ContentBytes(op))
    case Write => WriteIfAny(t, p, TransformedContent(t, p, op))
    case Replace => WriteIfAny(t, p, TransformedContent(t, p, op))
    case Modify => WriteIfAny(t, p, TransformedContent(t, p, op))
    case Append =>
      if ContentBytes(op).None? || !IsFile(t, p) then Fail(t, Invalid)
      else WriteAtomic(t, p, t[p].content + ContentBytes(op).value)
    case Delete => FileTree.Remove(t, p)
    case Rename =>
      if !op.target.To? then Fail(t, Invalid)
      else
        (match MkdirAll(t, Parent(op.target.path))
         case Fail(t1, e) => Fail(t1, e)
         case Ok(t1) => FileTree.Rename(t1, p, op.target.path))
    case _ => Fail(t, Invalid)
  }

  /** A change of project.godot; removing what is not there writes nothing. */
  function ApplySetting(t: Tree, op: Operation, action: Action): Outcome {
    var setting := SplitSetting(op.setting);
    if setting.None? || !IsFile(t, PROJECT_FILE) then Fail(t, Invalid)
    else
      var text, where := t[PROJECT_FILE].content, setting.value;
      if action.Remove? then
        var edited := RemoveText(text, where.section, where.key);
        if edited == text then Ok(t) else WriteAtomic(t, PROJECT_FILE, edited)
      else if op.value.None? then Fail(t, Invalid)
      else WriteAtomic(t, PROJECT_FILE, SetText(text, where.section, where.key, op.value.value))
  }

  function Mutation(t: Tree, op: Operation, action: Action): Outcome {
    if op.kind.ProjectSetting? then ApplySetting(t, op, action)
    else if (op.kind.SceneOp? || op.kind.ResourceOp?) && !op.extension then Fail(t, Invalid)
    else if op.path.None? then Fail(t, Invalid)
    else ApplyFile(t, op, op.path.value, action)
  }

  /** The tree once the directories above what is written have been made. */
  function ParentsMade(t: Tree, op: Operation, action: Action): Tree {
    if op.kind.ProjectSetting? || op.path.None? || action.Delete? then t
    else if action.Rename? then if op.target.To? then MkdirAll(t, Parent(op.target.path)).tree else t
    else MkdirAll(t, Parent(op.path.value)).tree
  }

  // ---- one operation ----

  /** The project's files and the change set as the journal file has it. */
  datatype Snapshot = Snapshot(tree: Tree, entry: EntryValue)

  /** The calls of an operation that may fail: on the project without effect;
      on the journal's file, while the change stays in memory and reaches the
      file with the next entry. */
  datatype Stage = AtContext | AtAddOperation | AtPreHash | AtPreimage | AtMutation | AtPostHash | AtPostimage

  datatype Ending = Applied(display: Path) | Cancelled | FailedAt(where: Option<Path>)

  /** Every state passed through, the last of them, and how the run ended. */
  datatype OpRun = OpRun(passed: seq<Snapshot>, last: Snapshot, ending: Ending)

  datatype Paths = Paths(pre: Path, post: Path, display: Path) | NoPaths(shown: Option<Path>)

  function OperationPaths(op: Operation, action: Option<Action>): Paths {
    if op.kind.ProjectSetting? then Paths(PROJECT_FILE, PROJECT_FILE, PROJECT_FILE)
    else if op.path.None? || action.None? then NoPaths(None)
    else if !action.value.Rename? then Paths(op.path.value, op.path.value, op.path.value)
    else if !op.target.To? then NoPaths(op.path)
    else Paths(op.path.value, op.target.path, op.target.path)
  }

  function HashAt(t: Tree, p: Path, hash: string -> string): Option<string> {
    if p !in t then Some(MISSING)
    else match t[p] case File(content) => Some(hash(content)) case Dir => None
  }

  function KindName(kind: Kind): string {
    match kind
    case TextPatch => "text_patch"
    case SceneOp => "scene_op"
    case ResourceOp => "resource_op"
    case AssetImport => "asset_import"
    case ProjectSetting => "project_setting"
  }

  function ActionName(action: Action): string {
    match action
    case Create => "create"
    case Write => "write"
    case Modify => "modify"
    case Replace => "replace"
    case Append => "append"
    case Delete => "delete"
    case Rename => "rename"
    case ApplyPatch => "apply_patch"
    case Set => "set"
    case Remove => "remove"
    case Unknown(name) => name
  }

  function PathText(p: Path): string {
    if p == [] then "." else if |p| == 1 then p[0] else p[0] + "/" + PathText(p[1..])
  }

  /** The journal's line for an operation, with a description if it has none. */
  function Logged(op: Operation, action: Action, display: Path): OperationEntry {
    OperationEntry(KindName(op.kind), Some(display),
                   if Blank(op.description) then ActionName(action) + " " + PathText(display) else TrimSpace(op.description), op.reversible)
  }

  /** The run stops: the change set is marked failed. */
  function Stop(passed: seq<Snapshot>, s: Snapshot, ending: Ending): OpRun {
    var failed := Snapshot(s.tree, WithStatus(s.entry, Failed, if ending.Cancelled? then "cancelled" else "failed"));
    OpRun(passed + [failed], failed, ending)
  }

  function RunOp(s: Snapshot, op: Operation, hash: string -> string, fault: Option<Stage>): OpRun {
    var action := NormalizeAction(s.tree, op);
    var paths := OperationPaths(op, action);
    if fault == Some(AtContext) then Stop([], s, Cancelled)
    else if paths.NoPaths? || action.None? then Stop([], s, FailedAt(if paths.NoPaths? then paths.shown else None))
    else RunPaths(s, op, action.value, paths, hash, fault)
  }

  function RunPaths(s: Snapshot, op: Operation, action: Action, paths: Paths, hash: string -> string, fault: Option<Stage>): OpRun
    requires paths.Paths?
  {
    var s1 := Snapshot(s.tree, WithOperation(s.entry, Logged(op, action, paths.display)));
    var pre := HashAt(s.tree, paths.pre, hash);
    if fault == Some(AtAddOperation) then Stop([], s1, FailedAt(Some(paths.display)))
    else if pre.None? || fault == Some(AtPreHash) || paths.pre == [] then Stop([s1], s1, FailedAt(Some(paths.display)))
    else
      var s2 := Snapshot(s.tree, WithImage(s1.entry, paths.pre, pre.value, true));
      if fault == Some(AtPreimage) then Stop([s1], s2, FailedAt(Some(paths.display)))
      else RunMutation(s1, s2, op, action, paths, hash, fault)
  }

  function RunMutation(s1: Snapshot, s2: Snapshot, op: Operation, action: Action, paths: Paths, hash: string -> string,
                       fault: Option<Stage>): OpRun
    requires paths.Paths?
  {
    if fault == Some(AtMutation) then Stop([s1, s2], s2, FailedAt(Some(paths.display)))
    else
      var s3 := Snapshot(ParentsMade(s2.tree, op, action), s2.entry);
      var outcome := Mutation(s2.tree, op, action);
      var s4 := Snapshot(outcome.tree, s2.entry);
      RunPost([s1, s2, s3, s4], s4, outcome.Ok?, paths, hash, fault)
  }

  /** After the change: its postimage is recorded, or the operation stops. */
  function RunPost(passed: seq<Snapshot>, s4: Snapshot, changed: bool, paths: Paths, hash: string -> string, fault: Option<Stage>): OpRun
    requires paths.Paths?
  {
    var post := HashAt(s4.tree, paths.post, hash);
    if !changed || post.None? || fault == Some(AtPostHash) || paths.post == [] then Stop(passed, s4, FailedAt(Some(paths.display)))
    else
      var s5 := Snapshot(s4.tree, WithImage(s4.entry, paths.post, post.value, false));
      if fault == Some(AtPostimage) then Stop(passed, s5, FailedAt(Some(paths.display)))
      else OpRun(passed + [s5], s5, Applied(paths.display))
  }

  // ---- all operations ----

  datatype AllRun = AllRun(passed: seq<Snapshot>, last: Snapshot, applied: seq<Path>, failed: seq<Option<Path>>, going: bool)

  function RunAll(start: Snapshot, ops: seq<Operation>, n: nat, hash: string -> string, faults: nat -> Option<Stage>): AllRun
    requires n <= |ops|
  {
    if n == 0 then AllRun([start], start, [], [], true)
    else AddRun(RunAll(start, ops, n - 1, hash, faults), ops[n - 1], hash, faults(n - 1))
  }

  function AddRun(before: AllRun, op: Operation, hash: string -> string, fault: Option<Stage>): AllRun {
    if !before.going then before
    else
      var r := RunOp(before.last, op, hash, fault);
      match r.ending
      case Applied(display) => AllRun(before.passed + r.passed, r.last, before.applied + [display], before.failed, true)
      case Cancelled => AllRun(before.passed + r.passed, r.last, before.applied, before.failed, false)
      case FailedAt(where) => AllRun(before.passed + r.passed, r.last, before.applied, before.failed + [where], false)
  }

  /** When all operations are applied the change set is marked completed. */
  function Finish(r: AllRun): AllRun {
    if !r.going then r
    else
      var completed := Snapshot(r.last.tree, WithStatus(r.last.entry, Completed, ""));
      r.(passed := r.passed + [completed], last := completed)
  }

  // ---- the engine ----

  datatype ApplyResult = NotStarted | Result(applied: seq<Path>, failed: seq<Option<Path>>)

  class Engine {
    var tree: Tree
    var entry: EntryValue
    /** Every state of files and journal since the change set began. */
    ghost var trace: seq<Snapshot>

    constructor (t: Tree, e: EntryValue)
      ensures tree == t && entry == e && trace == []
    {
      tree, entry, trace := t, e, [];
    }

    ghost function Now(): Snapshot
      reads this
    {
      Snapshot(tree, entry)
    }

    method MarkFailed(ending: Ending)
      modifies this
      ensures tree == old(tree)
      ensures trace == old(trace) + [Now()] && Now() == Stop([], old(Now()), ending).last
    {
      entry := WithStatus(entry, Failed, if ending.Cancelled? then "cancelled" else "failed");
      trace := trace + [Now()];
    }

    /** One operation: named in the journal, its preimage recorded, carried out,
        its postimage recorded. */
    method RunOperation(op: Operation, hash: string -> string, fault: Option<Stage>) returns (ending: Ending)
      modifies this
      ensures
        var r := RunOp(old(Now()), op, hash, fault);
        Now() == r.last && ending == r.ending && trace == old(trace) + r.passed
    {
      if fault == Some(AtContext) {
        ending := Cancelled;
        MarkFailed(ending);
        return;
      }
      var action := NormalizeAction(tree, op);
      var paths := OperationPaths(op, action);
      if paths.NoPaths? || action.None? {
        ending := FailedAt(if paths.NoPaths? then paths.shown else None);
        MarkFailed(ending);
        return;
      }
      ending := Record(op, action.value, paths, hash, fault);
    }

    /** Names the operation, then records the preimage. */
    method Record(op: Operation, action: Action, paths: Paths, hash: string -> string, fault: Option<Stage>) returns (ending: Ending)
      requires paths.Paths?
      modifies this
      ensures
        var r := RunPaths(old(Now()), op, action, paths, hash, fault);
        Now() == r.last && ending == r.ending && trace == old(trace) + r.passed
    {
      ghost var earlier := trace;
      ending := FailedAt(Some(paths.display));
      entry := WithOperation(entry, Logged(op, action, paths.display));
      if fault == Some(AtAddOperation) {
        MarkFailed(ending);
        return;
      }
      ghost var s1 := Now();
      trace := trace + [Now()];
      var pre := HashAt(tree, paths.pre, hash);
      if pre.None? || fault == Some(AtPreHash) || paths.pre == [] {
        MarkFailed(ending);
        return;
      }
      entry := WithImage(entry, paths.pre, pre.value, true);
      if fault == Some(AtPreimage) {
        MarkFailed(ending);
        return;
      }
      trace := earlier + [s1, Now()];
      ending := Carry(earlier, s1, op, action, paths, hash, fault);
    }

    /** The change itself, after `earlier` and the two journal entries for it. */
    method Carry(ghost earlier: seq<Snapshot>, ghost s1: Snapshot, op: Operation, action: Action, paths: Paths,
                 hash: string -> string, fault: Option<Stage>)
      returns (ending: Ending)
      requires paths.Paths? && trace == earlier + [s1, Now()]
      modifies this
      ensures
        var r := RunMutation(s1, old(Now()), op, action, paths, hash, fault);
        Now() == r.last && ending == r.ending && trace == earlier + r.passed
    {
      ghost var s2 := Now();
      ending := FailedAt(Some(paths.display));
      if fault == Some(AtMutation) {
        MarkFailed(ending);
        return;
      }
      ghost var s3 := Snapshot(ParentsMade(tree, op, action), entry);
      var outcome := Mutation(tree, op, action);
      tree := outcome.tree;
      ghost var s4 := Now();
      trace := earlier + [s1, s2, s3, s4];
      ending := RecordPost(earlier, [s1, s2, s3, s4], outcome.Ok?, paths, hash, fault);
    }

    /** The end of an operation whose change was made, or could not be. */
    method RecordPost(ghost earlier: seq<Snapshot>, ghost passed: seq<Snapshot>, changed: bool, paths: Paths,
                      hash: string -> string, fault: Option<Stage>)
      returns (ending: Ending)
      requires paths.Paths? && trace == earlier + passed
      modifies this
      ensures
        var r := RunPost(passed, old(Now()), changed, paths, hash, fault);
        Now() == r.last && ending == r.ending && trace == earlier + r.passed
    {
      ending := FailedAt(Some(paths.display));
      var post := HashAt(tree, paths.post, hash);
      if !changed || post.None? || fault == Some(AtPostHash) || paths.post == [] {
        MarkFailed(ending);
        return;
      }
      entry := WithImage(entry, paths.post, post.value, false);
      if fault == Some(AtPostimage) {
        MarkFailed(ending);
        return;
      }
      trace := trace + [Now()];
      ending := Applied(paths.display);
    }

    /** Preflight, a new change set, then the operations until one fails. */
    method Apply(ops: seq<Operation>, begun: EntryValue, hash: string -> string, faults: nat -> Option<Stage>)
      returns (result: ApplyResult)
      modifies this
      ensures !PreflightOK(old(tree), ops) ==> result == NotStarted && tree == old(tree) && entry == old(entry) && trace == old(trace)
      ensures PreflightOK(old(tree), ops) ==>
        var r := Finish(RunAll(Snapshot(old(tree), begun), ops, |ops|, hash, faults));
        Now() == r.last && trace == r.passed && result == Result(r.applied, r.failed)
    {
      var checked := Preflight(tree, ops);
      if checked != Checked([]) { return NotStarted; }
      entry := begun;
      trace := [Now()];
      var applied, failed, going := RunOperations(ops, hash, faults);
      if going {
        entry := WithStatus(entry, Completed, "");
        trace := trace + [Now()];
      }
      result := Result(applied, failed);
    }

    method RunOperations(ops: seq<Operation>, hash: string -> string, faults: nat -> Option<Stage>)
      returns (applied: seq<Path>, failed: seq<Option<Path>>, going: bool)
      requires trace == [Now()]
      modifies this
      ensures AllRun(trace, Now(), applied, failed, going) == RunAll(old(Now()), ops, |ops|, hash, faults)
    {
      ghost var start := Now();
      applied, failed, going := [], [], true;
      var i := 0;
      while i < |ops| && going
        invariant 0 <= i <= |ops|
        invariant RunAll(start, ops, i, hash, faults) == AllRun(trace, Now(), applied, failed, going)
      {
        RunAllMore(start, ops, i + 1, hash, faults);
        applied, failed, going := RunNext(ops[i], hash, faults(i), applied, failed);
        i := i + 1;
      }
      if !going { StaysStopped(start, ops, i, hash, faults); }
    }

    /** The next operation, and what it adds to the result. */
    method RunNext(op: Operation, hash: string -> string, fault: Option<Stage>, applied: seq<Path>, failed: seq<Option<Path>>)
      returns (applied': seq<Path>, failed': seq<Option<Path>>, going: bool)
      modifies this
      ensures AllRun(trace, Now(), applied', failed', going)
        == AddRun(AllRun(old(trace), old(Now()), applied, failed, true), op, hash, fault)
    {
      applied', failed', going := applied, failed, true;
      var ending := RunOperation(op, hash, fault);
      match ending {
        case Applied(display) => applied' := applied + [display];
        case Cancelled => going := false;
        case FailedAt(where) => failed', going := failed + [where], false;
      }
    }
  }

  lemma {:induction false} RunAllMore(start: Snapshot, ops: seq<Operation>, n: nat, hash: string -> string, faults: nat -> Option<Stage>)
    requires 0 < n <= |ops|
    ensures RunAll(start, ops, n, hash, faults) == AddRun(RunAll(start, ops, n - 1, hash, faults), ops[n - 1], hash, faults(n - 1))
  {}

  lemma {:induction false} NotGoingOn(before: AllRun, op: Operation, hash: string -> string, fault: Option<Stage>)
    requires !before.going
    ensures AddRun(before, op, hash, fault) == before
  {}

  lemma {:induction false} StaysStopped(start: Snapshot, ops: seq<Operation>, n: nat, hash: string -> string, faults: nat -> Option<Stage>)
    requires n <= |ops| && !RunAll(start, ops, n, hash, faults).going
    ensures RunAll(start, ops, |ops|, hash, faults) == RunAll(start, ops, n, hash, faults)
    decreases |ops| - n
  {
    if n < |ops| {
      NotGoingOn(RunAll(start, ops, n, hash, faults), ops[n], hash, faults(n));
      StaysStopped(start, ops, n + 1, hash, faults);
    }
  }
}
