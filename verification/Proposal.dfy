/** Proposals: structured operations on project files, what each one means,
    and the preflight that checks them against the project before any runs. */
module Proposal {
  import opened Options
  import opened Text
  import opened FileTree
  import opened ProjectSettings

  datatype Kind = TextPatch | SceneOp | ResourceOp | AssetImport | ProjectSetting

  datatype Action = Create | Write | Modify | Replace | Append | Delete | Rename | ApplyPatch | Set | Remove | Unknown(name: string)

  /** What a proposal says to do: nothing, or an action, after its aliases
      (remove, move, update) have been resolved. */
  datatype Word = Unsaid | Said(action: Action)

  /** The word for an action, its aliases resolved. */
  function WordOf(text: string): Word {
    var word := Lower(TrimSpace(text));
    if word == "" then Unsaid
    else if word == "create" then Said(Create)
    else if word == "write" then Said(Write)
    else if word == "modify" || word == "update" then Said(Modify)
    else if word == "replace" then Said(Replace)
    else if word == "append" then Said(Append)
    else if word == "delete" || word == "remove" then Said(Delete)
    else if word == "rename" || word == "move" then Said(Rename)
    else if word == "apply_patch" then Said(ApplyPatch)
    else if word == "set" then Said(Set)
    else Said(Unknown(word))
  }

  /** The word for a type of operation. */
  function KindOf(text: string): Option<Kind> {
    var word := Lower(TrimSpace(text));
    if word == "text_patch" then Some(TextPatch)
    else if word == "scene_op" then Some(SceneOp)
    else if word == "resource_op" then Some(ResourceOp)
    else if word == "asset_import" then Some(AssetImport)
    else if word == "project_setting" || word == "project_setting_set" then Some(ProjectSetting)
    else None
  }

  /** A target path: not given, not within the project, or resolved. */
  datatype Target = NoTarget | BadTarget | To(path: Path)

  datatype FindReplace = FindReplace(find: string, replace: string, all: bool)

  /** An operation with its paths resolved. `path` is None when it cannot be;
      `decoded` is the content as an asset import takes it, None when its base64
      is invalid; `extension` says whether its type takes files of that name. */
  datatype Operation = Operation(kind: Kind, word: Word, path: Option<Path>, target: Target, extension: bool,
                                 content: string, decoded: Option<string>, find: Option<FindReplace>,
                                 setting: string, value: Option<string>, description: string, reversible: bool)

  const PROJECT_FILE: Path := ["project.godot"]

  predicate Allowed(kind: Kind, action: Action) {
    match action
    case Unknown(_) => false
    case Set => kind.ProjectSetting?
    case Remove => kind.ProjectSetting?
    case ApplyPatch => !kind.ProjectSetting? && !kind.AssetImport?
    case _ => !kind.ProjectSetting?
  }

  /** The action of an operation on a tree; only create and modify depend on
      what is there. None when the path is needed and cannot be resolved. */
  function NormalizeAction(t: Tree, op: Operation): Option<Action> {
    match op.word
    case Said(action) => Some(if op.kind.ProjectSetting? && action.Delete? then Remove else action)
    case Unsaid =>
      if op.kind.ProjectSetting? then Some(Set)
      else if !op.target.NoTarget? then Some(Rename)
      else if Blank(op.content) && op.find.None? then Some(Delete)
      else if op.path.None? then None
      else if op.path.value in t then Some(Modify)
      else Some(Create)
  }

  // ---- preflight ----

  datatype Failure = UnsupportedAction | BadExtension | Unresolvable | MissingPath | AlreadyExists | NoPatch
                   | TargetRequired | TargetExists | NotWritable | BadSetting

  function CheckWritable(t: Tree, p: Path, mustExist: bool): seq<Failure> {
    match StatPath(t, p)
    case Found(node) => if node.Dir? then [NotWritable] else []
    case Blocked => [NotWritable]
    case Missing => if mustExist || !IsDir(t, Parent(p)) then [NotWritable] else []
  }

  function CheckForAction(t: Tree, p: Path, target: Target, action: Action): seq<Failure> {
    match action
    case Create => CheckWritable(t, p, false)
    case Rename =>
      if CheckWritable(t, p, true) != [] then CheckWritable(t, p, true)
      else if target.To? then CheckWritable(t, target.path, false)
      else []
    case Delete => CheckWritable(t, p, true)
    case Modify => CheckWritable(t, p, true)
    case Replace => CheckWritable(t, p, true)
    case Append => CheckWritable(t, p, true)
    case Write => CheckWritable(t, p, false)
    case Set => CheckWritable(t, p, true)
    case Remove => CheckWritable(t, p, true)
    case ApplyPatch => []
    case Unknown(_) => []
  }

  function ExistenceFailures(t: Tree, op: Operation, p: Path, action: Action): seq<Failure> {
    if action.Modify? || action.Delete? || action.Rename? || action.Append? then
      if p in t then [] else [MissingPath]
    else if action.Create? then
      if p in t then [AlreadyExists] else []
    else if action.ApplyPatch? then
      if Blank(op.content) then [NoPatch] else []
    else []
  }

  function TargetFailures(t: Tree, target: Target, action: Action): seq<Failure> {
    if !action.Rename? then []
    else if !target.To? then [TargetRequired]
    else if target.path in t then [TargetExists]
    else []
  }

  function FileFailures(t: Tree, op: Operation, action: Action): seq<Failure> {
    var extension: seq<Failure> := if (op.kind.SceneOp? || op.kind.ResourceOp?) && !op.extension then [BadExtension] else [];
    if op.path.None? || op.target.BadTarget? then extension + [Unresolvable]
    else
      extension + ExistenceFailures(t, op, op.path.value, action) + TargetFailures(t, op.target, action)
      + CheckForAction(t, op.path.value, op.target, action)
  }

  function SettingFailures(t: Tree, op: Operation, action: Action): seq<Failure> {
    (if SplitSetting(op.setting).None? then [BadSetting] else []) + CheckForAction(t, PROJECT_FILE, NoTarget, action)
  }

  /** Failures of one operation, or None when its action cannot be told. */
  function PreflightOp(t: Tree, op: Operation): Option<seq<Failure>> {
    match NormalizeAction(t, op)
    case None => None
    case Some(action) =>
      if !Allowed(op.kind, action) then Some([UnsupportedAction])
      else Some(if op.kind.ProjectSetting? then SettingFailures(t, op, action) else FileFailures(t, op, action))
  }

  /** What the inferred action is, action by action. */
  lemma {:induction false} ActionTable(t: Tree, op: Operation)
    ensures
      var action, setting, said := NormalizeAction(t, op), op.kind.ProjectSetting?, op.word.Said?;
      var empty := Blank(op.content) && op.find.None?;
      var inferred := !said && !setting && op.target.NoTarget?;
      && (action == Some(Set) <==> (said && op.word.action == Set) || (!said && setting))
      && (action == Some(Remove) <==> said && (op.word.action == Remove || (setting && op.word.action == Delete)))
      && (action == Some(Action.Rename) <==> (said && op.word.action == Action.Rename) || (!said && !setting && !op.target.NoTarget?))
      && (action == Some(Delete) <==> (said && !setting && op.word.action == Delete) || (inferred && empty))
      && (action == Some(Modify) <==> (said && op.word.action == Modify) || (inferred && !empty && op.path.Some? && op.path.value in t))
      && (action == Some(Create) <==> (said && op.word.action == Create) || (inferred && !empty && op.path.Some? && op.path.value !in t))
      && (action == None <==> inferred && !empty && op.path.None?)
      && (action.Some? && action.value !in {Set, Remove, Action.Rename, Delete, Modify, Create} ==> said && op.word.action == action.value)
  {}

  /** A file can be written there: one that is there, or, if it need not be, a new
      one in a directory. */
  predicate WritableAt(t: Tree, p: Path, mustExist: bool) {
    IsFile(t, p) || (!mustExist && p !in t && IsDir(t, Parent(p)))
  }

  /** Which failures an operation has, whatever its type. */
  lemma {:induction false} FailuresExactly(t: Tree, op: Operation, action: Action)
    requires WellFormed(t) && NormalizeAction(t, op) == Some(action)
    ensures PreflightOp(t, op).Some?
    ensures
      var failures, setting := PreflightOp(t, op).value, op.kind.ProjectSetting?;
      var supported := if setting then action.Set? || action.Remove?
                       else !action.Set? && !action.Remove? && !action.Unknown? && !(op.kind.AssetImport? && action.ApplyPatch?);
      && (!supported ==> failures == [UnsupportedAction])
      && (supported && !setting ==> failures == FileFailures(t, op, action))
      && (supported && setting ==>
            failures == (if SplitSetting(op.setting).None? then [BadSetting] else []) + (if IsFile(t, PROJECT_FILE) then [] else [NotWritable]))
  {
    WritableExactly(t, PROJECT_FILE, true);
  }

  /** When a file operation has a failure. */
  ghost predicate Fails(t: Tree, op: Operation, action: Action, f: Failure) {
    var named, p := op.path.Some? && !op.target.BadTarget?, if op.path.Some? then op.path.value else [];
    match f
    case BadExtension => (op.kind.SceneOp? || op.kind.ResourceOp?) && !op.extension
    case Unresolvable => !named
    case MissingPath => named && (action.Modify? || action.Delete? || action.Rename? || action.Append?) && p !in t
    case AlreadyExists => named && action.Create? && p in t
    case NoPatch => named && action.ApplyPatch? && Blank(op.content)
    case TargetRequired => named && action.Rename? && op.target.NoTarget?
    case TargetExists => named && action.Rename? && op.target.To? && op.target.path in t
    case NotWritable => named && !action.ApplyPatch? && !Accessible(t, op, action)
    case BadSetting => false
    case UnsupportedAction => false
  }

  /** Which failures a file operation has. */
  lemma {:induction false} FileFailuresExactly(t: Tree, op: Operation, action: Action, f: Failure)
    requires WellFormed(t) && Allowed(op.kind, action) && !op.kind.ProjectSetting?
    ensures f in FileFailures(t, op, action) <==> Fails(t, op, action, f)
  {
    var extension: seq<Failure> := if (op.kind.SceneOp? || op.kind.ResourceOp?) && !op.extension then [BadExtension] else [];
    if op.path.Some? && !op.target.BadTarget? {
      var p := op.path.value;
      AccessExactly(t, op, action);
      ExistenceExactly(t, op, p, action);
      TargetsExactly(t, op.target, action);
      InParts(extension, ExistenceFailures(t, op, p, action), TargetFailures(t, op.target, action), CheckForAction(t, p, op.target, action), f);
    }
  }

  /** What an action changes can be written. */
  predicate Accessible(t: Tree, op: Operation, action: Action)
    requires op.path.Some?
  {
    && WritableAt(t, op.path.value, !action.Create? && !action.Write?)
    && (action.Rename? && op.target.To? ==> WritableAt(t, op.target.path, false))
  }

  lemma {:induction false} ExistenceExactly(t: Tree, op: Operation, p: Path, action: Action)
    ensures
      var failures := ExistenceFailures(t, op, p, action);
      && (MissingPath in failures <==> (action.Modify? || action.Delete? || action.Rename? || action.Append?) && p !in t)
      && (AlreadyExists in failures <==> action.Create? && p in t)
      && (NoPatch in failures <==> action.ApplyPatch? && Blank(op.content))
      && forall f :: f in failures ==> f == MissingPath || f == AlreadyExists || f == NoPatch
  {}

  lemma {:induction false} TargetsExactly(t: Tree, target: Target, action: Action)
    requires !target.BadTarget?
    ensures
      var failures := TargetFailures(t, target, action);
      && (TargetRequired in failures <==> action.Rename? && target.NoTarget?)
      && (TargetExists in failures <==> action.Rename? && target.To? && target.path in t)
      && forall f :: f in failures ==> f == TargetRequired || f == TargetExists
  {}

  lemma {:induction false} AccessExactly(t: Tree, op: Operation, action: Action)
    requires WellFormed(t) && op.path.Some? && Allowed(op.kind, action) && !op.kind.ProjectSetting?
    ensures CheckForAction(t, op.path.value, op.target, action)
      == if action.ApplyPatch? || Accessible(t, op, action) then [] else [NotWritable]
  {
    WritableExactly(t, op.path.value, true);
    WritableExactly(t, op.path.value, false);
    if op.target.To? { WritableExactly(t, op.target.path, false); }
  }

  /** Every failure comes from one of the four checks. */
  lemma {:induction false} InParts(extension: seq<Failure>, existence: seq<Failure>, targets: seq<Failure>, access: seq<Failure>, f: Failure)
    requires forall g :: g in extension ==> g == BadExtension
    requires forall g :: g in existence ==> g == MissingPath || g == AlreadyExists || g == NoPatch
    requires forall g :: g in targets ==> g == TargetRequired || g == TargetExists
    requires forall g :: g in access ==> g == NotWritable
    ensures f in extension + existence + targets + access <==>
      match f
      case BadExtension => f in extension
      case NotWritable => f in access
      case TargetRequired => f in targets
      case TargetExists => f in targets
      case _ => f in existence
  {
    assert f in extension + existence + targets + access <==> f in extension || f in existence || f in targets || f in access;
  }

  lemma {:induction false} WritableExactly(t: Tree, p: Path, mustExist: bool)
    requires WellFormed(t)
    ensures CheckWritable(t, p, mustExist) == if WritableAt(t, p, mustExist) then [] else [NotWritable]
  {
    if p !in t && IsDir(t, Parent(p)) && HasFileAbove(t, p) {
      var k :| 0 <= k < |p| && IsFile(t, p[..k]);
      assert p[..k] == Parent(p)[..k];
      if k < |Parent(p)| { PrefixesAreDirs(t, Parent(p), k); } else { assert p[..k] == Parent(p); }
    }
  }

  ghost predicate PreflightOK(t: Tree, ops: seq<Operation>) {
    forall i :: 0 <= i < |ops| ==> PreflightOp(t, ops[i]) == Some([])
  }

  datatype PreflightResult = Checked(errors: seq<Failure>) | Refused

  /** The failures of all operations, in order; an action that cannot be told
      refuses the whole proposal. */
  function PreflightAll(t: Tree, ops: seq<Operation>): PreflightResult {
    if ops == [] then Checked([])
    else
      var before := PreflightAll(t, ops[..|ops| - 1]);
      var failures := PreflightOp(t, ops[|ops| - 1]);
      if before.Refused? || failures.None? then Refused else Checked(before.errors + failures.value)
  }

  /** Goes through the operations, up to one whose action cannot be told. The
      result is clean exactly when every operation is. */
  method Preflight(t: Tree, ops: seq<Operation>) returns (r: PreflightResult)
    ensures r == PreflightAll(t, ops)
    ensures r == Checked([]) <==> PreflightOK(t, ops)
  {
    var errors: seq<Failure> := [];
    assert ops[..0] == [];
    for i := 0 to |ops|
      invariant PreflightAll(t, ops[..i]) == Checked(errors)
      invariant errors == [] <==> PreflightOK(t, ops[..i])
    {
      var failures := PreflightOp(t, ops[i]);
      OneMoreOK(t, ops, i);
      assert ops[..i + 1][..i] == ops[..i];
      if failures.None? {
        SomeNotOK(t, ops, i);
        StaysRefused(t, ops, i + 1);
        return Refused;
      }
      errors := errors + failures.value;
    }
    assert ops[..|ops|] == ops;
    r := Checked(errors);
  }

  /** The action of operation i cannot be told. */
  ghost predicate Untold(t: Tree, ops: seq<Operation>, i: nat) {
    i < |ops| && PreflightOp(t, ops[i]).None?
  }

  lemma {:induction false} OneMoreAll(t: Tree, ops: seq<Operation>)
    requires ops != []
    ensures PreflightAll(t, ops).Refused? <==> PreflightAll(t, ops[..|ops| - 1]).Refused? || Untold(t, ops, |ops| - 1)
  {}

  lemma {:induction false} SameBefore(t: Tree, ops: seq<Operation>, i: nat)
    requires i < |ops| - 1
    ensures Untold(t, ops[..|ops| - 1], i) <==> Untold(t, ops, i)
  {}

  /** The whole proposal is refused exactly when the action of an operation cannot
      be told. */
  lemma {:induction false} RefusedExactly(t: Tree, ops: seq<Operation>)
    ensures PreflightAll(t, ops).Refused? <==> exists i: nat :: Untold(t, ops, i)
    decreases |ops|
  {
    if ops != [] {
      var front := ops[..|ops| - 1];
      OneMoreAll(t, ops);
      RefusedExactly(t, front);
      forall i: nat | i < |front| ensures Untold(t, front, i) <==> Untold(t, ops, i) { SameBefore(t, ops, i); }
      if PreflightAll(t, front).Refused? { var i: nat :| Untold(t, front, i); assert Untold(t, ops, i); }
    }
  }

  function Flat(lists: seq<seq<Failure>>): seq<Failure> {
    if lists == [] then [] else Flat(lists[..|lists| - 1]) + lists[|lists| - 1]
  }

  /** What the checks of the operations give, where their actions can be told. */
  function FailureLists(t: Tree, ops: seq<Operation>): seq<seq<Failure>> {
    seq(|ops|, i requires 0 <= i < |ops| => if PreflightOp(t, ops[i]).Some? then PreflightOp(t, ops[i]).value else [])
  }

  /** Otherwise the failures reported are those of the operations, one after the other. */
  lemma {:induction false} ListedExactly(t: Tree, ops: seq<Operation>)
    requires PreflightAll(t, ops).Checked?
    ensures PreflightAll(t, ops).errors == Flat(FailureLists(t, ops))
    decreases |ops|
  {
    if ops != [] {
      var front := ops[..|ops| - 1];
      ListedExactly(t, front);
      assert FailureLists(t, ops)[..|ops| - 1] == FailureLists(t, front);
    }
  }

  lemma {:induction false} StaysRefused(t: Tree, ops: seq<Operation>, n: nat)
    requires n <= |ops| && PreflightAll(t, ops[..n]).Refused?
    ensures PreflightAll(t, ops).Refused?
    decreases |ops|
  {
    if n == |ops| { assert ops[..n] == ops; }
    else {
      assert ops[..|ops| - 1][..n] == ops[..n];
      StaysRefused(t, ops[..|ops| - 1], n);
    }
  }

  lemma {:induction false} OneMoreOK(t: Tree, ops: seq<Operation>, i: nat)
    requires i < |ops|
    ensures PreflightOK(t, ops[..i + 1]) <==> PreflightOK(t, ops[..i]) && PreflightOp(t, ops[i]) == Some([])
  {
    var more, fewer := ops[..i + 1], ops[..i];
    assert more == fewer + [ops[i]];
    if PreflightOK(t, more) {
      assert forall j :: 0 <= j < i ==> fewer[j] == more[j];
      assert more[i] == ops[i];
    }
  }

  lemma {:induction false} SomeNotOK(t: Tree, ops: seq<Operation>, i: nat)
    requires i < |ops| && PreflightOp(t, ops[i]) != Some([])
    ensures !PreflightOK(t, ops)
  {}

  // ---- what an operation touches ----

  /** A rename, whatever the tree. */
  predicate Renames(op: Operation) {
    !op.kind.ProjectSetting? && (op.word == Said(Rename) || (op.word.Unsaid? && !op.target.NoTarget?))
  }

  /** The file an operation changes, and the one it may move it to. */
  function Touched(op: Operation): set<Path> {
    if op.kind.ProjectSetting? then {PROJECT_FILE}
    else (if op.path.Some? then {op.path.value} else {}) + (if Renames(op) && op.target.To? then {op.target.path} else {})
  }

  /** Not a directory, in a directory. */
  predicate Filed(t: Tree, p: Path) {
    !IsDir(t, p) && IsDir(t, Parent(p))
  }

  /** What a preflight without failures says about any operation but a patch:
      its action runs on files in directories that are there. */
  ghost predicate SafeOp(t: Tree, op: Operation) {
    && (forall p :: p in Touched(op) ==> Filed(t, p))
    && (!op.kind.ProjectSetting? ==> op.path.Some? && (Renames(op) ==> op.target.To?))
    && op.word != Said(ApplyPatch)
  }

  lemma {:induction false} WritableIsFiled(t: Tree, p: Path, mustExist: bool)
    requires WellFormed(t) && CheckWritable(t, p, mustExist) == []
    ensures Filed(t, p) && (mustExist ==> IsFile(t, p))
  {
    if p in t { assert IsDir(t, Parent(p)) || p == []; }
  }

  lemma {:induction false} PreflightIsSafe(t: Tree, op: Operation)
    requires WellFormed(t) && PreflightOp(t, op) == Some([]) && op.word != Said(ApplyPatch)
    ensures SafeOp(t, op)
  {
    var action := NormalizeAction(t, op).value;
    if op.kind.ProjectSetting? {
      WritableIsFiled(t, PROJECT_FILE, true);
    } else {
      FileChecks(t, op, action);
      var p := op.path.value;
      WritableIsFiled(t, p, !action.Create? && !action.Write?);
      assert Renames(op) <==> action.Rename?;
      if action.Rename? { WritableIsFiled(t, op.target.path, false); }
    }
  }

  /** What no failure means for a file operation. */
  lemma {:induction false} FileChecks(t: Tree, op: Operation, action: Action)
    requires FileFailures(t, op, action) == []
    ensures op.path.Some? && !op.target.BadTarget?
    ensures ExistenceFailures(t, op, op.path.value, action) == [] && TargetFailures(t, op.target, action) == []
    ensures CheckForAction(t, op.path.value, op.target, action) == []
    ensures (op.kind.SceneOp? || op.kind.ResourceOp?) ==> op.extension
  {}
}
