/** What the proposal engine guarantees at every point of a run. */
module ProposalProofs {
  import opened Options
  import opened Text
  import opened FileTree
  import opened JournalModel
  import opened ProjectSettings
  import opened Proposal
  import opened ProposalEngine

  // ---- directories stay, files change one at a time ----

  ghost predicate SameDirs(t: Tree, s: Tree) {
    forall p :: IsDir(t, p) <==> IsDir(s, p)
  }

  ghost predicate ChangesOnly(t: Tree, s: Tree, ps: set<Path>) {
    forall p :: p !in ps ==> At(s, p) == At(t, p)
  }

  /** A well-formed tree that differs from t in files at these paths only. */
  ghost predicate Follows(t: Tree, s: Tree, ps: set<Path>) {
    WellFormed(s) && SameDirs(t, s) && ChangesOnly(t, s, ps)
  }

  lemma {:induction false} WriteFiled(t: Tree, p: Path, content: string)
    requires WellFormed(t) && Filed(t, p)
    ensures WriteAtomic(t, p, content) == Ok(t[p := File(content)]) && Follows(t, t[p := File(content)], {p})
  {
    WriteKeepsWellFormed(t, p, content);
  }

  lemma {:induction false} RemoveFiled(t: Tree, p: Path)
    requires WellFormed(t) && Filed(t, p)
    ensures Follows(t, FileTree.Remove(t, p).tree, {p})
    ensures p in t ==> FileTree.Remove(t, p) == Ok(t - {p})
  {
    RemoveKeepsWellFormed(t, p);
  }

  /** Moving a file moves that file and nothing else. */
  lemma {:induction false} MoveFile(t: Tree, from: Path, to: Path)
    requires WellFormed(t) && IsFile(t, from) && !(from <= to) && Filed(t, to)
    ensures Move(t, from, to) == (t - {from})[to := t[from]]
  {
    var moved := (t - {from})[to := t[from]];
    forall q ensures At(Move(t, from, to), q) == At(moved, q) {
      MoveAt(t, from, to, q);
      NothingBelow(t, from, q);
      NothingBelow(t, to, q);
      if to <= q {
        NothingBelow(t, from, from + q[|to|..]);
        assert q[|to|..] == [] ==> q == to && from + q[|to|..] == from;
      }
    }
    SameLookups(Move(t, from, to), moved);
  }

  /** Only directories have anything below them. */
  lemma {:induction false} NothingBelow(t: Tree, p: Path, q: Path)
    requires WellFormed(t) && !IsDir(t, p)
    ensures p <= q && p != q ==> q !in t
  {
    if p <= q && p != q && q in t { AncestorIsDir(t, p, q); }
  }

  lemma {:induction false} RenameFiled(t: Tree, from: Path, to: Path)
    requires WellFormed(t) && Filed(t, from) && Filed(t, to)
    ensures Follows(t, FileTree.Rename(t, from, to).tree, {from, to})
    ensures from in t && from != to ==> FileTree.Rename(t, from, to) == Ok((t - {from})[to := t[from]])
  {
    RenameKeepsWellFormed(t, from, to);
    if from in t && from != to {
      assert !(from <= to) by { if from <= to { BelowFile(t, from, to); } }
      MoveFile(t, from, to);
    } else if from in t {
      MoveSelf(t, from);
    }
  }

  lemma {:induction false} BelowFile(t: Tree, from: Path, to: Path)
    requires WellFormed(t) && from in t && !IsDir(t, from) && from <= to && from != to
    ensures !IsDir(t, Parent(to))
  {
    if IsDir(t, Parent(to)) {
      assert from <= Parent(to);
      if from != Parent(to) { AncestorIsDir(t, from, Parent(to)); }
    }
  }

  lemma {:induction false} MoveSelf(t: Tree, p: Path)
    ensures Move(t, p, p) == t
  {
    forall q ensures At(Move(t, p, p), q) == At(t, q) {
      MoveAt(t, p, p, q);
      if p <= q { assert p + q[|p|..] == q; }
    }
    SameLookups(Move(t, p, p), t);
  }

  lemma {:induction false} FollowsMore(t: Tree, s: Tree, ps: set<Path>, qs: set<Path>)
    requires Follows(t, s, ps) && ps <= qs
    ensures Follows(t, s, qs)
  {}

  // ---- one mutation ----

  lemma {:induction false} FileMutation(t: Tree, op: Operation, p: Path, action: Action)
    requires WellFormed(t) && Filed(t, p) && !action.Rename?
    ensures Follows(t, ApplyFile(t, op, p, action).tree, {p})
  {
    match action {
      case Create => if ContentBytes(op).Some? { WriteFiled(t, p, ContentBytes(op).value); }
      case Write => TransformedWrite(t, op, p);
      case Replace => TransformedWrite(t, op, p);
      case Modify => TransformedWrite(t, op, p);
      case Append =>
        if ContentBytes(op).Some? && IsFile(t, p) { WriteFiled(t, p, t[p].content + ContentBytes(op).value); }
      case Delete => RemoveFiled(t, p);
      case _ =>
    }
  }

  lemma {:induction false} TransformedWrite(t: Tree, op: Operation, p: Path)
    requires WellFormed(t) && Filed(t, p)
    ensures Follows(t, WriteIfAny(t, p, TransformedContent(t, p, op)).tree, {p})
    ensures TransformedContent(t, p, op).Some? ==> WriteIfAny(t, p, TransformedContent(t, p, op)).Ok?
  {
    var content := TransformedContent(t, p, op);
    if content.Some? { WriteFiled(t, p, content.value); }
  }

  lemma {:induction false} SettingMutation(t: Tree, op: Operation, action: Action)
    requires WellFormed(t) && Filed(t, PROJECT_FILE)
    ensures Follows(t, ApplySetting(t, op, action).tree, {PROJECT_FILE})
  {
    var setting := SplitSetting(op.setting);
    if setting.Some? && IsFile(t, PROJECT_FILE) {
      var text := t[PROJECT_FILE].content;
      WriteFiled(t, PROJECT_FILE, RemoveText(text, setting.value.section, setting.value.key));
      if op.value.Some? { WriteFiled(t, PROJECT_FILE, SetText(text, setting.value.section, setting.value.key, op.value.value)); }
    }
  }

  lemma {:induction false} FiledParents(t: Tree, p: Path)
    requires Filed(t, p)
    ensures MkdirAll(t, Parent(p)) == Ok(t)
  {
    MkdirAllExisting(t, Parent(p));
  }

  lemma {:induction false} RenameMutation(t: Tree, op: Operation, p: Path, q: Path)
    requires WellFormed(t) && Filed(t, p) && Filed(t, q) && op.target == To(q)
    ensures Follows(t, ApplyFile(t, op, p, Action.Rename).tree, {p, q})
    ensures p in t && p != q ==> ApplyFile(t, op, p, Action.Rename) == Ok((t - {p})[q := t[p]])
  {
    FiledParents(t, q);
    RenameFiled(t, p, q);
  }

  lemma {:induction false} ApplyFileFollows(t: Tree, op: Operation, p: Path, action: Action, ps: set<Path>)
    requires WellFormed(t) && Filed(t, p) && p in ps
    requires action.Rename? ==> op.target.To? && op.target.path in ps && Filed(t, op.target.path)
    ensures Follows(t, ApplyFile(t, op, p, action).tree, ps)
  {
    if action.Rename? {
      RenameMutation(t, op, p, op.target.path);
      FollowsMore(t, ApplyFile(t, op, p, action).tree, {p, op.target.path}, ps);
    } else {
      FileMutation(t, op, p, action);
      FollowsMore(t, ApplyFile(t, op, p, action).tree, {p}, ps);
    }
  }

  /** A safe operation makes no directory and changes only what it touches. */
  lemma {:induction false} MutationFollows(t: Tree, op: Operation, action: Action)
    requires WellFormed(t) && SafeOp(t, op) && NormalizeAction(t, op) == Some(action)
    ensures ParentsMade(t, op, action) == t
    ensures Follows(t, Mutation(t, op, action).tree, Touched(op))
  {
    if op.kind.ProjectSetting? {
      SettingMutation(t, op, action);
    } else {
      RenameWanted(t, op, action);
      FiledParents(t, op.path.value);
      if action.Rename? { FiledParents(t, op.target.path); }
      ApplyFileFollows(t, op, op.path.value, action, Touched(op));
    }
  }

  lemma {:induction false} RenameWanted(t: Tree, op: Operation, action: Action)
    requires SafeOp(t, op) && NormalizeAction(t, op) == Some(action) && !op.kind.ProjectSetting?
    ensures op.path.value in Touched(op) && Filed(t, op.path.value)
    ensures action.Rename? ==> op.target.To? && op.target.path in Touched(op) && Filed(t, op.target.path)
  {}

  // ---- named before changed ----

  ghost predicate Named(e: EntryValue, p: Path) {
    p in e.preimages || exists i :: 0 <= i < |e.operations| && e.operations[i].path == Some(p)
  }

  /** Nothing differs from the start but files that the change set names. */
  ghost predicate Honest(start: Tree, s: Snapshot) {
    && WellFormed(s.tree) && SameDirs(start, s.tree)
    && forall p {:trigger At(s.tree, p)} :: At(s.tree, p) != At(start, p) ==> Named(s.entry, p)
  }

  /** Every path named before is named after. */
  ghost predicate NamesMore(e: EntryValue, e': EntryValue) {
    e.operations <= e'.operations && e.preimages.Keys <= e'.preimages.Keys
  }

  lemma {:induction false} HonestMore(start: Tree, s: Snapshot, s': Snapshot)
    requires Honest(start, s) && s'.tree == s.tree && NamesMore(s.entry, s'.entry)
    ensures Honest(start, s')
  {
    forall p | At(s'.tree, p) != At(start, p) ensures Named(s'.entry, p) {
      if p !in s.entry.preimages {
        var i :| 0 <= i < |s.entry.operations| && s.entry.operations[i].path == Some(p);
        assert s'.entry.operations[i].path == Some(p);
      }
    }
  }

  lemma {:induction false} HonestChanged(start: Tree, s: Snapshot, tree: Tree, ps: set<Path>)
    requires Honest(start, s) && Follows(s.tree, tree, ps) && forall p :: p in ps ==> Named(s.entry, p)
    ensures Honest(start, Snapshot(tree, s.entry))
  {
    forall p | At(tree, p) != At(start, p) ensures Named(s.entry, p) {
      if p !in ps { assert At(tree, p) == At(s.tree, p); }
    }
  }

  lemma {:induction false} SafeStays(start: Tree, t: Tree, op: Operation)
    requires SafeOp(start, op) && SameDirs(start, t)
    ensures SafeOp(t, op)
  {
    forall p | p in Touched(op) ensures Filed(t, p) { assert Filed(start, p); }
  }

  ghost predicate SafeAt(t: Tree, ops: seq<Operation>, i: nat)
    requires i < |ops|
  {
    SafeOp(t, ops[i])
  }

  ghost predicate AllSafe(t: Tree, ops: seq<Operation>) {
    forall i: nat {:trigger SafeAt(t, ops, i)} :: i < |ops| ==> SafeAt(t, ops, i)
  }

  ghost predicate AllHonest(start: Tree, passed: seq<Snapshot>) {
    forall i :: 0 <= i < |passed| ==> Honest(start, passed[i])
  }

  /** The paths of a safe operation: what it touches is what it names. */
  lemma {:induction false} PathsTouched(t: Tree, op: Operation)
    requires SafeOp(t, op)
    ensures
      var action := NormalizeAction(t, op);
      var paths := OperationPaths(op, action);
      && action.Some? && paths.Paths? && paths.post == paths.display
      && Touched(op) == {paths.pre, paths.display}
      && (Renames(op) <==> !op.kind.ProjectSetting? && action.value.Rename?)
  {}

  /** Every state that one operation passes through is honest. */
  lemma {:induction false} RunOpHonest(start: Tree, s: Snapshot, op: Operation, hash: string -> string, fault: Option<Stage>)
    requires Honest(start, s) && SafeOp(start, op)
    ensures AllHonest(start, RunOp(s, op, hash, fault).passed) && Honest(start, RunOp(s, op, hash, fault).last)
  {
    SafeStays(start, s.tree, op);
    PathsTouched(s.tree, op);
    var action := NormalizeAction(s.tree, op).value;
    var paths := OperationPaths(op, Some(action));
    if fault == Some(AtContext) {
      HonestMore(start, s, RunOp(s, op, hash, fault).last);
    } else {
      RunPathsHonest(start, s, op, action, paths, hash, fault);
    }
  }

  lemma {:induction false} RunPathsHonest(start: Tree, s: Snapshot, op: Operation, action: Action, paths: Paths, hash: string -> string,
                                          fault: Option<Stage>)
    requires Honest(start, s) && SafeOp(s.tree, op) && paths.Paths?
    requires NormalizeAction(s.tree, op) == Some(action) && Touched(op) == {paths.pre, paths.display}
    ensures
      var r := RunPaths(s, op, action, paths, hash, fault);
      AllHonest(start, r.passed) && Honest(start, r.last)
  {
    var r := RunPaths(s, op, action, paths, hash, fault);
    var s1 := Snapshot(s.tree, WithOperation(s.entry, Logged(op, action, paths.display)));
    HonestMore(start, s, s1);
    var pre := HashAt(s.tree, paths.pre, hash);
    if fault == Some(AtAddOperation) || pre.None? || fault == Some(AtPreHash) || paths.pre == [] {
      HonestMore(start, s1, r.last);
    } else {
      var s2 := Snapshot(s.tree, WithImage(s1.entry, paths.pre, pre.value, true));
      HonestMore(start, s1, s2);
      if fault == Some(AtPreimage) {
        HonestMore(start, s2, r.last);
      } else {
        assert s2.entry.operations[|s.entry.operations|].path == Some(paths.display);
        RunMutationHonest(start, s1, s2, op, action, paths, hash, fault);
      }
    }
  }

  lemma {:induction false} RunMutationHonest(start: Tree, s1: Snapshot, s2: Snapshot, op: Operation, action: Action, paths: Paths,
                          hash: string -> string, fault: Option<Stage>)
    requires Honest(start, s1) && Honest(start, s2) && paths.Paths?
    requires SafeOp(s2.tree, op) && NormalizeAction(s2.tree, op) == Some(action)
    requires Touched(op) == {paths.pre, paths.display} && Named(s2.entry, paths.pre) && Named(s2.entry, paths.display)
    ensures
      var r := RunMutation(s1, s2, op, action, paths, hash, fault);
      AllHonest(start, r.passed) && Honest(start, r.last)
  {
    if fault == Some(AtMutation) {
      FaultStates(s1, s2, op, action, paths, hash);
      HonestMore(start, s2, RunMutation(s1, s2, op, action, paths, hash, fault).last);
    } else {
      var s4 := Snapshot(Mutation(s2.tree, op, action).tree, s2.entry);
      MutationFollows(s2.tree, op, action);
      HonestChanged(start, s2, s4.tree, Touched(op));
      MutationStates(s1, s2, op, action, paths, hash, fault);
      HonestRun(start, s1, s2, s4, RunMutation(s1, s2, op, action, paths, hash, fault).last);
    }
  }

  lemma {:induction false} HonestRun(start: Tree, s1: Snapshot, s2: Snapshot, s4: Snapshot, last: Snapshot)
    requires Honest(start, s1) && Honest(start, s2) && Honest(start, s4)
    requires last.tree == s4.tree && NamesMore(s4.entry, last.entry)
    ensures AllHonest(start, [s1, s2, s2, s4, last]) && Honest(start, last)
  {
    HonestMore(start, s4, last);
  }

  lemma {:induction false} FaultStates(s1: Snapshot, s2: Snapshot, op: Operation, action: Action, paths: Paths, hash: string -> string)
    requires paths.Paths?
    ensures
      var r := RunMutation(s1, s2, op, action, paths, hash, Some(AtMutation));
      r.passed == [s1, s2, r.last] && r.last.tree == s2.tree && NamesMore(s2.entry, r.last.entry)
  {}

  /** The states a mutation passes through when it makes no directory. */
  lemma {:induction false} MutationStates(s1: Snapshot, s2: Snapshot, op: Operation, action: Action, paths: Paths, hash: string -> string,
                       fault: Option<Stage>)
    requires paths.Paths? && ParentsMade(s2.tree, op, action) == s2.tree && fault != Some(AtMutation)
    ensures
      var r := RunMutation(s1, s2, op, action, paths, hash, fault);
      var s4 := Snapshot(Mutation(s2.tree, op, action).tree, s2.entry);
      && r.passed == [s1, s2, s2, s4, r.last] && r.last.tree == s4.tree && NamesMore(s4.entry, r.last.entry)
  {}

  lemma {:induction false} RunAllHonest(start: Snapshot, ops: seq<Operation>, n: nat, hash: string -> string, faults: nat -> Option<Stage>)
    requires WellFormed(start.tree) && n <= |ops| && AllSafe(start.tree, ops)
    ensures
      var r := RunAll(start, ops, n, hash, faults);
      AllHonest(start.tree, r.passed) && Honest(start.tree, r.last)
  {
    if n > 0 {
      RunAllHonest(start, ops, n - 1, hash, faults);
      assert SafeAt(start.tree, ops, n - 1);
      AddHonest(start.tree, RunAll(start, ops, n - 1, hash, faults), ops[n - 1], hash, faults(n - 1));
      RunAllMore(start, ops, n, hash, faults);
    }
  }

  lemma {:induction false} AddHonest(start: Tree, before: AllRun, op: Operation, hash: string -> string, fault: Option<Stage>)
    requires AllHonest(start, before.passed) && Honest(start, before.last) && SafeOp(start, op)
    ensures
      var r := AddRun(before, op, hash, fault);
      AllHonest(start, r.passed) && Honest(start, r.last)
  {
    if before.going {
      RunOpHonest(start, before.last, op, hash, fault);
      AddRunPassed(before, op, hash, fault);
      HonestConcat(start, before.passed, RunOp(before.last, op, hash, fault).passed);
    } else {
      NotGoingOn(before, op, hash, fault);
    }
  }

  lemma {:induction false} HonestConcat(start: Tree, a: seq<Snapshot>, b: seq<Snapshot>)
    requires AllHonest(start, a) && AllHonest(start, b)
    ensures AllHonest(start, a + b)
  {}

  lemma {:induction false} AddRunPassed(before: AllRun, op: Operation, hash: string -> string, fault: Option<Stage>)
    requires before.going
    ensures
      var r, more := AddRun(before, op, hash, fault), RunOp(before.last, op, hash, fault);
      && r.passed == before.passed + more.passed && r.last == more.last
      && (r.going <==> more.ending.Applied?)
  {}

  lemma {:induction false} PreflightSafe(t: Tree, ops: seq<Operation>)
    requires WellFormed(t) && PreflightOK(t, ops) && forall i :: 0 <= i < |ops| ==> !Patches(ops[i])
    ensures AllSafe(t, ops)
  {
    forall i: nat | i < |ops| ensures SafeAt(t, ops, i) { PreflightIsSafe(t, ops[i]); }
  }

  predicate Patches(op: Operation) { op.word == Said(ApplyPatch) }

  /** At every point of an applied proposal, wherever it stops or crashes, each
      path at which the project differs from the start is named in the change
      set as it stands in the journal. */
  lemma {:induction false} WriteAhead(start: Snapshot, ops: seq<Operation>, hash: string -> string, faults: nat -> Option<Stage>)
    requires WellFormed(start.tree) && PreflightOK(start.tree, ops) && forall i :: 0 <= i < |ops| ==> !Patches(ops[i])
    ensures AllHonest(start.tree, Finish(RunAll(start, ops, |ops|, hash, faults)).passed)
  {
    PreflightSafe(start.tree, ops);
    RunAllHonest(start, ops, |ops|, hash, faults);
    var r := RunAll(start, ops, |ops|, hash, faults);
    if r.going { HonestMore(start.tree, r.last, Finish(r).last); }
  }
}
