/** Rolling a change set back: each record undoes its operation, a log undone
    from its end restores the starting tree, and when one step does not. */
module PatchRollback {
  import opened Options
  import opened FileTree
  import opened PatchTransaction

  /** What undoing needs of the tree s it runs on: t1, the tree its operation
      left, outside the rollback root, and the record's backup inside it. */
  ghost predicate UndoableOn(s: Tree, t1: Tree, id: string, idx: nat, record: Record) {
    && WellFormed(s)
    && SameOutside(t1, s)
    && (record.backup.Some? ==> At(s, BackupPath(id, idx)) == At(t1, BackupPath(id, idx)))
  }

  ghost predicate Restores(o: Outcome, t: Tree, s: Tree) {
    o.Ok? && WellFormed(o.tree) && SameOutside(t, o.tree) && SameInside(s, o.tree)
  }

  /** Copying a backup over a target whose directory is there. */
  lemma {:induction false} CopyBack(s: Tree, backup: Path, p: Path)
    requires WellFormed(s) && IsFile(s, backup) && IsDir(s, Parent(p)) && !IsDir(s, p)
    ensures CopyFile(s, backup, p) == Ok(s[p := s[backup]])
    ensures WellFormed(s[p := s[backup]])
  {
    MkdirAllExisting(s, Parent(p));
    WriteKeepsWellFormed(s, p, s[backup].content);
  }

  lemma {:induction false} ParentAway(p: Path)
    requires !Touches(p)
    ensures !InRollbackRoot(Parent(p)) && !InRollbackRoot(p) && p != []
  {
    assert InRollbackRoot(Parent(p)) ==> ROLLBACK_ROOT <= p;
    assert [] <= ROLLBACK_ROOT;
  }

  /** What write, create and append leave. */
  lemma {:induction false} PutEffect(t: Tree, id: string, idx: nat, op: Operation, fault: Option<Stage>)
    requires Ready(t, id) && Recoverable(t, op)
    requires op.kind.WriteOp? || op.kind.CreateOp? || op.kind.AppendOp?
    requires Execute(t, id, idx, op, fault).Executed?
    ensures
      var e := Execute(t, id, idx, op, fault);
      && !IsDir(t, op.path)
      && e.record == FirstRecord(t, id, idx, op).(created := op.path !in t)
      && IsFile(e.tree, op.path)
      && e.tree == WithBackup(t, id, idx, op.path)[op.path := e.tree[op.path]]
      && Ready(WithBackup(t, id, idx, op.path), id)
  {
    ExecuteBacksUpFirst(t, id, idx, op, fault);
    ParentAway(op.path);
    MkdirAllExisting(WithBackup(t, id, idx, op.path), Parent(op.path));
    BackupDirFacts(id, idx);
  }

  ghost predicate SameOutsideBut(t: Tree, s: Tree, p: Path) {
    forall q :: !InRollbackRoot(q) && q != p ==> At(t, q) == At(s, q)
  }

  lemma {:induction false} UndoPutRecord(t: Tree, s: Tree, r: Record)
    requires WellFormed(t) && WellFormed(s)
    requires r.kind.WriteOp? || r.kind.CreateOp? || r.kind.AppendOp?
    requires !Touches(r.path) && IsDir(t, Parent(r.path)) && !IsDir(t, r.path)
    requires r.existed == (r.path in t) && r.created == (r.path !in t) && r.backup.Some? == (r.path in t)
    requires SameOutsideBut(t, s, r.path) && IsFile(s, r.path)
    requires r.backup.Some? ==> InRollbackRoot(r.backup.value) && At(s, r.backup.value) == Some(t[r.path])
    ensures Restores(UndoRecord(s, r), t, s)
  {
    ParentAway(r.path);
    if r.path in t {
      assert At(t, Parent(r.path)) == At(s, Parent(r.path));
      CopyBack(s, r.backup.value, r.path);
    } else {
      RemoveKeepsWellFormed(s, r.path);
    }
  }

  lemma {:induction false} UndoPutStep(t: Tree, id: string, idx: nat, op: Operation, fault: Option<Stage>, s: Tree)
    requires Ready(t, id) && Recoverable(t, op)
    requires op.kind.WriteOp? || op.kind.CreateOp? || op.kind.AppendOp?
    requires Execute(t, id, idx, op, fault).Executed?
    requires UndoableOn(s, Execute(t, id, idx, op, fault).tree, id, idx, Execute(t, id, idx, op, fault).record)
    ensures Restores(UndoRecord(s, Execute(t, id, idx, op, fault).record), t, s)
  {
    var e := Execute(t, id, idx, op, fault);
    PutEffect(t, id, idx, op, fault);
    BackupDirFacts(id, idx);
    ParentAway(op.path);
    forall q | !InRollbackRoot(q) && q != op.path ensures At(t, q) == At(s, q) {
      assert At(s, q) == At(e.tree, q);
    }
    assert At(s, op.path) == At(e.tree, op.path);
    UndoPutRecord(t, s, e.record);
  }

  lemma {:induction false} DeleteEffect(t: Tree, id: string, idx: nat, op: Operation, fault: Option<Stage>)
    requires Ready(t, id) && Recoverable(t, op) && op.kind.DeleteOp?
    requires Execute(t, id, idx, op, fault).Executed?
    ensures
      var e := Execute(t, id, idx, op, fault);
      && e.record == FirstRecord(t, id, idx, op)
      && e.tree == WithBackup(t, id, idx, op.path) - {op.path}
      && !IsDir(t, op.path)
      && Ready(WithBackup(t, id, idx, op.path), id)
  {
    ExecuteBacksUpFirst(t, id, idx, op, fault);
    ParentAway(op.path);
    BackupDirFacts(id, idx);
    var t1 := WithBackup(t, id, idx, op.path);
    if op.path !in t { assert t1 == t1 - {op.path}; }
  }

  lemma {:induction false} UndoDeleteStep(t: Tree, id: string, idx: nat, op: Operation, fault: Option<Stage>, s: Tree)
    requires Ready(t, id) && Recoverable(t, op) && op.kind.DeleteOp?
    requires Execute(t, id, idx, op, fault).Executed?
    requires UndoableOn(s, Execute(t, id, idx, op, fault).tree, id, idx, Execute(t, id, idx, op, fault).record)
    ensures Restores(UndoRecord(s, Execute(t, id, idx, op, fault).record), t, s)
  {
    var e := Execute(t, id, idx, op, fault);
    DeleteEffect(t, id, idx, op, fault);
    BackupDirFacts(id, idx);
    ParentAway(op.path);
    forall q | !InRollbackRoot(q) && q != op.path ensures At(t, q) == At(s, q) {
      assert At(s, q) == At(e.tree, q);
    }
    assert At(s, op.path) == None;
    if op.path in t {
      assert IsDir(t, Parent(op.path)) && At(t, Parent(op.path)) == At(s, Parent(op.path));
      assert At(s, BackupPath(id, idx)) == Some(t[op.path]);
      CopyBack(s, BackupPath(id, idx), op.path);
    }
  }

  lemma {:induction false} MkdirEffect(t: Tree, id: string, idx: nat, op: Operation, fault: Option<Stage>)
    requires Ready(t, id) && Recoverable(t, op) && op.kind.MkdirOp?
    requires Execute(t, id, idx, op, fault).Executed?
    ensures
      var e := Execute(t, id, idx, op, fault);
      && e.record == FirstRecord(t, id, idx, op).(created := op.path !in t)
      && !IsFile(t, op.path)
      && e.tree == t[op.path := Dir]
  {
    ExecuteBacksUpFirst(t, id, idx, op, fault);
    ParentAway(op.path);
    MkdirAllExisting(t, Parent(op.path));
    BackupDirFacts(id, idx);
  }

  lemma {:induction false} UndoMkdirStep(t: Tree, id: string, idx: nat, op: Operation, fault: Option<Stage>, s: Tree)
    requires Ready(t, id) && Recoverable(t, op) && op.kind.MkdirOp?
    requires Execute(t, id, idx, op, fault).Executed?
    requires UndoableOn(s, Execute(t, id, idx, op, fault).tree, id, idx, Execute(t, id, idx, op, fault).record)
    ensures Restores(UndoRecord(s, Execute(t, id, idx, op, fault).record), t, s)
  {
    var e := Execute(t, id, idx, op, fault);
    MkdirEffect(t, id, idx, op, fault);
    ParentAway(op.path);
    if op.path in t {
      assert t[op.path := Dir] == t;
    } else {
      NoChildrenOfNew(t, s, op.path);
      assert At(s, op.path) == At(t[op.path := Dir], op.path);
      forall q | !InRollbackRoot(q) && q != op.path ensures At(t, q) == At(s, q) {
        assert At(s, q) == At(t[op.path := Dir], q);
      }
      UndoNewDirectory(t, s, op.path);
    }
  }

  lemma {:induction false} UndoNewDirectory(t: Tree, s: Tree, p: Path)
    requires WellFormed(s) && !Touches(p) && p !in t
    requires SameOutsideBut(t, s, p) && IsDir(s, p) && !HasChild(s, p)
    ensures Restores(IgnoreMissing(Remove(s, p)), t, s)
  {
    ParentAway(p);
    RemoveKeepsWellFormed(s, p);
  }

  /** A directory just made has no children, in any tree that agrees outside. */
  lemma {:induction false} NoChildrenOfNew(t: Tree, s: Tree, p: Path)
    requires WellFormed(t) && !Touches(p) && p !in t
    requires SameOutside(t[p := Dir], s)
    ensures !HasChild(s, p)
  {
    forall q | q in s && q != [] && q != p ensures Parent(q) != p {
      assert Parent(q) == p ==> p <= q;
      if p <= q { AwayFromRoot(p, q); }
      if q in t && p <= q { AncestorIsDir(t, p, q); }
      assert !InRollbackRoot(q) ==> At(t[p := Dir], q) == At(s, q);
    }
  }

  lemma {:induction false} RenameEffect(t: Tree, id: string, idx: nat, op: Operation, fault: Option<Stage>)
    requires Ready(t, id) && Recoverable(t, op) && op.kind.RenameOp?
    requires Execute(t, id, idx, op, fault).Executed?
    ensures
      var e := Execute(t, id, idx, op, fault);
      && op.path !in t && op.oldPath.Inside?
      && e.record == FirstRecord(t, id, idx, op).(oldPath := Some(op.oldPath.path))
      && Rename(t, op.oldPath.path, op.path) == Ok(e.tree)
  {
    ExecuteBacksUpFirst(t, id, idx, op, fault);
    ParentAway(op.path);
    BackupDirFacts(id, idx);
    MkdirAllExisting(WithBackup(t, id, idx, op.path), Parent(op.path));
  }

  /** Moving back after moving, in any tree that agrees outside. */
  lemma {:induction false} MoveBackAt(t: Tree, s: Tree, from: Path, to: Path, q: Path)
    requires WellFormed(t) && to !in t && from in t && !(from <= to) && !(to <= from)
    requires !Touches(from) && !Touches(to)
    requires SameOutside(Move(t, from, to), s)
    ensures At(Move(s, to, from), q) == if InRollbackRoot(q) then At(s, q) else At(t, q)
  {
    MoveAt(s, to, from, q);
    if InRollbackRoot(q) {
      assert from <= q ==> !InRollbackRoot(q) by { if from <= q { AwayFromRoot(from, q); } }
      assert to <= q ==> !InRollbackRoot(q) by { if to <= q { AwayFromRoot(to, q); } }
    } else {
      MoveAt(t, from, to, q);
      assert At(s, q) == At(Move(t, from, to), q);
      if to <= q && q in t { AncestorIsDir(t, to, q); }
      if from <= q {
        var r := to + q[|from|..];
        AwayFromRoot(to, r);
        MoveAt(t, from, to, r);
        assert At(s, r) == At(Move(t, from, to), r);
        assert from + r[|to|..] == q;
        if r in t { AncestorIsDir(t, to, r); }
      }
    }
  }

  lemma {:induction false} UndoRenameStep(t: Tree, id: string, idx: nat, op: Operation, fault: Option<Stage>, s: Tree)
    requires Ready(t, id) && Recoverable(t, op) && op.kind.RenameOp?
    requires Execute(t, id, idx, op, fault).Executed?
    requires UndoableOn(s, Execute(t, id, idx, op, fault).tree, id, idx, Execute(t, id, idx, op, fault).record)
    ensures Restores(UndoRecord(s, Execute(t, id, idx, op, fault).record), t, s)
  {
    RenameEffect(t, id, idx, op, fault);
    var from, to := op.oldPath.path, op.path;
    var e := Execute(t, id, idx, op, fault);
    if to <= from { AncestorIsDir(t, to, from); }
    UndoMove(t, s, from, to);
  }

  lemma {:induction false} UndoMove(t: Tree, s: Tree, from: Path, to: Path)
    requires WellFormed(t) && WellFormed(s) && to !in t && Rename(t, from, to).Ok? && !(to <= from)
    requires !Touches(from) && !Touches(to)
    requires SameOutside(Move(t, from, to), s)
    ensures MkdirAll(s, Parent(from)) == Ok(s)
    ensures Restores(Rename(s, to, from), t, s)
  {
    assert from != to;
    ParentAway(from);
    ParentAway(to);
    var a := Parent(from);
    MoveAt(t, from, to, a);
    MoveAt(t, from, to, from);
    MoveAt(t, from, to, to);
    assert to + from[|from|..] == to && from + to[|to|..] == from;
    assert IsDir(t, a) && !(to <= a) by { assert to <= a ==> to <= from; }
    assert At(s, a) == At(Move(t, from, to), a);
    assert At(s, from) == At(Move(t, from, to), from);
    assert At(s, to) == At(Move(t, from, to), to);
    MkdirAllExisting(s, a);
    forall q ensures At(Move(s, to, from), q) == if InRollbackRoot(q) then At(s, q) else At(t, q) {
      MoveBackAt(t, s, from, to, q);
    }
    MoveKeepsWellFormed(s, to, from);
  }

  // ---- one step, whatever its kind ----

  /** A recoverable step touches the rollback root only by its backup. */
  lemma {:induction false} ExecuteKeepsReady(t: Tree, id: string, idx: nat, op: Operation, fault: Option<Stage>)
    requires Ready(t, id) && Recoverable(t, op)
    requires Execute(t, id, idx, op, fault).Executed?
    ensures Ready(Execute(t, id, idx, op, fault).tree, id)
    ensures SameButBackup(t, Execute(t, id, idx, op, fault).tree, id, idx)
  {
    match op.kind
    case DeleteOp => DeleteKeepsReady(t, id, idx, op, fault);
    case MkdirOp =>
      MkdirEffect(t, id, idx, op, fault);
      MkdirKeepsReady(t, id, op.path);
    case RenameOp =>
      RenameEffect(t, id, idx, op, fault);
      ParentAway(op.path);
      BackupDirFacts(id, idx);
      MoveKeepsInside(t, op.oldPath.path, op.path);
      MoveKeepsWellFormed(t, op.oldPath.path, op.path);
      assert At(t, BackupDir(id)) == At(Move(t, op.oldPath.path, op.path), BackupDir(id));
    case OtherOp(_) =>
    case _ => PutKeepsReady(t, id, idx, op, fault);
  }

  lemma {:induction false} PutKeepsReady(t: Tree, id: string, idx: nat, op: Operation, fault: Option<Stage>)
    requires Ready(t, id) && Recoverable(t, op)
    requires op.kind.WriteOp? || op.kind.CreateOp? || op.kind.AppendOp?
    requires Execute(t, id, idx, op, fault).Executed?
    ensures Ready(Execute(t, id, idx, op, fault).tree, id)
    ensures SameButBackup(t, Execute(t, id, idx, op, fault).tree, id, idx)
  {
    PutEffect(t, id, idx, op, fault);
    BackupDirFacts(id, idx);
    ParentAway(op.path);
    var t1, t2 := WithBackup(t, id, idx, op.path), Execute(t, id, idx, op, fault).tree;
    assert IsDir(t1, Parent(op.path)) && !IsDir(t1, op.path);
    WriteKeepsWellFormed(t1, op.path, t2[op.path].content);
  }

  lemma {:induction false} DeleteKeepsReady(t: Tree, id: string, idx: nat, op: Operation, fault: Option<Stage>)
    requires Ready(t, id) && Recoverable(t, op) && op.kind.DeleteOp?
    requires Execute(t, id, idx, op, fault).Executed?
    ensures Ready(Execute(t, id, idx, op, fault).tree, id)
    ensures SameButBackup(t, Execute(t, id, idx, op, fault).tree, id, idx)
  {
    DeleteEffect(t, id, idx, op, fault);
    var t1 := WithBackup(t, id, idx, op.path);
    BackupDirFacts(id, idx);
    ParentAway(op.path);
    assert !IsDir(t1, op.path);
    RemoveFileKeepsReady(t1, id, op.path);
  }

  lemma {:induction false} RemoveFileKeepsReady(t: Tree, id: string, p: Path)
    requires Ready(t, id) && !Touches(p) && !IsDir(t, p)
    ensures Ready(t - {p}, id) && SameInside(t, t - {p})
  {
    ParentAway(p);
    BackupDirFacts(id, 0);
    RemoveKeepsWellFormed(t, p);
    if p !in t { assert t - {p} == t; }
  }

  lemma {:induction false} MkdirKeepsReady(t: Tree, id: string, p: Path)
    requires Ready(t, id) && !Touches(p) && IsDir(t, Parent(p)) && !IsFile(t, p)
    ensures Ready(t[p := Dir], id) && SameInside(t, t[p := Dir])
  {
    ParentAway(p);
    BackupDirFacts(id, 0);
    forall q | q in t[p := Dir] && q != [] ensures IsDir(t[p := Dir], Parent(q)) {
      assert IsDir(t, Parent(q));
    }
  }

  lemma {:induction false} MoveKeepsInside(t: Tree, from: Path, to: Path)
    requires !Touches(from) && !Touches(to) && !(from <= to)
    ensures SameInside(t, Move(t, from, to))
  {
    forall q | InRollbackRoot(q) ensures At(t, q) == At(Move(t, from, to), q) {
      MoveAt(t, from, to, q);
      assert !(from <= q) by { if from <= q { AwayFromRoot(from, q); } }
      assert !(to <= q) by { if to <= q { AwayFromRoot(to, q); } }
    }
  }

  /** A recoverable step that is refused leaves the tree outside the rollback
      root alone, whichever call failed. */
  lemma {:induction false} RefusedLeavesTree(t: Tree, id: string, idx: nat, op: Operation, fault: Option<Stage>)
    requires Ready(t, id) && Recoverable(t, op)
    requires Execute(t, id, idx, op, fault).Refused?
    ensures Ready(Execute(t, id, idx, op, fault).tree, id)
    ensures SameOutside(t, Execute(t, id, idx, op, fault).tree)
    ensures SameButBackup(t, Execute(t, id, idx, op, fault).tree, id, idx)
  {
    ExecuteBacksUpFirst(t, id, idx, op, fault);
    BackupDirFacts(id, idx);
    ParentAway(op.path);
    var t1 := WithBackup(t, id, idx, op.path);
    if Ready(t1, id) && SameOutside(t, t1) {
      assert At(t1, Parent(op.path)) == At(t, Parent(op.path));
      RefusedMutation(t1, op, FirstRecord(t, id, idx, op), fault);
    }
  }

  lemma {:induction false} RefusedMutation(t: Tree, op: Operation, record: Record, fault: Option<Stage>)
    requires WellFormed(t) && (op.kind.DeleteOp? || IsDir(t, Parent(op.path)))
    ensures Mutate(t, op, record, fault).Refused? ==> Mutate(t, op, record, fault).tree == t
  {
    MkdirAllAt(t, op.path);
    if !op.kind.DeleteOp? { MkdirAllExisting(t, Parent(op.path)); }
  }

  /** A fault that lets the step through does not change what it does. */
  lemma {:induction false} FaultsOnlyStop(t: Tree, id: string, idx: nat, op: Operation, fault: Option<Stage>)
    requires Execute(t, id, idx, op, fault).Executed?
    ensures Execute(t, id, idx, op, fault) == Execute(t, id, idx, op, None)
  {
    var record := Record(op.kind, op.path, None, None, StatPath(t, op.path).Found?, false);
    if IsFile(t, op.path) {
      var copied := CopyFile(t, op.path, BackupPath(id, idx)).tree;
      MutationFaultsOnlyStop(copied, op, record.(backup := Some(BackupPath(id, idx))), fault);
    } else {
      MutationFaultsOnlyStop(t, op, record, fault);
    }
  }

  lemma {:induction false} MutationFaultsOnlyStop(t: Tree, op: Operation, record: Record, fault: Option<Stage>)
    ensures Mutate(t, op, record, fault).Executed? ==> Mutate(t, op, record, fault) == Mutate(t, op, record, None)
  {
    match op.kind
    case DeleteOp =>
    case MkdirOp =>
    case RenameOp => RelocationFaultsOnlyStop(t, op, record, fault);
    case OtherOp(_) =>
    case _ => PutFaultsOnlyStop(t, op, record, fault);
  }

  lemma {:induction false} RelocationFaultsOnlyStop(t: Tree, op: Operation, record: Record, fault: Option<Stage>)
    ensures Relocate(t, op, record, fault).Executed? ==> Relocate(t, op, record, fault) == Relocate(t, op, record, None)
  {}

  lemma {:induction false} PutFaultsOnlyStop(t: Tree, op: Operation, record: Record, fault: Option<Stage>)
    ensures Put(t, op, record, fault).Executed? ==> Put(t, op, record, fault) == Put(t, op, record, None)
  {}

  /** Undoing the record of a recoverable step restores the tree before it,
      on any tree that agrees with the one the step left. */
  lemma {:induction false} UndoStep(t: Tree, id: string, idx: nat, op: Operation, s: Tree)
    requires Ready(t, id) && Recoverable(t, op)
    requires Execute(t, id, idx, op, None).Executed?
    requires UndoableOn(s, Execute(t, id, idx, op, None).tree, id, idx, Execute(t, id, idx, op, None).record)
    ensures Restores(UndoRecord(s, Execute(t, id, idx, op, None).record), t, s)
  {
    match op.kind
    case DeleteOp => UndoDeleteStep(t, id, idx, op, None, s);
    case MkdirOp => UndoMkdirStep(t, id, idx, op, None, s);
    case RenameOp => UndoRenameStep(t, id, idx, op, None, s);
    case OtherOp(_) =>
    case _ => UndoPutStep(t, id, idx, op, None, s);
  }

  // ---- whole runs ----

  datatype Run = Run(tree: Tree, log: seq<Record>, ok: bool)

  /** Operations executed in order from t, stopping at the first refusal. */
  function ExecuteAll(t: Tree, id: string, ops: seq<Operation>): Run
    decreases |ops|
  {
    if ops == [] then Run(t, [], true)
    else
      var k := |ops| - 1;
      var before := ExecuteAll(t, id, ops[..k]);
      if !before.ok then before
      else
        match Execute(before.tree, id, k, ops[k], None)
        case Executed(t1, record) => Run(t1, before.log + [record], true)
        case Refused(t1, _) => Run(t1, before.log, false)
  }

  /** Every step of the run is recoverable in the tree it starts from. */
  ghost predicate AllRecoverable(t: Tree, id: string, ops: seq<Operation>)
    decreases |ops|
  {
    ops == [] ||
    var k := |ops| - 1;
    && AllRecoverable(t, id, ops[..k])
    && (ExecuteAll(t, id, ops[..k]).ok ==> Recoverable(ExecuteAll(t, id, ops[..k]).tree, ops[k]))
  }

  ghost predicate BackupsKept(log: seq<Record>, id: string, t: Tree, s: Tree) {
    forall k :: 0 <= k < |log| && log[k].backup.Some? ==> At(s, BackupPath(id, k)) == At(t, BackupPath(id, k))
  }

  lemma {:induction false} ExecuteAllReady(t: Tree, id: string, ops: seq<Operation>)
    requires Ready(t, id) && AllRecoverable(t, id, ops) && ExecuteAll(t, id, ops).ok
    ensures Ready(ExecuteAll(t, id, ops).tree, id)
    ensures |ExecuteAll(t, id, ops).log| == |ops|
    decreases |ops|
  {
    if ops != [] {
      var k := |ops| - 1;
      ExecuteAllReady(t, id, ops[..k]);
      ExecuteKeepsReady(ExecuteAll(t, id, ops[..k]).tree, id, k, ops[k], None);
    }
  }

  /** Undoing the log of a run restores the tree it started from, on any tree
      that agrees outside the rollback root and still has the backups. */
  lemma {:induction false} UndoAllRestores(t: Tree, id: string, ops: seq<Operation>, s: Tree)
    requires Ready(t, id) && AllRecoverable(t, id, ops) && ExecuteAll(t, id, ops).ok
    requires WellFormed(s) && SameOutside(ExecuteAll(t, id, ops).tree, s)
    requires BackupsKept(ExecuteAll(t, id, ops).log, id, ExecuteAll(t, id, ops).tree, s)
    ensures Restores(UndoAll(s, ExecuteAll(t, id, ops).log), t, s)
    decreases |ops|
  {
    if ops != [] {
      var k := |ops| - 1;
      var before, after := ExecuteAll(t, id, ops[..k]), ExecuteAll(t, id, ops);
      ExecuteAllReady(t, id, ops[..k]);
      ExecuteAllReady(t, id, ops);
      assert after.log[k].backup.Some? ==> after.log[k] == after.log[|ops| - 1];
      UndoStep(before.tree, id, k, ops[k], s);
      var s1 := UndoRecord(s, after.log[k]).tree;
      assert after.log[..k] == before.log;
      ExecuteKeepsReady(before.tree, id, k, ops[k], None);
      forall i | 0 <= i < k && before.log[i].backup.Some?
        ensures At(s1, BackupPath(id, i)) == At(before.tree, BackupPath(id, i))
      {
        assert after.log[i] == before.log[i];
        EarlierBackup(id, i, k);
      }
      UndoAllRestores(t, id, ops[..k], s1);
    }
  }

  lemma {:induction false} EarlierBackup(id: string, i: nat, k: nat)
    requires i != k
    ensures BackupPath(id, i) != BackupPath(id, k) && InRollbackRoot(BackupPath(id, i))
  {
    BackupDirFacts(id, i);
    if BackupPath(id, i) == BackupPath(id, k) {
      assert BackupPath(id, i)[3] == BackupPath(id, k)[3];
      BackupNamesDistinct(i, k);
    }
  }

  // ---- what an operation does to the project ----

  /** The project tree an operation asks for, path by path. */
  function Wanted(t: Tree, op: Operation, q: Path): Option<Node>
    requires op.kind.RenameOp? ==> op.oldPath.Inside?
  {
    var p := op.path;
    match op.kind
    case WriteOp => if q == p then Some(File(ContentOf(op))) else if q <= p then Some(Dir) else At(t, q)
    case CreateOp => if q == p then Some(File(ContentOf(op))) else if q <= p then Some(Dir) else At(t, q)
    case AppendOp =>
      if q == p then Some(File((if IsFile(t, p) then t[p].content else "") + ContentOf(op)))
      else if q <= p then Some(Dir) else At(t, q)
    case DeleteOp => if q == p then None else At(t, q)
    case RenameOp =>
      var from := op.oldPath.path;
      if p <= q then At(t, from + q[|p|..]) else if from <= q then None else if q <= p then Some(Dir) else At(t, q)
    case MkdirOp => if q <= p then Some(Dir) else At(t, q)
    case OtherOp(_) => At(t, q)
  }

  function ContentOf(op: Operation): string {
    if op.content.Some? then op.content.value else ""
  }

  /** An operation that goes through does exactly what was asked, outside the
      rollback root, also when it had to make the target's directories. */
  lemma {:induction false} ExecuteDoesWanted(t: Tree, id: string, idx: nat, op: Operation, fault: Option<Stage>, q: Path)
    requires Ready(t, id) && KeepsAway(op) && !InRollbackRoot(q)
    requires Execute(t, id, idx, op, fault).Executed?
    ensures op.kind.RenameOp? ==> op.oldPath.Inside?
    ensures At(Execute(t, id, idx, op, fault).tree, q) == Wanted(t, op, q)
  {
    ExecuteBacksUpFirst(t, id, idx, op, fault);
    ParentAway(op.path);
    var t1 := WithBackup(t, id, idx, op.path);
    assert At(t1, q) == At(t, q) && At(t1, op.path) == At(t, op.path);
    match op.kind
    case DeleteOp =>
    case MkdirOp => MkdirAllAt(t1, op.path);
    case RenameOp => RelocateDoesWanted(t, t1, op, FirstRecord(t, id, idx, op), fault, q);
    case OtherOp(_) =>
    case _ => PutDoesWanted(t, t1, op, FirstRecord(t, id, idx, op), fault, q);
  }

  // ---- when an operation goes through ----

  /** Nothing of the tree stands in the operation's way. */
  predicate Doable(t: Tree, op: Operation) {
    var p := op.path;
    && !HasFileAbove(t, p)
    && match op.kind
       case WriteOp => op.content.Some? && !IsDir(t, p)
       case CreateOp => op.content.Some? && !IsDir(t, p)
       case AppendOp => op.content.Some? && !IsDir(t, p)
       case DeleteOp => IsDir(t, p) ==> forall q :: q in t && p <= q ==> q == p
       case RenameOp => op.oldPath.Inside? && op.oldPath.path in t && p !in t && !(op.oldPath.path <= p)
       case MkdirOp => !IsFile(t, p)
       case OtherOp(_) => false
  }

  /** The operation comes to the call that fails. */
  predicate Comes(t: Tree, op: Operation, fault: Stage) {
    match fault
    case AtStat => true
    case AtBackup => IsFile(t, op.path)
    case AtParents => op.kind.WriteOp? || op.kind.CreateOp? || op.kind.AppendOp? || op.kind.RenameOp?
    case AtMutation => true
  }

  /** An operation takes effect exactly when nothing stands in its way, its backup
      can be written and none of the calls that it comes to fails. */
  lemma {:induction false} ExecutedExactly(t: Tree, id: string, idx: nat, op: Operation, fault: Option<Stage>)
    requires Ready(t, id) && KeepsAway(op)
    ensures Execute(t, id, idx, op, fault).Executed?
      <==> Doable(t, op) && (IsFile(t, op.path) ==> !IsDir(t, BackupPath(id, idx))) && (fault.Some? ==> !Comes(t, op, fault.value))
  {
    BackupDirFacts(id, idx);
    MkdirAllExisting(t, BackupDir(id));
    NothingAbove(t, op.path);
    var record := FirstRecord(t, id, idx, op);
    if IsFile(t, op.path) {
      if !IsDir(t, BackupPath(id, idx)) {
        var t1 := t[BackupPath(id, idx) := t[op.path]];
        WriteKeepsWellFormed(t, BackupPath(id, idx), t[op.path].content);
        assert CopyFile(t, op.path, BackupPath(id, idx)) == Ok(t1);
        BackupKeepsAway(t, t1, BackupPath(id, idx), op);
        if fault != Some(AtStat) && fault != Some(AtBackup) { MutatedExactly(t1, op, record, fault); }
      }
    } else if fault != Some(AtStat) && (op.path in t || !HasFileAbove(t, op.path)) {
      MutatedExactly(t, op, record, fault);
    }
  }

  /** What lies in the tree has only directories above it. */
  lemma {:induction false} NothingAbove(t: Tree, p: Path)
    requires WellFormed(t)
    ensures p in t ==> !HasFileAbove(t, p)
  {
    if p in t {
      forall k | 0 <= k < |p| ensures !IsFile(t, p[..k]) { PrefixesAreDirs(t, p, k); }
    }
  }

  lemma {:induction false} BackupKeepsAway(t: Tree, t1: Tree, backup: Path, op: Operation)
    requires InRollbackRoot(backup) && KeepsAway(op) && WellFormed(t) && WellFormed(t1) && IsFile(t, op.path)
    requires !IsDir(t, backup) && t1 == t[backup := t[op.path]]
    ensures Doable(t1, op) <==> Doable(t, op)
    ensures IsFile(t1, op.path)
  {
    NothingAbove(t, op.path);
    NothingAbove(t1, op.path);
    if op.oldPath.Inside? { assert op.oldPath.path != backup; }
  }

  /** A mutation goes through exactly when nothing stops it. */
  ghost predicate ThroughExactly(t: Tree, op: Operation, record: Record, fault: Option<Stage>) {
    Mutate(t, op, record, fault).Executed? <==> Doable(t, op) && (fault.Some? ==> !Comes(t, op, fault.value))
  }

  lemma {:induction false} MutatedExactly(t: Tree, op: Operation, record: Record, fault: Option<Stage>)
    requires WellFormed(t) && op.path != [] && fault != Some(AtStat) && (fault == Some(AtBackup) ==> !IsFile(t, op.path))
    requires op.path in t || !HasFileAbove(t, op.path)
    ensures ThroughExactly(t, op, record, fault)
  {
    NothingAbove(t, op.path);
    match op.kind {
      case DeleteOp => DeletedExactly(t, op, record, fault);
      case MkdirOp => MadeExactly(t, op, record, fault);
      case RenameOp => RenamedExactly(t, op, record, fault);
      case OtherOp(_) =>
      case _ => WrittenExactly(t, op, record, fault);
    }
  }

  lemma {:induction false} DeletedExactly(t: Tree, op: Operation, record: Record, fault: Option<Stage>)
    requires WellFormed(t) && op.path != [] && op.kind.DeleteOp? && !HasFileAbove(t, op.path)
    requires fault != Some(AtStat) && (fault == Some(AtBackup) ==> !IsFile(t, op.path))
    ensures ThroughExactly(t, op, record, fault)
  {
    RemovedExactly(t, op.path);
  }

  lemma {:induction false} MadeExactly(t: Tree, op: Operation, record: Record, fault: Option<Stage>)
    requires WellFormed(t) && op.path != [] && op.kind.MkdirOp? && !HasFileAbove(t, op.path)
    requires fault != Some(AtStat) && (fault == Some(AtBackup) ==> !IsFile(t, op.path))
    ensures ThroughExactly(t, op, record, fault)
  {
    DirectoryMade(t, op.path);
  }

  lemma {:induction false} RenamedExactly(t: Tree, op: Operation, record: Record, fault: Option<Stage>)
    requires WellFormed(t) && op.path != [] && op.kind.RenameOp? && !HasFileAbove(t, op.path)
    requires fault != Some(AtStat) && (fault == Some(AtBackup) ==> !IsFile(t, op.path))
    ensures ThroughExactly(t, op, record, fault)
  {
    RelocatedExactly(t, op, record, fault);
  }

  lemma {:induction false} WrittenExactly(t: Tree, op: Operation, record: Record, fault: Option<Stage>)
    requires WellFormed(t) && op.path != [] && (op.kind.WriteOp? || op.kind.CreateOp? || op.kind.AppendOp?) && !HasFileAbove(t, op.path)
    requires fault != Some(AtStat) && (fault == Some(AtBackup) ==> !IsFile(t, op.path))
    ensures ThroughExactly(t, op, record, fault)
  {
    PutExactly(t, op, record, fault);
  }

  lemma {:induction false} RemovedExactly(t: Tree, p: Path)
    requires WellFormed(t) && p != [] && !HasFileAbove(t, p)
    ensures Remove(t, p).Ok? || Remove(t, p).error == NotExist <==> (IsDir(t, p) ==> forall q :: q in t && p <= q ==> q == p)
  {
    if IsDir(t, p) {
      if HasChild(t, p) {
        var q :| q in t && q != [] && q != p && Parent(q) == p;
        assert p <= q;
      } else {
        forall q | q in t && p <= q ensures q == p { if q != p { ChildOnTheWay(t, p, q); } }
      }
    }
  }

  lemma {:induction false} ChildOnTheWay(t: Tree, p: Path, q: Path)
    requires WellFormed(t) && q in t && p <= q && p != q
    ensures HasChild(t, p)
  {
    var c := q[..|p| + 1];
    if c != q { AncestorIsDir(t, c, q); }
    assert Parent(c) == p && c in t;
  }

  lemma {:induction false} DirectoryMade(t: Tree, p: Path)
    requires WellFormed(t) && !HasFileAbove(t, p)
    ensures MkdirAll(t, p).Ok? <==> !IsFile(t, p)
  {
    MkdirAllAt(t, p);
    assert p[..|p|] == p;
  }

  lemma {:induction false} ParentMade(t: Tree, p: Path)
    requires WellFormed(t) && p != [] && !HasFileAbove(t, p)
    ensures MkdirAll(t, Parent(p)).Ok? && IsDir(MkdirAll(t, Parent(p)).tree, Parent(p))
    ensures At(MkdirAll(t, Parent(p)).tree, p) == At(t, p)
  {
    MkdirAllAt(t, Parent(p));
    forall k | 0 <= k <= |Parent(p)| ensures !IsFile(t, Parent(p)[..k]) { assert Parent(p)[..k] == p[..k]; }
  }

  lemma {:induction false} PutExactly(t: Tree, op: Operation, record: Record, fault: Option<Stage>)
    requires WellFormed(t) && op.path != [] && !HasFileAbove(t, op.path)
    requires op.kind.WriteOp? || op.kind.CreateOp? || op.kind.AppendOp?
    ensures Put(t, op, record, fault).Executed?
      <==> op.content.Some? && !IsDir(t, op.path) && fault != Some(AtParents) && fault != Some(AtMutation)
  {
    ParentMade(t, op.path);
  }

  lemma {:induction false} RelocatedExactly(t: Tree, op: Operation, record: Record, fault: Option<Stage>)
    requires WellFormed(t) && op.path != [] && !HasFileAbove(t, op.path) && op.kind.RenameOp?
    ensures Relocate(t, op, record, fault).Executed?
      <==> op.oldPath.Inside? && op.oldPath.path in t && op.path !in t && !(op.oldPath.path <= op.path)
           && fault != Some(AtParents) && fault != Some(AtMutation)
  {
    ParentMade(t, op.path);
    MkdirAllAt(t, Parent(op.path));
    if op.oldPath.Inside? {
      var t1, from := MkdirAll(t, Parent(op.path)).tree, op.oldPath.path;
      assert At(t1, from) == if from <= Parent(op.path) then Some(Dir) else At(t, from);
    }
  }

  /** An operation that keeps away from the rollback root leaves the backup directory. */
  lemma {:induction false} StaysReady(t: Tree, id: string, idx: nat, op: Operation)
    requires Ready(t, id) && KeepsAway(op) && Execute(t, id, idx, op, None).Executed?
    ensures Ready(Execute(t, id, idx, op, None).tree, id)
  {
    ExecuteKeepsWellFormed(t, id, idx, op, None);
    ExecuteBacksUpFirst(t, id, idx, op, None);
    BackupDirFacts(id, idx);
    ParentAway(op.path);
    var t1, dir := WithBackup(t, id, idx, op.path), BackupDir(id);
    match op.kind {
      case DeleteOp =>
      case MkdirOp => MkdirAllAt(t1, op.path);
      case RenameOp =>
        RelocateMoves(t1, op, FirstRecord(t, id, idx, op), None);
        AwayFromDir(op.path, dir);
        AwayFromDir(op.oldPath.path, dir);
        MoveAfterMkdir(t1, op.oldPath.path, op.path, dir);
      case OtherOp(_) =>
      case _ => MkdirAllAt(t1, Parent(op.path));
    }
  }

  lemma {:induction false} AwayFromDir(p: Path, dir: Path)
    requires !Touches(p) && InRollbackRoot(dir)
    ensures !(p <= dir) && !(dir <= p)
  {
    if p <= dir { AwayFromRoot(p, dir); }
    assert dir <= p ==> ROLLBACK_ROOT <= p;
  }

  lemma {:induction false} RunStaysReady(t: Tree, id: string, ops: seq<Operation>)
    requires Ready(t, id) && (forall i :: 0 <= i < |ops| ==> KeepsAway(ops[i])) && ExecuteAll(t, id, ops).ok
    ensures Ready(ExecuteAll(t, id, ops).tree, id)
    decreases |ops|
  {
    if ops != [] {
      var k := |ops| - 1;
      RunStaysReady(t, id, ops[..k]);
      StaysReady(ExecuteAll(t, id, ops[..k]).tree, id, k, ops[k]);
    }
  }

  /** A run that goes through: from each operation to the next the project is
      what the operation asks for. */
  lemma {:induction false} RunDoesWanted(t: Tree, id: string, ops: seq<Operation>, k: nat, q: Path)
    requires Ready(t, id) && k < |ops| && !InRollbackRoot(q) && (forall i :: 0 <= i < |ops| ==> KeepsAway(ops[i]))
    requires ExecuteAll(t, id, ops[..k + 1]).ok
    ensures ExecuteAll(t, id, ops[..0]).tree == t && ExecuteAll(t, id, ops[..k]).ok
    ensures ops[k].kind.RenameOp? ==> ops[k].oldPath.Inside?
    ensures At(ExecuteAll(t, id, ops[..k + 1]).tree, q) == Wanted(ExecuteAll(t, id, ops[..k]).tree, ops[k], q)
  {
    assert ops[..k + 1][..k] == ops[..k];
    RunStaysReady(t, id, ops[..k]);
    ExecuteDoesWanted(ExecuteAll(t, id, ops[..k]).tree, id, k, ops[k], None, q);
  }

  lemma {:induction false} StrictPrefix(q: Path, p: Path)
    requires p != []
    ensures q <= p <==> q == p || q <= Parent(p)
  {
    assert p == Parent(p) + [p[|p| - 1]];
    if q <= p && q != p { assert q == p[..|q|] == Parent(p)[..|q|]; }
    if q <= Parent(p) { assert q == Parent(p)[..|q|] == p[..|q|]; }
  }

  lemma {:induction false} PutDoesWanted(t: Tree, t1: Tree, op: Operation, record: Record, fault: Option<Stage>, q: Path)
    requires WellFormed(t1) && op.path != [] && At(t1, q) == At(t, q) && At(t1, op.path) == At(t, op.path)
    requires op.kind.WriteOp? || op.kind.CreateOp? || op.kind.AppendOp?
    requires Put(t1, op, record, fault).Executed?
    ensures At(Put(t1, op, record, fault).tree, q) == Wanted(t, op, q)
  {
    AfterMkdir(t1, op.path, q);
    AfterMkdir(t1, op.path, op.path);
    var t2 := MkdirAll(t1, Parent(op.path)).tree;
    var p := op.path;
    assert IsFile(t2, p) == IsFile(t, p);
    if IsFile(t, p) { assert t2[p] == At(t2, p).value == At(t, p).value == t[p]; }
    var content := if op.kind.AppendOp? && IsFile(t, p) then t[p].content + op.content.value else op.content.value;
    assert Put(t1, op, record, fault).tree == t2[p := File(content)];
    if q == p && op.kind.AppendOp? && !IsFile(t, p) { assert "" + op.content.value == op.content.value; }
  }

  lemma {:induction false} RelocateMoves(t: Tree, op: Operation, record: Record, fault: Option<Stage>)
    requires op.kind.RenameOp? && Relocate(t, op, record, fault).Executed?
    ensures op.oldPath.Inside? && op.oldPath.path in t && op.path !in t
    ensures MkdirAll(t, Parent(op.path)).Ok?
    ensures !(op.oldPath.path <= op.path)
    ensures Relocate(t, op, record, fault) ==
      Executed(Move(MkdirAll(t, Parent(op.path)).tree, op.oldPath.path, op.path), record.(oldPath := Some(op.oldPath.path)))
  {}

  lemma {:induction false} RelocateDoesWanted(t: Tree, t1: Tree, op: Operation, record: Record, fault: Option<Stage>, q: Path)
    requires WellFormed(t1) && KeepsAway(op) && SameOutside(t, t1) && !InRollbackRoot(q)
    requires op.kind.RenameOp? && Relocate(t1, op, record, fault).Executed?
    ensures op.oldPath.Inside?
    ensures At(Relocate(t1, op, record, fault).tree, q) == Wanted(t, op, q)
  {
    RelocateMoves(t1, op, record, fault);
    ParentAway(op.path);
    if op.path <= q { AwayFromRoot(op.oldPath.path, op.oldPath.path + q[|op.path|..]); }
    WantedAfterMove(t, t1, op, q);
  }

  lemma {:induction false} WantedAfterMove(t: Tree, t1: Tree, op: Operation, q: Path)
    requires WellFormed(t1) && op.kind.RenameOp? && op.oldPath.Inside? && op.path != [] && op.path !in t1
    requires !(op.oldPath.path <= op.path) && MkdirAll(t1, Parent(op.path)).Ok?
    requires At(t1, q) == At(t, q)
    requires op.path <= q ==> At(t1, op.oldPath.path + q[|op.path|..]) == At(t, op.oldPath.path + q[|op.path|..])
    ensures At(Move(MkdirAll(t1, Parent(op.path)).tree, op.oldPath.path, op.path), q) == Wanted(t, op, q)
  {
    MoveAfterMkdir(t1, op.oldPath.path, op.path, q);
  }

  /** Lookup after making the destination's directory and moving. */
  lemma {:induction false} MoveAfterMkdir(t: Tree, from: Path, to: Path, q: Path)
    requires WellFormed(t) && MkdirAll(t, Parent(to)).Ok? && !(from <= to) && to != [] && to !in t
    ensures At(Move(MkdirAll(t, Parent(to)).tree, from, to), q) ==
      if to <= q then At(t, from + q[|to|..]) else if from <= q then None else if q <= to then Some(Dir) else At(t, q)
  {
    var t2 := MkdirAll(t, Parent(to)).tree;
    MoveAt(t2, from, to, q);
    AfterMkdir(t, to, q);
    if to <= q {
      var r := from + q[|to|..];
      AfterMkdir(t, to, r);
      assert r <= to ==> from <= to;
      if q in t { AncestorIsDir(t, to, q); }
    }
  }

  lemma {:induction false} AfterMkdir(t: Tree, to: Path, q: Path)
    requires WellFormed(t) && MkdirAll(t, Parent(to)).Ok? && to != []
    ensures At(MkdirAll(t, Parent(to)).tree, q) == if q <= to && q != to then Some(Dir) else At(t, q)
  {
    MkdirAllAt(t, Parent(to));
    StrictPrefix(q, to);
    if to <= Parent(to) { assert |to| <= |Parent(to)|; }
  }

  // ---- exactly when one step can be undone ----

  /** For a step away from the rollback root that took effect: undoing it at
      once restores the tree exactly when it was recoverable. */
  lemma {:induction false} UndoneExactlyWhenRecoverable(t: Tree, id: string, idx: nat, op: Operation)
    requires Ready(t, id) && KeepsAway(op) && Execute(t, id, idx, op, None).Executed?
    ensures
      var done := Execute(t, id, idx, op, None);
      Restores(UndoRecord(done.tree, done.record), t, done.tree) <==> Recoverable(t, op)
  {
    var done := Execute(t, id, idx, op, None);
    if Recoverable(t, op) {
      ExecuteKeepsReady(t, id, idx, op, None);
      UndoStep(t, id, idx, op, done.tree);
    } else if op.kind.DeleteOp? {
      DirectoryStaysDeleted(t, id, idx, op);
    } else {
      MadeParentStays(t, id, idx, op);
    }
  }

  lemma {:induction false} DirectoryStaysDeleted(t: Tree, id: string, idx: nat, op: Operation)
    requires Ready(t, id) && KeepsAway(op) && op.kind.DeleteOp? && IsDir(t, op.path)
    requires Execute(t, id, idx, op, None).Executed?
    ensures
      var done := Execute(t, id, idx, op, None);
      !Restores(UndoRecord(done.tree, done.record), t, done.tree)
  {
    var done := Execute(t, id, idx, op, None);
    ExecuteDoesWanted(t, id, idx, op, None, op.path);
    ParentAway(op.path);
    assert UndoRecord(done.tree, done.record) == Ok(done.tree);
    assert At(t, op.path) != At(done.tree, op.path);
  }

  /** A directory made on the way to the target is not in the record, so no
      undo removes it. */
  lemma {:induction false} MadeParentStays(t: Tree, id: string, idx: nat, op: Operation)
    requires Ready(t, id) && KeepsAway(op) && !op.kind.DeleteOp? && !IsDir(t, Parent(op.path))
    requires Execute(t, id, idx, op, None).Executed?
    ensures
      var done := Execute(t, id, idx, op, None);
      !Restores(UndoRecord(done.tree, done.record), t, done.tree)
  {
    var done := Execute(t, id, idx, op, None);
    var a := Parent(op.path);
    ParentAway(op.path);
    ExecuteDoesWanted(t, id, idx, op, None, a);
    ExecuteKeepsWellFormed(t, id, idx, op, None);
    StrictPrefix(a, op.path);
    RecordKind(t, id, idx, op);
    UndoKeepsDirectory(done.tree, done.record, a);
    assert At(t, a) != Some(Dir);
  }

  lemma {:induction false} RecordKind(t: Tree, id: string, idx: nat, op: Operation)
    requires Ready(t, id) && KeepsAway(op) && !op.kind.DeleteOp? && !IsDir(t, Parent(op.path))
    requires Execute(t, id, idx, op, None).Executed?
    ensures
      var done := Execute(t, id, idx, op, None);
      && done.record.kind == op.kind && done.record.path == op.path && done.record.backup.None?
      && (op.kind.RenameOp? ==> done.record.oldPath.Some? && !(done.record.oldPath.value <= op.path))
      && At(done.tree, Parent(op.path)) == Some(Dir)
  {
    var a := Parent(op.path);
    ParentAway(op.path);
    assert op.path !in t;
    ExecuteBacksUpFirst(t, id, idx, op, None);
    ExecuteDoesWanted(t, id, idx, op, None, a);
    StrictPrefix(a, op.path);
    if op.kind.RenameOp? { RelocateMoves(t, op, FirstRecord(t, id, idx, op), None); }
  }

  lemma {:induction false} UndoKeepsDirectory(s: Tree, r: Record, a: Path)
    requires WellFormed(s) && IsDir(s, a) && a == Parent(r.path) && r.path != [] && r.backup.None?
    requires r.kind.RenameOp? ==> r.oldPath.Some? && !(r.oldPath.value <= r.path)
    ensures UndoRecord(s, r).Ok? ==> IsDir(UndoRecord(s, r).tree, a)
  {
    if r.kind.RenameOp? && UndoRecord(s, r).Ok? {
      var to, from := r.path, r.oldPath.value;
      MkdirAllAt(s, Parent(from));
      var s1 := MkdirAll(s, Parent(from)).tree;
      assert At(s1, a) == Some(Dir);
      assert from <= a ==> from <= to;
      MoveAt(s1, to, from, a);
    }
  }

  // ---- a run that cannot be rolled back ----

  lemma {:induction false} DeleteFileStep(t: Tree, id: string, idx: nat, p: Path)
    requires Ready(t, id) && !Touches(p) && IsFile(t, p) && !IsDir(t, BackupPath(id, idx))
    ensures
      var b := BackupPath(id, idx);
      Execute(t, id, idx, Operation(DeleteOp, p, p, NoOldPath, None, ""), None)
        == Executed(t[b := t[p]] - {p}, Record(DeleteOp, p, None, Some(b), true, false))
  {
    BackupDirFacts(id, idx);
    ParentAway(p);
    CopyBackup(t, id, idx, p);
  }

  lemma {:induction false} CopyBackup(t: Tree, id: string, idx: nat, p: Path)
    requires Ready(t, id) && IsFile(t, p) && !IsDir(t, BackupPath(id, idx))
    ensures CopyFile(t, p, BackupPath(id, idx)) == Ok(t[BackupPath(id, idx) := t[p]])
  {
    BackupDirFacts(id, idx);
    MkdirAllExisting(t, BackupDir(id));
  }

  lemma {:induction false} WriteBelowMissing(t: Tree, id: string, idx: nat, p: Path, name: string, content: string)
    requires WellFormed(t) && p != [] && p !in t && IsDir(t, Parent(p))
    ensures
      var q := p + [name];
      Execute(t, id, idx, Operation(WriteOp, q, q, NoOldPath, Some(content), ""), None)
        == Executed(t[p := Dir][q := File(content)], Record(WriteOp, q, None, None, false, true))
  {
    var q := p + [name];
    assert Parent(q) == p;
    assert q !in t;
    forall k | 0 <= k < |q| ensures !IsFile(t, q[..k]) {
      if k < |p| {
        assert q[..k] == p[..k];
        if k == |p| - 1 { assert p[..k] == Parent(p); }
        else {
          PrefixesAreDirs(t, Parent(p), k);
          assert Parent(p)[..k] == p[..k];
        }
      } else {
        assert q[..k] == p;
      }
    }
    assert MkdirAll(t, p) == Ok(t[p := Dir]) by { MkdirAllExisting(t, Parent(p)); }
  }

  /** Why the target's directory has to be there already: a write below a path
      where an earlier step deleted a file makes a directory of that name.
      Every step succeeds and no delete hits a directory, yet the rollback
      fails, as the file cannot be put back over the directory. */
  lemma {:induction false} MissingDirectoryBreaksRollback(t: Tree, id: string, p: Path, name: string, content: string)
    requires Ready(t, id) && !Touches(p) && IsFile(t, p) && !IsDir(t, BackupPath(id, 0))
    ensures
      var ops := [Operation(DeleteOp, p, p, NoOldPath, None, ""), Operation(WriteOp, p + [name], p + [name], NoOldPath, Some(content), "")];
      var run := ExecuteAll(t, id, ops);
      run.ok && UndoAll(run.tree, run.log).Fail?
  {
    var ops := [Operation(DeleteOp, p, p, NoOldPath, None, ""), Operation(WriteOp, p + [name], p + [name], NoOldPath, Some(content), "")];
    var b, q := BackupPath(id, 0), p + [name];
    BackupDirFacts(id, 0);
    ParentAway(p);
    AwayFromRoot(p, q);
    DeleteFileStep(t, id, 0, p);
    var t1 := t[b := t[p]] - {p};
    var deleted := Record(DeleteOp, p, None, Some(b), true, false);
    assert ops[..1][..0] == [] && ops[..1][0] == ops[0];
    assert ExecuteAll(t, id, ops[..1]) == Run(t1, [deleted], true);
    WriteKeepsWellFormed(t, b, t[p].content);
    RemoveKeepsWellFormed(t[b := t[p]], p);
    WriteBelowMissing(t1, id, 1, p, name, content);
    var t2 := t1[p := Dir][q := File(content)];
    var written := Record(WriteOp, q, None, None, false, true);
    assert ExecuteAll(t, id, ops) == Run(t2, [deleted] + [written], true);
    FileNotPutBack(t2, deleted, written);
  }

  lemma {:induction false} FileNotPutBack(t: Tree, deleted: Record, written: Record)
    requires deleted.kind.DeleteOp? && deleted.backup.Some? && IsDir(t, deleted.path) && IsDir(t, Parent(deleted.path))
    requires written.kind.WriteOp? && written.created && !written.existed && written.path != deleted.path
    requires written.path != Parent(deleted.path) && IsFile(t, written.path) && written.path != []
    ensures UndoAll(t, [deleted] + [written]).Fail?
  {
    var log := [deleted] + [written];
    assert log[..1] == [deleted] && log[..1][..0] == [];
    var t1 := t - {written.path};
    assert UndoRecord(t, written) == Ok(t1);
    MkdirAllExisting(t1, Parent(deleted.path));
    assert UndoRecord(t1, deleted).Fail?;
  }
}
