/** The patch.apply and patch.rollback handlers over one project directory. */
module PatchBridge {
  import opened Options
  import opened FileTree
  import opened PatchTransaction
  import opened PatchRollback
  import opened PatchRun
  import opened JournalModel
  import J = Journal
  import T = Text

  class PatchBridge {
    var tree: Tree
    /** manifest.json of each change set's backup directory. */
    var manifests: map<string, seq<Record>>
    const journal: J.Journal
    const world: World
    /** How many operations the current run has executed, and every state of the
        three counts that it has gone through. */
    ghost var executed: nat
    ghost var progress: seq<Progress>

    ghost predicate Valid()
      reads this, journal, journal.repr
    {
      WellFormed(tree) && journal.Valid()
    }

    constructor (tree: Tree, manifests: map<string, seq<Record>>, journal: J.Journal, world: World)
      requires WellFormed(tree) && journal.Valid()
      ensures Valid() && this.tree == tree && this.manifests == manifests && this.journal == journal && this.world == world
    {
      this.tree, this.manifests, this.journal, this.world := tree, manifests, journal, world;
      executed, progress := 0, [];
    }

    /** Records the hash of the file at a place, if there is one, ignoring failures. */
    method RecordImage(id: string, place: Place, preimage: bool, fault: Option<PersistStep>)
      requires journal.Valid() && UsableID(id) && id in journal.model
      modifies journal`disk, journal`history, journal`model, journal.repr
      ensures journal.Valid()
      ensures journal.model == old(journal.model)[id := ImageTaken(old(journal.model)[id], tree, world, place, preimage)]
    {
      var content := FileAt(tree, world, place.at);
      ImageTakenCases(journal.model, id, tree, world, place, preimage);
      if content.Some? {
        UsableNotBlank(id);
        var _ := journal.SetImage(id, place.key, world.digest(content.value), preimage, fault);
      }
    }

    method RecordImages(id: string, op: Operation, preimage: bool, fault: Option<PersistStep>)
      requires journal.Valid() && UsableID(id) && id in journal.model
      modifies journal`disk, journal`history, journal`model, journal.repr
      ensures journal.Valid()
      ensures journal.model == old(journal.model)[id := ImagesTaken(old(journal.model)[id], tree, world, op, preimage)]
    {
      ghost var m := journal.model;
      var places := Imaged(world.project, op);
      RecordImage(id, places[0], preimage, fault);
      if |places| > 1 {
        ghost var once := journal.model[id];
        RecordImage(id, places[1], preimage, fault);
        PutTwice(m, id, once, ImageTaken(once, tree, world, places[1], preimage));
      }
    }

    /** The entry of change set `id` is in the journal with `count` operations. */
    ghost predicate Entered(id: string, count: nat)
      reads journal
    {
      id in journal.model && |journal.model[id].operations| == count
    }

    /** The records in the manifest on disk, if there is one. */
    function OnDisk(id: string): seq<Record>
      reads `manifests
    {
      if id in manifests then manifests[id] else []
    }

    /** The three counts as they are: operations executed, in the manifest on
        disk, and in the journal. */
    ghost function Counts(id: string): Progress
      reads `executed, `manifests, journal
    {
      Progress(executed, |OnDisk(id)|, if id in journal.model then |journal.model[id].operations| else 0)
    }

    method Stop(id: string, message: string, mark: Option<PersistStep>)
      requires journal.Valid() && UsableID(id) && id in journal.model
      modifies journal`disk, journal`history, journal`model, journal.repr
      ensures journal.Valid()
      ensures journal.model == old(journal.model)[id := WithStatus(old(journal.model)[id], Failed, T.TrimSpace(message))]
    {
      UsableNotBlank(id);
      var _ := journal.MarkStatus(id, Failed, message, mark);
    }

    method Finish(id: string, fault: Option<PersistStep>) returns (ok: bool)
      requires journal.Valid() && UsableID(id) && id in journal.model
      modifies journal`disk, journal`history, journal`model, journal.repr
      ensures journal.Valid() && ok == fault.None?
      ensures journal.model == old(journal.model)[id := WithStatus(old(journal.model)[id], Completed, T.TrimSpace(""))]
    {
      UsableNotBlank(id);
      var err := journal.MarkStatus(id, Completed, "", fault);
      ok := err.None?;
    }

    /** A failure to persist is reported, but leaves the operation in memory. */
    method RecordOperation(id: string, op: Operation, fault: Option<PersistStep>) returns (ok: bool)
      requires journal.Valid() && UsableID(id) && id in journal.model && !T.Blank(KindName(op.kind))
      modifies journal`disk, journal`history, journal`model, journal.repr
      ensures journal.Valid() && ok == fault.None?
      ensures journal.model == old(journal.model)[id := WithOperation(old(journal.model)[id], JournalOperation(op))]
    {
      UsableNotBlank(id);
      var err := journal.AddOperation(id, OperationEntry(KindName(op.kind), Some(op.text), op.description, true), fault);
      ok := err.None?;
    }

    /** The record of an executed operation goes to the manifest on disk, then to
        the journal. */
    method LogStep(op: Operation, idx: nat, id: string, manifest: seq<Record>, faults: StepFaults)
      returns (stop: Option<ApplyResult>)
      requires journal.Valid() && UsableID(id) && Entered(id, idx) && !T.Blank(KindName(op.kind)) && !faults.cancelled
      requires |manifest| == idx + 1 && OnDisk(id) == manifest[..idx] && executed == idx + 1
      modifies `manifests, `progress, journal`disk, journal`history, journal`model, journal.repr
      ensures journal.Valid() && stop == StopOf(faults, false, idx)
      ensures journal.model == old(journal.model)[id := LogEntry(old(journal.model)[id], tree, world, op, stop)]
      ensures OnDisk(id) == if stop == Some(ManifestFailed(idx)) then manifest[..idx] else manifest
      ensures Counts(id) == CountsAfter(stop, idx) && progress == old(progress) + Logged(stop, idx)
    {
      LoggedFacts(progress, idx);
      if faults.manifest {
        PutSame(journal.model, id);
        return Some(ManifestFailed(idx));
      }
      manifests := manifests[id := manifest];
      progress := progress + [Counts(id)];
      var recorded := LogInJournal(op, idx, id, faults);
      stop := if recorded then None else Some(JournalFailed(idx));
    }

    method LogInJournal(op: Operation, ghost idx: nat, id: string, faults: StepFaults) returns (recorded: bool)
      requires journal.Valid() && UsableID(id) && Entered(id, idx) && !T.Blank(KindName(op.kind))
      requires executed == idx + 1 && |OnDisk(id)| == idx + 1
      modifies `progress, journal`disk, journal`history, journal`model, journal.repr
      ensures journal.Valid() && recorded == faults.operation.None?
      ensures journal.model
        == old(journal.model)[id := LogEntry(old(journal.model)[id], tree, world, op, if recorded then None else Some(JournalFailed(idx)))]
      ensures Counts(id) == Progress(idx + 1, idx + 1, idx + 1) && progress == old(progress) + [Counts(id)]
    {
      ghost var m := journal.model;
      recorded := RecordOperation(id, op, faults.operation);
      progress := progress + [Counts(id)];
      if recorded {
        ghost var logged := journal.model[id];
        RecordImages(id, op, false, faults.images);
        PutTwice(m, id, logged, ImagesTaken(logged, tree, world, op, false));
      }
    }

    /** One round of the loop: None when the run goes on. */
    method RunStep(op: Operation, idx: nat, id: string, manifest: seq<Record>, faults: StepFaults, mark: Option<PersistStep>)
      returns (stop: Option<ApplyResult>, done: ExecResult)
      requires Valid() && UsableID(id) && Entered(id, idx) && OnDisk(id) == manifest && |manifest| == idx
      requires executed == idx && !T.Blank(KindName(op.kind))
      modifies `tree, `manifests, `executed, `progress, journal`disk, journal`history, journal`model, journal.repr
      ensures Valid() && done == Execute(old(tree), id, idx, op, faults.call)
      ensures stop == StopOf(faults, done.Refused?, idx)
      ensures id in journal.model && Taken(old(journal.model), journal.model, id, old(tree), done.tree, world, op, stop)
      ensures tree == if stop == Some(Cancelled(idx)) then old(tree) else done.tree
      ensures OnDisk(id) == if stop.None? || stop == Some(JournalFailed(idx)) then manifest + [done.record] else manifest
      ensures Counts(id) == CountsAfter(stop, idx) && progress == old(progress) + Added(stop, idx)
    {
      ghost var m := journal.model;
      done := Execute(tree, id, idx, op, faults.call);
      ExecuteKeepsWellFormed(tree, id, idx, op, faults.call);
      if faults.cancelled {
        StoppedEarly(progress, idx);
        PutSame(m, id);
        stop := Some(Cancelled(idx));
      } else {
        stop := Proceed(op, done, idx, id, manifest, faults);
      }
      ghost var entry := journal.model[id];
      if stop.Some? {
        Stop(id, Reason(stop.value), mark);
        PutTwice(m, id, entry, WithStatus(entry, Failed, T.TrimSpace(Reason(stop.value))));
      }
      TakenPut(m, journal.model, id, old(tree), done.tree, world, op, stop);
    }

    /** The round unless it was cancelled; `done` is what executing gives. */
    method Proceed(op: Operation, done: ExecResult, idx: nat, id: string, manifest: seq<Record>, faults: StepFaults)
      returns (stop: Option<ApplyResult>)
      requires Valid() && UsableID(id) && Entered(id, idx) && OnDisk(id) == manifest && |manifest| == idx
      requires executed == idx && !T.Blank(KindName(op.kind)) && WellFormed(done.tree) && !faults.cancelled
      modifies `tree, `manifests, `executed, `progress, journal`disk, journal`history, journal`model, journal.repr
      ensures Valid() && tree == done.tree && stop == StopOf(faults, done.Refused?, idx)
      ensures journal.model == old(journal.model)[id := StepEntry(old(journal.model)[id], old(tree), done.tree, world, op, stop)]
      ensures OnDisk(id) == if stop.None? || stop == Some(JournalFailed(idx)) then manifest + [done.record] else manifest
      ensures Counts(id) == CountsAfter(stop, idx) && progress == old(progress) + Added(stop, idx)
    {
      ghost var m := journal.model;
      RecordImages(id, op, true, faults.images);
      ghost var read := journal.model[id];
      tree := done.tree;
      stop := LogExecuted(op, done, idx, id, manifest, faults);
      PutTwice(m, id, read, LogEntry(read, done.tree, world, op, stop));
    }

    /** An operation that took effect is counted and logged. */
    method LogExecuted(op: Operation, done: ExecResult, idx: nat, id: string, manifest: seq<Record>, faults: StepFaults)
      returns (stop: Option<ApplyResult>)
      requires journal.Valid() && UsableID(id) && Entered(id, idx) && OnDisk(id) == manifest && |manifest| == idx
      requires executed == idx && !T.Blank(KindName(op.kind)) && !faults.cancelled
      modifies `manifests, `executed, `progress, journal`disk, journal`history, journal`model, journal.repr
      ensures journal.Valid() && stop == StopOf(faults, done.Refused?, idx)
      ensures journal.model == old(journal.model)[id := LogEntry(old(journal.model)[id], tree, world, op, stop)]
      ensures OnDisk(id) == if stop.None? || stop == Some(JournalFailed(idx)) then manifest + [done.record] else manifest
      ensures Counts(id) == CountsAfter(stop, idx) && progress == old(progress) + Added(stop, idx)
    {
      if done.Refused? {
        StoppedEarly(progress, idx);
        PutSame(journal.model, id);
        return Some(OperationFailed(idx));
      }
      executed := executed + 1;
      progress := progress + [Counts(id)];
      assert (manifest + [done.record])[..idx] == manifest;
      stop := LogStep(op, idx, id, manifest + [done.record], faults);
      AddedFacts(old(progress), stop, idx);
    }

    /** Before round idx of a run that began with entries m and tree t. */
    ghost predicate Underway(m: Entries, t: Tree, id: string, ops: seq<Operation>, steps: nat -> StepFaults, idx: nat, manifest: seq<Record>)
      requires idx <= |ops| && id in m
      reads this, journal
    {
      && Entered(id, idx) && OnDisk(id) == manifest && |manifest| == idx && executed == idx && progress == Stepped(idx)
      && (forall i :: 0 <= i < idx ==> Clean(steps(i)))
      && ExecuteAll(t, id, ops[..idx]) == Run(tree, manifest, true)
      && Noted(m, journal.model, t, id, ops, world, idx)
    }

    /** After a run with this result that began with entries m and tree t. */
    ghost predicate EndedAs(m: Entries, t: Tree, id: string, ops: seq<Operation>, steps: nat -> StepFaults, result: ApplyResult)
      requires id in m
      reads this, journal
    {
      && Warranted(result, |ops|, steps) && Possible(result, |ops|)
      && Ended(t, id, ops, steps, result, tree, OnDisk(id))
      && Counts(id) == FinalCounts(result, |ops|) && progress == ProgressOf(result, |ops|)
      && Left(m, journal.model, t, id, ops, world, result)
    }

    /** A new change set, its backup directory made. */
    ghost predicate SetUp(id: string, ops: seq<Operation>)
      reads this, journal, journal.repr
    {
      && Valid() && UsableID(id) && Entered(id, 0) && OnDisk(id) == [] && executed == 0 && progress == Stepped(0)
      && journal.model[id].preimages == map[] && journal.model[id].postimages == map[]
      && forall k :: 0 <= k < |ops| ==> !T.Blank(KindName(ops[k].kind))
    }

    /** One round, and what it makes of the run so far: tree and manifest. */
    method RunOn(ops: seq<Operation>, idx: nat, id: string, manifest: seq<Record>, steps: nat -> StepFaults, mark: Option<PersistStep>,
                 ghost t: Tree)
      returns (stop: Option<ApplyResult>, done: ExecResult)
      requires Valid() && UsableID(id) && Entered(id, idx) && OnDisk(id) == manifest && |manifest| == idx && executed == idx
      requires idx < |ops| && !T.Blank(KindName(ops[idx].kind)) && ExecuteAll(t, id, ops[..idx]) == Run(tree, manifest, true)
      modifies `tree, `manifests, `executed, `progress, journal`disk, journal`history, journal`model, journal.repr
      ensures Valid() && id in journal.model && stop == StopOf(steps(idx), done.Refused?, idx)
      ensures Taken(old(journal.model), journal.model, id, old(tree), done.tree, world, ops[idx], stop)
      ensures stop.Some? ==> Ended(t, id, ops, steps, stop.value, tree, OnDisk(id))
      ensures stop.None? ==> done.Executed? && done.tree == tree && OnDisk(id) == manifest + [done.record]
      ensures stop.None? ==> ExecuteAll(t, id, ops[..idx + 1]) == Run(tree, manifest + [done.record], true)
      ensures Counts(id) == CountsAfter(stop, idx) && progress == old(progress) + Added(stop, idx)
    {
      stop, done := RunStep(ops[idx], idx, id, manifest, steps(idx), mark);
      if stop.Some? {
        StoppedRun(t, id, ops, steps, idx, done, stop.value, tree, OnDisk(id));
      } else {
        WentOn(t, id, ops, steps, idx, done);
      }
    }

    method Round(ops: seq<Operation>, idx: nat, id: string, manifest: seq<Record>, steps: nat -> StepFaults, mark: Option<PersistStep>,
                 ghost m: Entries, ghost t: Tree)
      returns (stop: Option<ApplyResult>, done: ExecResult)
      requires Valid() && UsableID(id) && idx < |ops| && id in m && Underway(m, t, id, ops, steps, idx, manifest)
      requires !T.Blank(KindName(ops[idx].kind))
      modifies `tree, `manifests, `executed, `progress, journal`disk, journal`history, journal`model, journal.repr
      ensures Valid() && (stop.Some? ==> Stopped(stop.value) && EndedAs(m, t, id, ops, steps, stop.value))
      ensures stop.None? ==> done.Executed? && Underway(m, t, id, ops, steps, idx + 1, manifest + [done.record])
    {
      ghost var before := journal.model;
      stop, done := RunOn(ops, idx, id, manifest, steps, mark, t);
      StepNoted(stop, idx, |ops|);
      if stop.Some? {
        StopWarranted(stop.value, done.Refused?, idx, |ops|, steps);
        EntriesEnd(m, before, journal.model, t, id, ops, world, idx, done.tree, stop.value);
      } else {
        OneMoreClean(done.Refused?, idx, steps);
        EntriesGoOn(m, before, journal.model, t, id, ops, world, idx);
      }
    }

    /** The loop over the operations: None when all of them took effect. */
    method RunLoop(ops: seq<Operation>, id: string, steps: nat -> StepFaults, mark: Option<PersistStep>)
      returns (stop: Option<ApplyResult>)
      requires SetUp(id, ops)
      modifies `tree, `manifests, `executed, `progress, journal`disk, journal`history, journal`model, journal.repr
      ensures Valid() && (stop.None? ==> Underway(old(journal.model), old(tree), id, ops, steps, |ops|, OnDisk(id)))
      ensures stop.Some? ==> Stopped(stop.value) && EndedAs(old(journal.model), old(tree), id, ops, steps, stop.value)
    {
      var manifest: seq<Record> := [];
      NoneNoted(journal.model, tree, id, ops, world);
      for idx := 0 to |ops|
        invariant Valid() && Underway(old(journal.model), old(tree), id, ops, steps, idx, manifest)
      {
        var done: ExecResult;
        stop, done := Round(ops, idx, id, manifest, steps, mark, old(journal.model), old(tree));
        if stop.Some? { return; }
        manifest := manifest + [done.record];
      }
      return None;
    }

    method RunOperations(ops: seq<Operation>, id: string, steps: nat -> StepFaults, mark: Option<PersistStep>)
      returns (result: ApplyResult)
      requires SetUp(id, ops)
      modifies `tree, `manifests, `executed, `progress, journal`disk, journal`history, journal`model, journal.repr
      ensures Valid() && !result.NotBegun? && !result.NoBackupDir? && EndedAs(old(journal.model), old(tree), id, ops, steps, result)
    {
      var stop := RunLoop(ops, id, steps, mark);
      if stop.Some? { return stop.value; }
      result := Conclude(ops, id, steps, old(journal.model), old(tree));
    }

    /** All operations took effect: the change set is completed. */
    method Conclude(ops: seq<Operation>, id: string, steps: nat -> StepFaults, ghost m: Entries, ghost t: Tree) returns (result: ApplyResult)
      requires Valid() && UsableID(id) && id in m && Underway(m, t, id, ops, steps, |ops|, OnDisk(id))
      modifies journal`disk, journal`history, journal`model, journal.repr
      ensures Valid() && (result.Applied? || result.NotCompleted?) && EndedAs(m, t, id, ops, steps, result)
    {
      ghost var before := journal.model;
      var completed := Finish(id, steps(|ops|).operation);
      result := if completed then Applied else NotCompleted;
      assert ops[..|ops|] == ops;
      FinishedRun(t, id, ops, steps, result);
      FinishedCounts(result, |ops|);
      AllLeft(m, before, journal.model, t, id, ops, world, result);
    }

    /** The handler patch.apply, for a request that passed validation. */
    method PatchApply(ops: seq<Operation>, newID: string, workItemID: string, taskRunID: string, timestamp: string,
                      begin: Option<PersistStep>, makeDirFails: bool, steps: nat -> StepFaults, mark: Option<PersistStep>)
      returns (result: ApplyResult)
      requires Valid() && UsableID(newID) && newID !in journal.model && newID !in manifests
      requires forall k :: 0 <= k < |ops| ==> !T.Blank(KindName(ops[k].kind))
      modifies this, journal, journal.repr
      ensures Valid() && fresh(journal.repr - old(journal.repr))
      ensures result.NotBegun? <==> begin.Some?
      ensures result.NoBackupDir? <==> begin.None? && (makeDirFails || MkdirAll(old(tree), BackupDir(newID)).Fail?)
      ensures Warranted(result, |ops|, steps) && Possible(result, |ops|)
      ensures progress == ProgressOf(result, |ops|) && (!result.NotBegun? ==> Counts(newID) == FinalCounts(result, |ops|))
      ensures result.NotBegun? ==> tree == old(tree) && manifests == old(manifests) && journal.model == old(journal.model)
      ensures result.NoBackupDir? ==> tree == old(tree) && manifests == old(manifests)
      ensures !result.NotBegun? && !result.NoBackupDir? ==>
        Ended(MkdirAll(old(tree), BackupDir(newID)).tree, newID, ops, steps, result, tree, OnDisk(newID))
      ensures !result.NotBegun? ==>
        var t := if result.NoBackupDir? then old(tree) else MkdirAll(old(tree), BackupDir(newID)).tree;
        journal.model == old(journal.model)[newID := EntryAfter(NewEntry(newID, workItemID, taskRunID, timestamp), t, newID, ops, world, result)]
    {
      ghost var m := journal.model;
      var begun := BeginRun(newID, workItemID, taskRunID, timestamp, begin);
      if !begun { return NotBegun; }
      ghost var entry := journal.model[newID];
      ghost var before := journal.model;
      result := SetUpAndRun(ops, newID, makeDirFails, steps, mark);
      PutLeft(before, journal.model, if result.NoBackupDir? then old(tree) else MkdirAll(old(tree), BackupDir(newID)).tree, newID, ops, world, result);
      PutTwice(m, newID, entry, journal.model[newID]);
    }

    /** Starts the change set, with nothing executed yet. */
    method BeginRun(newID: string, workItemID: string, taskRunID: string, timestamp: string, begin: Option<PersistStep>)
      returns (begun: bool)
      requires Valid() && UsableID(newID) && newID !in journal.model && newID !in manifests
      modifies `executed, `progress, journal, journal.repr
      ensures Valid() && fresh(journal.repr - old(journal.repr)) && executed == 0 && begun == begin.None?
      ensures begun ==> Entered(newID, 0) && progress == Stepped(0)
      ensures begun ==> journal.model == old(journal.model)[newID := NewEntry(newID, workItemID, taskRunID, timestamp)]
      ensures !begun ==> progress == [] && journal.model == old(journal.model)
    {
      executed, progress := 0, [];
      var entry := journal.Begin(newID, workItemID, taskRunID, timestamp, begin);
      if entry == null {
        RemoveAbsent(old(journal.model), newID);
        return false;
      }
      progress := [Counts(newID)];
      return true;
    }

    method SetUpAndRun(ops: seq<Operation>, id: string, makeDirFails: bool, steps: nat -> StepFaults, mark: Option<PersistStep>)
      returns (result: ApplyResult)
      requires SetUp(id, ops)
      modifies `tree, `manifests, `executed, `progress, journal`disk, journal`history, journal`model, journal.repr
      ensures Valid() && !result.NotBegun?
      ensures result.NoBackupDir? <==> makeDirFails || MkdirAll(old(tree), BackupDir(id)).Fail?
      ensures result.NoBackupDir? ==>
        tree == old(tree) && manifests == old(manifests) && progress == Stepped(0) && Counts(id) == FinalCounts(result, |ops|) &&
        Left(old(journal.model), journal.model, old(tree), id, ops, world, NoBackupDir)
      ensures !result.NoBackupDir? ==>
        EndedAs(old(journal.model), MkdirAll(old(tree), BackupDir(id)).tree, id, ops, steps, result)
    {
      var made := MkdirAll(tree, BackupDir(id));
      MkdirKeepsWellFormed(tree, BackupDir(id));
      if makeDirFails || made.Fail? {
        NothingDone(journal.model[id], tree, id, ops, world);
        Stop(id, Reason(NoBackupDir), mark);
        LeftPut(old(journal.model), journal.model, tree, id, ops, world, NoBackupDir);
        return NoBackupDir;
      }
      tree := made.tree;
      result := RunOperations(ops, id, steps, mark);
    }

    /** The handler patch.rollback. */
    method PatchRollback(id: string, mark: Option<PersistStep>) returns (ok: bool)
      requires Valid() && UsableID(id)
      modifies `tree, journal`disk, journal`history, journal`model, journal.repr
      ensures Valid()
      ensures old(id !in journal.model) || id !in manifests ==> !ok && tree == old(tree) && journal.model == old(journal.model)
      ensures old(id in journal.model) && id in manifests ==> tree == UndoAll(old(tree), manifests[id]).tree
      ensures old(id in journal.model) && id in manifests ==> (ok <==> UndoAll(old(tree), manifests[id]).Ok? && mark.None?)
      ensures old(id in journal.model) && id in manifests ==>
        journal.model == old(journal.model)[id := RolledBackEntry(old(journal.model)[id], UndoAll(old(tree), manifests[id]).Ok?)]
    {
      UsableNotBlank(id);
      var err, entry := journal.GetByID(id);
      if err.Some? || id !in manifests { return false; }
      ok := UndoAndMark(id, manifests[id], mark);
    }

    method UndoAndMark(id: string, log: seq<Record>, mark: Option<PersistStep>) returns (ok: bool)
      requires Valid() && UsableID(id) && id in journal.model
      modifies `tree, journal`disk, journal`history, journal`model, journal.repr
      ensures Valid()
      ensures tree == UndoAll(old(tree), log).tree
      ensures ok <==> UndoAll(old(tree), log).Ok? && mark.None?
      ensures journal.model == old(journal.model)[id := RolledBackEntry(old(journal.model)[id], UndoAll(old(tree), log).Ok?)]
    {
      var undone := UndoLog(log);
      if !undone {
        Stop(id, UNDO_FAILED, mark);
        return false;
      }
      ok := MarkRolledBack(id, mark);
    }

    method MarkRolledBack(id: string, fault: Option<PersistStep>) returns (ok: bool)
      requires journal.Valid() && UsableID(id) && id in journal.model
      modifies journal`disk, journal`history, journal`model, journal.repr
      ensures journal.Valid() && ok == fault.None?
      ensures journal.model == old(journal.model)[id := RolledBackEntry(old(journal.model)[id], true)]
    {
      UsableNotBlank(id);
      T.TrimSpaceOfTrimmed("");
      var err := journal.MarkStatus(id, RolledBack, "", fault);
      ok := err.None?;
    }

    method UndoLog(log: seq<Record>) returns (ok: bool)
      requires WellFormed(tree)
      modifies `tree
      ensures WellFormed(tree)
      ensures tree == UndoAll(old(tree), log).tree && ok == UndoAll(old(tree), log).Ok?
    {
      var idx := |log|;
      assert log[..|log|] == log;
      while idx > 0
        invariant 0 <= idx <= |log| && WellFormed(tree)
        invariant UndoAll(tree, log[..idx]) == UndoAll(old(tree), log)
      {
        idx := idx - 1;
        UndoLast(tree, log[..idx + 1]);
        assert log[..idx + 1][..idx] == log[..idx];
        var undone := UndoRecord(tree, log[idx]);
        tree := undone.tree;
        if undone.Fail? { return false; }
      }
      return true;
    }
  }

  lemma {:induction false} LoggedFacts(before: seq<Progress>, k: nat)
    ensures before + [Progress(k + 1, k + 1, k)] + [Progress(k + 1, k + 1, k + 1)] == before + Logged(None, k)
    ensures Logged(Some(JournalFailed(k)), k) == Logged(None, k) && before + Logged(Some(ManifestFailed(k)), k) == before
    ensures CountsAfter(None, k) == CountsAfter(Some(JournalFailed(k)), k) == Progress(k + 1, k + 1, k + 1)
    ensures CountsAfter(Some(ManifestFailed(k)), k) == Progress(k + 1, k, k)
  {}

  lemma {:induction false} StoppedEarly(before: seq<Progress>, k: nat)
    ensures before + Added(Some(Cancelled(k)), k) == before == before + Added(Some(OperationFailed(k)), k)
    ensures CountsAfter(Some(Cancelled(k)), k) == CountsAfter(Some(OperationFailed(k)), k) == Progress(k, k, k)
  {}

  lemma {:induction false} AddedFacts(before: seq<Progress>, stop: Option<ApplyResult>, k: nat)
    requires stop.None? || stop == Some(ManifestFailed(k)) || stop == Some(JournalFailed(k))
    ensures before + [Progress(k + 1, k, k)] + Logged(stop, k) == before + Added(stop, k)
  {}

  lemma {:induction false} FinishedCounts(result: ApplyResult, total: nat)
    requires result.Applied? || result.NotCompleted?
    ensures FinalCounts(result, total) == Progress(total, total, total) && ProgressOf(result, total) == Stepped(total)
  {}

  lemma {:induction false} StepNoted(stop: Option<ApplyResult>, k: nat, total: nat)
    requires stop.None? || StopsAt(stop.value, k)
    ensures Stepped(k) + Added(stop, k) == if stop.None? then Stepped(k + 1) else ProgressOf(stop.value, total)
    ensures CountsAfter(stop, k) == if stop.None? then Progress(k + 1, k + 1, k + 1) else FinalCounts(stop.value, total)
  {
    assert Stepped(k) + [] == Stepped(k);
    assert StepProgress(k) == [Progress(k + 1, k, k)] + Logged(None, k);
    assert [Progress(k + 1, k, k)] + [] == [Progress(k + 1, k, k)];
  }

  // ---- rolling a run back ----

  lemma {:induction false} PrefixRecoverable(t: Tree, id: string, ops: seq<Operation>, n: nat)
    requires AllRecoverable(t, id, ops) && n <= |ops|
    ensures AllRecoverable(t, id, ops[..n])
    decreases |ops|
  {
    if n == |ops| { assert ops[..n] == ops; }
    else {
      PrefixRecoverable(t, id, ops[..|ops| - 1], n);
      assert ops[..|ops| - 1][..n] == ops[..n];
    }
  }

  /** However a run of recoverable operations ended, undoing the manifest it
      left restores the tree it started from; only a manifest that could not be
      written is short of a record. */
  lemma {:induction false} RollbackRestoresRun(t: Tree, id: string, ops: seq<Operation>, steps: nat -> StepFaults,
                            result: ApplyResult, tree: Tree, logged: seq<Record>)
    requires Ready(t, id) && AllRecoverable(t, id, ops)
    requires Ended(t, id, ops, steps, result, tree, logged) && !result.ManifestFailed?
    ensures Restores(UndoAll(tree, logged), t, tree)
  {
    var n := ExecutedBy(result, |ops|);
    var run := ExecuteAll(t, id, ops[..n]);
    PrefixRecoverable(t, id, ops, n);
    ExecuteAllReady(t, id, ops[..n]);
    if result.OperationFailed? {
      PrefixRecoverable(t, id, ops, n + 1);
      assert ops[..n + 1][..n] == ops[..n];
      RefusedLeavesTree(run.tree, id, n, ops[n], steps(n).call);
      forall k | 0 <= k < |run.log| ensures At(tree, BackupPath(id, k)) == At(run.tree, BackupPath(id, k)) {
        EarlierBackup(id, k, n);
      }
    }
    UndoAllRestores(t, id, ops[..n], tree);
  }

  /** Making the backup directory adds nothing outside the rollback root but,
      if it was missing, the root's own ancestors. */
  lemma {:induction false} BackupDirOnly(t: Tree, id: string)
    requires WellFormed(t) && MkdirAll(t, BackupDir(id)).Ok?
    ensures Ready(MkdirAll(t, BackupDir(id)).tree, id)
    ensures forall p :: !Touches(p) ==> At(MkdirAll(t, BackupDir(id)).tree, p) == At(t, p)
    ensures IsDir(t, Parent(ROLLBACK_ROOT)) ==> SameOutside(t, MkdirAll(t, BackupDir(id)).tree)
  {
    MkdirAllAt(t, BackupDir(id));
    var made := MkdirAll(t, BackupDir(id)).tree;
    assert At(made, BackupDir(id)) == Some(Dir);
    forall p | p <= BackupDir(id) ensures Touches(p) {
      BelowBackupDir(id, p);
    }
    if IsDir(t, Parent(ROLLBACK_ROOT)) {
      forall p | !InRollbackRoot(p) ensures At(t, p) == At(made, p) {
        if p <= BackupDir(id) {
          BelowBackupDir(id, p);
          if p != Parent(ROLLBACK_ROOT) { AncestorIsDir(t, p, Parent(ROLLBACK_ROOT)); }
        }
      }
    }
  }

  lemma {:induction false} BelowBackupDir(id: string, p: Path)
    requires p <= BackupDir(id)
    ensures Touches(p)
    ensures InRollbackRoot(p) || p <= Parent(ROLLBACK_ROOT)
  {
    assert p == BackupDir(id)[..|p|];
    if |p| <= 2 { assert p == ROLLBACK_ROOT[..|p|]; }
    if |p| <= 1 { assert p == Parent(ROLLBACK_ROOT)[..|p|]; }
  }

  /** The project is as it was before the run, but for the backups and, if
      they were missing, the rollback root and its parent directory. */
  ghost predicate ProjectRestored(t: Tree, s: Tree) {
    && (forall p :: !Touches(p) ==> At(s, p) == At(t, p))
    && (IsDir(t, Parent(ROLLBACK_ROOT)) ==> SameOutside(t, s))
  }

  lemma {:induction false} RollbackRestoresProject(t: Tree, id: string, ops: seq<Operation>, steps: nat -> StepFaults,
                                result: ApplyResult, tree: Tree, logged: seq<Record>)
    requires WellFormed(t) && MkdirAll(t, BackupDir(id)).Ok?
    requires AllRecoverable(MkdirAll(t, BackupDir(id)).tree, id, ops)
    requires Ended(MkdirAll(t, BackupDir(id)).tree, id, ops, steps, result, tree, logged)
    requires ExecutedBy(result, |ops|) > 0 && !result.ManifestFailed?
    ensures logged != []
    ensures UndoAll(tree, logged).Ok? && ProjectRestored(t, UndoAll(tree, logged).tree)
  {
    var start := MkdirAll(t, BackupDir(id)).tree;
    BackupDirOnly(t, id);
    RollbackRestoresRun(start, id, ops, steps, result, tree, logged);
    var n := ExecutedBy(result, |ops|);
    PrefixRecoverable(start, id, ops, n);
    ExecuteAllReady(start, id, ops[..n]);
    var s := UndoAll(tree, logged).tree;
    forall p | !Touches(p) ensures At(s, p) == At(t, p) { assert At(start, p) == At(s, p); }
  }

  /** What a caller of the two handlers gets: a run of recoverable operations,
      completed or not, is rolled back to the tree before it. */
  method ApplyThenRollback(bridge: PatchBridge, ops: seq<Operation>, newID: string, workItemID: string, taskRunID: string,
                           timestamp: string, begin: Option<PersistStep>, makeDirFails: bool, steps: nat -> StepFaults,
                           mark: Option<PersistStep>)
    returns (result: ApplyResult, rolledBack: bool)
    requires bridge.Valid() && UsableID(newID) && newID !in bridge.journal.model && newID !in bridge.manifests
    requires forall k :: 0 <= k < |ops| ==> !T.Blank(KindName(ops[k].kind))
    requires MkdirAll(bridge.tree, BackupDir(newID)).Ok? ==> AllRecoverable(MkdirAll(bridge.tree, BackupDir(newID)).tree, newID, ops)
    modifies bridge, bridge.journal, bridge.journal.repr
    ensures bridge.Valid()
    ensures ExecutedBy(result, |ops|) > 0 && !result.ManifestFailed? ==>
      && rolledBack
      && newID in bridge.journal.model && bridge.journal.model[newID].status == RolledBack
      && ProjectRestored(old(bridge.tree), bridge.tree)
  {
    result := bridge.PatchApply(ops, newID, workItemID, taskRunID, timestamp, begin, makeDirFails, steps, mark);
    rolledBack := false;
    if ExecutedBy(result, |ops|) > 0 && !result.ManifestFailed? {
      RollbackRestoresProject(old(bridge.tree), newID, ops, steps, result, bridge.tree, bridge.OnDisk(newID));
      rolledBack := bridge.PatchRollback(newID, None);
    }
  }

  lemma {:induction false} RemoveAbsent(m: Entries, k: string)
    requires k !in m
    ensures m - {k} == m
  {}

  lemma {:induction false} UndoLast(t: Tree, log: seq<Record>)
    requires WellFormed(t) && log != []
    ensures
      var undone := UndoRecord(t, log[|log| - 1]);
      && WellFormed(undone.tree)
      && UndoAll(t, log) == if undone.Ok? then UndoAll(undone.tree, log[..|log| - 1]) else undone
  {
    UndoKeepsWellFormed(t, log[|log| - 1]);
  }

  lemma {:induction false} ExecuteOneMore(t: Tree, id: string, ops: seq<Operation>, k: nat)
    requires k < |ops| && ExecuteAll(t, id, ops[..k]).ok
    ensures
      var before := ExecuteAll(t, id, ops[..k]);
      ExecuteAll(t, id, ops[..k + 1]) ==
        match Execute(before.tree, id, k, ops[k], None)
        case Executed(t1, record) => Run(t1, before.log + [record], true)
        case Refused(t1, _) => Run(t1, before.log, false)
  {
    assert ops[..k + 1][..k] == ops[..k];
  }

  /** A step that went on extends the run by its operation and record. */
  lemma {:induction false} WentOn(t: Tree, id: string, ops: seq<Operation>, steps: nat -> StepFaults, k: nat, done: ExecResult)
    requires k < |ops| && ExecuteAll(t, id, ops[..k]).ok
    requires done == Execute(ExecuteAll(t, id, ops[..k]).tree, id, k, ops[k], steps(k).call) && done.Executed?
    ensures ExecuteAll(t, id, ops[..k + 1]) == Run(done.tree, ExecuteAll(t, id, ops[..k]).log + [done.record], true)
  {
    ExecuteOneMore(t, id, ops, k);
    FaultsOnlyStop(ExecuteAll(t, id, ops[..k]).tree, id, k, ops[k], steps(k).call);
  }

  lemma {:induction false} StoppedRun(t: Tree, id: string, ops: seq<Operation>, steps: nat -> StepFaults, k: nat, done: ExecResult,
                                      result: ApplyResult, tree: Tree, logged: seq<Record>)
    requires k < |ops| && ExecuteAll(t, id, ops[..k]).ok
    requires done == Execute(ExecuteAll(t, id, ops[..k]).tree, id, k, ops[k], steps(k).call)
    requires StopsAt(result, k)
    requires result != Cancelled(k) ==> (result == OperationFailed(k) <==> done.Refused?)
    requires tree == if result == Cancelled(k) then ExecuteAll(t, id, ops[..k]).tree else done.tree
    requires logged == if result == JournalFailed(k) then ExecuteAll(t, id, ops[..k]).log + [done.record]
                       else ExecuteAll(t, id, ops[..k]).log
    ensures Ended(t, id, ops, steps, result, tree, logged)
  {
    var before := ExecuteAll(t, id, ops[..k]);
    if result == ManifestFailed(k) || result == JournalFailed(k) {
      WentOn(t, id, ops, steps, k, done);
      StoppedLate(t, id, ops, steps, k, before, done, result, logged);
    }
  }

  /** Stopped with the k-th operation executed but not, or only partly, logged. */
  lemma {:induction false} StoppedLate(t: Tree, id: string, ops: seq<Operation>, steps: nat -> StepFaults, k: nat, before: Run,
                                       done: ExecResult, result: ApplyResult, logged: seq<Record>)
    requires k < |ops| && before == ExecuteAll(t, id, ops[..k]) && done.Executed?
    requires ExecuteAll(t, id, ops[..k + 1]) == Run(done.tree, before.log + [done.record], true)
    requires result == ManifestFailed(k) || result == JournalFailed(k)
    requires logged == if result == JournalFailed(k) then before.log + [done.record] else before.log
    ensures Ended(t, id, ops, steps, result, done.tree, logged)
  {}

  lemma {:induction false} FinishedRun(t: Tree, id: string, ops: seq<Operation>, steps: nat -> StepFaults, result: ApplyResult)
    requires ExecuteAll(t, id, ops).ok && (result.Applied? || result.NotCompleted?)
    ensures Ended(t, id, ops, steps, result, ExecuteAll(t, id, ops).tree, ExecuteAll(t, id, ops).log)
  {
    assert ops[..|ops|] == ops;
  }
}
