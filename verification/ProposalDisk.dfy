/** The proposal engine and the journal file together: what a crash at any point
    of a run leaves in the project and on the disk. */
module ProposalDisk {
  import opened Options
  import opened Text
  import opened FileTree
  import opened JournalModel
  import opened Proposal
  import opened ProposalEngine
  import opened ProposalProofs

  // ---- states of a run, one action apart ----

  /** From one state to the next either the project changes or the change set
      does, and the change set names no less. */
  ghost predicate Apart(a: Snapshot, b: Snapshot) {
    (a.tree == b.tree || a.entry == b.entry) && NamesMore(a.entry, b.entry) && a.entry.id == b.entry.id
  }

  ghost predicate StepAt(states: seq<Snapshot>, i: nat)
    requires i + 1 < |states|
  {
    Apart(states[i], states[i + 1])
  }

  ghost predicate Chain(states: seq<Snapshot>) {
    forall i: nat {:trigger StepAt(states, i)} :: i + 1 < |states| ==> StepAt(states, i)
  }

  lemma {:induction false} ChainConcat(front: seq<Snapshot>, last: Snapshot, back: seq<Snapshot>)
    requires front != [] && front[|front| - 1] == last && Chain(front) && Chain([last] + back)
    ensures Chain(front + back)
  {
    forall i: nat | i + 1 < |front + back| ensures StepAt(front + back, i) {
      if i + 1 < |front| { assert StepAt(front, i); }
      else { assert StepAt([last] + back, i + 1 - |front|); }
    }
  }

  /** What one operation passes through follows on the state before it. */
  ghost predicate Follows(s: Snapshot, r: OpRun) {
    r.passed != [] && r.passed[|r.passed| - 1] == r.last && Chain([s] + r.passed)
  }

  lemma {:induction false} StopFollows(s: Snapshot, passed: seq<Snapshot>, now: Snapshot, ending: Ending)
    requires Chain([s] + passed)
    requires var before := ([s] + passed)[|passed|]; before.tree == now.tree && NamesMore(before.entry, now.entry) && before.entry.id == now.entry.id
    ensures Follows(s, Stop(passed, now, ending))
  {
    var r := Stop(passed, now, ending);
    var all := [s] + passed;
    OneMoreStep(all, r.last);
    assert all + [r.last] == [s] + r.passed;
  }

  lemma {:induction false} OneMoreStep(states: seq<Snapshot>, next: Snapshot)
    requires states != [] && Chain(states) && Apart(states[|states| - 1], next)
    ensures Chain(states + [next])
  {
    forall i: nat | i + 1 < |states + [next]| ensures StepAt(states + [next], i) {
      if i + 1 < |states| { assert StepAt(states, i); }
    }
  }

  /** The states up to the journal's entries for an operation, then the change. */
  lemma {:induction false} MutationFollowsOn(s: Snapshot, s1: Snapshot, s2: Snapshot, op: Operation, action: Action, paths: Paths,
                                             hash: string -> string, fault: Option<Stage>)
    requires paths.Paths? && Chain([s, s1, s2])
    ensures Follows(s, RunMutation(s1, s2, op, action, paths, hash, fault))
  {
    assert [s] + [s1, s2] == [s, s1, s2];
    if fault == Some(AtMutation) {
      StopFollows(s, [s1, s2], s2, FailedAt(Some(paths.display)));
    } else {
      var s3 := Snapshot(ParentsMade(s2.tree, op, action), s2.entry);
      var s4 := Snapshot(Mutation(s2.tree, op, action).tree, s2.entry);
      ChangedStates(s, s1, s2, s3, s4);
      PostFollows(s, [s1, s2, s3, s4], s4, Mutation(s2.tree, op, action).Ok?, paths, hash, fault);
    }
  }

  lemma {:induction false} ChangedStates(s: Snapshot, s1: Snapshot, s2: Snapshot, s3: Snapshot, s4: Snapshot)
    requires Chain([s, s1, s2]) && s3.entry == s2.entry && s4.entry == s2.entry
    ensures Chain([s] + [s1, s2, s3, s4])
  {
    OneMoreStep([s, s1, s2], s3);
    assert [s, s1, s2] + [s3] == [s, s1, s2, s3];
    OneMoreStep([s, s1, s2, s3], s4);
    assert [s, s1, s2, s3] + [s4] == [s] + [s1, s2, s3, s4];
  }

  lemma {:induction false} PostFollows(s: Snapshot, passed: seq<Snapshot>, s4: Snapshot, changed: bool, paths: Paths,
                                       hash: string -> string, fault: Option<Stage>)
    requires paths.Paths? && Chain([s] + passed) && passed != [] && passed[|passed| - 1] == s4
    ensures Follows(s, RunPost(passed, s4, changed, paths, hash, fault))
  {
    var post := HashAt(s4.tree, paths.post, hash);
    if !changed || post.None? || fault == Some(AtPostHash) || paths.post == [] {
      StopFollows(s, passed, s4, FailedAt(Some(paths.display)));
    } else {
      var s5 := Snapshot(s4.tree, WithImage(s4.entry, paths.post, post.value, false));
      if fault == Some(AtPostimage) {
        StopFollows(s, passed, s5, FailedAt(Some(paths.display)));
      } else {
        OneMoreStep([s] + passed, s5);
        assert [s] + passed + [s5] == [s] + (passed + [s5]);
      }
    }
  }

  lemma {:induction false} PathsFollowOn(s: Snapshot, op: Operation, action: Action, paths: Paths, hash: string -> string, fault: Option<Stage>)
    requires paths.Paths?
    ensures Follows(s, RunPaths(s, op, action, paths, hash, fault))
  {
    var s1 := Snapshot(s.tree, WithOperation(s.entry, Logged(op, action, paths.display)));
    var pre := HashAt(s.tree, paths.pre, hash);
    NothingPassed(s);
    OneMoreStep([s], s1);
    assert [s] + [s1] == [s, s1];
    if fault == Some(AtAddOperation) {
      StopFollows(s, [], s1, FailedAt(Some(paths.display)));
    } else if pre.None? || fault == Some(AtPreHash) || paths.pre == [] {
      StopFollows(s, [s1], s1, FailedAt(Some(paths.display)));
    } else {
      var s2 := Snapshot(s.tree, WithImage(s1.entry, paths.pre, pre.value, true));
      if fault == Some(AtPreimage) {
        StopFollows(s, [s1], s2, FailedAt(Some(paths.display)));
      } else {
        OneMoreStep([s, s1], s2);
        assert [s, s1] + [s2] == [s, s1, s2];
        MutationFollowsOn(s, s1, s2, op, action, paths, hash, fault);
      }
    }
  }

  lemma {:induction false} NothingPassed(s: Snapshot)
    ensures [s] + [] == [s] && Chain([s])
  {}

  lemma {:induction false} OpFollowsOn(s: Snapshot, op: Operation, hash: string -> string, fault: Option<Stage>)
    ensures Follows(s, RunOp(s, op, hash, fault))
  {
    var action := NormalizeAction(s.tree, op);
    var paths := OperationPaths(op, action);
    NothingPassed(s);
    if fault == Some(AtContext) {
      StopFollows(s, [], s, Cancelled);
    } else if paths.NoPaths? || action.None? {
      StopFollows(s, [], s, FailedAt(if paths.NoPaths? then paths.shown else None));
    } else {
      PathsFollowOn(s, op, action.value, paths, hash, fault);
    }
  }

  ghost predicate Running(start: Snapshot, r: AllRun) {
    && r.passed != [] && r.passed[0] == start && r.passed[|r.passed| - 1] == r.last && Chain(r.passed)
  }

  lemma {:induction false} AddRuns(start: Snapshot, before: AllRun, op: Operation, hash: string -> string, fault: Option<Stage>)
    requires Running(start, before)
    ensures Running(start, AddRun(before, op, hash, fault))
  {
    if before.going {
      OpFollowsOn(before.last, op, hash, fault);
      AddRunPassed(before, op, hash, fault);
      ChainConcat(before.passed, before.last, RunOp(before.last, op, hash, fault).passed);
    } else {
      NotGoingOn(before, op, hash, fault);
    }
  }

  lemma {:induction false} RunAllRuns(start: Snapshot, ops: seq<Operation>, n: nat, hash: string -> string, faults: nat -> Option<Stage>)
    requires n <= |ops|
    ensures Running(start, RunAll(start, ops, n, hash, faults))
  {
    if n == 0 {
      NothingPassed(start);
    } else {
      RunAllRuns(start, ops, n - 1, hash, faults);
      RunAllMore(start, ops, n, hash, faults);
      AddRuns(start, RunAll(start, ops, n - 1, hash, faults), ops[n - 1], hash, faults(n - 1));
    }
  }

  lemma {:induction false} FinishRuns(start: Snapshot, r: AllRun)
    requires Running(start, r)
    ensures Running(start, Finish(r))
  {
    if r.going { OneMoreStep(r.passed, Finish(r).last); }
  }

  // ---- the disk along a run ----

  /** The entries in the journal when the change set is as in this state. */
  function WithEntry(m: Entries, s: Snapshot): Entries { m[s.entry.id := s.entry] }

  ghost predicate StorableWith(m: Entries, s: Snapshot) { Storable(m) && !Blank(s.entry.id) }

  /** The states of the disk while the journal is written for a state of the run,
      by a persist that fails there or not. */
  ghost function WritingStates(d: Disk, m: Entries, s: Snapshot, fault: Option<PersistStep>): seq<Disk>
    requires StorableWith(m, s)
  {
    PutIsStorable(m, s.entry);
    PersistStates(d, ListingOf(WithEntry(m, s)), fault)
  }

  /** The disk from one state of the run to the next. */
  ghost predicate Wrote(m: Entries, states: seq<Snapshot>, disks: seq<Disk>, i: nat)
    requires i + 1 < |states| && |disks| == |states|
  {
    StorableWith(m, states[i + 1]) &&
    disks[i + 1] == if states[i].entry == states[i + 1].entry then disks[i]
                    else LastState(disks[i], WritingStates(disks[i], m, states[i + 1], None))
  }

  /** The disks that belong to the states of a run, which starts with the change
      set in the journal. */
  ghost predicate DisksFollow(m: Entries, states: seq<Snapshot>, disks: seq<Disk>) {
    && states != [] && |disks| == |states| && StorableWith(m, states[0]) && Reopened(disks[0]) == WithEntry(m, states[0])
    && forall i: nat {:trigger Wrote(m, states, disks, i)} :: i + 1 < |states| ==> Wrote(m, states, disks, i)
  }

  lemma {:induction false} DiskKeepsUp(m: Entries, states: seq<Snapshot>, disks: seq<Disk>, i: nat)
    requires DisksFollow(m, states, disks) && Chain(states) && i < |states|
    ensures states[i].entry.id == states[0].entry.id && Reopened(disks[i]) == WithEntry(m, states[i])
  {
    if i > 0 {
      DiskKeepsUp(m, states, disks, i - 1);
      assert StepAt(states, i - 1) && Wrote(m, states, disks, i - 1);
      PutIsStorable(m, states[i].entry);
      CrashThenReopen(disks[i - 1], WithEntry(m, states[i]), None);
    }
  }

  /** Every path at which the project differs from the start is named in the
      change set, as reopening the journal gives it. */
  ghost predicate NamedOnDisk(start: Tree, t: Tree, id: string, d: Disk) {
    id in Reopened(d) && forall p {:trigger At(t, p)} :: At(t, p) != At(start, p) ==> Named(Reopened(d)[id], p)
  }

  lemma {:induction false} HonestOnDisk(start: Tree, s: Snapshot, entry: EntryValue, m: Entries, d: Disk)
    requires Honest(start, s) && NamesMore(s.entry, entry) && entry.id == s.entry.id && Reopened(d) == m[entry.id := entry]
    ensures NamedOnDisk(start, s.tree, s.entry.id, d)
  {
    HonestMore(start, s, Snapshot(s.tree, entry));
  }

  lemma {:induction false} CrashBetween(start: Tree, a: Snapshot, b: Snapshot, m: Entries, d: Disk, fault: Option<PersistStep>, x: Disk)
    requires Apart(a, b) && Honest(start, a) && Honest(start, b) && StorableWith(m, b) && Reopened(d) == WithEntry(m, a)
    requires x == d || x in WritingStates(d, m, b, fault)
    ensures NamedOnDisk(start, a.tree, a.entry.id, x) && NamedOnDisk(start, b.tree, a.entry.id, x)
  {
    PutIsStorable(m, b.entry);
    CrashThenReopen(d, WithEntry(m, b), fault);
    if Reopened(x) == WithEntry(m, b) {
      HonestOnDisk(start, a, b.entry, m, x);
      HonestOnDisk(start, b, b.entry, m, x);
    } else {
      HonestOnDisk(start, a, a.entry, m, x);
      if a.tree != b.tree { HonestOnDisk(start, b, a.entry, m, x); }
    }
  }

  /** A crash at any point of a run, between two of its states or while the
      journal is written for the next one, by a persist that goes through or
      fails: each path at which the project differs from the start is named in
      the change set that reopening the journal gives. */
  lemma {:induction false} WriteAheadOnDisk(start: Snapshot, ops: seq<Operation>, hash: string -> string, faults: nat -> Option<Stage>,
                                            m: Entries, disks: seq<Disk>, i: nat, fault: Option<PersistStep>, x: Disk)
    requires WellFormed(start.tree) && PreflightOK(start.tree, ops) && forall j :: 0 <= j < |ops| ==> !Patches(ops[j])
    requires
      var states := Finish(RunAll(start, ops, |ops|, hash, faults)).passed;
      && DisksFollow(m, states, disks) && i + 1 < |states| && StorableWith(m, states[i + 1])
      && (x == disks[i] || x in WritingStates(disks[i], m, states[i + 1], fault))
    ensures
      var states := Finish(RunAll(start, ops, |ops|, hash, faults)).passed;
      NamedOnDisk(start.tree, states[i].tree, start.entry.id, x) && NamedOnDisk(start.tree, states[i + 1].tree, start.entry.id, x)
  {
    WriteAhead(start, ops, hash, faults);
    RunAllRuns(start, ops, |ops|, hash, faults);
    FinishRuns(start, RunAll(start, ops, |ops|, hash, faults));
    var states := Finish(RunAll(start, ops, |ops|, hash, faults)).passed;
    DiskKeepsUp(m, states, disks, i);
    assert StepAt(states, i);
    CrashBetween(start.tree, states[i], states[i + 1], m, disks[i], fault, x);
  }
}
