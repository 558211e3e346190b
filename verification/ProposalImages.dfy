/** Proposals whose operations touch different paths: what their change set
    records, and that a preflight without failures is a promise. */
module ProposalImages {
  import opened Options
  import opened Text
  import opened FileTree
  import opened JournalModel
  import opened Proposal
  import opened ProposalEngine
  import opened ProposalProofs
  import opened ProposalEffects

  /** All that the first n operations touch. */
  function DoneBy(ops: seq<Operation>, n: nat): set<Path>
    requires n <= |ops|
  {
    if n == 0 then {} else DoneBy(ops, n - 1) + Touched(ops[n - 1])
  }

  ghost predicate Separate(ops: seq<Operation>) {
    forall i, j :: 0 <= i < j < |ops| ==> Touched(ops[i]) !! Touched(ops[j])
  }

  lemma {:induction false} SeparateFromDone(ops: seq<Operation>, n: nat, k: nat)
    requires Separate(ops) && n <= k < |ops|
    ensures DoneBy(ops, n) !! Touched(ops[k])
  {
    if n > 0 { SeparateFromDone(ops, n - 1, k); }
  }

  lemma {:induction false} TouchedIsDone(ops: seq<Operation>, n: nat, j: nat)
    requires j < n <= |ops|
    ensures Touched(ops[j]) <= DoneBy(ops, n)
  {
    if j < n - 1 { TouchedIsDone(ops, n - 1, j); }
  }

  // ---- what the images say ----

  /** A rename's postimage at its target is its preimage at its source. */
  predicate RenameAgrees(e: EntryValue, op: Operation) {
    Renames(op) && op.path.Some? && op.target.To? && op.target.path in e.postimages ==>
      op.path.value in e.preimages && e.preimages[op.path.value] == e.postimages[op.target.path]
  }

  /** With n operations begun: nothing else has changed, and every preimage is
      the hash at the start. */
  ghost predicate Recorded(start: Tree, s: Snapshot, hash: string -> string, ops: seq<Operation>, n: nat)
    requires n <= |ops|
  {
    && ChangesOnly(start, s.tree, DoneBy(ops, n))
    && s.entry.preimages.Keys <= DoneBy(ops, n) && s.entry.postimages.Keys <= DoneBy(ops, n)
    && (forall p :: p in s.entry.preimages ==> HashAt(start, p, hash) == Some(s.entry.preimages[p]))
    && forall j :: 0 <= j < n ==> RenameAgrees(s.entry, ops[j])
  }

  /** The same while the n-th operation has no postimage yet. */
  ghost predicate Underway(start: Tree, s: Snapshot, hash: string -> string, ops: seq<Operation>, n: nat)
    requires 0 < n <= |ops|
  {
    Recorded(start, s, hash, ops, n) && s.entry.postimages.Keys !! Touched(ops[n - 1])
  }

  lemma {:induction false} BeginsNext(start: Tree, s: Snapshot, hash: string -> string, ops: seq<Operation>, n: nat)
    requires Separate(ops) && 0 < n <= |ops| && Recorded(start, s, hash, ops, n - 1)
    ensures Underway(start, s, hash, ops, n)
  {
    SeparateFromDone(ops, n - 1, n - 1);
    var op := ops[n - 1];
    assert Renames(op) && op.target.To? ==> op.target.path in Touched(op);
  }

  lemma {:induction false} SameImages(start: Tree, s: Snapshot, s': Snapshot, hash: string -> string, ops: seq<Operation>, n: nat)
    requires 0 < n <= |ops| && Underway(start, s, hash, ops, n) && s'.tree == s.tree
    requires s'.entry.preimages == s.entry.preimages && s'.entry.postimages == s.entry.postimages
    ensures Underway(start, s', hash, ops, n)
  {
    forall j | 0 <= j < n ensures RenameAgrees(s'.entry, ops[j]) { assert RenameAgrees(s.entry, ops[j]); }
  }

  lemma {:induction false} PreimageRecorded(start: Tree, s: Snapshot, hash: string -> string, ops: seq<Operation>, n: nat, p: Path, h: string)
    requires Separate(ops) && 0 < n <= |ops| && Underway(start, s, hash, ops, n)
    requires p in Touched(ops[n - 1]) && HashAt(start, p, hash) == Some(h)
    ensures Underway(start, Snapshot(s.tree, WithImage(s.entry, p, h, true)), hash, ops, n)
  {
    var e := WithImage(s.entry, p, h, true);
    TouchedIsDone(ops, n, n - 1);
    forall j | 0 <= j < n ensures RenameAgrees(e, ops[j]) {
      assert RenameAgrees(s.entry, ops[j]);
      if Renames(ops[j]) && ops[j].path.Some? && ops[j].target.To? {
        assert ops[j].path.value in Touched(ops[j]) && ops[j].target.path in Touched(ops[j]);
        if j < n - 1 { assert Touched(ops[j]) !! Touched(ops[n - 1]); }
      }
    }
  }

  lemma {:induction false} TreeChanged(start: Tree, s: Snapshot, tree: Tree, hash: string -> string, ops: seq<Operation>, n: nat)
    requires 0 < n <= |ops| && Underway(start, s, hash, ops, n) && ChangesOnly(s.tree, tree, Touched(ops[n - 1]))
    ensures Underway(start, Snapshot(tree, s.entry), hash, ops, n)
  {
    TouchedIsDone(ops, n, n - 1);
    forall p | p !in DoneBy(ops, n) ensures At(tree, p) == At(start, p) { assert At(tree, p) == At(s.tree, p); }
    SameImages(start, Snapshot(s.tree, s.entry), Snapshot(s.tree, s.entry), hash, ops, n);
  }

  lemma {:induction false} PostimageRecorded(start: Tree, s: Snapshot, hash: string -> string, ops: seq<Operation>, n: nat, q: Path, h: string)
    requires Separate(ops) && 0 < n <= |ops| && Underway(start, s, hash, ops, n) && q in Touched(ops[n - 1])
    requires
      var op := ops[n - 1];
      Renames(op) && op.path.Some? && op.target.To? ==>
        q == op.target.path && op.path.value in s.entry.preimages && s.entry.preimages[op.path.value] == h
    ensures Recorded(start, Snapshot(s.tree, WithImage(s.entry, q, h, false)), hash, ops, n)
  {
    var e := WithImage(s.entry, q, h, false);
    TouchedIsDone(ops, n, n - 1);
    forall j | 0 <= j < n ensures RenameAgrees(e, ops[j]) {
      assert RenameAgrees(s.entry, ops[j]);
      if j < n - 1 && Renames(ops[j]) && ops[j].path.Some? && ops[j].target.To? {
        assert ops[j].target.path in Touched(ops[j]);
        assert Touched(ops[j]) !! Touched(ops[n - 1]);
      }
    }
  }

  ghost predicate AllRecorded(start: Tree, passed: seq<Snapshot>, hash: string -> string, ops: seq<Operation>, n: nat)
    requires n <= |ops|
  {
    forall i :: 0 <= i < |passed| ==> Recorded(start, passed[i], hash, ops, n)
  }

  // ---- one operation ----

  /** After a rename the target has the hash the source had. */
  lemma {:induction false} RenameHash(t: Tree, op: Operation, hash: string -> string, action: Action)
    requires WellFormed(t) && SafeOp(t, op) && Renames(op) && NormalizeAction(t, op) == Some(action)
    requires Mutation(t, op, action).Ok?
    ensures HashAt(Mutation(t, op, action).tree, op.target.path, hash) == HashAt(t, op.path.value, hash)
  {
    var p, q := op.path.value, op.target.path;
    assert p in Touched(op) && q in Touched(op);
    FiledParents(t, q);
    if p != q { RenameMutation(t, op, p, q); } else { MoveSelf(t, p); }
  }

  lemma {:induction false} MutationRecorded(start: Tree, s1: Snapshot, s2: Snapshot, op: Operation, action: Action, paths: Paths,
                         hash: string -> string, fault: Option<Stage>, ops: seq<Operation>, n: nat)
    requires Separate(ops) && 0 < n <= |ops| && op == ops[n - 1]
    requires Underway(start, s1, hash, ops, n) && Underway(start, s2, hash, ops, n)
    requires WellFormed(s2.tree) && SafeOp(s2.tree, op) && NormalizeAction(s2.tree, op) == Some(action)
    requires paths == OperationPaths(op, Some(action)) && paths.Paths?
    requires paths.pre in s2.entry.preimages && HashAt(s2.tree, paths.pre, hash) == Some(s2.entry.preimages[paths.pre])
    ensures
      var r := RunMutation(s1, s2, op, action, paths, hash, fault);
      AllRecorded(start, r.passed, hash, ops, n) && Recorded(start, r.last, hash, ops, n)
  {
    var last := RunMutation(s1, s2, op, action, paths, hash, fault).last;
    if fault == Some(AtMutation) {
      FaultImages(s1, s2, op, action, paths, hash);
      SameImages(start, s2, last, hash, ops, n);
    } else {
      MutationFollows(s2.tree, op, action);
      MutationStates(s1, s2, op, action, paths, hash, fault);
      var s4 := Snapshot(Mutation(s2.tree, op, action).tree, s2.entry);
      TreeChanged(start, s2, s4.tree, hash, ops, n);
      LastRecorded(start, s1, s2, s4, op, action, paths, hash, fault, ops, n);
      RecordedRun(start, s1, s2, s4, last, hash, ops, n);
    }
  }

  lemma {:induction false} RecordedRun(start: Tree, s1: Snapshot, s2: Snapshot, s4: Snapshot, last: Snapshot, hash: string -> string,
                    ops: seq<Operation>, n: nat)
    requires 0 < n <= |ops| && Underway(start, s1, hash, ops, n) && Underway(start, s2, hash, ops, n)
    requires Underway(start, s4, hash, ops, n) && Recorded(start, last, hash, ops, n)
    ensures AllRecorded(start, [s1, s2, s2, s4, last], hash, ops, n)
  {}

  lemma {:induction false} FaultImages(s1: Snapshot, s2: Snapshot, op: Operation, action: Action, paths: Paths, hash: string -> string)
    requires paths.Paths?
    ensures
      var r := RunMutation(s1, s2, op, action, paths, hash, Some(AtMutation));
      && r.passed == [s1, s2, r.last] && r.last.tree == s2.tree
      && r.last.entry.preimages == s2.entry.preimages && r.last.entry.postimages == s2.entry.postimages
  {}

  lemma {:induction false} LastRecorded(start: Tree, s1: Snapshot, s2: Snapshot, s4: Snapshot, op: Operation, action: Action, paths: Paths,
                     hash: string -> string, fault: Option<Stage>, ops: seq<Operation>, n: nat)
    requires Separate(ops) && 0 < n <= |ops| && op == ops[n - 1] && fault != Some(AtMutation)
    requires Underway(start, s4, hash, ops, n) && s4 == Snapshot(Mutation(s2.tree, op, action).tree, s2.entry)
    requires WellFormed(s2.tree) && SafeOp(s2.tree, op) && NormalizeAction(s2.tree, op) == Some(action)
    requires paths == OperationPaths(op, Some(action)) && paths.Paths?
    requires paths.pre in s2.entry.preimages && HashAt(s2.tree, paths.pre, hash) == Some(s2.entry.preimages[paths.pre])
    ensures Recorded(start, RunMutation(s1, s2, op, action, paths, hash, fault).last, hash, ops, n)
  {
    var last, post := RunMutation(s1, s2, op, action, paths, hash, fault).last, HashAt(s4.tree, paths.post, hash);
    LastImages(s1, s2, op, action, paths, hash, fault);
    if Mutation(s2.tree, op, action).Ok? && post.Some? && fault != Some(AtPostHash) && paths.post != [] {
      PostRecorded(start, s2, s4, op, action, paths, hash, ops, n, post.value);
      SameImagesRecorded(start, Snapshot(s4.tree, WithImage(s4.entry, paths.post, post.value, false)), last, hash, ops, n);
    } else {
      SameImages(start, s4, last, hash, ops, n);
    }
  }

  /** The images of the last state of a mutation. */
  lemma {:induction false} LastImages(s1: Snapshot, s2: Snapshot, op: Operation, action: Action, paths: Paths, hash: string -> string,
                                      fault: Option<Stage>)
    requires paths.Paths? && fault != Some(AtMutation)
    ensures
      var last, t := RunMutation(s1, s2, op, action, paths, hash, fault).last, Mutation(s2.tree, op, action).tree;
      var post := HashAt(t, paths.post, hash);
      var e := if Mutation(s2.tree, op, action).Ok? && post.Some? && fault != Some(AtPostHash) && paths.post != []
               then WithImage(s2.entry, paths.post, post.value, false) else s2.entry;
      last.tree == t && last.entry.preimages == e.preimages && last.entry.postimages == e.postimages
  {
    var s3, s4 := Snapshot(ParentsMade(s2.tree, op, action), s2.entry), Snapshot(Mutation(s2.tree, op, action).tree, s2.entry);
    PostImages([s1, s2, s3, s4], s4, Mutation(s2.tree, op, action).Ok?, paths, hash, fault);
  }

  lemma {:induction false} PostImages(passed: seq<Snapshot>, s4: Snapshot, changed: bool, paths: Paths, hash: string -> string,
                                      fault: Option<Stage>)
    requires paths.Paths?
    ensures
      var last, post := RunPost(passed, s4, changed, paths, hash, fault).last, HashAt(s4.tree, paths.post, hash);
      var e := if changed && post.Some? && fault != Some(AtPostHash) && paths.post != []
               then WithImage(s4.entry, paths.post, post.value, false) else s4.entry;
      last.tree == s4.tree && last.entry.preimages == e.preimages && last.entry.postimages == e.postimages
  {}

  lemma {:induction false} PostRecorded(start: Tree, s2: Snapshot, s4: Snapshot, op: Operation, action: Action, paths: Paths,
                     hash: string -> string, ops: seq<Operation>, n: nat, h: string)
    requires Separate(ops) && 0 < n <= |ops| && op == ops[n - 1]
    requires Underway(start, s4, hash, ops, n) && s4 == Snapshot(Mutation(s2.tree, op, action).tree, s2.entry)
    requires WellFormed(s2.tree) && SafeOp(s2.tree, op) && NormalizeAction(s2.tree, op) == Some(action)
    requires paths == OperationPaths(op, Some(action)) && paths.Paths? && Mutation(s2.tree, op, action).Ok?
    requires paths.pre in s2.entry.preimages && HashAt(s2.tree, paths.pre, hash) == Some(s2.entry.preimages[paths.pre])
    requires HashAt(s4.tree, paths.post, hash) == Some(h)
    ensures Recorded(start, Snapshot(s4.tree, WithImage(s4.entry, paths.post, h, false)), hash, ops, n)
  {
    PathsTouched(s2.tree, op);
    if Renames(op) { RenameHash(s2.tree, op, hash, action); }
    PostimageRecorded(start, s4, hash, ops, n, paths.post, h);
  }

  lemma {:induction false} SameImagesRecorded(start: Tree, s: Snapshot, s': Snapshot, hash: string -> string, ops: seq<Operation>, n: nat)
    requires n <= |ops| && Recorded(start, s, hash, ops, n) && s'.tree == s.tree
    requires s'.entry.preimages == s.entry.preimages && s'.entry.postimages == s.entry.postimages
    ensures Recorded(start, s', hash, ops, n)
  {
    forall j | 0 <= j < n ensures RenameAgrees(s'.entry, ops[j]) { assert RenameAgrees(s.entry, ops[j]); }
  }

  lemma {:induction false} RunOpRecorded(start: Tree, s: Snapshot, op: Operation, hash: string -> string, fault: Option<Stage>, ops: seq<Operation>, n: nat)
    requires Separate(ops) && 0 < n <= |ops| && op == ops[n - 1]
    requires Recorded(start, s, hash, ops, n - 1) && WellFormed(s.tree) && SafeOp(s.tree, op)
    ensures
      var r := RunOp(s, op, hash, fault);
      AllRecorded(start, r.passed, hash, ops, n) && Recorded(start, r.last, hash, ops, n)
  {
    BeginsNext(start, s, hash, ops, n);
    PathsTouched(s.tree, op);
    var action := NormalizeAction(s.tree, op).value;
    var paths := OperationPaths(op, Some(action));
    if fault == Some(AtContext) {
      SameImages(start, s, RunOp(s, op, hash, fault).last, hash, ops, n);
    } else {
      HashUntouched(start, s.tree, paths.pre, hash, ops, n);
      RunPathsRecorded(start, s, op, action, paths, hash, fault, ops, n);
    }
  }

  lemma {:induction false} RunPathsRecorded(start: Tree, s: Snapshot, op: Operation, action: Action, paths: Paths, hash: string -> string,
                                            fault: Option<Stage>, ops: seq<Operation>, n: nat)
    requires Separate(ops) && 0 < n <= |ops| && op == ops[n - 1] && Underway(start, s, hash, ops, n)
    requires WellFormed(s.tree) && SafeOp(s.tree, op) && NormalizeAction(s.tree, op) == Some(action)
    requires paths == OperationPaths(op, Some(action)) && paths.Paths? && paths.pre in Touched(op)
    requires HashAt(s.tree, paths.pre, hash) == HashAt(start, paths.pre, hash)
    ensures
      var r := RunPaths(s, op, action, paths, hash, fault);
      AllRecorded(start, r.passed, hash, ops, n) && Recorded(start, r.last, hash, ops, n)
  {
    var r := RunPaths(s, op, action, paths, hash, fault);
    var s1 := Snapshot(s.tree, WithOperation(s.entry, Logged(op, action, paths.display)));
    SameImages(start, s, s1, hash, ops, n);
    var pre := HashAt(s.tree, paths.pre, hash);
    if fault == Some(AtAddOperation) || pre.None? || fault == Some(AtPreHash) || paths.pre == [] {
      SameImages(start, s1, r.last, hash, ops, n);
    } else {
      var s2 := Snapshot(s.tree, WithImage(s1.entry, paths.pre, pre.value, true));
      PreimageRecorded(start, s1, hash, ops, n, paths.pre, pre.value);
      if fault == Some(AtPreimage) {
        SameImages(start, s2, r.last, hash, ops, n);
      } else {
        MutationRecorded(start, s1, s2, op, action, paths, hash, fault, ops, n);
      }
    }
  }

  lemma {:induction false} HashUntouched(start: Tree, t: Tree, p: Path, hash: string -> string, ops: seq<Operation>, n: nat)
    requires Separate(ops) && 0 < n <= |ops| && ChangesOnly(start, t, DoneBy(ops, n - 1)) && p in Touched(ops[n - 1])
    ensures At(t, p) == At(start, p) && HashAt(t, p, hash) == HashAt(start, p, hash)
  {
    SeparateFromDone(ops, n - 1, n - 1);
    assert At(t, p) == At(start, p);
  }

  lemma {:induction false} RecordedLater(start: Tree, passed: seq<Snapshot>, hash: string -> string, ops: seq<Operation>, n: nat)
    requires Separate(ops) && 0 < n <= |ops| && AllRecorded(start, passed, hash, ops, n - 1)
    ensures AllRecorded(start, passed, hash, ops, n)
  {
    forall i | 0 <= i < |passed| ensures Recorded(start, passed[i], hash, ops, n) { BeginsNext(start, passed[i], hash, ops, n); }
  }

  lemma {:induction false} RecordedConcat(start: Tree, a: seq<Snapshot>, b: seq<Snapshot>, hash: string -> string, ops: seq<Operation>, n: nat)
    requires n <= |ops| && AllRecorded(start, a, hash, ops, n) && AllRecorded(start, b, hash, ops, n)
    ensures AllRecorded(start, a + b, hash, ops, n)
  {}

  /** One more operation begun, on what the ones before it leave. */
  lemma {:induction false} AddRecorded(start: Tree, before: AllRun, op: Operation, hash: string -> string, fault: Option<Stage>,
                                       ops: seq<Operation>, n: nat)
    requires Separate(ops) && 0 < n <= |ops| && op == ops[n - 1] && WellFormed(before.last.tree) && SafeOp(before.last.tree, op)
    requires AllRecorded(start, before.passed, hash, ops, n - 1) && Recorded(start, before.last, hash, ops, n - 1)
    ensures
      var r := AddRun(before, op, hash, fault);
      AllRecorded(start, r.passed, hash, ops, n) && Recorded(start, r.last, hash, ops, n)
  {
    RecordedLater(start, before.passed, hash, ops, n);
    if before.going {
      RunOpRecorded(start, before.last, op, hash, fault, ops, n);
      AddRunPassed(before, op, hash, fault);
      RecordedConcat(start, before.passed, RunOp(before.last, op, hash, fault).passed, hash, ops, n);
    } else {
      NotGoingOn(before, op, hash, fault);
      BeginsNext(start, before.last, hash, ops, n);
    }
  }

  /** The next operation is safe on what the ones before it leave. */
  lemma {:induction false} StillSafe(start: Snapshot, ops: seq<Operation>, n: nat, hash: string -> string, faults: nat -> Option<Stage>)
    requires WellFormed(start.tree) && 0 < n <= |ops| && AllSafe(start.tree, ops)
    ensures
      var before := RunAll(start, ops, n - 1, hash, faults);
      WellFormed(before.last.tree) && SafeOp(before.last.tree, ops[n - 1])
  {
    RunAllHonest(start, ops, n - 1, hash, faults);
    assert SafeAt(start.tree, ops, n - 1);
    SafeStays(start.tree, RunAll(start, ops, n - 1, hash, faults).last.tree, ops[n - 1]);
  }

  lemma {:induction false} RunAllRecorded(start: Snapshot, ops: seq<Operation>, n: nat, hash: string -> string, faults: nat -> Option<Stage>)
    requires WellFormed(start.tree) && Separate(ops) && n <= |ops| && AllSafe(start.tree, ops)
    requires start.entry.preimages == map[] && start.entry.postimages == map[]
    ensures
      var r := RunAll(start, ops, n, hash, faults);
      AllRecorded(start.tree, r.passed, hash, ops, n) && Recorded(start.tree, r.last, hash, ops, n)
  {
    if n > 0 {
      var before := RunAll(start, ops, n - 1, hash, faults);
      RunAllRecorded(start, ops, n - 1, hash, faults);
      StillSafe(start, ops, n, hash, faults);
      AddRecorded(start.tree, before, ops[n - 1], hash, faults(n - 1), ops, n);
    }
  }

  /** When the operations touch different paths, at every point of the run the
      recorded preimages are the hashes at the start, and a rename's recorded
      postimage is its source's preimage. */
  lemma {:induction false} ImagesAreInitial(start: Snapshot, ops: seq<Operation>, hash: string -> string, faults: nat -> Option<Stage>)
    requires WellFormed(start.tree) && PreflightOK(start.tree, ops) && Separate(ops)
    requires forall i :: 0 <= i < |ops| ==> !Patches(ops[i])
    requires start.entry.preimages == map[] && start.entry.postimages == map[]
    ensures AllRecorded(start.tree, Finish(RunAll(start, ops, |ops|, hash, faults)).passed, hash, ops, |ops|)
  {
    PreflightSafe(start.tree, ops);
    RunAllRecorded(start, ops, |ops|, hash, faults);
    FinishRecorded(start.tree, RunAll(start, ops, |ops|, hash, faults), hash, ops);
  }

  lemma {:induction false} FinishRecorded(start: Tree, r: AllRun, hash: string -> string, ops: seq<Operation>)
    requires AllRecorded(start, r.passed, hash, ops, |ops|) && Recorded(start, r.last, hash, ops, |ops|)
    ensures AllRecorded(start, Finish(r).passed, hash, ops, |ops|)
  {
    if r.going {
      SameImagesRecorded(start, r.last, Finish(r).last, hash, ops, |ops|);
      RecordedConcat(start, r.passed, [Finish(r).last], hash, ops, |ops|);
    }
  }

  // ---- preflight is a promise ----

  /** The content an operation needs is there at the start. */
  ghost predicate Usable(t: Tree, op: Operation) {
    var action := NormalizeAction(t, op);
    op.path.Some? && action.Some? &&
    match action.value
    case Create => ContentBytes(op).Some?
    case Append => ContentBytes(op).Some?
    case Write => TransformedContent(t, op.path.value, op).Some?
    case Replace => TransformedContent(t, op.path.value, op).Some?
    case Modify => TransformedContent(t, op.path.value, op).Some?
    case _ => true
  }

  function Display(op: Operation): Path
    requires op.path.Some?
  {
    if Renames(op) && op.target.To? then op.target.path else op.path.value
  }

  /** Trees that agree at what an operation touches. */
  ghost predicate AgreeAt(start: Tree, t: Tree, op: Operation) {
    forall p :: p in Touched(op) ==> At(t, p) == At(start, p)
  }

  lemma {:induction false} SameAction(start: Tree, t: Tree, op: Operation)
    requires op.path.Some? && !op.kind.ProjectSetting? && AgreeAt(start, t, op)
    ensures NormalizeAction(t, op) == NormalizeAction(start, op)
    ensures TransformedContent(t, op.path.value, op) == TransformedContent(start, op.path.value, op)
  {
    var p := op.path.value;
    assert At(t, p) == At(start, p);
  }

  /** What no failure and usable content mean for the file operations. */
  lemma {:induction false} ReadyFiles(start: Tree, op: Operation, action: Action)
    requires WellFormed(start) && PreflightOp(start, op) == Some([]) && !op.kind.ProjectSetting? && !Patches(op)
    requires NormalizeAction(start, op) == Some(action)
    ensures op.path.Some? && ((op.kind.SceneOp? || op.kind.ResourceOp?) ==> op.extension)
    ensures action.Create? ==> op.path.value !in start
    ensures !action.Create? && !action.Write? ==> IsFile(start, op.path.value)
    ensures action.Rename? ==> op.target.To? && op.target.path !in start
    ensures Allowed(op.kind, action) && !action.ApplyPatch?
  {
    FileChecks(start, op, action);
    WritableIsFiled(start, op.path.value, !action.Create? && !action.Write?);
  }

  lemma {:induction false} MutationSucceeds(start: Tree, t: Tree, op: Operation, action: Action)
    requires WellFormed(start) && WellFormed(t) && SameDirs(start, t) && AgreeAt(start, t, op)
    requires PreflightOp(start, op) == Some([]) && !op.kind.ProjectSetting? && !Patches(op) && Usable(start, op)
    requires NormalizeAction(start, op) == Some(action)
    ensures Mutation(t, op, action).Ok?
  {
    PreflightIsSafe(start, op);
    SafeStays(start, t, op);
    ReadyFiles(start, op, action);
    SameAction(start, t, op);
    var p := op.path.value;
    assert p in Touched(op) && At(t, p) == At(start, p);
    FiledParents(t, p);
    match action {
      case Create => WriteFiled(t, p, ContentBytes(op).value);
      case Append => WriteFiled(t, p, t[p].content + ContentBytes(op).value);
      case Write => TransformedWrite(t, op, p);
      case Replace => TransformedWrite(t, op, p);
      case Modify => TransformedWrite(t, op, p);
      case Delete => RemoveFiled(t, p);
      case Rename =>
        var q := op.target.path;
        assert q in Touched(op) && At(t, q) == At(start, q);
        RenameMutation(t, op, p, q);
      case _ =>
    }
  }

  lemma {:induction false} FiledHash(t: Tree, p: Path, hash: string -> string)
    requires Filed(t, p)
    ensures HashAt(t, p, hash).Some? && p != []
  {}

  lemma {:induction false} OpSucceeds(start: Tree, s: Snapshot, op: Operation, hash: string -> string)
    requires WellFormed(start) && WellFormed(s.tree) && SameDirs(start, s.tree) && AgreeAt(start, s.tree, op)
    requires PreflightOp(start, op) == Some([]) && !op.kind.ProjectSetting? && !Patches(op) && Usable(start, op)
    ensures NormalizeAction(s.tree, op) == NormalizeAction(start, op)
    ensures RunOp(s, op, hash, None).ending == Applied(Display(op))
  {
    PreflightIsSafe(start, op);
    SafeStays(start, s.tree, op);
    SameAction(start, s.tree, op);
    PathsTouched(s.tree, op);
    var action := NormalizeAction(s.tree, op).value;
    var paths := OperationPaths(op, Some(action));
    assert paths.pre in Touched(op) && paths.post in Touched(op) && paths.display == Display(op);
    FiledHash(s.tree, paths.pre, hash);
    MutationSucceeds(start, s.tree, op, action);
    MutationFollows(s.tree, op, action);
    assert Filed(Mutation(s.tree, op, action).tree, paths.post) by { FiledAfter(s.tree, Mutation(s.tree, op, action).tree, paths.post); }
    FiledHash(Mutation(s.tree, op, action).tree, paths.post, hash);
    AppliedEnding(s, op, action, paths, hash);
  }

  lemma {:induction false} FiledAfter(t: Tree, t': Tree, p: Path)
    requires Filed(t, p) && SameDirs(t, t')
    ensures Filed(t', p)
  {}

  lemma {:induction false} AppliedEnding(s: Snapshot, op: Operation, action: Action, paths: Paths, hash: string -> string)
    requires NormalizeAction(s.tree, op) == Some(action) && OperationPaths(op, Some(action)) == paths && paths.Paths?
    requires HashAt(s.tree, paths.pre, hash).Some? && paths.pre != [] && paths.post != []
    requires Mutation(s.tree, op, action).Ok? && HashAt(Mutation(s.tree, op, action).tree, paths.post, hash).Some?
    ensures RunOp(s, op, hash, None).ending == Applied(paths.display)
  {
    var s1 := Snapshot(s.tree, WithOperation(s.entry, Logged(op, action, paths.display)));
    var s2 := Snapshot(s.tree, WithImage(s1.entry, paths.pre, HashAt(s.tree, paths.pre, hash).value, true));
    MutationEnding(s1, s2, op, action, paths, hash);
    PathsEnding(s, s1, s2, op, action, paths, hash);
  }

  lemma {:induction false} MutationEnding(s1: Snapshot, s2: Snapshot, op: Operation, action: Action, paths: Paths, hash: string -> string)
    requires paths.Paths? && paths.post != []
    requires Mutation(s2.tree, op, action).Ok? && HashAt(Mutation(s2.tree, op, action).tree, paths.post, hash).Some?
    ensures RunMutation(s1, s2, op, action, paths, hash, None).ending == Applied(paths.display)
  {}

  lemma {:induction false} PathsEnding(s: Snapshot, s1: Snapshot, s2: Snapshot, op: Operation, action: Action, paths: Paths, hash: string -> string)
    requires paths.Paths? && paths.pre != [] && HashAt(s.tree, paths.pre, hash).Some?
    requires s1 == Snapshot(s.tree, WithOperation(s.entry, Logged(op, action, paths.display)))
    requires s2 == Snapshot(s.tree, WithImage(s1.entry, paths.pre, HashAt(s.tree, paths.pre, hash).value, true))
    ensures RunPaths(s, op, action, paths, hash, None) == RunMutation(s1, s2, op, action, paths, hash, None)
  {}

  /** What is shown for the first n operations, in order. */
  function Shown(ops: seq<Operation>, n: nat): seq<Path>
    requires n <= |ops| && forall i :: 0 <= i < |ops| ==> ops[i].path.Some?
  {
    seq(n, i requires 0 <= i < n => Display(ops[i]))
  }

  /** File operations, on different paths, with usable content. */
  ghost predicate Runnable(t: Tree, ops: seq<Operation>) {
    Separate(ops) && forall i :: 0 <= i < |ops| ==> !ops[i].kind.ProjectSetting? && !Patches(ops[i]) && Usable(t, ops[i])
  }

  /** What the ones before it leave for the n-th operation. */
  lemma {:induction false} NextState(start: Snapshot, ops: seq<Operation>, n: nat, hash: string -> string, faults: nat -> Option<Stage>)
    requires WellFormed(start.tree) && Separate(ops) && 0 < n <= |ops| && AllSafe(start.tree, ops)
    requires start.entry.preimages == map[] && start.entry.postimages == map[]
    ensures
      var s := RunAll(start, ops, n - 1, hash, faults).last;
      WellFormed(s.tree) && SameDirs(start.tree, s.tree) && AgreeAt(start.tree, s.tree, ops[n - 1])
  {
    RunAllHonest(start, ops, n - 1, hash, faults);
    RunAllRecorded(start, ops, n - 1, hash, faults);
    SeparateFromDone(ops, n - 1, n - 1);
    AgreeUntouched(start.tree, RunAll(start, ops, n - 1, hash, faults).last.tree, DoneBy(ops, n - 1), ops[n - 1]);
  }

  lemma {:induction false} AgreeUntouched(start: Tree, t: Tree, done: set<Path>, op: Operation)
    requires ChangesOnly(start, t, done) && done !! Touched(op)
    ensures AgreeAt(start, t, op)
  {}

  /** The i-th operation has passed preflight and can run. */
  ghost predicate Sound(t: Tree, ops: seq<Operation>, i: nat)
    requires i < |ops|
  {
    && PreflightOp(t, ops[i]) == Some([]) && !ops[i].kind.ProjectSetting? && !Patches(ops[i]) && Usable(t, ops[i])
  }

  ghost predicate AllSound(t: Tree, ops: seq<Operation>) {
    forall i: nat {:trigger Sound(t, ops, i)} :: i < |ops| ==> Sound(t, ops, i)
  }

  lemma {:induction false} SoundIsSafe(t: Tree, ops: seq<Operation>)
    requires WellFormed(t) && AllSound(t, ops)
    ensures AllSafe(t, ops)
  {
    forall i: nat | i < |ops| ensures SafeAt(t, ops, i) {
      assert Sound(t, ops, i);
      PreflightIsSafe(t, ops[i]);
    }
  }

  lemma {:induction false} NextSucceeds(start: Snapshot, ops: seq<Operation>, i: nat, hash: string -> string, faults: nat -> Option<Stage>)
    requires WellFormed(start.tree) && AllSound(start.tree, ops) && Separate(ops) && i < |ops|
    requires start.entry.preimages == map[] && start.entry.postimages == map[]
    ensures
      var s := RunAll(start, ops, i, hash, faults).last;
      && NormalizeAction(s.tree, ops[i]) == NormalizeAction(start.tree, ops[i])
      && ops[i].path.Some? && RunOp(s, ops[i], hash, None).ending == Applied(Display(ops[i]))
  {
    SoundIsSafe(start.tree, ops);
    NextState(start, ops, i + 1, hash, faults);
    SoundSucceeds(start.tree, RunAll(start, ops, i, hash, faults).last, ops, i, hash);
  }

  lemma {:induction false} SoundSucceeds(start: Tree, s: Snapshot, ops: seq<Operation>, i: nat, hash: string -> string)
    requires WellFormed(start) && WellFormed(s.tree) && SameDirs(start, s.tree) && i < |ops| && AgreeAt(start, s.tree, ops[i])
    requires AllSound(start, ops)
    ensures NormalizeAction(s.tree, ops[i]) == NormalizeAction(start, ops[i])
    ensures ops[i].path.Some? && RunOp(s, ops[i], hash, None).ending == Applied(Display(ops[i]))
  {
    assert Sound(start, ops, i);
    OpSucceeds(start, s, ops[i], hash);
  }

  /** So far every operation has been applied. */
  ghost predicate SoundSoFar(r: AllRun, ops: seq<Operation>, n: nat)
    requires n <= |ops| && forall i :: 0 <= i < |ops| ==> ops[i].path.Some?
  {
    r.going && r.failed == [] && r.applied == Shown(ops, n)
  }

  lemma {:induction false} SoundMore(before: AllRun, ops: seq<Operation>, n: nat, hash: string -> string)
    requires 0 < n <= |ops| && forall i :: 0 <= i < |ops| ==> ops[i].path.Some?
    requires SoundSoFar(before, ops, n - 1) && RunOp(before.last, ops[n - 1], hash, None).ending == Applied(Display(ops[n - 1]))
    ensures SoundSoFar(AddRun(before, ops[n - 1], hash, None), ops, n)
  {
    ShownMore(ops, n);
    AddApplied(before, ops[n - 1], hash);
  }

  /** The i-th operation takes one state of a run to the next, and succeeds. */
  ghost predicate Chained(runs: seq<AllRun>, ops: seq<Operation>, i: nat, hash: string -> string)
    requires i < |ops| && |runs| == |ops| + 1
  {
    && ops[i].path.Some? && runs[i + 1] == AddRun(runs[i], ops[i], hash, None)
    && RunOp(runs[i].last, ops[i], hash, None).ending == Applied(Display(ops[i]))
  }

  lemma {:induction false} RunsSound(runs: seq<AllRun>, ops: seq<Operation>, n: nat, hash: string -> string)
    requires n <= |ops| && |runs| == |ops| + 1 && forall i :: 0 <= i < |ops| ==> ops[i].path.Some?
    requires forall i: nat {:trigger Chained(runs, ops, i, hash)} :: i < |ops| ==> Chained(runs, ops, i, hash)
    requires SoundSoFar(runs[0], ops, 0)
    ensures SoundSoFar(runs[n], ops, n)
  {
    if n > 0 {
      RunsSound(runs, ops, n - 1, hash);
      assert Chained(runs, ops, n - 1, hash);
      SoundMore(runs[n - 1], ops, n, hash);
    }
  }

  lemma {:induction false} RunAllSound(start: Snapshot, ops: seq<Operation>, hash: string -> string, faults: nat -> Option<Stage>)
    requires WellFormed(start.tree) && AllSound(start.tree, ops) && Separate(ops)
    requires forall i :: 0 <= i < |ops| ==> ops[i].path.Some?
    requires start.entry.preimages == map[] && start.entry.postimages == map[] && forall i :: faults(i) == None
    ensures SoundSoFar(RunAll(start, ops, |ops|, hash, faults), ops, |ops|)
  {
    var runs := seq(|ops| + 1, i requires 0 <= i <= |ops| => RunAll(start, ops, i, hash, faults));
    forall i: nat | i < |ops| ensures Chained(runs, ops, i, hash) {
      NextSucceeds(start, ops, i, hash, faults);
      RunAllMore(start, ops, i + 1, hash, faults);
    }
    NothingShown(start, ops, hash, faults);
    RunsSound(runs, ops, |ops|, hash);
  }

  lemma {:induction false} NothingShown(start: Snapshot, ops: seq<Operation>, hash: string -> string, faults: nat -> Option<Stage>)
    requires forall i :: 0 <= i < |ops| ==> ops[i].path.Some?
    ensures SoundSoFar(RunAll(start, ops, 0, hash, faults), ops, 0)
  {}

  lemma {:induction false} ShownMore(ops: seq<Operation>, n: nat)
    requires 0 < n <= |ops| && forall i :: 0 <= i < |ops| ==> ops[i].path.Some?
    ensures Shown(ops, n) == Shown(ops, n - 1) + [Display(ops[n - 1])]
  {}

  lemma {:induction false} AddApplied(before: AllRun, op: Operation, hash: string -> string)
    requires before.going && RunOp(before.last, op, hash, None).ending.Applied?
    ensures
      var r := AddRun(before, op, hash, None);
      r.going && r.failed == before.failed && r.applied == before.applied + [RunOp(before.last, op, hash, None).ending.display]
  {}

  // ---- the project at the end ----

  /** At the paths that an operation touches, the project is as the operation by
      itself would leave it. */
  ghost predicate LeftAs(start: Tree, op: Operation, action: Action, final: Tree) {
    exists s: Tree :: Does(start, op, action, s) && SameAt(s, final, op)
  }

  ghost predicate SameAt(s: Tree, final: Tree, op: Operation) {
    forall q :: q in Touched(op) ==> At(final, q) == At(s, q)
  }

  lemma {:induction false} DoesOnly(t: Tree, op: Operation, action: Action, s: Tree)
    requires SafeOp(t, op) && NormalizeAction(t, op) == Some(action) && Does(t, op, action, s)
    ensures ChangesOnly(t, s, Touched(op))
  {
    PathsAre(t, op, action);
  }

  lemma {:induction false} LaterLeaves(start: Snapshot, ops: seq<Operation>, i: nat, n: nat, hash: string -> string, faults: nat -> Option<Stage>)
    requires WellFormed(start.tree) && AllSafe(start.tree, ops) && Separate(ops) && i < n <= |ops|
    ensures SameAt(RunAll(start, ops, i + 1, hash, faults).last.tree, RunAll(start, ops, n, hash, faults).last.tree, ops[i])
  {
    if n > i + 1 {
      LaterLeaves(start, ops, i, n - 1, hash, faults);
      StepChangesOnly(start, ops, n, hash, faults);
      assert Touched(ops[i]) !! Touched(ops[n - 1]);
    }
  }

  lemma {:induction false} StepChangesOnly(start: Snapshot, ops: seq<Operation>, n: nat, hash: string -> string, faults: nat -> Option<Stage>)
    requires WellFormed(start.tree) && AllSafe(start.tree, ops) && 0 < n <= |ops|
    ensures ChangesOnly(RunAll(start, ops, n - 1, hash, faults).last.tree, RunAll(start, ops, n, hash, faults).last.tree, Touched(ops[n - 1]))
  {
    var before, op := RunAll(start, ops, n - 1, hash, faults), ops[n - 1];
    RunDoes(start, ops, n, hash, faults);
    StillSafe(start, ops, n, hash, faults);
    var action := NormalizeAction(before.last.tree, op).value;
    if before.going && Reaches(faults(n - 1)) && Applicable(before.last.tree, op, action) {
      DoesOnly(before.last.tree, op, action, RunAll(start, ops, n, hash, faults).last.tree);
    }
  }

  /** Two trees that agree where an operation touches them agree there afterwards. */
  lemma {:induction false} MutationsAgree(start: Tree, t: Tree, op: Operation, action: Action)
    requires WellFormed(start) && WellFormed(t) && SafeOp(start, op) && SafeOp(t, op) && AgreeAt(start, t, op) && !op.kind.ProjectSetting?
    requires NormalizeAction(start, op) == Some(action) && NormalizeAction(t, op) == Some(action)
    requires Mutation(start, op, action).Ok? && Mutation(t, op, action).Ok?
    ensures SameAt(Mutation(start, op, action).tree, Mutation(t, op, action).tree, op)
  {
    var p := op.path.value;
    assert p in Touched(op) && Filed(start, p) && Filed(t, p) && At(t, p) == At(start, p);
    SameAction(start, t, op);
    PathsTouched(t, op);
    if action.Rename? {
      var q := op.target.path;
      assert q in Touched(op) && Filed(start, q) && Filed(t, q) && At(t, q) == At(start, q);
      RenamesAgree(start, t, op, p, q);
    } else if action.Delete? {
      RemoveFiled(start, p);
      RemoveFiled(t, p);
    } else {
      WritesAgree(start, t, op, action);
    }
  }

  lemma {:induction false} RenamesAgree(start: Tree, t: Tree, op: Operation, p: Path, q: Path)
    requires WellFormed(start) && WellFormed(t) && Filed(start, p) && Filed(t, p) && Filed(start, q) && Filed(t, q)
    requires op.target == To(q) && At(t, p) == At(start, p) && At(t, q) == At(start, q) && p in t
    ensures
      var a, b := ApplyFile(start, op, p, Action.Rename).tree, ApplyFile(t, op, p, Action.Rename).tree;
      At(a, p) == At(b, p) && At(a, q) == At(b, q)
  {
    FiledParents(start, q);
    FiledParents(t, q);
    if p == q {
      MoveSelf(start, p);
      MoveSelf(t, p);
    } else {
      RenameMutation(start, op, p, q);
      RenameMutation(t, op, p, q);
    }
  }

  /** What a file operation other than a deletion or a rename writes. */
  function WrittenContent(t: Tree, op: Operation, action: Action, p: Path): Option<string> {
    match action
    case Create => ContentBytes(op)
    case Append => if ContentBytes(op).Some? && IsFile(t, p) then Some(t[p].content + ContentBytes(op).value) else None
    case _ => TransformedContent(t, p, op)
  }

  lemma {:induction false} WritesAgree(start: Tree, t: Tree, op: Operation, action: Action)
    requires WellFormed(start) && WellFormed(t) && !op.kind.ProjectSetting? && op.path.Some? && !action.Rename? && !action.Delete?
    requires Filed(start, op.path.value) && Filed(t, op.path.value) && At(t, op.path.value) == At(start, op.path.value)
    requires Mutation(start, op, action).Ok? && Mutation(t, op, action).Ok?
    ensures At(Mutation(start, op, action).tree, op.path.value) == At(Mutation(t, op, action).tree, op.path.value)
  {
    OneWrite(start, op, action);
    OneWrite(t, op, action);
    assert WrittenContent(start, op, action, op.path.value) == WrittenContent(t, op, action, op.path.value);
  }

  lemma {:induction false} OneWrite(t: Tree, op: Operation, action: Action)
    requires WellFormed(t) && !op.kind.ProjectSetting? && op.path.Some? && !action.Rename? && !action.Delete? && Filed(t, op.path.value)
    requires Mutation(t, op, action).Ok?
    ensures
      var p := op.path.value;
      WrittenContent(t, op, action, p).Some? && At(Mutation(t, op, action).tree, p) == Some(File(WrittenContent(t, op, action, p).value))
  {
    var p := op.path.value;
    var content := WrittenContent(t, op, action, p);
    if content.Some? { WriteFiled(t, p, content.value); }
  }

  /** One operation, on the start and on a tree that agrees with it. */
  lemma {:induction false} OneLeft(start: Tree, t: Tree, op: Operation, action: Action)
    requires WellFormed(start) && WellFormed(t) && SameDirs(start, t) && AgreeAt(start, t, op) && NormalizeAction(start, op) == Some(action)
    requires PreflightOp(start, op) == Some([]) && !op.kind.ProjectSetting? && !Patches(op) && Usable(start, op)
    ensures NormalizeAction(t, op) == Some(action)
    ensures Does(start, op, action, Mutation(start, op, action).tree)
    ensures SameAt(Mutation(start, op, action).tree, Mutation(t, op, action).tree, op)
  {
    PreflightIsSafe(start, op);
    SafeStays(start, t, op);
    SameAction(start, t, op);
    MutationSucceeds(start, start, op, action);
    MutationSucceeds(start, t, op, action);
    MutationDoes(start, op, action);
    MutationsAgree(start, t, op, action);
  }

  lemma {:induction false} LeftLater(start: Tree, op: Operation, action: Action, t: Tree, final: Tree)
    requires Does(start, op, action, Mutation(start, op, action).tree)
    requires SameAt(Mutation(start, op, action).tree, t, op) && SameAt(t, final, op)
    ensures LeftAs(start, op, action, final)
  {
    var s := Mutation(start, op, action).tree;
    assert Does(start, op, action, s) && SameAt(s, final, op);
  }

  /** What the i-th operation of a run leaves where it touches. */
  lemma {:induction false} StepLeft(start: Snapshot, ops: seq<Operation>, i: nat, hash: string -> string, faults: nat -> Option<Stage>)
    requires WellFormed(start.tree) && AllSound(start.tree, ops) && AllSafe(start.tree, ops) && Separate(ops) && i < |ops|
    requires start.entry.preimages == map[] && start.entry.postimages == map[] && forall i :: faults(i) == None
    requires AllGoing(start, ops, hash, faults)
    ensures
      var action, op := NormalizeAction(start.tree, ops[i]), ops[i];
      && action.Some? && Does(start.tree, op, action.value, Mutation(start.tree, op, action.value).tree)
      && SameAt(Mutation(start.tree, op, action.value).tree, RunAll(start, ops, i + 1, hash, faults).last.tree, op)
  {
    assert Sound(start.tree, ops, i);
    NextState(start, ops, i + 1, hash, faults);
    StepIsMutation(start, ops, i, hash, faults);
    OneLeft(start.tree, RunAll(start, ops, i, hash, faults).last.tree, ops[i], NormalizeAction(start.tree, ops[i]).value);
  }

  lemma {:induction false} FinallyLeft(start: Snapshot, ops: seq<Operation>, i: nat, hash: string -> string, faults: nat -> Option<Stage>)
    requires WellFormed(start.tree) && AllSound(start.tree, ops) && AllSafe(start.tree, ops) && Separate(ops) && i < |ops|
    requires start.entry.preimages == map[] && start.entry.postimages == map[] && forall i :: faults(i) == None
    requires AllGoing(start, ops, hash, faults)
    ensures NormalizeAction(start.tree, ops[i]).Some?
    ensures LeftAs(start.tree, ops[i], NormalizeAction(start.tree, ops[i]).value, RunAll(start, ops, |ops|, hash, faults).last.tree)
  {
    StepLeft(start, ops, i, hash, faults);
    LaterLeaves(start, ops, i, |ops|, hash, faults);
    LeftLater(start.tree, ops[i], NormalizeAction(start.tree, ops[i]).value, RunAll(start, ops, i + 1, hash, faults).last.tree,
              RunAll(start, ops, |ops|, hash, faults).last.tree);
  }

  lemma {:induction false} GoingBefore(start: Snapshot, ops: seq<Operation>, n: nat, hash: string -> string, faults: nat -> Option<Stage>)
    requires 0 < n <= |ops| && RunAll(start, ops, n, hash, faults).going
    ensures RunAll(start, ops, n - 1, hash, faults).going
  {}

  predicate GoingAt(start: Snapshot, ops: seq<Operation>, i: nat, hash: string -> string, faults: nat -> Option<Stage>) {
    i <= |ops| ==> RunAll(start, ops, i, hash, faults).going
  }

  ghost predicate AllGoing(start: Snapshot, ops: seq<Operation>, hash: string -> string, faults: nat -> Option<Stage>) {
    forall i: nat {:trigger GoingAt(start, ops, i, hash, faults)} :: GoingAt(start, ops, i, hash, faults)
  }

  lemma {:induction false} GoingThroughout(start: Snapshot, ops: seq<Operation>, hash: string -> string, faults: nat -> Option<Stage>)
    requires RunAll(start, ops, |ops|, hash, faults).going
    ensures AllGoing(start, ops, hash, faults)
  {
    forall i: nat | i <= |ops| ensures GoingAt(start, ops, i, hash, faults) {
      for k := |ops| downto i
        invariant RunAll(start, ops, k, hash, faults).going
      {
        GoingBefore(start, ops, k + 1, hash, faults);
      }
    }
  }

  /** A step that goes through leaves what the mutation leaves. */
  lemma {:induction false} StepIsMutation(start: Snapshot, ops: seq<Operation>, i: nat, hash: string -> string, faults: nat -> Option<Stage>)
    requires WellFormed(start.tree) && AllSafe(start.tree, ops) && i < |ops| && faults(i).None?
    requires AllGoing(start, ops, hash, faults)
    ensures
      var t := RunAll(start, ops, i, hash, faults).last.tree;
      var action := NormalizeAction(t, ops[i]);
      action.Some? && RunAll(start, ops, i + 1, hash, faults).last.tree == Mutation(t, ops[i], action.value).tree
  {
    assert GoingAt(start, ops, i, hash, faults);
    StillSafe(start, ops, i + 1, hash, faults);
    RunAllMore(start, ops, i + 1, hash, faults);
    AddIsMutation(RunAll(start, ops, i, hash, faults), ops[i], hash);
  }

  lemma {:induction false} AddIsMutation(before: AllRun, op: Operation, hash: string -> string)
    requires before.going && WellFormed(before.last.tree) && SafeOp(before.last.tree, op)
    ensures
      var action := NormalizeAction(before.last.tree, op);
      action.Some? && AddRun(before, op, hash, None).last.tree == Mutation(before.last.tree, op, action.value).tree
  {
    PathsTouched(before.last.tree, op);
    RunIsMutation(before.last, op, NormalizeAction(before.last.tree, op).value, hash);
  }

  /** The project at the end of such a run. */
  lemma {:induction false} FinalTree(start: Snapshot, ops: seq<Operation>, hash: string -> string, faults: nat -> Option<Stage>)
    requires WellFormed(start.tree) && AllSound(start.tree, ops) && Separate(ops)
    requires start.entry.preimages == map[] && start.entry.postimages == map[] && forall i :: faults(i) == None
    requires RunAll(start, ops, |ops|, hash, faults).going
    ensures
      var final := Finish(RunAll(start, ops, |ops|, hash, faults)).last.tree;
      && ChangesOnly(start.tree, final, DoneBy(ops, |ops|))
      && forall i :: 0 <= i < |ops| ==>
           NormalizeAction(start.tree, ops[i]).Some? && LeftAs(start.tree, ops[i], NormalizeAction(start.tree, ops[i]).value, final)
  {
    var final := RunAll(start, ops, |ops|, hash, faults).last.tree;
    FinishDoes(RunAll(start, ops, |ops|, hash, faults));
    SoundIsSafe(start.tree, ops);
    OnlyDone(start, ops, hash, faults);
    GoingThroughout(start, ops, hash, faults);
    forall i | 0 <= i < |ops|
      ensures NormalizeAction(start.tree, ops[i]).Some? && LeftAs(start.tree, ops[i], NormalizeAction(start.tree, ops[i]).value, final)
    {
      FinallyLeft(start, ops, i, hash, faults);
    }
  }

  lemma {:induction false} OnlyDone(start: Snapshot, ops: seq<Operation>, hash: string -> string, faults: nat -> Option<Stage>)
    requires WellFormed(start.tree) && Separate(ops) && AllSafe(start.tree, ops)
    requires start.entry.preimages == map[] && start.entry.postimages == map[]
    ensures ChangesOnly(start.tree, RunAll(start, ops, |ops|, hash, faults).last.tree, DoneBy(ops, |ops|))
  {
    RunAllRecorded(start, ops, |ops|, hash, faults);
  }

  /** A preflight without failures keeps its word: on different paths, with
      usable content and no failing call, every operation is applied, in order,
      with the action that preflight saw, the change set is completed, and the
      project is what the operations ask for, and otherwise as it was. */
  lemma {:induction false} PreflightIsSound(start: Snapshot, ops: seq<Operation>, hash: string -> string, faults: nat -> Option<Stage>)
    requires WellFormed(start.tree) && PreflightOK(start.tree, ops) && Runnable(start.tree, ops)
    requires start.entry.preimages == map[] && start.entry.postimages == map[] && forall i :: faults(i) == None
    ensures
      var r := Finish(RunAll(start, ops, |ops|, hash, faults));
      && r.failed == [] && r.applied == Shown(ops, |ops|) && r.last.entry.status == Completed
    ensures forall i :: 0 <= i < |ops| ==>
      NormalizeAction(RunAll(start, ops, i, hash, faults).last.tree, ops[i]) == NormalizeAction(start.tree, ops[i])
    ensures
      var final := Finish(RunAll(start, ops, |ops|, hash, faults)).last.tree;
      && ChangesOnly(start.tree, final, DoneBy(ops, |ops|))
      && forall i :: 0 <= i < |ops| ==>
           NormalizeAction(start.tree, ops[i]).Some? && LeftAs(start.tree, ops[i], NormalizeAction(start.tree, ops[i]).value, final)
  {
    forall i: nat | i < |ops| ensures Sound(start.tree, ops, i) { assert PreflightOp(start.tree, ops[i]) == Some([]); }
    PromiseKept(start, ops, hash, faults);
  }

  lemma {:induction false} PromiseKept(start: Snapshot, ops: seq<Operation>, hash: string -> string, faults: nat -> Option<Stage>)
    requires WellFormed(start.tree) && AllSound(start.tree, ops) && Separate(ops)
    requires forall i :: 0 <= i < |ops| ==> ops[i].path.Some?
    requires start.entry.preimages == map[] && start.entry.postimages == map[] && forall i :: faults(i) == None
    ensures
      var r := Finish(RunAll(start, ops, |ops|, hash, faults));
      && r.failed == [] && r.applied == Shown(ops, |ops|) && r.last.entry.status == Completed
    ensures forall i :: 0 <= i < |ops| ==>
      NormalizeAction(RunAll(start, ops, i, hash, faults).last.tree, ops[i]) == NormalizeAction(start.tree, ops[i])
    ensures
      var final := Finish(RunAll(start, ops, |ops|, hash, faults)).last.tree;
      && ChangesOnly(start.tree, final, DoneBy(ops, |ops|))
      && forall i :: 0 <= i < |ops| ==>
           NormalizeAction(start.tree, ops[i]).Some? && LeftAs(start.tree, ops[i], NormalizeAction(start.tree, ops[i]).value, final)
  {
    RunAllSound(start, ops, hash, faults);
    FinalTree(start, ops, hash, faults);
    forall i | 0 <= i < |ops|
      ensures NormalizeAction(RunAll(start, ops, i, hash, faults).last.tree, ops[i]) == NormalizeAction(start.tree, ops[i])
    {
      NextSucceeds(start, ops, i, hash, faults);
    }
  }
}
