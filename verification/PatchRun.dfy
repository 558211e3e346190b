/** What a run of the patch transaction amounts to: why it ends, what it leaves in
    the tree and the manifest, and what it leaves in the journal. */
module PatchRun {
  import opened Options
  import opened FileTree
  import opened PatchTransaction
  import opened PatchRollback
  import opened JournalModel
  import T = Text

  /** What goes wrong around one operation. */
  datatype StepFaults = StepFaults(cancelled: bool, call: Option<Stage>, manifest: bool,
                                   operation: Option<PersistStep>, images: Option<PersistStep>)

  datatype ApplyResult =
    | NotBegun
    | NoBackupDir
    | Cancelled(step: nat)
    | OperationFailed(step: nat)
    | ManifestFailed(step: nat)
    | JournalFailed(step: nat)
    | NotCompleted
    | Applied

  /** How far a run has come, after each action that counts. */
  datatype Progress = Progress(executed: nat, manifestEntries: nat, journalOperations: nat)

  function KindName(kind: Kind): string {
    match kind
    case WriteOp => "write"
    case CreateOp => "create"
    case AppendOp => "append"
    case DeleteOp => "delete"
    case RenameOp => "rename"
    case MkdirOp => "mkdir"
    case OtherOp(name) => name
  }

  predicate InStep(p: Progress) {
    p.executed - 1 <= p.journalOperations <= p.manifestEntries <= p.executed
  }

  /** The run stopped at the k-th operation. */
  predicate StopsAt(result: ApplyResult, k: nat) {
    result == Cancelled(k) || result == OperationFailed(k) || result == ManifestFailed(k) || result == JournalFailed(k)
  }

  /** The message an entry is marked failed with. */
  function Reason(result: ApplyResult): string {
    match result
    case NoBackupDir => "create rollback directory failed"
    case Cancelled(_) => "canceled"
    case OperationFailed(_) => "operation failed"
    case ManifestFailed(_) => "persist rollback manifest failed"
    case JournalFailed(_) => "record journal operation failed"
    case _ => ""
  }

  // ---- how far a run has come ----

  /** The counts after each action of a step: executed, manifest, journal. */
  function StepProgress(k: nat): seq<Progress> {
    [Progress(k + 1, k, k), Progress(k + 1, k + 1, k), Progress(k + 1, k + 1, k + 1)]
  }

  function Stepped(n: nat): seq<Progress> {
    if n == 0 then [Progress(0, 0, 0)] else Stepped(n - 1) + StepProgress(n - 1)
  }

  /** What one round of the loop adds, by how it stopped. */
  function Added(stop: Option<ApplyResult>, k: nat): seq<Progress> {
    if stop.Some? && (stop.value.Cancelled? || stop.value.OperationFailed?) then [] else [Progress(k + 1, k, k)] + Logged(stop, k)
  }

  /** What logging an executed operation adds. */
  function Logged(stop: Option<ApplyResult>, k: nat): seq<Progress> {
    if stop.Some? && stop.value.ManifestFailed? then [] else [Progress(k + 1, k + 1, k), Progress(k + 1, k + 1, k + 1)]
  }

  /** The counts after a round. */
  function CountsAfter(stop: Option<ApplyResult>, k: nat): Progress {
    if stop.None? || stop.value.JournalFailed? then Progress(k + 1, k + 1, k + 1)
    else if stop.value.ManifestFailed? then Progress(k + 1, k, k)
    else Progress(k, k, k)
  }

  /** The counts at the end of a run. */
  function FinalCounts(result: ApplyResult, total: nat): Progress {
    var n := ExecutedBy(result, total);
    if result.ManifestFailed? then Progress(n, n - 1, n - 1) else Progress(n, n, n)
  }

  /** All counts that a run with this result goes through, in order. */
  function ProgressOf(result: ApplyResult, total: nat): seq<Progress> {
    match result
    case NotBegun => []
    case NoBackupDir => Stepped(0)
    case Cancelled(k) => Stepped(k)
    case OperationFailed(k) => Stepped(k)
    case ManifestFailed(k) => Stepped(k) + [Progress(k + 1, k, k)]
    case JournalFailed(k) => Stepped(k + 1)
    case NotCompleted => Stepped(total)
    case Applied => Stepped(total)
  }

  lemma {:induction false} SteppedInStep(n: nat)
    ensures Stepped(n) != [] && Stepped(n)[|Stepped(n)| - 1] == Progress(n, n, n)
    ensures forall i :: 0 <= i < |Stepped(n)| ==> InStep(Stepped(n)[i])
  {
    if n > 0 { SteppedInStep(n - 1); }
  }

  /** Throughout every run, whatever its result, the journal has at most as many
      operations as the manifest, which has at most as many as were executed,
      and the journal is at most one behind; at the end both have all of them,
      unless the manifest could not be written. */
  lemma {:induction false} ProgressInStep(result: ApplyResult, total: nat)
    ensures forall i :: 0 <= i < |ProgressOf(result, total)| ==> InStep(ProgressOf(result, total)[i])
    ensures !result.NotBegun? ==>
      var all := ProgressOf(result, total);
      all != [] && all[|all| - 1] == FinalCounts(result, total)
  {
    match result {
      case NotBegun =>
      case NoBackupDir => SteppedInStep(0);
      case Cancelled(k) => SteppedInStep(k);
      case OperationFailed(k) => SteppedInStep(k);
      case ManifestFailed(k) => SteppedInStep(k);
      case JournalFailed(k) => SteppedInStep(k + 1);
      case _ => SteppedInStep(total);
    }
  }

  /** How many operations took effect in a run that ended with this result. */
  function ExecutedBy(result: ApplyResult, total: nat): nat {
    match result
    case NotBegun => 0
    case NoBackupDir => 0
    case Cancelled(k) => k
    case OperationFailed(k) => k
    case ManifestFailed(k) => k + 1
    case JournalFailed(k) => k + 1
    case NotCompleted => total
    case Applied => total
  }

  /** A run from t ended with `result`: exactly the first operations took
      effect, `tree` is what they (and a refused one) left, and `logged` are the
      records of those operations, but for one whose manifest was not written. */
  ghost predicate Ended(t: Tree, id: string, ops: seq<Operation>, steps: nat -> StepFaults,
                        result: ApplyResult, tree: Tree, logged: seq<Record>) {
    var n := ExecutedBy(result, |ops|);
    && n <= |ops|
    && ExecuteAll(t, id, ops[..n]).ok
    && (if result.OperationFailed? then
          && n < |ops|
          && Execute(ExecuteAll(t, id, ops[..n]).tree, id, n, ops[n], steps(n).call).Refused?
          && tree == Execute(ExecuteAll(t, id, ops[..n]).tree, id, n, ops[n], steps(n).call).tree
        else tree == ExecuteAll(t, id, ops[..n]).tree)
    && logged == if result.ManifestFailed? then ExecuteAll(t, id, ops[..n - 1]).log else ExecuteAll(t, id, ops[..n]).log
  }

  // ---- why a run ends ----

  /** A step in which nothing but an image or the operation itself can go wrong. */
  predicate Clean(faults: StepFaults) {
    !faults.cancelled && !faults.manifest && faults.operation.None?
  }

  /** How many steps went through before the run ended. */
  function StepsDone(result: ApplyResult, total: nat): nat {
    match result
    case NotBegun => 0
    case NoBackupDir => 0
    case Cancelled(k) => k
    case OperationFailed(k) => k
    case ManifestFailed(k) => k
    case JournalFailed(k) => k
    case NotCompleted => total
    case Applied => total
  }

  /** The result names the first thing that went wrong, if anything did. Whether an
      operation failed is said by what it leaves (`Ended`). */
  ghost predicate Warranted(result: ApplyResult, total: nat, steps: nat -> StepFaults) {
    && (forall i :: 0 <= i < StepsDone(result, total) ==> Clean(steps(i)))
    && match result
       case NotBegun => true
       case NoBackupDir => true
       case Cancelled(k) => steps(k).cancelled
       case OperationFailed(k) => !steps(k).cancelled
       case ManifestFailed(k) => !steps(k).cancelled && steps(k).manifest
       case JournalFailed(k) => !steps(k).cancelled && !steps(k).manifest && steps(k).operation.Some?
       case NotCompleted => steps(total).operation.Some?
       case Applied => steps(total).operation.None?
  }

  /** How one step stops the run, if it does. */
  function StopOf(faults: StepFaults, refused: bool, k: nat): Option<ApplyResult> {
    if faults.cancelled then Some(Cancelled(k))
    else if refused then Some(OperationFailed(k))
    else if faults.manifest then Some(ManifestFailed(k))
    else if faults.operation.Some? then Some(JournalFailed(k))
    else None
  }

  /** The result of a run of clean steps up to one that stops it. */
  lemma {:induction false} StopWarranted(stop: ApplyResult, refused: bool, k: nat, total: nat, steps: nat -> StepFaults)
    requires k < total && StopOf(steps(k), refused, k) == Some(stop) && forall i :: 0 <= i < k ==> Clean(steps(i))
    ensures StopsAt(stop, k) && StepsDone(stop, total) == k && Warranted(stop, total, steps)
  {}

  lemma {:induction false} OneMoreClean(refused: bool, k: nat, steps: nat -> StepFaults)
    requires StopOf(steps(k), refused, k).None? && forall i :: 0 <= i < k ==> Clean(steps(i))
    ensures forall i :: 0 <= i < k + 1 ==> Clean(steps(i))
  {}

  // ---- what a run leaves in the journal ----

  /** The project directory, the files that lie elsewhere, and SHA-256 as text. */
  datatype World = World(project: Path, elsewhere: map<Path, string>, digest: string -> string)

  /** The content of the file at an absolute path, inside the project or not. */
  function FileAt(t: Tree, w: World, at: Path): Option<string> {
    if w.project <= at then
      if IsFile(t, at[|w.project|..]) then Some(t[at[|w.project|..]].content) else None
    else if at in w.elsewhere then Some(w.elsewhere[at]) else None
  }

  /** The hash that is recorded for a place, if there is a file. */
  function HashAt(t: Tree, w: World, place: Place): Option<string> {
    var content := FileAt(t, w, place.at);
    if content.None? || place.key == [] || T.Blank(w.digest(content.value)) then None else Some(T.TrimSpace(w.digest(content.value)))
  }

  function WithHash(images: map<Path, string>, t: Tree, w: World, place: Place): map<Path, string> {
    var hash := HashAt(t, w, place);
    if hash.Some? then images[place.key := hash.value] else images
  }

  function WithHashes(images: map<Path, string>, t: Tree, w: World, op: Operation): map<Path, string> {
    var places := Imaged(w.project, op);
    var first := WithHash(images, t, w, places[0]);
    if |places| > 1 then WithHash(first, t, w, places[1]) else first
  }

  /** The tree in which the k-th operation starts. */
  function TreeBefore(t: Tree, id: string, ops: seq<Operation>, k: nat): Tree
    requires k <= |ops|
  {
    ExecuteAll(t, id, ops[..k]).tree
  }

  /** The hashes taken before each of the first n operations. */
  function Preimages(t: Tree, id: string, ops: seq<Operation>, w: World, n: nat): map<Path, string>
    requires n <= |ops|
  {
    if n == 0 then map[] else WithHashes(Preimages(t, id, ops, w, n - 1), TreeBefore(t, id, ops, n - 1), w, ops[n - 1])
  }

  /** The hashes taken after each of the first n operations. */
  function Postimages(t: Tree, id: string, ops: seq<Operation>, w: World, n: nat): map<Path, string>
    requires n <= |ops|
  {
    if n == 0 then map[] else WithHashes(Postimages(t, id, ops, w, n - 1), TreeBefore(t, id, ops, n), w, ops[n - 1])
  }

  function JournalOperation(op: Operation): OperationEntry {
    OperationEntry(KindName(op.kind), Some(op.text), op.description, true)
  }

  function JournalOperations(ops: seq<Operation>, n: nat): seq<OperationEntry>
    requires n <= |ops|
  {
    seq(n, i requires 0 <= i < n => JournalOperation(ops[i]))
  }

  /** An entry with so many operations logged, and so many with their images. */
  function EntryWith(begun: EntryValue, t: Tree, id: string, ops: seq<Operation>, w: World, logged: nat, read: nat, done: nat): EntryValue
    requires logged <= |ops| && read <= |ops| && done <= |ops|
  {
    begun.(operations := begun.operations + JournalOperations(ops, logged), preimages := Preimages(t, id, ops, w, read),
           postimages := Postimages(t, id, ops, w, done))
  }

  function ImageTaken(e: EntryValue, t: Tree, w: World, place: Place, preimage: bool): EntryValue {
    if preimage then e.(preimages := WithHash(e.preimages, t, w, place)) else e.(postimages := WithHash(e.postimages, t, w, place))
  }

  function ImagesTaken(e: EntryValue, t: Tree, w: World, op: Operation, preimage: bool): EntryValue {
    if preimage then e.(preimages := WithHashes(e.preimages, t, w, op)) else e.(postimages := WithHashes(e.postimages, t, w, op))
  }

  /** What one step does to the entry, by how it stopped. */
  function StepEntry(e: EntryValue, before: Tree, after: Tree, w: World, op: Operation, stop: Option<ApplyResult>): EntryValue {
    if stop.Some? && stop.value.Cancelled? then e
    else LogEntry(ImagesTaken(e, before, w, op, true), after, w, op, stop)
  }

  /** What logging an operation, if it comes to that, does to the entry. */
  function LogEntry(e: EntryValue, after: Tree, w: World, op: Operation, stop: Option<ApplyResult>): EntryValue {
    if stop.Some? && (stop.value.OperationFailed? || stop.value.ManifestFailed?) then e
    else
      var logged := WithOperation(e, JournalOperation(op));
      if stop.Some? then logged else ImagesTaken(logged, after, w, op, false)
  }

  /** How many operations had their preimages taken. */
  function PreimagesTaken(result: ApplyResult, total: nat): nat {
    StepsDone(result, total) + (if result.OperationFailed? || result.ManifestFailed? || result.JournalFailed? then 1 else 0)
  }

  /** The results a run over so many operations can have. */
  predicate Possible(result: ApplyResult, total: nat) {
    PreimagesTaken(result, total) <= total && FinalCounts(result, total).journalOperations <= total
  }

  /** The entry of a run at its end. */
  function EntryAfter(begun: EntryValue, t: Tree, id: string, ops: seq<Operation>, w: World, result: ApplyResult): EntryValue
    requires Possible(result, |ops|)
  {
    var logged, read := FinalCounts(result, |ops|).journalOperations, PreimagesTaken(result, |ops|);
    EntryWith(begun, t, id, ops, w, logged, read, StepsDone(result, |ops|)).(
      status := if result.Applied? || result.NotCompleted? then Completed else Failed,
      errorMessage := T.TrimSpace(Reason(result)))
  }

  /** How many operations the entry lists. */
  predicate ListsOperations(result: ApplyResult, total: nat, n: nat) {
    match result
    case NotBegun => n == 0
    case NoBackupDir => n == 0
    case Cancelled(k) => n == k
    case OperationFailed(k) => n == k
    case ManifestFailed(k) => n == k
    case JournalFailed(k) => n == k + 1
    case NotCompleted => n == total
    case Applied => n == total
  }

  /** A run that went through all its operations leaves its entry completed, any
      other failed, with a message. */
  lemma {:induction false} StatusExactly(begun: EntryValue, t: Tree, id: string, ops: seq<Operation>, w: World, result: ApplyResult)
    requires Possible(result, |ops|) && !result.NotBegun?
    ensures
      var e := EntryAfter(begun, t, id, ops, w, result);
      if result == Applied || result == NotCompleted then e.status == Completed && e.errorMessage == ""
      else e.status == Failed && e.errorMessage != ""
  {
    ReasonKept(result);
  }

  lemma {:induction false} ReasonKept(result: ApplyResult)
    ensures T.TrimSpace(Reason(result)) == Reason(result)
    ensures Reason(result) == "" <==> result.NotBegun? || result.NotCompleted? || result.Applied?
  {
    T.TrimSpaceOfTrimmed(Reason(result));
    ReasonTrimmed(result);
  }

  lemma {:induction false} ReasonTrimmed(result: ApplyResult)
    ensures Reason(result) == "" || (Reason(result)[0] in {'c', 'o', 'p', 'r'} && Reason(result)[|Reason(result)| - 1] == 'd')
  {}

  /** The entry lists the operations that took effect and were recorded, in order;
      what is neither status nor image of it is as it was begun. */
  lemma {:induction false} OperationsExactly(begun: EntryValue, t: Tree, id: string, ops: seq<Operation>, w: World, result: ApplyResult)
    requires Possible(result, |ops|) && begun.operations == []
    ensures
      var e := EntryAfter(begun, t, id, ops, w, result);
      && ListsOperations(result, |ops|, |e.operations|) && |e.operations| <= |ops|
      && (forall i :: 0 <= i < |e.operations| ==> e.operations[i] == OperationEntry(KindName(ops[i].kind), Some(ops[i].text), ops[i].description, true))
      && e.id == begun.id && e.workItemID == begun.workItemID && e.taskRunID == begun.taskRunID && e.timestamp == begun.timestamp
  {
    var n := FinalCounts(result, |ops|).journalOperations;
    OperationsListed(ops, n);
    var e := EntryAfter(begun, t, id, ops, w, result);
    assert e.operations == [] + JournalOperations(ops, n);
  }

  lemma {:induction false} OperationsListed(ops: seq<Operation>, n: nat)
    requires n <= |ops|
    ensures [] + JournalOperations(ops, n) == JournalOperations(ops, n) && |JournalOperations(ops, n)| == n
    ensures forall i :: 0 <= i < n ==> JournalOperations(ops, n)[i] == OperationEntry(KindName(ops[i].kind), Some(ops[i].text), ops[i].description, true)
  {}

  /** The file at an absolute path has this content. */
  ghost predicate FileHas(t: Tree, w: World, at: Path, content: string) {
    || (exists p :: at == w.project + p && At(t, p) == Some(File(content)))
    || (!(w.project <= at) && at in w.elsewhere && w.elsewhere[at] == content)
  }

  /** A place has a hash exactly when a file is there, with a key and a digest that
      is not blank; it is the digest of the content. */
  lemma {:induction false} HashExactly(t: Tree, w: World, place: Place, hash: string)
    ensures HashAt(t, w, place) == Some(hash) <==>
      place.key != [] && hash != "" && exists content :: FileHas(t, w, place.at, content) && hash == T.TrimSpace(w.digest(content))
  {
    var at := place.at;
    if w.project <= at {
      assert at == w.project + at[|w.project|..];
      forall p | at == w.project + p ensures p == at[|w.project|..] {}
    }
    var content := FileAt(t, w, at);
    forall c: string ensures FileHas(t, w, at, c) <==> content == Some(c) {}
  }

  lemma {:induction false} OneRead(begun: EntryValue, t: Tree, id: string, ops: seq<Operation>, w: World, k: nat)
    requires k < |ops|
    ensures ImagesTaken(EntryWith(begun, t, id, ops, w, k, k, k), TreeBefore(t, id, ops, k), w, ops[k], true)
      == EntryWith(begun, t, id, ops, w, k, k + 1, k)
  {}

  lemma {:induction false} OneLogged(begun: EntryValue, t: Tree, id: string, ops: seq<Operation>, w: World, k: nat)
    requires k < |ops|
    ensures WithOperation(EntryWith(begun, t, id, ops, w, k, k + 1, k), JournalOperation(ops[k])) == EntryWith(begun, t, id, ops, w, k + 1, k + 1, k)
  {
    assert begun.operations + JournalOperations(ops, k) + [JournalOperation(ops[k])] == begun.operations + JournalOperations(ops, k + 1);
  }

  lemma {:induction false} OneDone(begun: EntryValue, t: Tree, id: string, ops: seq<Operation>, w: World, k: nat)
    requires k < |ops|
    ensures ImagesTaken(EntryWith(begun, t, id, ops, w, k + 1, k + 1, k), TreeBefore(t, id, ops, k + 1), w, ops[k], false)
      == EntryWith(begun, t, id, ops, w, k + 1, k + 1, k + 1)
  {}

  /** A step that goes on. */
  lemma {:induction false} StepGoesOn(begun: EntryValue, t: Tree, id: string, ops: seq<Operation>, w: World, k: nat)
    requires k < |ops|
    ensures StepEntry(EntryWith(begun, t, id, ops, w, k, k, k), TreeBefore(t, id, ops, k), TreeBefore(t, id, ops, k + 1), w, ops[k], None)
      == EntryWith(begun, t, id, ops, w, k + 1, k + 1, k + 1)
  {
    OneRead(begun, t, id, ops, w, k);
    OneLogged(begun, t, id, ops, w, k);
    OneDone(begun, t, id, ops, w, k);
  }

  lemma {:induction false} LoggingStops(e: EntryValue, after: Tree, w: World, op: Operation, stop: ApplyResult)
    requires stop.OperationFailed? || stop.ManifestFailed? || stop.JournalFailed?
    ensures LogEntry(e, after, w, op, Some(stop)) == if stop.JournalFailed? then WithOperation(e, JournalOperation(op)) else e
  {}

  lemma {:induction false} StopNumbers(stop: ApplyResult, k: nat, total: nat)
    requires k < total && StopsAt(stop, k)
    ensures Possible(stop, total) && StepsDone(stop, total) == k
    ensures FinalCounts(stop, total).journalOperations == if stop.JournalFailed? then k + 1 else k
    ensures PreimagesTaken(stop, total) == if stop.Cancelled? then k else k + 1
  {}

  lemma {:induction false} AfterStop(begun: EntryValue, t: Tree, id: string, ops: seq<Operation>, w: World, k: nat, stop: ApplyResult)
    requires k < |ops| && StopsAt(stop, k)
    ensures Possible(stop, |ops|)
    ensures EntryAfter(begun, t, id, ops, w, stop)
      == WithStatus(EntryWith(begun, t, id, ops, w, if stop.JournalFailed? then k + 1 else k, if stop.Cancelled? then k else k + 1, k),
                    Failed, T.TrimSpace(Reason(stop)))
  {
    StopNumbers(stop, k, |ops|);
  }

  /** A step with which the run ends. */
  lemma {:induction false} StepEnds(begun: EntryValue, t: Tree, id: string, ops: seq<Operation>, w: World, k: nat, after: Tree,
                                    stop: ApplyResult)
    requires k < |ops| && StopsAt(stop, k)
    ensures Possible(stop, |ops|)
    ensures WithStatus(StepEntry(EntryWith(begun, t, id, ops, w, k, k, k), TreeBefore(t, id, ops, k), after, w, ops[k], Some(stop)),
                       Failed, T.TrimSpace(Reason(stop)))
      == EntryAfter(begun, t, id, ops, w, stop)
  {
    AfterStop(begun, t, id, ops, w, k, stop);
    if !stop.Cancelled? {
      OneRead(begun, t, id, ops, w, k);
      OneLogged(begun, t, id, ops, w, k);
      LoggingStops(EntryWith(begun, t, id, ops, w, k, k + 1, k), after, w, ops[k], stop);
    }
  }

  /** The entries are m but for the run's own, which is as after n whole steps. */
  ghost predicate Noted(m: Entries, now: Entries, t: Tree, id: string, ops: seq<Operation>, w: World, n: nat) {
    forall k {:trigger NotedAt(m, now, t, id, ops, w, n, k)} :: NotedAt(m, now, t, id, ops, w, n, k)
  }

  predicate NotedAt(m: Entries, now: Entries, t: Tree, id: string, ops: seq<Operation>, w: World, n: nat, k: string) {
    id in m && n <= |ops| && (k in now <==> k in m) && (k in m ==> now[k] == if k == id then EntryWith(m[id], t, id, ops, w, n, n, n) else m[k])
  }

  /** The entries are m but for the run's own, which is as at the end of a run. */
  ghost predicate Left(m: Entries, now: Entries, t: Tree, id: string, ops: seq<Operation>, w: World, result: ApplyResult) {
    forall k {:trigger LeftAt(m, now, t, id, ops, w, result, k)} :: LeftAt(m, now, t, id, ops, w, result, k)
  }

  predicate LeftAt(m: Entries, now: Entries, t: Tree, id: string, ops: seq<Operation>, w: World, result: ApplyResult, k: string) {
    && id in m && Possible(result, |ops|) && (k in now <==> k in m)
    && (k in m ==> now[k] == if k == id then EntryAfter(m[id], t, id, ops, w, result) else m[k])
  }

  lemma {:induction false} NotedPut(m: Entries, now: Entries, t: Tree, id: string, ops: seq<Operation>, w: World, n: nat)
    requires id in m && n <= |ops| && now == m[id := EntryWith(m[id], t, id, ops, w, n, n, n)]
    ensures Noted(m, now, t, id, ops, w, n)
  {
    forall k ensures NotedAt(m, now, t, id, ops, w, n, k) {}
  }

  lemma {:induction false} PutNoted(m: Entries, now: Entries, t: Tree, id: string, ops: seq<Operation>, w: World, n: nat)
    requires id in m && n <= |ops| && Noted(m, now, t, id, ops, w, n)
    ensures id in now && now == m[id := EntryWith(m[id], t, id, ops, w, n, n, n)]
  {
    assert NotedAt(m, now, t, id, ops, w, n, id);
    forall k | k != id ensures (k in now <==> k in m) && (k in m ==> now[k] == m[k]) { assert NotedAt(m, now, t, id, ops, w, n, k); }
  }

  lemma {:induction false} LeftPut(m: Entries, now: Entries, t: Tree, id: string, ops: seq<Operation>, w: World, result: ApplyResult)
    requires id in m && Possible(result, |ops|) && now == m[id := EntryAfter(m[id], t, id, ops, w, result)]
    ensures Left(m, now, t, id, ops, w, result)
  {
    forall k ensures LeftAt(m, now, t, id, ops, w, result, k) {}
  }

  lemma {:induction false} PutLeft(m: Entries, now: Entries, t: Tree, id: string, ops: seq<Operation>, w: World, result: ApplyResult)
    requires id in m && Possible(result, |ops|) && Left(m, now, t, id, ops, w, result)
    ensures now == m[id := EntryAfter(m[id], t, id, ops, w, result)]
  {
    forall k ensures (k in now <==> k in m) && (k in m ==> now[k] == if k == id then EntryAfter(m[id], t, id, ops, w, result) else m[k]) {
      assert LeftAt(m, now, t, id, ops, w, result, k);
    }
  }

  /** What a step leaves of the entry, marked failed if the run ends with it. */
  function StepLeft(e: EntryValue, before: Tree, after: Tree, w: World, op: Operation, stop: Option<ApplyResult>): EntryValue {
    var entry := StepEntry(e, before, after, w, op, stop);
    if stop.Some? then WithStatus(entry, Failed, T.TrimSpace(Reason(stop.value))) else entry
  }

  /** A step has done to the run's entry what it does, and nothing to the others. */
  ghost predicate Taken(before: Entries, after: Entries, id: string, t: Tree, tree: Tree, w: World, op: Operation, stop: Option<ApplyResult>) {
    forall k {:trigger TakenAt(before, after, id, t, tree, w, op, stop, k)} :: TakenAt(before, after, id, t, tree, w, op, stop, k)
  }

  predicate TakenAt(before: Entries, after: Entries, id: string, t: Tree, tree: Tree, w: World, op: Operation, stop: Option<ApplyResult>, k: string) {
    && (k in after <==> k in before)
    && (k in before ==> after[k] == if k == id then StepLeft(before[id], t, tree, w, op, stop) else before[k])
  }

  lemma {:induction false} TakenPut(before: Entries, after: Entries, id: string, t: Tree, tree: Tree, w: World, op: Operation,
                                    stop: Option<ApplyResult>)
    requires id in before && after == before[id := StepLeft(before[id], t, tree, w, op, stop)]
    ensures Taken(before, after, id, t, tree, w, op, stop)
  {
    forall k ensures TakenAt(before, after, id, t, tree, w, op, stop, k) {}
  }

  lemma {:induction false} PutTaken(before: Entries, after: Entries, id: string, t: Tree, tree: Tree, w: World, op: Operation,
                                    stop: Option<ApplyResult>)
    requires id in before && Taken(before, after, id, t, tree, w, op, stop)
    ensures after == before[id := StepLeft(before[id], t, tree, w, op, stop)]
  {
    forall k ensures (k in after <==> k in before) && (k in before ==> after[k] == if k == id then StepLeft(before[id], t, tree, w, op, stop) else before[k]) {
      assert TakenAt(before, after, id, t, tree, w, op, stop, k);
    }
  }

  /** The entries after a step that goes on. */
  lemma {:induction false} EntriesGoOn(m: Entries, before: Entries, after: Entries, t: Tree, id: string, ops: seq<Operation>, w: World, k: nat)
    requires id in m && id in before && k < |ops| && Noted(m, before, t, id, ops, w, k)
    requires Taken(before, after, id, TreeBefore(t, id, ops, k), TreeBefore(t, id, ops, k + 1), w, ops[k], None)
    ensures Noted(m, after, t, id, ops, w, k + 1)
  {
    PutTaken(before, after, id, TreeBefore(t, id, ops, k), TreeBefore(t, id, ops, k + 1), w, ops[k], None);
    PutNoted(m, before, t, id, ops, w, k);
    StepGoesOn(m[id], t, id, ops, w, k);
    PutTwice(m, id, before[id], after[id]);
    NotedPut(m, after, t, id, ops, w, k + 1);
  }

  /** The entries after a step with which the run ends. */
  lemma {:induction false} EntriesEnd(m: Entries, before: Entries, after: Entries, t: Tree, id: string, ops: seq<Operation>, w: World, k: nat,
                                      tree: Tree, stop: ApplyResult)
    requires id in m && id in before && k < |ops| && StopsAt(stop, k) && Noted(m, before, t, id, ops, w, k)
    requires Taken(before, after, id, TreeBefore(t, id, ops, k), tree, w, ops[k], Some(stop))
    ensures Possible(stop, |ops|) && Left(m, after, t, id, ops, w, stop)
  {
    PutTaken(before, after, id, TreeBefore(t, id, ops, k), tree, w, ops[k], Some(stop));
    PutNoted(m, before, t, id, ops, w, k);
    StepEnds(m[id], t, id, ops, w, k, tree, stop);
    PutTwice(m, id, before[id], after[id]);
    LeftPut(m, after, t, id, ops, w, stop);
  }

  lemma {:induction false} NoneNoted(m: Entries, t: Tree, id: string, ops: seq<Operation>, w: World)
    requires id in m && m[id].preimages == map[] && m[id].postimages == map[]
    ensures Noted(m, m, t, id, ops, w, 0)
  {
    NothingDone(m[id], t, id, ops, w);
    PutSame(m, id);
    NotedPut(m, m, t, id, ops, w, 0);
  }

  lemma {:induction false} AllLeft(m: Entries, before: Entries, after: Entries, t: Tree, id: string, ops: seq<Operation>, w: World, result: ApplyResult)
    requires id in m && id in before && Noted(m, before, t, id, ops, w, |ops|) && (result.Applied? || result.NotCompleted?)
    requires after == before[id := WithStatus(before[id], Completed, T.TrimSpace(""))]
    ensures Left(m, after, t, id, ops, w, result)
  {
    PutNoted(m, before, t, id, ops, w, |ops|);
    AllDone(m[id], t, id, ops, w, result);
    PutTwice(m, id, before[id], after[id]);
    LeftPut(m, after, t, id, ops, w, result);
  }

  lemma {:induction false} NothingDone(begun: EntryValue, t: Tree, id: string, ops: seq<Operation>, w: World)
    requires begun.preimages == map[] && begun.postimages == map[]
    ensures EntryWith(begun, t, id, ops, w, 0, 0, 0) == begun
    ensures WithStatus(begun, Failed, T.TrimSpace(Reason(NoBackupDir))) == EntryAfter(begun, t, id, ops, w, NoBackupDir)
  {
    assert begun.operations + [] == begun.operations;
    assert JournalOperations(ops, 0) == [];
  }

  lemma {:induction false} AllDone(begun: EntryValue, t: Tree, id: string, ops: seq<Operation>, w: World, result: ApplyResult)
    requires result.Applied? || result.NotCompleted?
    ensures WithStatus(EntryWith(begun, t, id, ops, w, |ops|, |ops|, |ops|), Completed, T.TrimSpace("")) == EntryAfter(begun, t, id, ops, w, result)
  {}

  lemma {:induction false} PutTwice(m: Entries, id: string, a: EntryValue, b: EntryValue)
    ensures m[id := a][id := b] == m[id := b]
  {}

  lemma {:induction false} PutSame(m: Entries, id: string)
    requires id in m
    ensures m[id := m[id]] == m
  {}

  /** Recording an image that the journal refuses, or that is not there, changes nothing. */
  lemma {:induction false} ImageTakenCases(m: Entries, id: string, t: Tree, w: World, place: Place, preimage: bool)
    requires id in m
    ensures HashAt(t, w, place).None? ==> m[id := ImageTaken(m[id], t, w, place, preimage)] == m
    ensures HashAt(t, w, place).Some? ==> ImageTaken(m[id], t, w, place, preimage) == WithImage(m[id], place.key, HashAt(t, w, place).value, preimage)
  {}

  predicate Stopped(result: ApplyResult) {
    result.Cancelled? || result.OperationFailed? || result.ManifestFailed? || result.JournalFailed?
  }

  // ---- what rolling back leaves in the journal ----

  const UNDO_FAILED := "rollback failed"

  function RolledBackEntry(e: EntryValue, undone: bool): EntryValue {
    e.(status := if undone then RolledBack else Failed, errorMessage := if undone then "" else T.TrimSpace(UNDO_FAILED))
  }

  /** Rolling back changes status and message only: rolled back if all could be
      undone, failed with a message otherwise. */
  lemma {:induction false} RolledBackExactly(e: EntryValue, undone: bool)
    ensures
      var after := RolledBackEntry(e, undone);
      && after.(status := e.status, errorMessage := e.errorMessage) == e
      && if undone then after.status == RolledBack && after.errorMessage == "" else after.status == Failed && after.errorMessage != ""
  {
    T.TrimSpaceOfTrimmed(UNDO_FAILED);
    assert UNDO_FAILED[0] == 'r' && UNDO_FAILED[|UNDO_FAILED| - 1] == 'd';
  }

  // ---- the images, operation by operation ----

  /** The hash an operation's places give a key: that of the last such place. */
  function HashFor(t: Tree, w: World, op: Operation, key: Path): Option<string> {
    var places := Imaged(w.project, op);
    if |places| > 1 && places[1].key == key && HashAt(t, w, places[1]).Some? then HashAt(t, w, places[1])
    else if places[0].key == key then HashAt(t, w, places[0])
    else None
  }

  lemma {:induction false} WithHashesAt(images: map<Path, string>, t: Tree, w: World, op: Operation, key: Path)
    ensures
      var after, hash := WithHashes(images, t, w, op), HashFor(t, w, op, key);
      if hash.Some? then key in after && after[key] == hash.value
      else (key in after <==> key in images) && (key in images ==> after[key] == images[key])
  {}

  /** A key's preimage is the hash of the file as the last operation that found
      one there found it; without such an operation it has none. */
  lemma {:induction false} PreimageIsLast(t: Tree, id: string, ops: seq<Operation>, w: World, n: nat, i: nat, key: Path)
    requires i <= n <= |ops|
    requires forall j :: i <= j < n ==> HashFor(TreeBefore(t, id, ops, j), w, ops[j], key).None?
    requires i == 0 || HashFor(TreeBefore(t, id, ops, i - 1), w, ops[i - 1], key).Some?
    ensures
      var images := Preimages(t, id, ops, w, n);
      if i == 0 then key !in images
      else key in images && Some(images[key]) == HashFor(TreeBefore(t, id, ops, i - 1), w, ops[i - 1], key)
  {
    if n > 0 {
      WithHashesAt(Preimages(t, id, ops, w, n - 1), TreeBefore(t, id, ops, n - 1), w, ops[n - 1], key);
      if i < n { PreimageIsLast(t, id, ops, w, n - 1, i, key); }
    }
  }

  /** A key's postimage is the hash of the file as the last operation that left
      one there left it. */
  lemma {:induction false} PostimageIsLast(t: Tree, id: string, ops: seq<Operation>, w: World, n: nat, i: nat, key: Path)
    requires i <= n <= |ops|
    requires forall j :: i <= j < n ==> HashFor(TreeBefore(t, id, ops, j + 1), w, ops[j], key).None?
    requires i == 0 || HashFor(TreeBefore(t, id, ops, i), w, ops[i - 1], key).Some?
    ensures
      var images := Postimages(t, id, ops, w, n);
      if i == 0 then key !in images
      else key in images && Some(images[key]) == HashFor(TreeBefore(t, id, ops, i), w, ops[i - 1], key)
  {
    if n > 0 {
      WithHashesAt(Postimages(t, id, ops, w, n - 1), TreeBefore(t, id, ops, n), w, ops[n - 1], key);
      if i < n { PostimageIsLast(t, id, ops, w, n - 1, i, key); }
    }
  }
}
