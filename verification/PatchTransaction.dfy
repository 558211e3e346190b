/** The bridge's undo-logged patch transaction: executing one operation,
    undoing one record, and why undoing the log backwards restores the tree. */
module PatchTransaction {
  import opened Options
  import opened FileTree
  import opened Text

  const ROLLBACK_ROOT: Path := [".echothink", "rollback"]

  datatype Kind = WriteOp | CreateOp | AppendOp | DeleteOp | RenameOp | MkdirOp | OtherOp(name: string)

  /** The old path of an operation, with its cleaned text. Only a rename's is
      checked: another kind's may name any place at all, by the absolute path `at`. */
  datatype OldPath = NoOldPath | Inside(text: Path, path: Path) | Unchecked(text: Path, at: Path)

  /** A validated operation; `text` is its path as it was written, cleaned.
      `content` is None when its base64 text is invalid. */
  datatype Operation = Operation(kind: Kind, text: Path, path: Path, oldPath: OldPath, content: Option<string>, description: string)

  /** A file whose hash is recorded: the journal's key for it, and where it is. */
  datatype Place = Place(key: Path, at: Path)

  /** The places an operation's images are taken from. */
  function Imaged(project: Path, op: Operation): seq<Place> {
    [Place(op.text, project + op.path)] +
    match op.oldPath
    case NoOldPath => []
    case Inside(text, p) => [Place(text, project + p)]
    case Unchecked(text, at) => [Place(text, at)]
  }

  datatype Record = Record(kind: Kind, path: Path, oldPath: Option<Path>, backup: Option<Path>, existed: bool, created: bool)

  /** Which operating-system call of an operation fails, if one does. */
  datatype Stage = AtStat | AtBackup | AtParents | AtMutation

  datatype ExecResult = Executed(tree: Tree, record: Record) | Refused(tree: Tree, error: Error)

  // ---- backup file names: "%03d.bak" ----

  function Number(s: string): int {
    if s == "" then 0 else 10 * Number(s[..|s| - 1]) + (s[|s| - 1] as int - '0' as int)
  }

  function Pad3(s: string): string {
    if |s| < 3 then seq(3 - |s|, _ => '0') + s else s
  }

  function BackupName(idx: nat): string {
    Pad3(Digits(idx)) + ".bak"
  }

  function BackupDir(id: string): Path {
    ROLLBACK_ROOT + [id]
  }

  function BackupPath(id: string, idx: nat): Path {
    BackupDir(id) + [BackupName(idx)]
  }

  lemma {:induction false} NumberOfDigits(n: nat)
    ensures Number(Digits(n)) == n
  {
    var d := Digits(n);
    if n >= 10 {
      NumberOfDigits(n / 10);
      assert d[..|d| - 1] == Digits(n / 10);
    }
  }

  lemma {:induction false} NumberOfPadded(s: string)
    ensures Number(Pad3(s)) == Number(s)
    decreases 3 - |s|
  {
    if |s| < 3 {
      var z := "0" + s;
      assert Pad3(s) == Pad3(z);
      NumberOfPadded(z);
      NumberOfZero(s);
    }
  }

  lemma {:induction false} NumberOfZero(s: string)
    ensures Number("0" + s) == Number(s)
  {
    var z := "0" + s;
    if s != "" {
      assert z[..|z| - 1] == "0" + s[..|s| - 1];
      NumberOfZero(s[..|s| - 1]);
    }
  }

  /** Distinct steps back up to distinct files. */
  lemma {:induction false} BackupNamesDistinct(i: nat, j: nat)
    requires BackupName(i) == BackupName(j)
    ensures i == j
  {
    var a, b := Pad3(Digits(i)), Pad3(Digits(j));
    assert a == BackupName(i)[..|BackupName(i)| - 4] == b;
    NumberOfDigits(i);
    NumberOfDigits(j);
    NumberOfPadded(Digits(i));
    NumberOfPadded(Digits(j));
  }

  /** At least three digits, with zeros in front if need be. */
  lemma {:induction false} BackupNameExactly(idx: nat) returns (zeros: nat)
    ensures BackupName(idx) == seq(zeros, _ => '0') + Digits(idx) + ".bak"
    ensures zeros == (if |Digits(idx)| < 3 then 3 - |Digits(idx)| else 0)
  {
    zeros := if |Digits(idx)| < 3 then 3 - |Digits(idx)| else 0;
    assert seq(0, _ => '0') + Digits(idx) == Digits(idx);
  }

  // ---- one operation ----

  function Execute(t: Tree, id: string, idx: nat, op: Operation, fault: Option<Stage>): ExecResult {
    var target := op.path;
    var stat := StatPath(t, target);
    if stat.Blocked? then Refused(t, NotDirectory)
    else if fault == Some(AtStat) then Refused(t, Fault)
    else
      var existed := stat.Found?;
      var record := Record(op.kind, target, None, None, existed, false);
      if existed && stat.node.File? then
        if fault == Some(AtBackup) then Refused(t, Fault)
        else
          match CopyFile(t, target, BackupPath(id, idx))
          case Fail(t1, e) => Refused(t1, e)
          case Ok(t1) => Mutate(t1, op, record.(backup := Some(BackupPath(id, idx))), fault)
      else
        Mutate(t, op, record, fault)
  }

  function Mutate(t: Tree, op: Operation, record: Record, fault: Option<Stage>): ExecResult {
    match op.kind
    case WriteOp => Put(t, op, record, fault)
    case CreateOp => Put(t, op, record, fault)
    case AppendOp => Put(t, op, record, fault)
    case DeleteOp =>
      if fault == Some(AtMutation) then Refused(t, Fault)
      else (
        match Remove(t, op.path)
        case Ok(t1) => Executed(t1, record)
        case Fail(t1, e) => if e == NotExist then Executed(t1, record) else Refused(t1, e)
      )
    case RenameOp => Relocate(t, op, record, fault)
    case MkdirOp =>
      if fault == Some(AtMutation) then Refused(t, Fault)
      else (
        match MkdirAll(t, op.path)
        case Fail(t1, e) => Refused(t1, e)
        case Ok(t1) => Executed(t1, record.(created := !record.existed))
      )
    case OtherOp(_) => Refused(t, Invalid)
  }

  /** rename. */
  function Relocate(t: Tree, op: Operation, record: Record, fault: Option<Stage>): ExecResult {
    if !op.oldPath.Inside? || op.oldPath.path !in t then Refused(t, NotExist)
    else if op.path in t then Refused(t, Exists)
    else if fault == Some(AtParents) then Refused(t, Fault)
    else
      match MkdirAll(t, Parent(op.path))
      case Fail(t1, e) => Refused(t1, e)
      case Ok(t1) =>
        if fault == Some(AtMutation) then Refused(t1, Fault)
        else
          match Rename(t1, op.oldPath.path, op.path)
          case Fail(t2, e) => Refused(t2, e)
          case Ok(t2) => Executed(t2, record.(oldPath := Some(op.oldPath.path)))
  }

  /** write, create and append. */
  function Put(t: Tree, op: Operation, record: Record, fault: Option<Stage>): ExecResult {
    if op.content.None? then Refused(t, Invalid)
    else if fault == Some(AtParents) then Refused(t, Fault)
    else
      match MkdirAll(t, Parent(op.path))
      case Fail(t1, e) => Refused(t1, e)
      case Ok(t1) =>
        if fault == Some(AtMutation) then Refused(t1, Fault)
        else
          match if op.kind.AppendOp? then AppendFile(t1, op.path, op.content.value) else WriteFile(t1, op.path, op.content.value)
          case Fail(t2, e) => Refused(t2, e)
          case Ok(t2) => Executed(t2, record.(created := !record.existed))
  }

  // ---- undoing one record ----

  function IgnoreMissing(o: Outcome): Outcome {
    if o.Fail? && o.error == NotExist then Ok(o.tree) else o
  }

  function UndoRecord(t: Tree, r: Record): Outcome {
    match r.kind
    case WriteOp => UndoPut(t, r)
    case CreateOp => UndoPut(t, r)
    case AppendOp => UndoPut(t, r)
    case DeleteOp => if r.backup.Some? then CopyFile(t, r.backup.value, r.path) else Ok(t)
    case RenameOp =>
      var source := if r.oldPath.Some? then r.oldPath.value else [];
      (match MkdirAll(t, Parent(source))
       case Fail(t1, e) => Fail(t1, e)
       case Ok(t1) => Rename(t1, r.path, source))
    case MkdirOp => if r.created then IgnoreMissing(Remove(t, r.path)) else Ok(t)
    case OtherOp(_) => Ok(t)
  }

  function UndoPut(t: Tree, r: Record): Outcome {
    if r.existed && r.backup.Some? then CopyFile(t, r.backup.value, r.path)
    else if r.created then IgnoreMissing(Remove(t, r.path))
    else Ok(t)
  }

  /** Undoes a log from its last record to its first, stopping at a failure. */
  function UndoAll(t: Tree, log: seq<Record>): Outcome
    decreases |log|
  {
    if log == [] then Ok(t)
    else
      match UndoRecord(t, log[|log| - 1])
      case Fail(t1, e) => Fail(t1, e)
      case Ok(t1) => UndoAll(t1, log[..|log| - 1])
  }

  // ---- what counts as restored ----

  predicate InRollbackRoot(p: Path) { ROLLBACK_ROOT <= p }

  /** The path is the rollback root, inside it, or one of its ancestors. */
  predicate Touches(p: Path) { ROLLBACK_ROOT <= p || p <= ROLLBACK_ROOT }

  ghost predicate SameOutside(t: Tree, s: Tree) {
    forall p :: !InRollbackRoot(p) ==> At(t, p) == At(s, p)
  }

  ghost predicate SameInside(t: Tree, s: Tree) {
    forall p :: InRollbackRoot(p) ==> At(t, p) == At(s, p)
  }

  /** What the caller can check before a step: it keeps away from the rollback
      root, its target's directory exists, and it deletes no directory. */
  predicate Recoverable(t: Tree, op: Operation) {
    && KeepsAway(op)
    && (op.kind.DeleteOp? || IsDir(t, Parent(op.path)))
    && !(op.kind.DeleteOp? && IsDir(t, op.path))
  }

  predicate KeepsAway(op: Operation) {
    !Touches(op.path) && (op.oldPath.Inside? ==> !Touches(op.oldPath.path))
  }

  /** The transaction has set up its backup directory. */
  ghost predicate Ready(t: Tree, id: string) {
    WellFormed(t) && IsDir(t, BackupDir(id))
  }

  // ---- executing one operation ----

  /** The tree after the backup that precedes the mutation. */
  function WithBackup(t: Tree, id: string, idx: nat, p: Path): Tree {
    if IsFile(t, p) then t[BackupPath(id, idx) := t[p]] else t
  }

  function FirstRecord(t: Tree, id: string, idx: nat, op: Operation): Record {
    Record(op.kind, op.path, None, if IsFile(t, op.path) then Some(BackupPath(id, idx)) else None, op.path in t, false)
  }

  lemma {:induction false} BackupDirFacts(id: string, idx: nat)
    ensures Parent(BackupPath(id, idx)) == BackupDir(id)
    ensures InRollbackRoot(BackupPath(id, idx)) && InRollbackRoot(BackupDir(id))
    ensures BackupPath(id, idx) != []
  {
    assert BackupPath(id, idx) == ROLLBACK_ROOT + [id, BackupName(idx)];
    assert BackupPath(id, idx)[..|ROLLBACK_ROOT|] == ROLLBACK_ROOT;
    assert BackupDir(id)[..|ROLLBACK_ROOT|] == ROLLBACK_ROOT;
  }

  /** Everything but this step's backup file is as before. */
  ghost predicate SameButBackup(t: Tree, s: Tree, id: string, idx: nat) {
    forall p :: InRollbackRoot(p) && p != BackupPath(id, idx) ==> At(s, p) == At(t, p)
  }

  /** Up to the mutation, only the backup file can have been written. */
  lemma {:induction false} ExecuteBacksUpFirst(t: Tree, id: string, idx: nat, op: Operation, fault: Option<Stage>)
    requires Ready(t, id)
    ensures
      var t1 := WithBackup(t, id, idx, op.path);
      var result := Execute(t, id, idx, op, fault);
      || (result.Refused? && result.tree == t)
      || (result == Mutate(t1, op, FirstRecord(t, id, idx, op), fault) && Ready(t1, id)
          && SameOutside(t, t1) && SameButBackup(t, t1, id, idx)
          && (IsFile(t, op.path) ==> At(t1, BackupPath(id, idx)) == Some(t[op.path])))
  {
    BackupDirFacts(id, idx);
    MkdirAllExisting(t, BackupDir(id));
    if IsFile(t, op.path) {
      WriteKeepsWellFormed(t, BackupPath(id, idx), t[op.path].content);
    }
  }

  /** A path away from the rollback root is neither inside it nor below which
      anything of it lies. */
  lemma {:induction false} AwayFromRoot(p: Path, q: Path)
    requires !Touches(p) && p <= q
    ensures !InRollbackRoot(q)
  {}

  // ---- no operation or undo ever breaks the tree ----

  lemma {:induction false} ExecuteKeepsWellFormed(t: Tree, id: string, idx: nat, op: Operation, fault: Option<Stage>)
    requires WellFormed(t)
    ensures WellFormed(Execute(t, id, idx, op, fault).tree)
  {
    CopyKeepsWellFormed(t, op.path, BackupPath(id, idx));
    var stat := StatPath(t, op.path);
    var record := Record(op.kind, op.path, None, None, stat.Found?, false);
    if stat.Found? && stat.node.File? {
      MutateKeepsWellFormed(CopyFile(t, op.path, BackupPath(id, idx)).tree, op, record.(backup := Some(BackupPath(id, idx))), fault);
    } else {
      MutateKeepsWellFormed(t, op, record, fault);
    }
  }

  lemma {:induction false} MutateKeepsWellFormed(t: Tree, op: Operation, record: Record, fault: Option<Stage>)
    requires WellFormed(t)
    ensures WellFormed(Mutate(t, op, record, fault).tree)
  {
    match op.kind
    case DeleteOp => RemoveKeepsWellFormed(t, op.path);
    case MkdirOp => MkdirKeepsWellFormed(t, op.path);
    case RenameOp => RelocateKeepsWellFormed(t, op, record, fault);
    case OtherOp(_) =>
    case WriteOp => PutKeepsWellFormed(t, op, record, fault);
    case CreateOp => PutKeepsWellFormed(t, op, record, fault);
    case AppendOp => PutKeepsWellFormed(t, op, record, fault);
  }

  lemma {:induction false} RelocateCases(t: Tree, op: Operation, record: Record, fault: Option<Stage>)
    requires op.oldPath.Inside?
    ensures
      var made := MkdirAll(t, Parent(op.path)).tree;
      var result := Relocate(t, op, record, fault).tree;
      result == t || result == made || result == Rename(made, op.oldPath.path, op.path).tree
  {}

  lemma {:induction false} RelocateKeepsWellFormed(t: Tree, op: Operation, record: Record, fault: Option<Stage>)
    requires WellFormed(t)
    ensures WellFormed(Relocate(t, op, record, fault).tree)
  {
    if op.oldPath.Inside? {
      MkdirKeepsWellFormed(t, Parent(op.path));
      RenameKeepsWellFormed(MkdirAll(t, Parent(op.path)).tree, op.oldPath.path, op.path);
      RelocateCases(t, op, record, fault);
    }
  }

  lemma {:induction false} PutKeepsWellFormed(t: Tree, op: Operation, record: Record, fault: Option<Stage>)
    requires WellFormed(t)
    ensures WellFormed(Put(t, op, record, fault).tree)
  {
    MkdirKeepsWellFormed(t, Parent(op.path));
    var t1 := MkdirAll(t, Parent(op.path)).tree;
    if op.content.Some? {
      var content := if op.kind.AppendOp? && IsFile(t1, op.path) then t1[op.path].content + op.content.value else op.content.value;
      WriteKeepsWellFormed(t1, op.path, content);
    }
  }

  lemma {:induction false} UndoKeepsWellFormed(t: Tree, r: Record)
    requires WellFormed(t)
    ensures WellFormed(UndoRecord(t, r).tree)
  {
    match r.kind
    case DeleteOp => if r.backup.Some? { CopyKeepsWellFormed(t, r.backup.value, r.path); }
    case MkdirOp => RemoveKeepsWellFormed(t, r.path);
    case RenameOp =>
      var source := if r.oldPath.Some? then r.oldPath.value else [];
      MkdirKeepsWellFormed(t, Parent(source));
      RenameKeepsWellFormed(MkdirAll(t, Parent(source)).tree, r.path, source);
    case OtherOp(_) =>
    case _ =>
      RemoveKeepsWellFormed(t, r.path);
      if r.backup.Some? { CopyKeepsWellFormed(t, r.backup.value, r.path); }
  }

  lemma {:induction false} UndoAllKeepsWellFormed(t: Tree, log: seq<Record>)
    requires WellFormed(t)
    ensures WellFormed(UndoAll(t, log).tree)
    decreases |log|
  {
    if log != [] {
      UndoKeepsWellFormed(t, log[|log| - 1]);
      UndoAllKeepsWellFormed(UndoRecord(t, log[|log| - 1]).tree, log[..|log| - 1]);
    }
  }
}
