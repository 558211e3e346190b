/** The change-set journal: entries kept in memory, written whole to one file
    by an atomic replace after every change. */
module JournalModel {
  import opened Options
  import opened Text
  import opened FileTree

  datatype Status = InProgress | Completed | Failed | RolledBack

  /** An operation as the journal keeps it; without a path if its text is blank. */
  datatype OperationEntry = OperationEntry(kind: string, path: Option<Path>, description: string, reversible: bool)

  datatype EntryValue = EntryValue(id: string, workItemID: string, taskRunID: string, timestamp: string,
                                   operations: seq<OperationEntry>, preimages: map<Path, string>,
                                   postimages: map<Path, string>, status: Status, errorMessage: string)

  type Entries = map<string, EntryValue>

  function NewEntry(id: string, workItemID: string, taskRunID: string, timestamp: string): EntryValue {
    EntryValue(id, TrimSpace(workItemID), TrimSpace(taskRunID), timestamp, [], map[], map[], InProgress, "")
  }

  datatype JournalError = TypeRequired | PathRequired | HashRequired | IDRequired | NotFound | PersistFailed

  /** The steps of one persist, any of which may fail. */
  datatype PersistStep = CreateTemp | WriteTemp | SyncTemp | CloseTemp | ReplaceFile

  /** What a crash would leave: the journal file and a temporary file. An entry
      that is null in the file is one without an ID here; loading skips both. */
  datatype Disk = Disk(file: Option<seq<EntryValue>>, temp: Option<Temp>)

  datatype Temp = Partial | Whole(entries: seq<EntryValue>)

  // ---- the order of a listing ----

  predicate Before(a: EntryValue, b: EntryValue) {
    if a.timestamp == b.timestamp then Less(a.id, b.id) else Less(a.timestamp, b.timestamp)
  }

  lemma {:induction false} BeforeTransitive(a: EntryValue, b: EntryValue, c: EntryValue)
    requires Before(a, b) && Before(b, c)
    ensures Before(a, c)
  {
    if a.timestamp == b.timestamp && b.timestamp == c.timestamp { LessTransitive(a.id, b.id, c.id); }
    else if a.timestamp != b.timestamp && b.timestamp != c.timestamp {
      LessTransitive(a.timestamp, b.timestamp, c.timestamp);
      LessAsymmetric(a.timestamp, b.timestamp);
    }
  }

  predicate Sorted(s: seq<EntryValue>) {
    forall i, j :: 0 <= i < j < |s| ==> Before(s[i], s[j])
  }

  /** Entries under their own IDs, none of them blank. */
  ghost predicate Storable(m: Entries) {
    forall k {:trigger StorableAt(m, k)} :: StorableAt(m, k)
  }

  predicate StorableAt(m: Entries, k: string) {
    k in m ==> m[k].id == k && !Blank(k)
  }

  /** An ID that survives the trimming of a lookup. */
  predicate UsableID(k: string) { Trimmed(k) && k != "" }

  /** s lists every entry of m once, in order. */
  ghost predicate Lists(s: seq<EntryValue>, m: Entries) {
    && Sorted(s)
    && (forall i :: 0 <= i < |s| ==> s[i].id in m && m[s[i].id] == s[i])
    && (forall k {:trigger Listed(s, k)} :: k in m ==> Listed(s, k))
  }

  ghost predicate Listed(s: seq<EntryValue>, k: string) {
    exists i :: 0 <= i < |s| && s[i].id == k
  }

  lemma {:induction false} BeforeIrreflexive(a: EntryValue)
    ensures !Before(a, a)
  {
    LessAsymmetric(a.timestamp, a.timestamp);
    LessAsymmetric(a.id, a.id);
  }

  lemma {:induction false} SortedIdsDiffer(s: seq<EntryValue>, m: Entries)
    requires Lists(s, m)
    ensures forall i, j :: 0 <= i < j < |s| ==> s[i].id != s[j].id
  {
    forall i, j | 0 <= i < j < |s| ensures s[i].id != s[j].id {
      BeforeIrreflexive(s[i]);
    }
  }

  lemma {:induction false} FirstIsFirst(a: seq<EntryValue>, b: seq<EntryValue>, m: Entries)
    requires Lists(a, m) && Lists(b, m) && a != [] && b != []
    ensures a[0] == b[0]
  {
    assert Listed(b, a[0].id) && Listed(a, b[0].id);
    var i :| 0 <= i < |b| && b[i].id == a[0].id;
    var j :| 0 <= j < |a| && a[j].id == b[0].id;
    if i > 0 && j > 0 {
      assert Before(b[0], b[i]) && Before(a[0], a[j]);
      LessAsymmetric(a[0].timestamp, b[0].timestamp);
      LessAsymmetric(a[0].id, b[0].id);
    }
  }

  lemma {:induction false} TailLists(s: seq<EntryValue>, m: Entries)
    requires Lists(s, m) && s != []
    ensures Lists(s[1..], m - {s[0].id})
  {
    SortedIdsDiffer(s, m);
    forall k | k in m && k != s[0].id ensures Listed(s[1..], k) {
      assert Listed(s, k);
      var i :| 0 <= i < |s| && s[i].id == k;
      assert s[1..][i - 1].id == k;
    }
  }

  /** Whatever order the entries were collected in, the sorted listing is the same. */
  lemma {:induction false} ListingIsUnique(a: seq<EntryValue>, b: seq<EntryValue>, m: Entries)
    requires Lists(a, m) && Lists(b, m)
    ensures a == b
    decreases |a|
  {
    if a == [] || b == [] {
      assert a != [] ==> Listed(b, a[0].id);
      assert b != [] ==> Listed(a, b[0].id);
    } else {
      FirstIsFirst(a, b, m);
      TailLists(a, m);
      TailLists(b, m);
      ListingIsUnique(a[1..], b[1..], m - {a[0].id});
      assert a == [a[0]] + a[1..] && b == [b[0]] + b[1..];
    }
  }

  function Insert(e: EntryValue, s: seq<EntryValue>): (r: seq<EntryValue>)
    ensures forall x :: x in r <==> x == e || x in s
  {
    if s == [] then [e]
    else if Before(e, s[0]) then [e] + s
    else [s[0]] + Insert(e, s[1..])
  }

  lemma {:induction false} InsertSorted(e: EntryValue, s: seq<EntryValue>)
    requires Sorted(s) && forall x :: x in s ==> x.id != e.id
    ensures Sorted(Insert(e, s))
  {
    if s != [] {
      if Before(e, s[0]) {
        forall j | 0 < j < |s| ensures Before(e, s[j]) { BeforeTransitive(e, s[0], s[j]); }
      } else {
        assert s[0] in s;
        LessTotal(e.id, s[0].id);
        LessTotal(e.timestamp, s[0].timestamp);
        forall x | x in s[1..] ensures x in s && Before(s[0], x) { var i :| 1 <= i < |s| && s[i] == x; }
        InsertSorted(e, s[1..]);
        forall x | x in Insert(e, s[1..]) ensures Before(s[0], x) {}
      }
    }
  }

  function SortEntries(s: seq<EntryValue>): (r: seq<EntryValue>)
    ensures forall x :: x in r <==> x in s
  {
    if s == [] then [] else Insert(s[0], SortEntries(s[1..]))
  }

  lemma {:induction false} SortEntriesSorts(s: seq<EntryValue>)
    requires forall i, j :: 0 <= i < j < |s| ==> s[i].id != s[j].id
    ensures Sorted(SortEntries(s))
  {
    if s != [] {
      SortEntriesSorts(s[1..]);
      InsertSorted(s[0], SortEntries(s[1..]));
    }
  }

  /** What opening a journal file puts in memory. */
  function Loaded(s: seq<EntryValue>): Entries {
    LoadedFirst(s, |s|)
  }

  function LoadedFirst(s: seq<EntryValue>, n: nat): Entries
    requires n <= |s|
  {
    if n == 0 then map[]
    else if Blank(s[n - 1].id) then LoadedFirst(s, n - 1)
    else LoadedFirst(s, n - 1)[s[n - 1].id := s[n - 1]]
  }

  lemma {:induction false} LoadedHas(s: seq<EntryValue>, n: nat, i: nat)
    requires i < n <= |s|
    requires !Blank(s[i].id)
    requires forall j :: i < j < n ==> s[j].id != s[i].id
    ensures s[i].id in LoadedFirst(s, n) && LoadedFirst(s, n)[s[i].id] == s[i]
  {
    if i < n - 1 { LoadedHas(s, n - 1, i); }
  }

  lemma {:induction false} LoadedOnlyHas(s: seq<EntryValue>, n: nat, k: string)
    requires n <= |s| && k in LoadedFirst(s, n)
    ensures exists i :: 0 <= i < n && s[i].id == k
  {
    if k != s[n - 1].id { LoadedOnlyHas(s, n - 1, k); }
  }

  /** The last entry in a file with this ID. */
  ghost predicate LastOf(s: seq<EntryValue>, n: nat, i: nat, k: string) {
    i < n <= |s| && s[i].id == k && forall j :: i < j < n ==> s[j].id != k
  }

  /** Of the entries with one ID the last counts; those without one are skipped. */
  lemma {:induction false} LoadedExactly(s: seq<EntryValue>, n: nat, k: string) returns (last: Option<nat>)
    requires n <= |s|
    ensures last == None ==> forall i :: 0 <= i < n ==> s[i].id != k
    ensures last.Some? ==> LastOf(s, n, last.value, k)
    ensures k in LoadedFirst(s, n) <==> !Blank(k) && last.Some?
    ensures k in LoadedFirst(s, n) ==> LoadedFirst(s, n)[k] == s[last.value]
  {
    last := None;
    if n > 0 {
      last := LoadedExactly(s, n - 1, k);
      if s[n - 1].id == k { last := Some(n - 1); }
    }
  }

  lemma {:induction false} UsableNotBlank(k: string)
    requires UsableID(k)
    ensures !Blank(k) && TrimSpace(k) == k
  {
    TrimSpaceOfTrimmed(k);
  }

  /** Reopening the journal from a listing of its entries gives those entries. */
  lemma {:induction false} ReopenRecovers(s: seq<EntryValue>, m: Entries)
    requires Lists(s, m) && Storable(m)
    ensures Loaded(s) == m
  {
    SortedIdsDiffer(s, m);
    forall k | k in m ensures k in Loaded(s) && Loaded(s)[k] == m[k] {
      assert Listed(s, k);
      var i :| 0 <= i < |s| && s[i].id == k;
      assert StorableAt(m, k);
      LoadedHas(s, |s|, i);
    }
    forall k | k in Loaded(s) ensures k in m {
      LoadedOnlyHas(s, |s|, k);
    }
  }

  lemma {:induction false} PutIsStorable(m: Entries, v: EntryValue)
    requires Storable(m) && !Blank(v.id)
    ensures Storable(m[v.id := v])
  {
    var more := m[v.id := v];
    forall k ensures StorableAt(more, k) { assert StorableAt(m, k); }
  }

  lemma {:induction false} LessIsStorable(m: Entries, k: string)
    requires Storable(m)
    ensures Storable(m - {k})
  {
    forall l ensures StorableAt(m - {k}, l) { assert StorableAt(m, l); }
  }

  /** Loading any file, sorted or not, gives entries under their own IDs. */
  lemma {:induction false} LoadedIsStorable(s: seq<EntryValue>, n: nat)
    requires n <= |s|
    ensures Storable(LoadedFirst(s, n))
  {
    if n > 0 {
      LoadedIsStorable(s, n - 1);
      if !Blank(s[n - 1].id) { PutIsStorable(LoadedFirst(s, n - 1), s[n - 1]); }
    }
  }

  // ---- one persist ----

  lemma {:induction false} ListingExists(m: Entries)
    requires Storable(m)
    ensures exists s :: Lists(s, m)
    decreases m.Keys
  {
    if m == map[] {
      assert Lists([], m);
    } else {
      var k :| k in m;
      LessIsStorable(m, k);
      ListingExists(m - {k});
      var s :| Lists(s, m - {k});
      InsertLists(m, k, s);
    }
  }

  lemma {:induction false} InsertLists(m: Entries, k: string, s: seq<EntryValue>)
    requires Storable(m) && k in m && Lists(s, m - {k})
    ensures Lists(Insert(m[k], s), m)
  {
    var r := Insert(m[k], s);
    assert StorableAt(m, k);
    InsertSorted(m[k], s);
    forall i | 0 <= i < |r| ensures r[i].id in m && m[r[i].id] == r[i] {
      assert r[i] in r;
    }
    forall l | l in m ensures Listed(r, l) {
      if l == k {
        assert m[k] in r;
      } else {
        assert Listed(s, l);
        var i :| 0 <= i < |s| && s[i].id == l;
        assert s[i] in r;
      }
    }
  }

  /** The one listing of the entries. */
  ghost function ListingOf(m: Entries): (s: seq<EntryValue>)
    requires Storable(m)
    ensures Lists(s, m)
  {
    ListingExists(m);
    var s :| Lists(s, m);
    s
  }

  /** The states of the disk that one persist goes through, in order. */
  function PersistStates(d: Disk, listing: seq<EntryValue>, fault: Option<PersistStep>): seq<Disk> {
    var torn, whole := d.(temp := Some(Partial)), d.(temp := Some(Whole(listing)));
    match fault
    case Some(CreateTemp) => []
    case Some(WriteTemp) => [torn, d.(temp := None)]
    case Some(_) => [torn, whole, d.(temp := None)]
    case None => [torn, whole, Disk(Some(listing), None)]
  }

  function LastState(d: Disk, states: seq<Disk>): Disk {
    if states == [] then d else states[|states| - 1]
  }

  /** What opening the journal on such a disk gives. */
  function Reopened(d: Disk): Entries {
    if d.file.Some? then Loaded(d.file.value) else map[]
  }

  /** Whatever a crash during a persist leaves, reopening gives what it gave
      before, until the file is replaced; then it gives the entries written. */
  lemma {:induction false} CrashThenReopen(d: Disk, m: Entries, fault: Option<PersistStep>)
    requires Storable(m)
    ensures
      var states := PersistStates(d, ListingOf(m), fault);
      && (forall i :: 0 <= i < |states| ==> Reopened(states[i]) == if fault.None? && i == |states| - 1 then m else Reopened(d))
      && Reopened(LastState(d, states)) == if fault.None? then m else Reopened(d)
  {
    ReopenRecovers(ListingOf(m), m);
  }

  lemma {:induction false} PutAndRemoved(m: Entries, k: string, v: EntryValue)
    ensures m[k := v] - {k} == m - {k}
  {}

  // ---- what the mutators do to one entry ----

  function WithOperation(v: EntryValue, op: OperationEntry): EntryValue {
    v.(operations := v.operations + [op])
  }

  function WithImage(v: EntryValue, path: Path, hash: string, preimage: bool): EntryValue {
    if preimage then v.(preimages := v.preimages[path := hash]) else v.(postimages := v.postimages[path := hash])
  }

  function WithStatus(v: EntryValue, status: Status, message: string): EntryValue {
    v.(status := status, errorMessage := message)
  }

  predicate Pending(v: EntryValue) { v.status.InProgress? || v.status.Failed? }

  function PendingOf(m: Entries): Entries {
    map k | k in m && Pending(m[k]) :: m[k]
  }

  function KeepPending(s: seq<EntryValue>): seq<EntryValue> {
    if s == [] then []
    else (if Pending(s[0]) then [s[0]] else []) + KeepPending(s[1..])
  }

  lemma {:induction false} KeepPendingLists(s: seq<EntryValue>, m: Entries)
    requires Lists(s, m)
    ensures Lists(KeepPending(s), PendingOf(m))
    decreases |s|
  {
    if s == [] {
      forall k ensures k !in m { assert k in m ==> Listed(s, k); }
    } else {
      TailLists(s, m);
      var rest := m - {s[0].id};
      KeepPendingLists(s[1..], rest);
      var tail := KeepPending(s[1..]);
      forall i | 0 <= i < |tail| ensures Before(s[0], tail[i]) {
        assert Listed(s, tail[i].id);
        var j :| 0 <= j < |s| && s[j].id == tail[i].id;
        assert j != 0;
      }
      forall k | k in PendingOf(m) ensures Listed(KeepPending(s), k) {
        if k == s[0].id {
          assert KeepPending(s)[0].id == k;
        } else {
          assert k in PendingOf(rest) && Listed(tail, k);
          var i :| 0 <= i < |tail| && tail[i].id == k;
          assert KeepPending(s)[|KeepPending(s)| - |tail| + i] == tail[i];
        }
      }
    }
  }

  // ---- whole sequences of calls ----

  /** The calls that change the journal. */
  datatype Call =
    | Start(id: string, workItemID: string, taskRunID: string, timestamp: string)
    | LogOperation(id: string, operation: OperationEntry)
    | LogImage(id: string, path: Path, hash: string, preimage: bool)
    | SetStatus(id: string, status: Status, message: string)

  /** A call, and where its persist fails. */
  datatype Attempt = Attempt(call: Call, fault: Option<PersistStep>)

  function Lookup(m: Entries, id: string): Option<JournalError> {
    if TrimSpace(id) == "" then Some(IDRequired) else if TrimSpace(id) !in m then Some(NotFound) else None
  }

  /** Why a call is refused before it changes anything, if it is. */
  function Refusal(m: Entries, c: Call): Option<JournalError> {
    match c
    case Start(_, _, _, _) => None
    case LogOperation(id, op) => if Blank(op.kind) then Some(TypeRequired) else if op.path.None? then Some(PathRequired) else Lookup(m, id)
    case LogImage(id, path, hash, _) => if path == [] then Some(PathRequired) else if Blank(hash) then Some(HashRequired) else Lookup(m, id)
    case SetStatus(id, _, _) => Lookup(m, id)
  }

  /** The value a call gives its entry. */
  function NewValue(m: Entries, c: Call): EntryValue
    requires Refusal(m, c).None?
  {
    match c
    case Start(id, workItemID, taskRunID, timestamp) => NewEntry(id, workItemID, taskRunID, timestamp)
    case LogOperation(id, op) => WithOperation(m[TrimSpace(id)], op)
    case LogImage(id, path, hash, preimage) => WithImage(m[TrimSpace(id)], path, TrimSpace(hash), preimage)
    case SetStatus(id, status, message) => WithStatus(m[TrimSpace(id)], status, TrimSpace(message))
  }

  function KeyOf(c: Call): string {
    if c.Start? then c.id else TrimSpace(c.id)
  }

  /** The entries that a call writes to the disk. */
  function Changed(m: Entries, c: Call): Entries
    requires Refusal(m, c).None?
  {
    m[KeyOf(c) := NewValue(m, c)]
  }

  /** The entries in memory after a call: a change that could not be persisted
      stays in memory, but a new entry is taken out again. */
  function After(m: Entries, a: Attempt): Entries {
    if Refusal(m, a.call).Some? then m
    else if a.fault.Some? && a.call.Start? then m - {a.call.id}
    else Changed(m, a.call)
  }

  function Answer(m: Entries, a: Attempt): Option<JournalError> {
    if Refusal(m, a.call).Some? then Refusal(m, a.call) else if a.fault.Some? then Some(PersistFailed) else None
  }

  // ---- what a call does, field by field ----

  /** Nothing but the entry under k has changed, which is now v. */
  ghost predicate OnlyNow(m: Entries, m': Entries, k: string, v: EntryValue) {
    k in m' && m'[k] == v && m' - {k} == m - {k}
  }

  /** Why an entry cannot be named. */
  predicate Unknown(m: Entries, id: string, e: JournalError) {
    if TrimSpace(id) == "" then e == IDRequired else e == NotFound && TrimSpace(id) !in m
  }

  /** What is wrong with a call. */
  predicate WrongCall(m: Entries, c: Call, e: JournalError) {
    match c
    case Start(_, _, _, _) => false
    case LogOperation(id, op) =>
      if TrimSpace(op.kind) == "" then e == TypeRequired else if op.path == None then e == PathRequired else Unknown(m, id, e)
    case LogImage(id, path, hash, _) =>
      if path == [] then e == PathRequired else if TrimSpace(hash) == "" then e == HashRequired else Unknown(m, id, e)
    case SetStatus(id, _, _) => Unknown(m, id, e)
  }

  /** The change a call is for. */
  ghost predicate Carries(m: Entries, c: Call, m': Entries) {
    match c
    case Start(id, workItemID, taskRunID, timestamp) =>
      OnlyNow(m, m', id, EntryValue(id, TrimSpace(workItemID), TrimSpace(taskRunID), timestamp, [], map[], map[], InProgress, ""))
    case LogOperation(id, op) =>
      var k := TrimSpace(id);
      k in m && OnlyNow(m, m', k, m[k].(operations := m[k].operations + [op]))
    case LogImage(id, path, hash, preimage) =>
      var k, h := TrimSpace(id), TrimSpace(hash);
      k in m && OnlyNow(m, m', k, if preimage then m[k].(preimages := m[k].preimages[path := h]) else m[k].(postimages := m[k].postimages[path := h]))
    case SetStatus(id, status, message) =>
      var k := TrimSpace(id);
      k in m && OnlyNow(m, m', k, m[k].(status := status, errorMessage := TrimSpace(message)))
  }

  /** A call with something wrong is answered so and changes nothing. Any other does
      what it is for, unless it cannot be persisted: then it says so, and only a new
      entry is taken back. */
  lemma {:induction false} CallDoes(m: Entries, a: Attempt)
    ensures
      var m', answer := After(m, a), Answer(m, a);
      && (forall e :: WrongCall(m, a.call, e) ==> answer == Some(e) && m' == m)
      && ((forall e :: !WrongCall(m, a.call, e)) ==>
           && answer == (if a.fault == None then None else Some(PersistFailed))
           && if a.fault != None && a.call.Start? then m' == m - {a.call.id} else Carries(m, a.call, m'))
  {
    if Refusal(m, a.call).Some? {
      assert WrongCall(m, a.call, Refusal(m, a.call).value);
    } else {
      assert forall e :: !WrongCall(m, a.call, e);
      var k := KeyOf(a.call);
      PutAndRemoved(m, k, NewValue(m, a.call));
    }
  }

  /** New IDs are never blank. */
  predicate Drawn(c: Call) { c.Start? ==> !Blank(c.id) }

  lemma {:induction false} ChangedIsStorable(m: Entries, c: Call)
    requires Storable(m) && Drawn(c) && Refusal(m, c).None?
    ensures Storable(Changed(m, c))
  {
    if !c.Start? { assert StorableAt(m, KeyOf(c)); }
    PutIsStorable(m, NewValue(m, c));
  }

  /** The disk states that a call adds. */
  ghost function CallStates(d: Disk, m: Entries, a: Attempt): seq<Disk>
    requires Storable(m) && Drawn(a.call)
  {
    if Refusal(m, a.call).Some? then []
    else
      ChangedIsStorable(m, a.call);
      PersistStates(d, ListingOf(Changed(m, a.call)), a.fault)
  }

  ghost predicate AllDrawn(attempts: seq<Attempt>) {
    forall i :: 0 <= i < |attempts| ==> Drawn(attempts[i].call)
  }

  function EntriesAfter(m: Entries, attempts: seq<Attempt>): Entries {
    if attempts == [] then m else After(EntriesAfter(m, attempts[..|attempts| - 1]), attempts[|attempts| - 1])
  }

  lemma {:induction false} StaysStorable(m: Entries, attempts: seq<Attempt>)
    requires Storable(m) && AllDrawn(attempts)
    ensures Storable(EntriesAfter(m, attempts))
  {
    if attempts != [] {
      var front, last := attempts[..|attempts| - 1], attempts[|attempts| - 1];
      StaysStorable(m, front);
      if Refusal(EntriesAfter(m, front), last.call).None? { ChangedIsStorable(EntriesAfter(m, front), last.call); }
      LessIsStorable(EntriesAfter(m, front), last.call.id);
    }
  }

  /** Every state of the disk since it was d, one sequence of calls long. */
  ghost function DiskHistory(d: Disk, m: Entries, attempts: seq<Attempt>): (history: seq<Disk>)
    requires Storable(m) && AllDrawn(attempts)
    ensures history != []
  {
    if attempts == [] then [d]
    else
      var front := attempts[..|attempts| - 1];
      var before := DiskHistory(d, m, front);
      StaysStorable(m, front);
      before + CallStates(before[|before| - 1], EntriesAfter(m, front), attempts[|attempts| - 1])
  }

  /** The entries at the last call that was answered without an error. */
  function Durable(m: Entries, attempts: seq<Attempt>): Entries {
    if attempts == [] then m
    else
      var front, last := attempts[..|attempts| - 1], attempts[|attempts| - 1];
      if Answer(EntriesAfter(m, front), last).None? then EntriesAfter(m, attempts) else Durable(m, front)
  }

  /** One more call: its states reopen to what was durable before it, the last
      of them to what is durable after it. */
  lemma {:induction false} CallIsDurable(d: Disk, m: Entries, attempts: seq<Attempt>, a: Attempt)
    requires Storable(m) && AllDrawn(attempts) && Drawn(a.call) && Storable(EntriesAfter(m, attempts))
    requires Reopened(d) == Durable(m, attempts)
    ensures
      var states, now := CallStates(d, EntriesAfter(m, attempts), a), Durable(m, attempts + [a]);
      && (forall i :: 0 <= i < |states| - 1 ==> Reopened(states[i]) == Durable(m, attempts))
      && Reopened(LastState(d, states)) == now
  {
    var before := EntriesAfter(m, attempts);
    assert (attempts + [a])[..|attempts|] == attempts;
    if Refusal(before, a.call).None? {
      ChangedIsStorable(before, a.call);
      CrashThenReopen(d, Changed(before, a.call), a.fault);
    }
  }

  lemma {:induction false} HistoryMore(d: Disk, m: Entries, attempts: seq<Attempt>)
    requires Storable(m) && AllDrawn(attempts) && attempts != []
    ensures
      var front, last := attempts[..|attempts| - 1], attempts[|attempts| - 1];
      var before := DiskHistory(d, m, front);
      && AllDrawn(front) && Storable(EntriesAfter(m, front)) && front + [last] == attempts
      && DiskHistory(d, m, attempts) == before + CallStates(before[|before| - 1], EntriesAfter(m, front), last)
  {
    StaysStorable(m, attempts[..|attempts| - 1]);
  }

  lemma {:induction false} Appended(before: seq<Disk>, states: seq<Disk>)
    requires before != []
    ensures
      var history := before + states;
      && history[|history| - 1] == LastState(before[|before| - 1], states)
      && (forall i :: 0 <= i < |before| ==> history[i] == before[i])
      && (forall i :: |before| <= i < |history| ==> history[i] == states[i - |before|])
  {}

  lemma {:induction false} OneMoreCall(d: Disk, m: Entries, attempts: seq<Attempt>)
    requires Storable(m) && AllDrawn(attempts) && attempts != []
    requires
      var before := DiskHistory(d, m, attempts[..|attempts| - 1]);
      Reopened(before[|before| - 1]) == Durable(m, attempts[..|attempts| - 1])
    ensures
      var before, history := DiskHistory(d, m, attempts[..|attempts| - 1]), DiskHistory(d, m, attempts);
      && before <= history && Reopened(history[|history| - 1]) == Durable(m, attempts)
      && forall i :: |before| <= i < |history| - 1 ==> Reopened(history[i]) == Durable(m, attempts[..|attempts| - 1])
  {
    var front, last := attempts[..|attempts| - 1], attempts[|attempts| - 1];
    var before := DiskHistory(d, m, front);
    HistoryMore(d, m, attempts);
    CallIsDurable(before[|before| - 1], m, front, last);
    Appended(before, CallStates(before[|before| - 1], EntriesAfter(m, front), last));
  }

  /** At the end of a sequence of calls the disk has what is durable by then. */
  lemma {:induction false} EndIsDurable(d: Disk, m: Entries, attempts: seq<Attempt>)
    requires Storable(m) && AllDrawn(attempts) && Reopened(d) == m
    ensures
      var history := DiskHistory(d, m, attempts);
      Reopened(history[|history| - 1]) == Durable(m, attempts)
  {
    if attempts != [] {
      EndIsDurable(d, m, attempts[..|attempts| - 1]);
      OneMoreCall(d, m, attempts);
    }
  }

  /** The states of the disk until the first n calls have returned. */
  ghost function HistoryUpTo(d: Disk, m: Entries, attempts: seq<Attempt>, n: nat): (history: seq<Disk>)
    requires Storable(m) && AllDrawn(attempts) && n <= |attempts|
    ensures history != []
  {
    DiskHistory(d, m, attempts[..n])
  }

  function DurableAt(m: Entries, attempts: seq<Attempt>, n: nat): Entries
    requires n <= |attempts|
  {
    Durable(m, attempts[..n])
  }

  lemma {:induction false} EndAt(d: Disk, m: Entries, attempts: seq<Attempt>, n: nat)
    requires Storable(m) && AllDrawn(attempts) && Reopened(d) == m && n <= |attempts|
    ensures
      var history := HistoryUpTo(d, m, attempts, n);
      Reopened(history[|history| - 1]) == DurableAt(m, attempts, n)
  {
    EndIsDurable(d, m, attempts[..n]);
  }

  lemma {:induction false} CallAdds(d: Disk, m: Entries, attempts: seq<Attempt>, n: nat)
    requires Storable(m) && AllDrawn(attempts) && Reopened(d) == m && n < |attempts|
    ensures
      var before, history := HistoryUpTo(d, m, attempts, n), HistoryUpTo(d, m, attempts, n + 1);
      && before <= history && Reopened(history[|history| - 1]) == DurableAt(m, attempts, n + 1)
      && forall i :: |before| <= i < |history| - 1 ==> Reopened(history[i]) == DurableAt(m, attempts, n)
  {
    assert attempts[..n + 1][..n] == attempts[..n];
    EndIsDurable(d, m, attempts[..n]);
    OneMoreCall(d, m, attempts[..n + 1]);
  }

  /** The k-th call takes one history to the next: its states reopen to what was
      durable before it, the last of them to what is durable after it. */
  ghost predicate Links(histories: seq<seq<Disk>>, durable: seq<Entries>, k: nat)
    requires k + 1 < |histories| && |durable| == |histories|
  {
    var before, after := histories[k], histories[k + 1];
    && before <= after && after != [] && Reopened(after[|after| - 1]) == durable[k + 1]
    && forall i :: |before| <= i < |after| - 1 ==> Reopened(after[i]) == durable[k]
  }

  lemma {:induction false} CrashAfter(histories: seq<seq<Disk>>, durable: seq<Entries>, n: nat, last: nat, i: nat)
    requires |durable| == |histories| && n <= last < |histories| && histories[n] != []
    requires forall k: nat {:trigger Links(histories, durable, k)} :: k + 1 < |histories| ==> Links(histories, durable, k)
    requires Reopened(histories[n][|histories[n]| - 1]) == durable[n] && |histories[n]| - 1 <= i < |histories[last]|
    ensures exists k :: n <= k <= last && Reopened(histories[last][i]) == durable[k]
    decreases last
  {
    if n < last {
      assert Links(histories, durable, last - 1);
      if i < |histories[last - 1]| { CrashAfter(histories, durable, n, last - 1, i); }
    }
  }

  /** A crash anywhere in a sequence of calls, some of them failing: once the
      first n calls have returned, reopening gives what was durable after some
      number of calls, n or more, so no change that was answered is lost. */
  lemma {:induction false} CrashAnywhere(d: Disk, m: Entries, attempts: seq<Attempt>, n: nat, i: nat)
    requires Storable(m) && AllDrawn(attempts) && Reopened(d) == m && n <= |attempts|
    requires |HistoryUpTo(d, m, attempts, n)| - 1 <= i < |HistoryUpTo(d, m, attempts, |attempts|)|
    ensures exists k :: n <= k <= |attempts| && Reopened(HistoryUpTo(d, m, attempts, |attempts|)[i]) == DurableAt(m, attempts, k)
  {
    var histories := seq(|attempts| + 1, k requires 0 <= k <= |attempts| => HistoryUpTo(d, m, attempts, k));
    var durable := seq(|attempts| + 1, k requires 0 <= k <= |attempts| => DurableAt(m, attempts, k));
    forall k: nat | k < |attempts| ensures Links(histories, durable, k) { CallAdds(d, m, attempts, k); }
    EndAt(d, m, attempts, n);
    CrashAfter(histories, durable, n, |attempts|, i);
  }

  lemma {:induction false} AddedBehind(earlier: seq<Disk>, before: seq<Disk>, states: seq<Disk>)
    ensures earlier + (before + states) == earlier + before + states
  {}

  lemma {:induction false} HistoryNext(d: Disk, m: Entries, attempts: seq<Attempt>, n: nat)
    requires Storable(m) && AllDrawn(attempts) && n < |attempts|
    ensures
      var before, entries := HistoryUpTo(d, m, attempts, n), EntriesAfter(m, attempts[..n]);
      && Storable(entries) && EntriesAfter(m, attempts[..n + 1]) == After(entries, attempts[n])
      && HistoryUpTo(d, m, attempts, n + 1) == before + CallStates(before[|before| - 1], entries, attempts[n])
  {
    assert attempts[..n + 1][..n] == attempts[..n];
    HistoryOf(d, m, attempts[..n + 1], attempts[..n], attempts[n]);
  }

  lemma {:induction false} HistoryOf(d: Disk, m: Entries, attempts: seq<Attempt>, front: seq<Attempt>, last: Attempt)
    requires Storable(m) && AllDrawn(attempts) && attempts != []
    requires front == attempts[..|attempts| - 1] && last == attempts[|attempts| - 1]
    ensures
      && AllDrawn(front) && Storable(EntriesAfter(m, front)) && Drawn(last.call)
      && EntriesAfter(m, attempts) == After(EntriesAfter(m, front), last)
    ensures
      var before := DiskHistory(d, m, front);
      DiskHistory(d, m, attempts) == before + CallStates(before[|before| - 1], EntriesAfter(m, front), last)
  {
    HistoryMore(d, m, attempts);
  }

  lemma {:induction false} HistoryStep(earlier: seq<Disk>, d: Disk, m: Entries, attempts: seq<Attempt>, n: nat)
    requires Storable(m) && AllDrawn(attempts) && n < |attempts|
    ensures
      var before, entries := HistoryUpTo(d, m, attempts, n), EntriesAfter(m, attempts[..n]);
      && Storable(entries) && EntriesAfter(m, attempts[..n + 1]) == After(entries, attempts[n])
      && earlier + HistoryUpTo(d, m, attempts, n + 1) == earlier + before + CallStates(before[|before| - 1], entries, attempts[n])
  {
    HistoryNext(d, m, attempts, n);
    var before := HistoryUpTo(d, m, attempts, n);
    AddedBehind(earlier, before, CallStates(before[|before| - 1], EntriesAfter(m, attempts[..n]), attempts[n]));
  }
}
