/** The journal object: methods that change entries in place, then persist. */
module Journal {
  import opened Options
  import opened Text
  import opened FileTree
  import opened JournalModel

  class ChangeSetEntry {
    const id: string
    const workItemID: string
    const taskRunID: string
    const timestamp: string
    var operations: seq<OperationEntry>
    var preimages: map<Path, string>
    var postimages: map<Path, string>
    var status: Status
    var errorMessage: string

    constructor (v: EntryValue)
      ensures Value() == v
    {
      id, workItemID, taskRunID, timestamp := v.id, v.workItemID, v.taskRunID, v.timestamp;
      operations, preimages, postimages := v.operations, v.preimages, v.postimages;
      status, errorMessage := v.status, v.errorMessage;
    }

    function Value(): EntryValue
      reads this
    {
      EntryValue(id, workItemID, taskRunID, timestamp, operations, preimages, postimages, status, errorMessage)
    }
  }

  class Journal {
    var entries: map<string, ChangeSetEntry>
    var disk: Disk
    /** The entry objects, and their values by ID. */
    ghost var repr: set<ChangeSetEntry>
    ghost var model: Entries
    /** Every state of the disk that a crash could have left behind so far. */
    ghost var history: seq<Disk>

    ghost predicate Valid()
      reads this, repr
    {
      && Mirrors(entries, model, repr)
      && Storable(model)
      && history != [] && history[|history| - 1] == disk
    }

    /** m holds the values of the entry objects, each stored under its own ID. */
    static ghost predicate Mirrors(entries: map<string, ChangeSetEntry>, m: Entries, objects: set<ChangeSetEntry>)
      reads objects
    {
      && entries.Keys == m.Keys
      && forall k {:trigger MirrorsAt(entries, m, objects, k)} :: MirrorsAt(entries, m, objects, k)
    }

    static predicate MirrorsAt(entries: map<string, ChangeSetEntry>, m: Entries, objects: set<ChangeSetEntry>, k: string)
      reads objects
    {
      k in entries && k in m ==> entries[k] in objects && entries[k].id == k && entries[k].Value() == m[k]
    }

    /** The call has done exactly what `attempt` does to the entries, with the
        disk going through exactly its states. */
    twostate predicate Performed(attempt: Attempt)
      requires old(Storable(model)) && Drawn(attempt.call)
      reads `model, `disk, `history
    {
      && model == After(old(model), attempt)
      && history == old(history) + CallStates(old(disk), old(model), attempt)
    }

    // ---- persisting ----

    method SetDisk(d: Disk)
      modifies `disk, `history
      ensures disk == d && history == old(history) + [d]
    {
      disk := d;
      history := history + [d];
    }

    /** Collects the entries in some order and sorts them. */
    method Listing() returns (s: seq<EntryValue>)
      requires Mirrors(entries, model, repr)
      ensures Lists(s, model)
    {
      var rest := entries.Keys;
      var collected: seq<EntryValue> := [];
      while rest != {}
        invariant rest <= entries.Keys
        invariant forall i :: 0 <= i < |collected| ==> collected[i].id in entries.Keys - rest && collected[i] == model[collected[i].id]
        invariant forall i, j :: 0 <= i < j < |collected| ==> collected[i].id != collected[j].id
        invariant forall k {:trigger Listed(collected, k)} :: k in entries.Keys - rest ==> Listed(collected, k)
        decreases rest
      {
        var k :| k in rest;
        ghost var before := collected;
        assert MirrorsAt(entries, model, repr, k);
        collected := collected + [entries[k].Value()];
        rest := rest - {k};
        forall l | l in entries.Keys - rest ensures Listed(collected, l) {
          if l == k { assert collected[|before|].id == l; }
          else {
            assert Listed(before, l);
            var i :| 0 <= i < |before| && before[i].id == l;
            assert collected[i].id == l;
          }
        }
      }
      s := SortEntries(collected);
      SortEntriesSorts(collected);
      forall i | 0 <= i < |s| ensures s[i].id in model && model[s[i].id] == s[i] {
        assert s[i] in collected;
      }
      forall k | k in model ensures Listed(s, k) {
        assert Listed(collected, k);
        var i :| 0 <= i < |collected| && collected[i].id == k;
        assert collected[i] in s;
      }
    }

    /** Writes a listing to a temporary file and renames it over the journal. */
    method ReplaceFileWith(listing: seq<EntryValue>, fault: Option<PersistStep>) returns (ok: bool)
      requires history != [] && history[|history| - 1] == disk
      modifies `disk, `history
      ensures history == old(history) + PersistStates(old(disk), listing, fault) && history[|history| - 1] == disk
      ensures ok <==> fault.None?
    {
      if fault == Some(CreateTemp) { return false; }
      SetDisk(disk.(temp := Some(Partial)));
      if fault == Some(WriteTemp) { SetDisk(disk.(temp := None)); return false; }
      SetDisk(disk.(temp := Some(Whole(listing))));
      if fault.Some? {  // sync, close or rename failed
        SetDisk(disk.(temp := None));
        return false;
      }
      SetDisk(Disk(Some(listing), None));
      return true;
    }

    method PersistLocked(fault: Option<PersistStep>) returns (ok: bool)
      requires Valid()
      modifies `disk, `history
      ensures Valid() && history == old(history) + PersistStates(old(disk), ListingOf(model), fault)
      ensures ok <==> fault.None?
      ensures disk.file == if ok then Some(ListingOf(model)) else old(disk.file)
      ensures disk.temp == if fault == Some(CreateTemp) then old(disk.temp) else None
    {
      var listing := Listing();
      ListingIsUnique(listing, ListingOf(model), model);
      ok := ReplaceFileWith(listing, fault);
    }

    // ---- opening ----

    /** A journal in memory, with nothing loaded yet. */
    constructor (found: Disk)
      ensures Valid() && fresh(this) && repr == {} && model == map[] && disk == found && history == [found]
    {
      disk, history := found, [found];
      entries, model, repr := map[], map[], {};
    }

    /** Opens the journal on whatever disk is found, perhaps after a crash: loads
        the file, or writes a first one. */
    static method NewJournal(found: Disk, fault: Option<PersistStep>) returns (j: Journal, ok: bool)
      ensures fresh(j) && fresh(j.repr) && j.Valid()
      ensures j.model == Reopened(found)
      ensures ok <==> found.file.Some? || fault.None?
      ensures j.history == [found] + if found.file.Some? then [] else PersistStates(found, ListingOf(map[]), fault)
      ensures ok ==> Reopened(j.disk) == j.model
    {
      j := new Journal(found);
      if found.file.Some? {
        j.Load(found.file.value);
        ok := true;
      } else {
        ok := j.PersistLocked(fault);
        ReopenRecovers(ListingOf(map[]), map[]);
      }
    }

    method Load(file: seq<EntryValue>)
      requires Valid() && entries == map[] && model == map[] && repr == {}
      modifies `entries, `model, `repr
      ensures Valid() && fresh(repr)
      ensures model == Loaded(file)
    {
      for n := 0 to |file|
        invariant Valid() && fresh(repr)
        invariant model == LoadedFirst(file, n)
      {
        if !Blank(file[n].id) { Put(file[n]); }
      }
    }

    // ---- changing ----

    /** Starts a change set under an ID drawn by the caller's generator. */
    method Begin(newID: string, workItemID: string, taskRunID: string, timestamp: string, fault: Option<PersistStep>)
      returns (r: ChangeSetEntry?)
      requires Valid() && UsableID(newID)
      modifies this
      ensures Valid() && fresh(repr - old(repr))
      ensures !Blank(newID) && Performed(Attempt(Start(newID, workItemID, taskRunID, timestamp), fault))
      ensures r != null <==> fault.None?
      ensures r != null ==> fresh(r) && r !in repr && newID in model && r.Value() == model[newID]
    {
      UsableNotBlank(newID);
      var ok := StoreAndPersist(NewEntry(newID, workItemID, taskRunID, timestamp), fault);
      if !ok { return null; }
      r := CloneEntry(newID);
    }

    method StoreAndPersist(v: EntryValue, fault: Option<PersistStep>) returns (ok: bool)
      requires Valid() && !Blank(v.id)
      modifies `entries, `model, `repr, `disk, `history
      ensures Valid() && fresh(repr - old(repr)) && ok == fault.None?
      ensures model == if ok then old(model)[v.id := v] else old(model) - {v.id}
      ensures Storable(old(model)[v.id := v])
      ensures history == old(history) + PersistStates(old(disk), ListingOf(old(model)[v.id := v]), fault)
    {
      ghost var before := model;
      Put(v);
      ok := PersistLocked(fault);
      if !ok {
        Discard(v.id);
        PutAndRemoved(before, v.id, v);
      }
    }

    /** A copy of an entry that shares no state with the journal. */
    method CloneEntry(id: string) returns (r: ChangeSetEntry)
      requires Valid() && id in entries
      ensures fresh(r) && r !in repr && r.Value() == model[id]
    {
      assert MirrorsAt(entries, model, repr, id);
      r := new ChangeSetEntry(entries[id].Value());
    }

    /** A new entry object leaves the others as they are. */
    twostate lemma StoredValid(new e: ChangeSetEntry, v: EntryValue)
      requires old(Valid()) && fresh(e) && e.Value() == v && Storable(model)
      requires entries == old(entries)[v.id := e] && model == old(model)[v.id := v] && repr == old(repr) + {e}
      requires unchanged(`disk) && unchanged(`history) && forall o :: o in old(repr) ==> unchanged(o)
      ensures Valid()
    {
      forall k ensures MirrorsAt(entries, model, repr, k) {
        assert old(MirrorsAt(entries, model, repr, k));
      }
    }

    method Put(v: EntryValue)
      requires Valid() && !Blank(v.id)
      modifies `entries, `model, `repr
      ensures Valid() && fresh(repr - old(repr)) && model == old(model)[v.id := v]
    {
      PutIsStorable(model, v);
      var e := new ChangeSetEntry(v);
      entries, model, repr := entries[v.id := e], model[v.id := v], repr + {e};
      StoredValid(e, v);
    }

    method Discard(id: string)
      requires Valid()
      modifies `entries, `model
      ensures Valid() && model == old(model) - {id}
    {
      LessIsStorable(model, id);
      forall k ensures MirrorsAt(entries - {id}, model - {id}, repr, k) { assert MirrorsAt(entries, model, repr, k); }
      entries, model := entries - {id}, model - {id};
    }

    /** The entry an ID names, after trimming. */
    method RequireEntry(id: string) returns (err: Option<JournalError>, e: ChangeSetEntry?)
      requires Valid()
      ensures err == Lookup(model, id)
      ensures err.None? ==> TrimSpace(id) in entries && e == entries[TrimSpace(id)] && e in repr && e.id == TrimSpace(id)
      ensures err.None? ==> e.Value() == model[TrimSpace(id)]
    {
      var key := TrimSpace(id);
      if key == "" { return Some(IDRequired), null; }
      if key !in entries { return Some(NotFound), null; }
      assert MirrorsAt(entries, model, repr, key);
      return None, entries[key];
    }

    /** Persists an entry changed in place; a failure leaves the change in memory. */
    method PersistChange(ghost attempt: Attempt, ghost before: Entries, fault: Option<PersistStep>) returns (err: Option<JournalError>)
      requires Valid() && Storable(before) && attempt.fault == fault && !attempt.call.Start?
      requires Refusal(before, attempt.call).None? && model == Changed(before, attempt.call)
      modifies `disk, `history
      ensures Valid() && err == Answer(before, attempt)
      ensures history == old(history) + CallStates(old(disk), before, attempt)
    {
      var ok := PersistLocked(fault);
      err := if ok then None else Some(PersistFailed);
    }

    method AddOperation(id: string, op: OperationEntry, fault: Option<PersistStep>) returns (err: Option<JournalError>)
      requires Valid()
      modifies `disk, `history, `model, repr
      ensures Valid() && Performed(Attempt(LogOperation(id, op), fault))
      ensures err == Answer(old(model), Attempt(LogOperation(id, op), fault))
    {
      if Blank(op.kind) { return Some(TypeRequired); }
      if op.path.None? { return Some(PathRequired); }
      var e: ChangeSetEntry?;
      err, e := RequireEntry(id);
      if err.Some? { NothingAdded(history); return; }
      AppendTo(e, op);
      err := PersistChange(Attempt(LogOperation(id, op), fault), old(model), fault);
    }

    /** Entries are stored under their own IDs, so changing one changes no other. */
    twostate lemma StaysValid(e: ChangeSetEntry)
      requires old(Valid()) && e.id in entries && e == entries[e.id]
      requires unchanged(`entries) && unchanged(`repr) && unchanged(`disk) && unchanged(`history)
      requires forall o :: o in repr && o != e ==> unchanged(o)
      requires model == old(model)[e.id := e.Value()]
      ensures Valid()
    {
      assert StorableAt(old(model), e.id);
      PutIsStorable(old(model), e.Value());
      forall k ensures MirrorsAt(entries, model, repr, k) {
        assert old(MirrorsAt(entries, model, repr, k));
      }
    }

    method AppendTo(e: ChangeSetEntry, op: OperationEntry)
      requires Valid() && e.id in entries && e == entries[e.id]
      modifies `model, e
      ensures Valid() && model == old(model)[e.id := WithOperation(old(model)[e.id], op)]
    {
      assert MirrorsAt(entries, model, repr, e.id);
      e.operations := e.operations + [op];
      model := model[e.id := WithOperation(model[e.id], op)];
      StaysValid(e);
    }
  
    method SetImage(id: string, path: Path, hash: string, preimage: bool, fault: Option<PersistStep>) returns (err: Option<JournalError>)
      requires Valid()
      modifies `disk, `history, `model, repr
      ensures Valid() && Performed(Attempt(LogImage(id, path, hash, preimage), fault))
      ensures err == Answer(old(model), Attempt(LogImage(id, path, hash, preimage), fault))
    {
      if path == [] { return Some(PathRequired); }
      if Blank(hash) { return Some(HashRequired); }
      var e: ChangeSetEntry?;
      err, e := RequireEntry(id);
      if err.Some? { NothingAdded(history); return; }
      PutImage(e, path, TrimSpace(hash), preimage);
      err := PersistChange(Attempt(LogImage(id, path, hash, preimage), fault), old(model), fault);
    }

    method PutImage(e: ChangeSetEntry, path: Path, hash: string, preimage: bool)
      requires Valid() && e.id in entries && e == entries[e.id]
      modifies `model, e
      ensures Valid() && model == old(model)[e.id := WithImage(old(model)[e.id], path, hash, preimage)]
    {
      assert MirrorsAt(entries, model, repr, e.id);
      if preimage {
        e.preimages := e.preimages[path := hash];
      } else {
        e.postimages := e.postimages[path := hash];
      }
      model := model[e.id := WithImage(model[e.id], path, hash, preimage)];
      StaysValid(e);
    }

    /** Complete, MarkFailed and MarkRolledBack: a new status and message. */
    method MarkStatus(id: string, status: Status, message: string, fault: Option<PersistStep>) returns (err: Option<JournalError>)
      requires Valid()
      modifies `disk, `history, `model, repr
      ensures Valid() && Performed(Attempt(SetStatus(id, status, message), fault))
      ensures err == Answer(old(model), Attempt(SetStatus(id, status, message), fault))
    {
      var e: ChangeSetEntry?;
      err, e := RequireEntry(id);
      if err.Some? { NothingAdded(history); return; }
      err := ChangeStatus(e, id, status, message, fault);
    }

    method ChangeStatus(e: ChangeSetEntry, id: string, status: Status, message: string, fault: Option<PersistStep>)
      returns (err: Option<JournalError>)
      requires Valid() && Lookup(model, id).None? && e.id == TrimSpace(id) && e.id in entries && e == entries[e.id]
      modifies `disk, `history, `model, e
      ensures Valid() && Performed(Attempt(SetStatus(id, status, message), fault))
      ensures err == Answer(old(model), Attempt(SetStatus(id, status, message), fault))
    {
      PutStatus(e, status, TrimSpace(message));
      err := PersistChange(Attempt(SetStatus(id, status, message), fault), old(model), fault);
    }

    method PutStatus(e: ChangeSetEntry, status: Status, message: string)
      requires Valid() && e.id in entries && e == entries[e.id]
      modifies `model, e
      ensures Valid() && model == old(model)[e.id := WithStatus(old(model)[e.id], status, message)]
    {
      assert MirrorsAt(entries, model, repr, e.id);
      e.status, e.errorMessage := status, message;
      model := model[e.id := WithStatus(model[e.id], status, message)];
      StaysValid(e);
    }

    // ---- reading ----

    /** Hands out a copy that shares nothing mutable with the journal. */
    method GetByID(id: string) returns (err: Option<JournalError>, r: ChangeSetEntry?)
      requires Valid()
      ensures err == if TrimSpace(id) == "" then Some(IDRequired) else if TrimSpace(id) !in model then Some(NotFound) else None
      ensures err.None? ==> r != null && fresh(r) && r !in repr && r.Value() == model[TrimSpace(id)]
    {
      var e: ChangeSetEntry?;
      err, e := RequireEntry(id);
      if err.Some? { return err, null; }
      r := new ChangeSetEntry(e.Value());
    }

    /** Copies of the listed entries, all of them or only the unresolved ones. */
    method ListEntries(onlyPending: bool) returns (values: seq<EntryValue>, copies: seq<ChangeSetEntry>)
      requires Valid()
      ensures Lists(values, if onlyPending then PendingOf(model) else model)
      ensures forall i :: 0 <= i < |values| ==> values[i].id in model && values[i] == model[values[i].id]
      ensures forall k :: k in model && (onlyPending ==> model[k].status in {InProgress, Failed}) ==> Listed(values, k)
      ensures onlyPending ==> forall i :: 0 <= i < |values| ==> values[i].status in {InProgress, Failed}
      ensures forall i, j :: 0 <= i < j < |values| ==>
        Less(values[i].timestamp, values[j].timestamp) || (values[i].timestamp == values[j].timestamp && Less(values[i].id, values[j].id))
      ensures |copies| == |values|
      ensures forall i :: 0 <= i < |copies| ==> fresh(copies[i]) && copies[i] !in repr && copies[i].Value() == values[i]
    {
      var all := Listing();
      values, copies := [], [];
      if onlyPending {
        values := KeepPending(all);
        KeepPendingLists(all, model);
      } else {
        values := all;
      }
      copies := CopyAll(values);
    }

    static method CopyAll(values: seq<EntryValue>) returns (copies: seq<ChangeSetEntry>)
      ensures |copies| == |values|
      ensures forall i :: 0 <= i < |copies| ==> fresh(copies[i]) && copies[i].Value() == values[i]
    {
      copies := [];
      for i := 0 to |values|
        invariant |copies| == i
        invariant forall j :: 0 <= j < i ==> fresh(copies[j]) && copies[j].Value() == values[j]
      {
        var copy := new ChangeSetEntry(values[i]);
        copies := copies + [copy];
      }
    }
  }

  // ---- sequences of calls ----

  /** One call, whichever it is. */
  method MakeCall(j: Journal, a: Attempt) returns (err: Option<JournalError>)
    requires j.Valid() && Drawn(a.call) && (a.call.Start? ==> UsableID(a.call.id))
    modifies j, j.repr
    ensures j.Valid() && fresh(j.repr - old(j.repr))
    ensures err == Answer(old(j.model), a) && j.model == After(old(j.model), a)
    ensures j.history == old(j.history) + CallStates(old(j.disk), old(j.model), a)
  {
    match a.call
    case Start(id, workItemID, taskRunID, timestamp) =>
      var r := j.Begin(id, workItemID, taskRunID, timestamp, a.fault);
      err := if r == null then Some(PersistFailed) else None;
    case LogOperation(id, op) => err := j.AddOperation(id, op, a.fault);
    case LogImage(id, path, hash, preimage) => err := j.SetImage(id, path, hash, preimage, a.fault);
    case SetStatus(id, status, message) => err := j.MarkStatus(id, status, message, a.fault);
  }

  /** A sequence of calls, some of them failing, leaves the entries and the disk
      as their history says; what a crash in it costs is JournalModel.CrashAnywhere. */
  method MakeCalls(j: Journal, attempts: seq<Attempt>)
    requires j.Valid() && AllDrawn(attempts) && forall i :: 0 <= i < |attempts| && attempts[i].call.Start? ==> UsableID(attempts[i].call.id)
    modifies j, j.repr
    ensures j.Valid() && fresh(j.repr - old(j.repr)) && j.model == EntriesAfter(old(j.model), attempts)
    ensures j.history == old(j.history)[..|old(j.history)| - 1] + DiskHistory(old(j.disk), old(j.model), attempts)
  {
    ghost var earlier, d, m := j.history[..|j.history| - 1], j.disk, j.model;
    assert attempts[..0] == [] && j.history == earlier + [d];
    for n := 0 to |attempts|
      invariant j.Valid() && fresh(j.repr - old(j.repr)) && j.model == EntriesAfter(m, attempts[..n])
      invariant j.history == earlier + HistoryUpTo(d, m, attempts, n)
    {
      HistoryStep(earlier, d, m, attempts, n);
      var _ := MakeCall(j, attempts[n]);
    }
    assert attempts[..|attempts|] == attempts;
  }

  lemma {:induction false} NothingAdded(history: seq<Disk>)
    ensures history == history + []
  {}
}
