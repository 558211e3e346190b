/** assets.lock: saving a lock, loading it back, and when the two are inverse. */
module LockFile {
  import opened Options
  import opened Text
  import opened LockText
  import opened LockYaml

  datatype AssetRef = AssetRef(assetID: string, repo: string, ref: string, commitID: string, tag: string, importTarget: string)

  /** None stands for a nil entry. */
  type Lock = map<string, Option<AssetRef>>

  // ---- saving ----

  function FieldLine(name: string, value: string): string {
    "    " + name + ": " + EscapeScalar(value)
  }

  function EntryLines(id: string, ref: AssetRef): seq<string> {
    [ "  " + EscapeScalar(id) + ":",
      FieldLine("asset_id", FirstNonEmpty([TrimSpace(ref.assetID), id])),
      FieldLine("repo", ref.repo),
      FieldLine("ref", ref.ref),
      FieldLine("commit_id", ref.commitID),
      FieldLine("tag", ref.tag),
      FieldLine("import_target", ref.importTarget) ]
  }

  function LinesFor(id: string, entry: Option<AssetRef>): seq<string> {
    if entry.Some? then EntryLines(id, entry.value) else []
  }

  /** The entry lines of the first n IDs; nil entries are skipped. */
  function LinesOf(lock: Lock, ids: seq<string>, n: nat): seq<string>
    requires n <= |ids| && forall i :: 0 <= i < |ids| ==> ids[i] in lock
  {
    if n == 0 then []
    else LinesOf(lock, ids, n - 1) + LinesFor(ids[n - 1], lock[ids[n - 1]])
  }

  function RenderLines(lock: Lock, ids: seq<string>): seq<string>
    requires forall i :: 0 <= i < |ids| ==> ids[i] in lock
  {
    ["assets:"] + LinesOf(lock, ids, |ids|)
  }

  /** The IDs of a lock, each once, in byte order. */
  ghost predicate SortedIDs(ids: seq<string>, lock: Lock) {
    && (forall i, j :: 0 <= i < j < |ids| ==> Less(ids[i], ids[j]))
    && (forall k :: k in ids <==> k in lock)
  }

  function InsertID(id: string, ids: seq<string>): (r: seq<string>)
    ensures forall k :: k in r <==> k == id || k in ids
  {
    if ids == [] then [id]
    else if Less(id, ids[0]) then [id] + ids
    else [ids[0]] + InsertID(id, ids[1..])
  }

  lemma {:induction false} InsertIDSorted(id: string, ids: seq<string>)
    requires forall i, j :: 0 <= i < j < |ids| ==> Less(ids[i], ids[j])
    requires id !in ids
    ensures forall i, j :: 0 <= i < j < |InsertID(id, ids)| ==> Less(InsertID(id, ids)[i], InsertID(id, ids)[j])
  {
    if ids != [] {
      if Less(id, ids[0]) {
        forall j | 0 < j < |ids| ensures Less(id, ids[j]) { LessTransitive(id, ids[0], ids[j]); }
      } else {
        LessTotal(id, ids[0]);
        InsertIDSorted(id, ids[1..]);
        forall k | k in InsertID(id, ids[1..]) ensures Less(ids[0], k) {
          if k != id { var i :| 0 <= i < |ids[1..]| && ids[1..][i] == k; }
        }
      }
    }
  }

  /** The IDs in whatever order the map gives them, then sorted. */
  method SortedAssetIDs(lock: Lock) returns (ids: seq<string>)
    ensures SortedIDs(ids, lock)
  {
    ids := [];
    var rest := lock.Keys;
    while rest != {}
      invariant rest <= lock.Keys
      invariant forall k :: k in ids <==> k in lock.Keys - rest
      invariant forall i, j :: 0 <= i < j < |ids| ==> Less(ids[i], ids[j])
      decreases rest
    {
      var k :| k in rest;
      InsertIDSorted(k, ids);
      ids := InsertID(k, ids);
      rest := rest - {k};
    }
  }

  lemma {:induction false} HeaderFirst(lines: seq<string>, more: seq<string>)
    ensures ["assets:"] + lines + more == ["assets:"] + (lines + more)
  {}

  /** The writer: builds the text of the lock file line by line. */
  method SaveLockFile(lock: Lock) returns (text: string, ghost ids: seq<string>)
    ensures SortedIDs(ids, lock)
    ensures text == JoinLines(RenderLines(lock, ids))
  {
    var sorted := SortedAssetIDs(lock);
    ids := sorted;
    text := "assets:\n";
    ghost var lines := ["assets:"];
    assert JoinLines(lines[1..]) == "";
    assert JoinLines(lines) == "assets:\n";
    for n := 0 to |sorted|
      invariant lines == ["assets:"] + LinesOf(lock, ids, n)
      invariant text == JoinLines(lines)
    {
      var id := sorted[n];
      if lock[id].Some? { text := text + JoinLines(EntryLines(id, lock[id].value)); }
      JoinConcat(lines, LinesFor(id, lock[id]));
      HeaderFirst(LinesOf(lock, ids, n), LinesFor(id, lock[id]));
      lines := lines + LinesFor(id, lock[id]);
    }
  }

  lemma {:induction false} JoinConcat(a: seq<string>, b: seq<string>)
    ensures JoinLines(a + b) == JoinLines(a) + JoinLines(b)
  {
    if a == [] { assert a + b == b; }
    else {
      assert (a + b)[1..] == a[1..] + b;
      JoinConcat(a[1..], b);
    }
  }

  // ---- loading ----

  datatype Slot = IDSlot | RepoSlot | RefSlot | CommitSlot | TagSlot | TargetSlot | NoSlot

  /** Underscores, dashes and spaces dropped, letters in lower case. */
  function Normalized(key: string): string {
    if key == "" then ""
    else if key[0] == '_' || key[0] == '-' || key[0] == ' ' then Normalized(key[1..])
    else [LowerChar(key[0])] + Normalized(key[1..])
  }

  function SlotOf(field: string): Slot {
    SlotOfKey(Normalized(TrimSpace(field)))
  }

  function SlotOfKey(key: string): Slot {
    if key == "assetid" || key == "id" then IDSlot
    else if key == "repo" then RepoSlot
    else if key == "ref" then RefSlot
    else if key == "commitid" || key == "commit" then CommitSlot
    else if key == "tag" then TagSlot
    else if key == "importtarget" || key == "path" then TargetSlot
    else NoSlot
  }

  function Put(ref: AssetRef, slot: Slot, value: string): AssetRef {
    match slot
    case IDSlot => ref.(assetID := value)
    case RepoSlot => ref.(repo := value)
    case RefSlot => ref.(ref := value)
    case CommitSlot => ref.(commitID := value)
    case TagSlot => ref.(tag := value)
    case TargetSlot => ref.(importTarget := value)
    case NoSlot => ref
  }

  datatype LoadError = Unparsable(error: ParseError) | NoMapping | BadEntry | BadField | NoID

  datatype LoadResult<T> = Loaded(value: T) | Refused(error: LoadError)

  /** The reference after the first n fields of an entry, in the given order. */
  function FieldsInOrder(key: string, fields: map<string, Yaml>, order: seq<string>, n: nat): LoadResult<AssetRef>
    requires n <= |order| && forall i :: 0 <= i < |order| ==> order[i] in fields
  {
    if n == 0 then Loaded(AssetRef(TrimSpace(key), "", "", "", "", ""))
    else
      match FieldsInOrder(key, fields, order, n - 1)
      case Refused(e) => Refused(e)
      case Loaded(ref) => AddField(ref, order[n - 1], fields[order[n - 1]])
  }

  function AddField(ref: AssetRef, name: string, value: Yaml): LoadResult<AssetRef> {
    if !value.Scalar? then Refused(BadField) else Loaded(Put(ref, SlotOf(name), TrimSpace(value.text)))
  }

  /** order lists every key of m once. */
  ghost predicate Orders<V>(order: seq<string>, m: map<string, V>) {
    && (forall i :: 0 <= i < |order| ==> order[i] in m)
    && (forall i, j :: 0 <= i < j < |order| ==> order[i] != order[j])
    && (forall k {:trigger k in order} :: k in m ==> k in order)
  }

  /** The orders in which ranging over the maps visits their keys: `keys` for the
      assets, `fields[k]` for the entry at k. */
  datatype Visits = Visits(keys: seq<string>, fields: map<string, seq<string>>)

  ghost predicate VisitsAll(v: Visits, assets: map<string, Yaml>) {
    && Orders(v.keys, assets)
    && forall k :: k in assets && assets[k].Mapping? ==> k in v.fields && Orders(v.fields[k], assets[k].fields)
  }

  function FieldOrder(v: Visits, key: string): seq<string> {
    if key in v.fields then v.fields[key] else []
  }

  /** The orders only name keys that are there. */
  ghost predicate StaysInside(v: Visits, assets: map<string, Yaml>) {
    forall i :: 0 <= i < |v.keys| ==> v.keys[i] in assets && Covers(assets[v.keys[i]], FieldOrder(v, v.keys[i]))
  }

  ghost predicate Covers(entry: Yaml, order: seq<string>) {
    entry.Mapping? ==> forall i :: 0 <= i < |order| ==> order[i] in entry.fields
  }

  /** The lock after the first n entries. */
  function EntriesInOrder(assets: map<string, Yaml>, v: Visits, n: nat): LoadResult<Lock>
    requires n <= |v.keys| && StaysInside(v, assets)
  {
    if n == 0 then Loaded(map[])
    else
      match EntriesInOrder(assets, v, n - 1)
      case Refused(e) => Refused(e)
      case Loaded(lock) =>
        var key := v.keys[n - 1];
        AddEntry(lock, key, assets[key], FieldOrder(v, key))
  }

  function AddEntry(lock: Lock, key: string, entry: Yaml, order: seq<string>): LoadResult<Lock>
    requires Covers(entry, order)
  {
    if !entry.Mapping? then Refused(BadEntry)
    else
      match FieldsInOrder(key, entry.fields, order, |order|)
      case Refused(e) => Refused(e)
      case Loaded(ref) => if ref.assetID == "" then Refused(NoID) else Loaded(lock[ref.assetID := Some(ref)])
  }

  method LoadEntry(key: string, fields: map<string, Yaml>, order: seq<string>) returns (r: LoadResult<AssetRef>)
    requires forall i :: 0 <= i < |order| ==> order[i] in fields
    ensures r == FieldsInOrder(key, fields, order, |order|)
  {
    var ref := AssetRef(TrimSpace(key), "", "", "", "", "");
    for n := 0 to |order|
      invariant FieldsInOrder(key, fields, order, n) == Loaded(ref)
    {
      FieldStep(key, fields, order, n, ref);
      var next := ReadField(ref, order[n], fields[order[n]]);
      if next.Refused? {
        RefusedStays(key, fields, order, n + 1);
        return next;
      }
      ref := next.value;
    }
    r := Loaded(ref);
  }

  method ReadField(ref: AssetRef, name: string, value: Yaml) returns (r: LoadResult<AssetRef>)
    ensures r == AddField(ref, name, value)
  {
    if !value.Scalar? { return Refused(BadField); }
    var slot := SlotOf(name);
    r := Loaded(Put(ref, slot, TrimSpace(value.text)));
  }

  lemma {:induction false} FieldStep(key: string, fields: map<string, Yaml>, order: seq<string>, n: nat, ref: AssetRef)
    requires n < |order| && (forall i :: 0 <= i < |order| ==> order[i] in fields) && FieldsInOrder(key, fields, order, n) == Loaded(ref)
    ensures FieldsInOrder(key, fields, order, n + 1) == AddField(ref, order[n], fields[order[n]])
  {}

  lemma {:induction false} EntryStep(assets: map<string, Yaml>, v: Visits, n: nat, lock: Lock)
    requires StaysInside(v, assets) && n < |v.keys| && EntriesInOrder(assets, v, n) == Loaded(lock)
    ensures EntriesInOrder(assets, v, n + 1) == AddEntry(lock, v.keys[n], assets[v.keys[n]], FieldOrder(v, v.keys[n]))
  {}

  lemma {:induction false} RefusedStays(key: string, fields: map<string, Yaml>, order: seq<string>, n: nat)
    requires n <= |order| && forall i :: 0 <= i < |order| ==> order[i] in fields
    requires FieldsInOrder(key, fields, order, n).Refused?
    ensures FieldsInOrder(key, fields, order, |order|) == FieldsInOrder(key, fields, order, n)
    decreases |order| - n
  {
    if n < |order| { RefusedStays(key, fields, order, n + 1); }
  }

  /** The mapping of assets in a parsed file: under "assets", or the file itself. */
  function AssetsIn(root: map<string, Yaml>): LoadResult<map<string, Yaml>> {
    if "assets" in root then
      if root["assets"].Mapping? then Loaded(root["assets"].fields) else Refused(NoMapping)
    else Loaded(root)
  }

  /** What loading a text gives when its maps are visited in these orders. */
  function Load(text: string, v: Visits): LoadResult<Lock>
    requires VisitsText(v, text)
  {
    match Parse(text)
    case Err(e) => Refused(Unparsable(e))
    case Ok(root) =>
      match AssetsIn(root)
      case Refused(e) => Refused(e)
      case Loaded(assets) => EntriesInOrder(assets, v, |v.keys|)
  }

  ghost predicate VisitsText(v: Visits, text: string) {
    Parse(text).Ok? && AssetsIn(Parse(text).value).Loaded? ==> VisitsAll(v, AssetsIn(Parse(text).value).value)
  }

  /** The reader, as loops that fill the lock entry by entry. */
  method LoadLockFile(text: string, v: Visits) returns (r: LoadResult<Lock>)
    requires VisitsText(v, text)
    ensures r == Load(text, v)
  {
    var parsed := ParseYamlMap(text);
    if parsed.Err? { return Refused(Unparsable(parsed.error)); }
    var selected := AssetsIn(parsed.value);
    if selected.Refused? { return Refused(selected.error); }
    r := LoadAssets(selected.value, v);
  }

  method LoadAssets(assets: map<string, Yaml>, v: Visits) returns (r: LoadResult<Lock>)
    requires StaysInside(v, assets)
    ensures r == EntriesInOrder(assets, v, |v.keys|)
  {
    var lock: Lock := map[];
    for n := 0 to |v.keys|
      invariant EntriesInOrder(assets, v, n) == Loaded(lock)
    {
      var next := ReadNext(assets, v, n, lock);
      if next.Refused? {
        RefusedLoadStays(assets, v, n + 1);
        return next;
      }
      lock := next.value;
    }
    r := Loaded(lock);
  }

  method ReadNext(assets: map<string, Yaml>, v: Visits, n: nat, lock: Lock) returns (next: LoadResult<Lock>)
    requires StaysInside(v, assets) && n < |v.keys| && EntriesInOrder(assets, v, n) == Loaded(lock)
    ensures next == EntriesInOrder(assets, v, n + 1)
  {
    var key := v.keys[n];
    next := ReadEntry(lock, key, assets[key], FieldOrder(v, key));
    EntryStep(assets, v, n, lock);
  }

  method ReadEntry(lock: Lock, key: string, entry: Yaml, order: seq<string>) returns (r: LoadResult<Lock>)
    requires Covers(entry, order)
    ensures r == AddEntry(lock, key, entry, order)
  {
    if !entry.Mapping? { return Refused(BadEntry); }
    var ref := LoadEntry(key, entry.fields, order);
    if ref.Refused? { return Refused(ref.error); }
    if ref.value.assetID == "" { return Refused(NoID); }
    r := Loaded(lock[ref.value.assetID := Some(ref.value)]);
  }

  lemma {:induction false} RefusedLoadStays(assets: map<string, Yaml>, v: Visits, n: nat)
    requires StaysInside(v, assets) && n <= |v.keys|
    requires EntriesInOrder(assets, v, n).Refused?
    ensures EntriesInOrder(assets, v, |v.keys|) == EntriesInOrder(assets, v, n)
    decreases |v.keys| - n
  {
    if n < |v.keys| { RefusedLoadStays(assets, v, n + 1); }
  }

  // ---- editing ----

  /** A lock with this reference under its trimmed ID; nothing without one. */
  function Updated(lock: Lock, ref: Option<AssetRef>): Lock {
    if ref.None? || TrimSpace(ref.value.assetID) == "" then lock
    else
      var id := TrimSpace(ref.value.assetID);
      lock[id := Some(ref.value.(assetID := id))]
  }

  /** The lock held in memory. */
  class LockHolder {
    var assets: Lock

    constructor ()
      ensures assets == map[]
    {
      assets := map[];
    }

    method UpdateLockEntry(ref: Option<AssetRef>)
      modifies this
      ensures assets == Updated(old(assets), ref)
    {
      if ref.None? { return; }
      var id := TrimSpace(ref.value.assetID);
      if id == "" { return; }
      var cloned := ref.value.(assetID := id);
      assets := assets[id := Some(cloned)];
    }
  }
}
