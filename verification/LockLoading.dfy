/** What is loaded from any parsed lock file, whoever wrote it. */
module LockLoading {
  import opened Options
  import opened Text
  import opened LockText
  import opened LockYaml
  import opened LockFile

  // ---- field names ----

  /** Without underscores, dashes and spaces. */
  function Dropped(s: string): string {
    if s == "" then "" else Dropped(s[..|s| - 1]) + (if s[|s| - 1] in {'_', '-', ' '} then "" else [s[|s| - 1]])
  }

  function Letters(name: string): string { Lower(Dropped(TrimSpace(name))) }

  lemma {:induction false} DroppedFirst(c: char, s: string)
    ensures Dropped([c] + s) == (if c in {'_', '-', ' '} then "" else [c]) + Dropped(s)
  {
    if s == "" {
      assert ([c] + s)[..0] == "" && [c] + s == [c];
    } else {
      DroppedFirst(c, s[..|s| - 1]);
      assert ([c] + s)[..|s|] == [c] + s[..|s| - 1];
    }
  }

  lemma {:induction false} NormalizedExactly(key: string)
    ensures Normalized(key) == Lower(Dropped(key))
  {
    if key != "" {
      NormalizedExactly(key[1..]);
      assert key == [key[0]] + key[1..];
      DroppedFirst(key[0], key[1..]);
    }
  }

  /** A field is told by its letters, some by more than one name. */
  lemma {:induction false} SlotExactly(name: string)
    ensures Means(Letters(name), SlotOf(name))
  {
    NormalizedExactly(TrimSpace(name));
  }

  // ---- one entry ----

  function AllLetters(order: seq<string>): (names: seq<string>)
    ensures |names| == |order|
  {
    seq(|order|, i requires 0 <= i < |order| => Letters(order[i]))
  }

  /** Of the first n names, the i-th is the last that is one of these words. */
  ghost predicate LastNamed(names: seq<string>, n: nat, words: set<string>, i: nat) {
    i < n <= |names| && names[i] in words && forall j :: i < j < n ==> names[j] !in words
  }

  /** What the first n values say under these words: the last of them counts, its
      text trimmed. */
  ghost predicate Told(names: seq<string>, values: seq<Yaml>, n: nat, words: set<string>, missing: string, value: string)
    requires |names| == |values|
  {
    && (forall i: nat :: LastNamed(names, n, words, i) ==> values[i].Scalar? && value == TrimSpace(values[i].text))
    && ((forall i :: 0 <= i < n && i < |names| ==> names[i] !in words) ==> value == missing)
  }

  lemma {:induction false} ToldMore(names: seq<string>, values: seq<Yaml>, n: nat, words: set<string>, missing: string, value: string)
    requires |names| == |values| && n < |names| && values[n].Scalar? && Told(names, values, n, words, missing, value)
    ensures Told(names, values, n + 1, words, missing, if names[n] in words then TrimSpace(values[n].text) else value)
  {
    var n' := n + 1;
    if names[n] in words {
      assert forall i: nat :: LastNamed(names, n', words, i) ==> i == n;
    } else {
      assert forall i: nat :: LastNamed(names, n', words, i) ==> LastNamed(names, n, words, i);
    }
  }

  function ValuesOf(fields: map<string, Yaml>, order: seq<string>): (values: seq<Yaml>)
    requires forall i :: 0 <= i < |order| ==> order[i] in fields
    ensures |values| == |order|
  {
    seq(|order|, i requires 0 <= i < |order| => fields[order[i]])
  }

  /** What the values say for one component of a reference. */
  ghost predicate SlotTold(key: string, names: seq<string>, values: seq<Yaml>, n: nat, ref: AssetRef, slot: Slot)
    requires |names| == |values|
  {
    match slot
    case IDSlot => Told(names, values, n, {"assetid", "id"}, TrimSpace(key), ref.assetID)
    case RepoSlot => Told(names, values, n, {"repo"}, "", ref.repo)
    case RefSlot => Told(names, values, n, {"ref"}, "", ref.ref)
    case CommitSlot => Told(names, values, n, {"commitid", "commit"}, "", ref.commitID)
    case TagSlot => Told(names, values, n, {"tag"}, "", ref.tag)
    case TargetSlot => Told(names, values, n, {"importtarget", "path"}, "", ref.importTarget)
    case NoSlot => true
  }

  /** The reference that the values give. */
  ghost predicate RefTold(key: string, names: seq<string>, values: seq<Yaml>, n: nat, ref: AssetRef)
    requires |names| == |values|
  {
    forall slot {:trigger SlotTold(key, names, values, n, ref, slot)} :: SlotTold(key, names, values, n, ref, slot)
  }

  lemma {:induction false} RefMore(key: string, names: seq<string>, values: seq<Yaml>, n: nat, ref: AssetRef, last: Slot)
    requires |names| == |values| && n < |names| && values[n].Scalar? && RefTold(key, names, values, n, ref) && Means(names[n], last)
    ensures RefTold(key, names, values, n + 1, Put(ref, last, TrimSpace(values[n].text)))
  {
    var ref', n' := Put(ref, last, TrimSpace(values[n].text)), n + 1;
    forall slot ensures SlotTold(key, names, values, n', ref', slot) {
      assert SlotTold(key, names, values, n, ref, slot);
      SlotMore(key, names, values, n, ref, last, slot);
    }
  }

  /** The component that a name stands for. */
  ghost predicate Means(name: string, slot: Slot) {
    && (slot == IDSlot <==> name in {"assetid", "id"})
    && (slot == RepoSlot <==> name in {"repo"})
    && (slot == RefSlot <==> name in {"ref"})
    && (slot == CommitSlot <==> name in {"commitid", "commit"})
    && (slot == TagSlot <==> name in {"tag"})
    && (slot == TargetSlot <==> name in {"importtarget", "path"})
  }

  lemma {:induction false} SlotMore(key: string, names: seq<string>, values: seq<Yaml>, n: nat, ref: AssetRef, last: Slot, slot: Slot)
    requires |names| == |values| && n < |names| && values[n].Scalar? && SlotTold(key, names, values, n, ref, slot) && Means(names[n], last)
    ensures SlotTold(key, names, values, n + 1, Put(ref, last, TrimSpace(values[n].text)), slot)
  {
    match slot {
      case IDSlot => ToldMore(names, values, n, {"assetid", "id"}, TrimSpace(key), ref.assetID);
      case RepoSlot => ToldMore(names, values, n, {"repo"}, "", ref.repo);
      case RefSlot => ToldMore(names, values, n, {"ref"}, "", ref.ref);
      case CommitSlot => ToldMore(names, values, n, {"commitid", "commit"}, "", ref.commitID);
      case TagSlot => ToldMore(names, values, n, {"tag"}, "", ref.tag);
      case TargetSlot => ToldMore(names, values, n, {"importtarget", "path"}, "", ref.importTarget);
      case NoSlot =>
    }
  }

  lemma {:induction false} NothingTold(key: string, names: seq<string>, values: seq<Yaml>)
    requires |names| == |values|
    ensures RefTold(key, names, values, 0, AssetRef(TrimSpace(key), "", "", "", "", ""))
  {}

  /** Fields that are all scalars give the reference that they tell. */
  lemma {:induction false} FieldsExactly(key: string, fields: map<string, Yaml>, order: seq<string>, n: nat) returns (ref: AssetRef)
    requires n <= |order| && (forall i :: 0 <= i < |order| ==> order[i] in fields) && forall i :: 0 <= i < n ==> fields[order[i]].Scalar?
    ensures FieldsInOrder(key, fields, order, n) == Loaded(ref)
    ensures RefTold(key, AllLetters(order), ValuesOf(fields, order), n, ref)
  {
    var names, values := AllLetters(order), ValuesOf(fields, order);
    ref := AssetRef(TrimSpace(key), "", "", "", "", "");
    NothingTold(key, names, values);
    for i := 0 to n
      invariant FieldsInOrder(key, fields, order, i) == Loaded(ref) && RefTold(key, names, values, i, ref)
    {
      FieldStep(key, fields, order, i, ref);
      SlotExactly(order[i]);
      RefMore(key, names, values, i, ref, SlotOf(order[i]));
      ref := Put(ref, SlotOf(order[i]), TrimSpace(fields[order[i]].text));
    }
  }

  /** With one that is not, the entry is refused. */
  lemma {:induction false} FieldsRefused(key: string, fields: map<string, Yaml>, order: seq<string>, n: nat, i: nat)
    requires n <= |order| && (forall j :: 0 <= j < |order| ==> order[j] in fields) && i < n && !fields[order[i]].Scalar?
    ensures FieldsInOrder(key, fields, order, n) == Refused(BadField)
  {
    var k := 0;
    while fields[order[k]].Scalar?
      invariant k <= i && forall j :: 0 <= j < k ==> fields[order[j]].Scalar?
      decreases i - k
    {
      k := k + 1;
    }
    var ref := FieldsExactly(key, fields, order, k);
    FieldStep(key, fields, order, k, ref);
    RefusedOn(key, fields, order, k + 1, n);
  }

  lemma {:induction false} RefusedOn(key: string, fields: map<string, Yaml>, order: seq<string>, k: nat, n: nat)
    requires k <= n <= |order| && (forall j :: 0 <= j < |order| ==> order[j] in fields) && FieldsInOrder(key, fields, order, k) == Refused(BadField)
    ensures FieldsInOrder(key, fields, order, n) == Refused(BadField)
  {
    if k < n { RefusedOn(key, fields, order, k, n - 1); }
  }

  // ---- all entries ----

  /** The i-th entry visited gives this reference. */
  ghost predicate Gives(assets: map<string, Yaml>, v: Visits, i: nat, ref: AssetRef) {
    && i < |v.keys| && v.keys[i] in assets && assets[v.keys[i]].Mapping?
    && var order := FieldOrder(v, v.keys[i]);
       && (forall j :: 0 <= j < |order| ==> order[j] in assets[v.keys[i]].fields)
       && FieldsInOrder(v.keys[i], assets[v.keys[i]].fields, order, |order|) == Loaded(ref)
  }

  /** What is wrong with an entry. */
  ghost predicate Wrong(assets: map<string, Yaml>, v: Visits, i: nat, error: LoadError)
    requires i < |v.keys| && StaysInside(v, assets)
  {
    var entry, order := assets[v.keys[i]], FieldOrder(v, v.keys[i]);
    if entry.Scalar? then error == BadEntry
    else if exists j :: 0 <= j < |order| && !entry.fields[order[j]].Scalar? then error == BadField
    else error == NoID && exists ref :: Gives(assets, v, i, ref) && ref.assetID == ""
  }

  lemma {:induction false} EntryExactly(assets: map<string, Yaml>, v: Visits, i: nat, lock: Lock)
    requires StaysInside(v, assets) && i < |v.keys|
    ensures
      var r := AddEntry(lock, v.keys[i], assets[v.keys[i]], FieldOrder(v, v.keys[i]));
      && (r.Refused? ==> Wrong(assets, v, i, r.error))
      && (r.Loaded? ==> exists ref :: Gives(assets, v, i, ref) && ref.assetID != "" && r.value == lock[ref.assetID := Some(ref)])
  {
    var key, entry, order := v.keys[i], assets[v.keys[i]], FieldOrder(v, v.keys[i]);
    if entry.Mapping? {
      if j :| 0 <= j < |order| && !entry.fields[order[j]].Scalar? {
        FieldsRefused(key, entry.fields, order, |order|, j);
      } else {
        var ref := FieldsExactly(key, entry.fields, order, |order|);
        assert Gives(assets, v, i, ref);
      }
    }
  }

  /** The reference that an entry gives is the one its fields tell. */
  lemma {:induction false} GivesExactly(assets: map<string, Yaml>, v: Visits, i: nat, ref: AssetRef)
    requires Gives(assets, v, i, ref)
    ensures
      var key := v.keys[i];
      var fields, order := assets[key].fields, FieldOrder(v, key);
      (forall j :: 0 <= j < |order| ==> fields[order[j]].Scalar?) && RefTold(key, AllLetters(order), ValuesOf(fields, order), |order|, ref)
  {
    var key := v.keys[i];
    var fields, order := assets[key].fields, FieldOrder(v, key);
    forall j | 0 <= j < |order| ensures fields[order[j]].Scalar? {
      if !fields[order[j]].Scalar? { FieldsRefused(key, fields, order, |order|, j); }
    }
    var told := FieldsExactly(key, fields, order, |order|);
    assert Loaded(told) == Loaded(ref);
  }

  /** The i-th entry is the last of the first n with this ID. */
  ghost predicate LastWith(assets: map<string, Yaml>, v: Visits, n: nat, id: string, i: nat, ref: AssetRef) {
    && i < n <= |v.keys| && Gives(assets, v, i, ref) && ref.assetID == id
    && forall j: nat, other :: i < j < n && Gives(assets, v, j, other) ==> other.assetID != id
  }

  /** The lock has, under each ID, the last entry with it, and nothing else. */
  ghost predicate Collected(assets: map<string, Yaml>, v: Visits, n: nat, lock: Lock) {
    forall id {:trigger CollectedAt(assets, v, n, lock, id)} :: CollectedAt(assets, v, n, lock, id)
  }

  ghost predicate CollectedAt(assets: map<string, Yaml>, v: Visits, n: nat, lock: Lock, id: string) {
    && (forall i: nat, ref :: LastWith(assets, v, n, id, i, ref) ==> id in lock && lock[id] == Some(ref))
    && (id in lock ==> exists i: nat, ref :: LastWith(assets, v, n, id, i, ref))
  }

  lemma {:induction false} OneMore(assets: map<string, Yaml>, v: Visits, n: nat, lock: Lock, ref: AssetRef)
    requires n < |v.keys| && Collected(assets, v, n, lock) && Gives(assets, v, n, ref)
    ensures Collected(assets, v, n + 1, lock[ref.assetID := Some(ref)])
  {
    var lock', n' := lock[ref.assetID := Some(ref)], n + 1;
    forall id ensures CollectedAt(assets, v, n', lock', id) {
      assert CollectedAt(assets, v, n, lock, id);
      if id == ref.assetID { NewestCounts(assets, v, n, lock, ref); } else { OthersStay(assets, v, n, lock, ref, id); }
    }
  }

  lemma {:induction false} NewestCounts(assets: map<string, Yaml>, v: Visits, n: nat, lock: Lock, ref: AssetRef)
    requires n < |v.keys| && Gives(assets, v, n, ref)
    ensures CollectedAt(assets, v, n + 1, lock[ref.assetID := Some(ref)], ref.assetID)
  {
    var n' := n + 1;
    assert LastWith(assets, v, n', ref.assetID, n, ref);
    forall i: nat, r | LastWith(assets, v, n', ref.assetID, i, r) ensures r == ref {
      assert i < n ==> Gives(assets, v, n, ref);
      assert Loaded(r) == Loaded(ref);
    }
  }

  lemma {:induction false} OthersStay(assets: map<string, Yaml>, v: Visits, n: nat, lock: Lock, ref: AssetRef, id: string)
    requires n < |v.keys| && Gives(assets, v, n, ref) && id != ref.assetID && CollectedAt(assets, v, n, lock, id)
    ensures CollectedAt(assets, v, n + 1, lock[ref.assetID := Some(ref)], id)
  {
    var n' := n + 1;
    forall i: nat, r | LastWith(assets, v, n', id, i, r) ensures LastWith(assets, v, n, id, i, r) {
      assert i == n ==> Loaded(r) == Loaded(ref);
    }
    if id in lock {
      var i: nat, r :| LastWith(assets, v, n, id, i, r);
      StaysLast(assets, v, n, id, i, r, ref);
    }
  }

  lemma {:induction false} StaysLast(assets: map<string, Yaml>, v: Visits, n: nat, id: string, i: nat, r: AssetRef, ref: AssetRef)
    requires LastWith(assets, v, n, id, i, r) && n < |v.keys| && Gives(assets, v, n, ref) && ref.assetID != id
    ensures LastWith(assets, v, n + 1, id, i, r)
  {
    forall j: nat, other | i < j < n + 1 && Gives(assets, v, j, other) ensures other.assetID != id {
      if j == n { assert Loaded(other) == Loaded(ref); }
    }
  }

  /** An entry with an ID. */
  ghost predicate Good(assets: map<string, Yaml>, v: Visits, i: nat) {
    exists ref :: Gives(assets, v, i, ref) && ref.assetID != ""
  }

  /** The first n entries are refused for the first of them with something wrong;
      else they give the lock that has each of them under its ID. */
  lemma {:induction false} EntriesExactly(assets: map<string, Yaml>, v: Visits, n: nat) returns (bad: nat)
    requires StaysInside(v, assets) && n <= |v.keys|
    ensures bad <= n && (EntriesInOrder(assets, v, n).Loaded? <==> bad == n) && forall i: nat :: i < bad ==> Good(assets, v, i)
    ensures bad == n ==> Collected(assets, v, n, EntriesInOrder(assets, v, n).value)
    ensures bad < n ==> Wrong(assets, v, bad, EntriesInOrder(assets, v, n).error)
  {
    bad := 0;
    var lock: Lock := map[];
    while bad < n
      invariant bad <= n && EntriesInOrder(assets, v, bad) == Loaded(lock) && Collected(assets, v, bad, lock)
      invariant forall i: nat :: i < bad ==> Good(assets, v, i)
    {
      NextEntry(assets, v, bad, lock);
      var next := EntriesInOrder(assets, v, bad + 1);
      if next.Refused? {
        RefusedBefore(assets, v, bad + 1, n);
        return;
      }
      lock, bad := next.value, bad + 1;
    }
  }

  lemma {:induction false} RefusedBefore(assets: map<string, Yaml>, v: Visits, k: nat, n: nat)
    requires StaysInside(v, assets) && k <= n <= |v.keys| && EntriesInOrder(assets, v, k).Refused?
    ensures EntriesInOrder(assets, v, n) == EntriesInOrder(assets, v, k)
  {
    if k < n { RefusedBefore(assets, v, k, n - 1); }
  }

  /** One entry more. */
  lemma {:induction false} NextEntry(assets: map<string, Yaml>, v: Visits, n: nat, lock: Lock)
    requires StaysInside(v, assets) && n < |v.keys| && EntriesInOrder(assets, v, n) == Loaded(lock) && Collected(assets, v, n, lock)
    ensures EntriesInOrder(assets, v, n + 1).Loaded? ==> Good(assets, v, n) && Collected(assets, v, n + 1, EntriesInOrder(assets, v, n + 1).value)
    ensures EntriesInOrder(assets, v, n + 1).Refused? ==> Wrong(assets, v, n, EntriesInOrder(assets, v, n + 1).error)
  {
    EntryStep(assets, v, n, lock);
    EntryExactly(assets, v, n, lock);
    var r := EntriesInOrder(assets, v, n + 1);
    if r.Loaded? {
      var ref :| Gives(assets, v, n, ref) && ref.assetID != "" && r.value == lock[ref.assetID := Some(ref)];
      OneMore(assets, v, n, lock, ref);
    }
  }

  // ---- the whole file ----

  /** Where the entries are: under "assets", if there is such a key, or the file
      itself has them. */
  ghost predicate AssetsOf(root: map<string, Yaml>, assets: map<string, Yaml>) {
    if "assets" in root then root["assets"] == Mapping(assets) else assets == root
  }

  /** A file is refused when it cannot be parsed, or has something else than a
      mapping under "assets"; else its entries decide. */
  lemma {:induction false} LoadExactly(text: string, v: Visits)
    requires VisitsText(v, text)
    ensures Parse(text).Err? ==> Load(text, v) == Refused(Unparsable(Parse(text).error))
    ensures Parse(text).Ok? && (forall assets :: !AssetsOf(Parse(text).value, assets)) ==> Load(text, v) == Refused(NoMapping)
    ensures forall assets :: Parse(text).Ok? && AssetsOf(Parse(text).value, assets) ==>
      VisitsAll(v, assets) && StaysInside(v, assets) && Load(text, v) == EntriesInOrder(assets, v, |v.keys|)
  {
    if Parse(text).Ok? {
      var root := Parse(text).value;
      if AssetsIn(root).Loaded? {
        assert AssetsOf(root, AssetsIn(root).value);
      } else {
        assert forall assets :: !AssetsOf(root, assets);
      }
      forall assets | AssetsOf(root, assets) ensures AssetsIn(root) == Loaded(assets) {}
    }
  }
}
