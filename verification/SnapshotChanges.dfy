/** Which entries the difference between two manifests lists as changed, and how. */
module SnapshotChanges {
  import opened Options
  import opened SnapshotDiff
  import opened SnapshotPatch

  // ---- the entry of a path ----

  /** The last entry of a path, which is the one that counts. */
  ghost predicate IsLast(entries: seq<Entry>, path: string, e: Entry) {
    exists i :: 0 <= i < |entries| && LastAt(entries, path, e, i)
  }

  ghost predicate LastAt(entries: seq<Entry>, path: string, e: Entry, i: nat)
    requires i < |entries|
  {
    entries[i] == e && e.path == path && forall j :: i < j < |entries| ==> entries[j].path != path
  }

  lemma {:induction false} ByPathIsLast(entries: seq<Entry>, path: string)
    ensures path in ByPath(entries) <==> path != "" && exists e :: e in entries && e.path == path
    ensures path in ByPath(entries) ==> IsLast(entries, path, ByPath(entries)[path])
  {
    if entries != [] {
      var front, last := entries[..|entries| - 1], entries[|entries| - 1];
      ByPathIsLast(front, path);
      assert entries == front + [last];
      if path != "" && last.path == path {
        assert LastAt(entries, path, last, |front|);
      } else if path in ByPath(front) {
        var i :| 0 <= i < |front| && LastAt(front, path, ByPath(front)[path], i);
        assert LastAt(entries, path, ByPath(front)[path], i);
      }
    }
  }

  lemma {:induction false} OneLast(entries: seq<Entry>, path: string, a: Entry, b: Entry)
    requires IsLast(entries, path, a) && IsLast(entries, path, b)
    ensures a == b
  {
    var i :| 0 <= i < |entries| && LastAt(entries, path, a, i);
    var j :| 0 <= j < |entries| && LastAt(entries, path, b, j);
    if i < j { assert entries[j].path == path; } else if j < i { assert entries[i].path == path; }
  }

  /** The entry of a path in the map of a manifest is its last one. */
  lemma {:induction false} LastIsMapped(entries: seq<Entry>, path: string, e: Entry)
    requires path != ""
    ensures IsLast(entries, path, e) <==> path in ByPath(entries) && ByPath(entries)[path] == e
  {
    ByPathIsLast(entries, path);
    if IsLast(entries, path, e) {
      var i :| 0 <= i < |entries| && LastAt(entries, path, e, i);
      assert e in entries;
      OneLast(entries, path, e, ByPath(entries)[path]);
    }
  }

  // ---- the metadata that differs ----

  /** The place of a field in the order of the comparison. */
  function Rank(f: Field): nat {
    match f
    case Kind => 0
    case SourceBundle => 1
    case ImportPresetHash => 2
    case LastModifiedBy => 3
    case LastModifiedAt => 4
  }

  /** Exactly the fields that differ, each once, in their order. */
  ghost predicate ListsDifferences(fields: seq<Field>, before: Entry, after: Entry) {
    && (Kind in fields <==> before.kind != after.kind)
    && (SourceBundle in fields <==> before.bundle != after.bundle)
    && (ImportPresetHash in fields <==> before.preset != after.preset)
    && (LastModifiedBy in fields <==> before.author != after.author)
    && (LastModifiedAt in fields <==> before.time != after.time)
    && forall i, j :: 0 <= i < j < |fields| ==> Rank(fields[i]) < Rank(fields[j])
  }

  ghost predicate Ranked(fields: seq<Field>) {
    forall i, j :: 0 <= i < j < |fields| ==> Rank(fields[i]) < Rank(fields[j])
  }

  lemma {:induction false} ChangedAmong(before: Entry, after: Entry, names: seq<Field>)
    requires Ranked(names)
    ensures forall f :: f in ChangedFields(before, after, names) <==> f in names && FieldOf(before, f) != FieldOf(after, f)
    ensures Ranked(ChangedFields(before, after, names))
  {
    if names != [] {
      var front, last := names[..|names| - 1], names[|names| - 1];
      ChangedAmong(before, after, front);
      assert names == front + [last];
      RankedMore(front, last, ChangedFields(before, after, front));
    }
  }

  lemma {:induction false} RankedMore(front: seq<Field>, last: Field, fields: seq<Field>)
    requires Ranked(front + [last]) && Ranked(fields) && forall f :: f in fields ==> f in front
    ensures Ranked(fields + [last])
  {
    forall i | 0 <= i < |fields| ensures Rank(fields[i]) < Rank(last) {
      assert fields[i] in front;
      var k :| 0 <= k < |front| && front[k] == fields[i];
      assert (front + [last])[k] == fields[i] && (front + [last])[|front|] == last;
    }
  }

  lemma {:induction false} ChangedAreDifferences(before: Entry, after: Entry)
    ensures ListsDifferences(ChangedFields(before, after, METADATA), before, after)
  {
    ChangedAmong(before, after, METADATA);
    assert METADATA[0] == Kind && METADATA[1] == SourceBundle && METADATA[2] == ImportPresetHash;
    assert METADATA[3] == LastModifiedBy && METADATA[4] == LastModifiedAt;
  }

  /** There is only one such list. */
  lemma {:induction false} OneList(a: seq<Field>, b: seq<Field>, before: Entry, after: Entry)
    requires ListsDifferences(a, before, after) && ListsDifferences(b, before, after)
    ensures a == b
  {
    SameMembers(a, b, before, after);
    SameSorted(a, b);
  }

  lemma {:induction false} SameMembers(a: seq<Field>, b: seq<Field>, before: Entry, after: Entry)
    requires ListsDifferences(a, before, after) && ListsDifferences(b, before, after)
    ensures forall f: Field :: f in a <==> f in b
  {
    forall f: Field ensures f in a <==> f in b { match f case Kind => case _ => }
  }

  lemma {:induction false} SameSorted(a: seq<Field>, b: seq<Field>)
    requires forall i, j :: 0 <= i < j < |a| ==> Rank(a[i]) < Rank(a[j])
    requires forall i, j :: 0 <= i < j < |b| ==> Rank(b[i]) < Rank(b[j])
    requires forall f: Field :: f in a <==> f in b
    ensures a == b
    decreases |a|
  {
    if a == [] {
      if b != [] { HasMember(b); }
    } else {
      assert a[0] in b;
      assert b != [] && b[0] in a;
      var i :| 0 <= i < |b| && b[i] == a[0];
      var j :| 0 <= j < |a| && a[j] == b[0];
      SameRank(a[0], b[0]);
      forall f: Field ensures f in a[1..] <==> f in b[1..] {
        InRest(a, f);
        InRest(b, f);
      }
      SameSorted(a[1..], b[1..]);
    }
  }

  lemma {:induction false} HasMember(b: seq<Field>)
    requires b != []
    ensures exists f: Field :: f in b
  {
    assert b[0] in b;
  }

  lemma {:induction false} SameRank(f: Field, g: Field)
    ensures Rank(f) == Rank(g) ==> f == g
  {}

  lemma {:induction false} InRest(a: seq<Field>, f: Field)
    requires a != [] && forall i, j :: 0 <= i < j < |a| ==> Rank(a[i]) < Rank(a[j])
    ensures f in a[1..] <==> f in a && f != a[0]
  {
    if f in a[1..] { var i :| 0 <= i < |a[1..]| && a[1..][i] == f; assert a[i + 1] == f; }
    if f in a && f != a[0] { var i :| 0 <= i < |a| && a[i] == f; assert a[1..][i - 1] == f; }
  }

  // ---- which changes are listed ----

  lemma {:induction false} ClassifiedAs(entries: seq<Entry>, mine: map<string, Entry>, theirs: map<string, Entry>, c: Change)
    requires Known(entries, mine)
    ensures c in Classify(entries, mine, theirs).modified <==> exists e :: e in entries && FateOf(e, mine, theirs) == Content(c)
    ensures c in Classify(entries, mine, theirs).metadata <==> exists e :: e in entries && FateOf(e, mine, theirs) == Metadata(c)
  {
    if entries != [] {
      var front, last := entries[..|entries| - 1], entries[|entries| - 1];
      assert entries == front + [last];
      ClassifiedAs(front, mine, theirs, c);
    }
  }

  /** A change of content is listed exactly for the paths on both sides whose
      hashes differ, with the two entries that count. */
  lemma {:induction false} ModifiedExactly(manifest: seq<Entry>, other: seq<Entry>, c: Change)
    ensures c in DiffOf(manifest, Some(other)).modified <==>
      && c.path != "" && c.fields == [] && IsLast(manifest, c.path, c.before) && IsLast(other, c.path, c.after)
      && c.before.hash != c.after.hash
  {
    var mine, theirs := ByPath(manifest), ByPath(other);
    ByPathKnows(manifest);
    ClassifiedAs(manifest, mine, theirs, c);
    if c.path != "" {
      LastIsMapped(manifest, c.path, c.before);
      LastIsMapped(other, c.path, c.after);
      ByPathIsLast(manifest, c.path);
    }
  }

  /** A change of metadata only is listed exactly for the paths on both sides whose
      hashes agree and whose entries differ, with the fields that differ. */
  lemma {:induction false} MetadataExactly(manifest: seq<Entry>, other: seq<Entry>, c: Change)
    ensures c in DiffOf(manifest, Some(other)).metadata <==>
      && c.path != "" && IsLast(manifest, c.path, c.before) && IsLast(other, c.path, c.after)
      && c.before.hash == c.after.hash && c.fields != [] && ListsDifferences(c.fields, c.before, c.after)
  {
    var mine, theirs := ByPath(manifest), ByPath(other);
    ByPathKnows(manifest);
    ClassifiedAs(manifest, mine, theirs, c);
    FieldsExactly(c);
    if c.path != "" {
      LastIsMapped(manifest, c.path, c.before);
      LastIsMapped(other, c.path, c.after);
      ByPathIsLast(manifest, c.path);
    }
    FatedMetadata(manifest, mine, theirs, c);
  }

  lemma {:induction false} FieldsExactly(c: Change)
    ensures c.fields == ChangedFields(c.before, c.after, METADATA) <==> ListsDifferences(c.fields, c.before, c.after)
  {
    ChangedAreDifferences(c.before, c.after);
    if ListsDifferences(c.fields, c.before, c.after) {
      OneList(c.fields, ChangedFields(c.before, c.after, METADATA), c.before, c.after);
    }
  }

  lemma {:induction false} FatedMetadata(entries: seq<Entry>, mine: map<string, Entry>, theirs: map<string, Entry>, c: Change)
    requires Known(entries, mine) && (c.path in mine ==> exists e :: e in entries && e.path == c.path)
    ensures (exists e :: e in entries && FateOf(e, mine, theirs) == Metadata(c)) <==>
      && c.path != "" && c.path in mine && c.path in theirs && (exists e :: e in entries && e.path == c.path)
      && mine[c.path] == c.before && theirs[c.path] == c.after
      && c.before.hash == c.after.hash && c.fields != [] && c.fields == ChangedFields(c.before, c.after, METADATA)
  {
    forall e | e in entries
      ensures FateOf(e, mine, theirs) == Metadata(c) <==>
        && e.path == c.path && c.path != "" && c.path in theirs && mine[c.path] == c.before && theirs[c.path] == c.after
        && c.before.hash == c.after.hash && c.fields != [] && c.fields == ChangedFields(c.before, c.after, METADATA)
    {}
  }

  // ---- the order of the lists ----

  /** The entries that meet a condition, in order. */
  ghost function Where(entries: seq<Entry>, p: Entry -> bool): seq<Entry> {
    if entries == [] then []
    else
      var e := entries[|entries| - 1];
      Where(entries[..|entries| - 1], p) + (if p(e) then [e] else [])
  }

  ghost function PathsOf(entries: seq<Entry>): seq<string> {
    seq(|entries|, i requires 0 <= i < |entries| => entries[i].path)
  }

  ghost function ChangedPaths(changes: seq<Change>): seq<string> {
    seq(|changes|, i requires 0 <= i < |changes| => changes[i].path)
  }

  ghost predicate Has(entries: seq<Entry>, path: string) {
    path != "" && exists e :: e in entries && e.path == path
  }

  /** The path is on both sides, with different contents. */
  ghost predicate ContentDiffers(manifest: seq<Entry>, other: seq<Entry>, path: string) {
    path != "" && exists a, b :: IsLast(manifest, path, a) && IsLast(other, path, b) && a.hash != b.hash
  }

  /** The path is on both sides, with one content but other metadata. */
  ghost predicate MetadataDiffers(manifest: seq<Entry>, other: seq<Entry>, path: string) {
    path != "" && exists a, b :: IsLast(manifest, path, a) && IsLast(other, path, b) && a.hash == b.hash && a != b
  }

  lemma {:induction false} ClassifiedInOrder(entries: seq<Entry>, mine: map<string, Entry>, theirs: map<string, Entry>,
      p: Entry -> bool, q: Entry -> bool)
    requires Known(entries, mine)
    requires forall e :: e in entries ==> (p(e) <==> FateOf(e, mine, theirs).Content?)
    requires forall e :: e in entries ==> (q(e) <==> FateOf(e, mine, theirs).Metadata?)
    ensures ChangedPaths(Classify(entries, mine, theirs).modified) == PathsOf(Where(entries, p))
    ensures ChangedPaths(Classify(entries, mine, theirs).metadata) == PathsOf(Where(entries, q))
  {
    if entries != [] {
      var front, last := entries[..|entries| - 1], entries[|entries| - 1];
      assert entries == front + [last];
      ClassifiedInOrder(front, mine, theirs, p, q);
      var s, fate := Classify(front, mine, theirs), FateOf(last, mine, theirs);
      if fate.Content? || fate.Metadata? {
        assert fate.change.path == last.path;
        PathsMore(s.modified, fate.change, Where(front, p), last);
        PathsMore(s.metadata, fate.change, Where(front, q), last);
      }
    }
  }

  lemma {:induction false} PathsMore(changes: seq<Change>, change: Change, entries: seq<Entry>, e: Entry)
    requires change.path == e.path && ChangedPaths(changes) == PathsOf(entries)
    ensures ChangedPaths(changes + [change]) == PathsOf(entries + [e])
  {
    assert ChangedPaths(changes + [change]) == ChangedPaths(changes) + [change.path];
    assert PathsOf(entries + [e]) == PathsOf(entries) + [e.path];
  }

  lemma {:induction false} FatedBySides(manifest: seq<Entry>, other: seq<Entry>, e: Entry)
    requires e in manifest && Known(manifest, ByPath(manifest))
    ensures FateOf(e, ByPath(manifest), ByPath(other)).Content? <==> ContentDiffers(manifest, other, e.path)
    ensures FateOf(e, ByPath(manifest), ByPath(other)).Metadata? <==> MetadataDiffers(manifest, other, e.path)
  {
    var mine, theirs := ByPath(manifest), ByPath(other);
    if e.path != "" {
      OnePair(manifest, other, e.path);
      if e.path in theirs {
        ByPathKnows(manifest);
        ByPathKnows(other);
        if mine[e.path].hash == theirs[e.path].hash { FieldsDiffer(mine[e.path], theirs[e.path]); }
      }
    }
  }

  /** With a path on both sides, the entries compared are the two that count. */
  lemma {:induction false} OnePair(manifest: seq<Entry>, other: seq<Entry>, path: string)
    requires path in ByPath(manifest)
    ensures forall a :: IsLast(manifest, path, a) <==> a == ByPath(manifest)[path]
    ensures forall b :: IsLast(other, path, b) <==> path in ByPath(other) && b == ByPath(other)[path]
  {
    ByPathKnows(manifest);
    forall a ensures IsLast(manifest, path, a) <==> a == ByPath(manifest)[path] { LastIsMapped(manifest, path, a); }
    forall b ensures IsLast(other, path, b) <==> path in ByPath(other) && b == ByPath(other)[path] { LastIsMapped(other, path, b); }
  }

  lemma {:induction false} FieldsDiffer(before: Entry, after: Entry)
    requires before.path == after.path && before.hash == after.hash
    ensures ChangedFields(before, after, METADATA) != [] <==> before != after
  {
    if ChangedFields(before, after, METADATA) == [] {
      SameEntry(before, after);
    } else if before == after {
      ChangedAmong(before, after, METADATA);
      HasMember(ChangedFields(before, after, METADATA));
    }
  }

  /** The changes come in the order of the first manifest, one for each entry with
      the path; without another snapshot there are none, and everything is deleted. */
  lemma {:induction false} ChangesInOrder(manifest: seq<Entry>, other: seq<Entry>)
    ensures
      var d := DiffOf(manifest, Some(other));
      && ChangedPaths(d.modified) == PathsOf(Where(manifest, (e: Entry) => ContentDiffers(manifest, other, e.path)))
      && ChangedPaths(d.metadata) == PathsOf(Where(manifest, (e: Entry) => MetadataDiffers(manifest, other, e.path)))
    ensures DiffOf(manifest, None) == Diff([], [], manifest, [], [])
  {
    ByPathKnows(manifest);
    forall e | e in manifest
      ensures FateOf(e, ByPath(manifest), ByPath(other)).Content? <==> ContentDiffers(manifest, other, e.path)
      ensures FateOf(e, ByPath(manifest), ByPath(other)).Metadata? <==> MetadataDiffers(manifest, other, e.path)
    {
      FatedBySides(manifest, other, e);
    }
    ClassifiedInOrder(manifest, ByPath(manifest), ByPath(other),
      (e: Entry) => ContentDiffers(manifest, other, e.path), (e: Entry) => MetadataDiffers(manifest, other, e.path));
  }

  // ---- the entries of one side only ----

  /** The one-sided entries are those whose path the other side does not have. */
  lemma {:induction false} OneSidedExactly(manifest: seq<Entry>, other: seq<Entry>)
    ensures Removed(manifest, other) == Where(manifest, (e: Entry) => e.path != "" && !Has(other, e.path))
    ensures Incoming(manifest, other) == Where(other, (e: Entry) => e.path != "" && !Has(manifest, e.path))
  {
    NotInWhere(manifest, other);
    NotInWhere(other, manifest);
  }

  lemma {:induction false} NotInWhere(entries: seq<Entry>, other: seq<Entry>)
    ensures NotIn(entries, ByPath(other)) == Where(entries, (e: Entry) => e.path != "" && !Has(other, e.path))
  {
    forall path ensures path in ByPath(other) <==> Has(other, path) { ByPathIsLast(other, path); }
    NotInIsWhere(entries, ByPath(other), (e: Entry) => e.path != "" && !Has(other, e.path));
  }

  lemma {:induction false} NotInIsWhere(entries: seq<Entry>, theirs: map<string, Entry>, p: Entry -> bool)
    requires forall e :: p(e) <==> e.path != "" && e.path !in theirs
    ensures NotIn(entries, theirs) == Where(entries, p)
  {
    if entries != [] { NotInIsWhere(entries[..|entries| - 1], theirs, p); }
  }

  /** The incoming entries that find a removed one of their signature left over by
      those before them. */
  function Finding(incoming: seq<Entry>, removed: seq<Entry>): seq<Entry> {
    if incoming == [] then []
    else
      var front, e := incoming[..|incoming| - 1], incoming[|incoming| - 1];
      Finding(front, removed) + (if Finds(front, e, removed) then [e] else [])
  }

  /** The incoming entries that find none. */
  function NotFinding(incoming: seq<Entry>, removed: seq<Entry>): seq<Entry> {
    if incoming == [] then []
    else
      var front, e := incoming[..|incoming| - 1], incoming[|incoming| - 1];
      NotFinding(front, removed) + (if Finds(front, e, removed) then [] else [e])
  }

  predicate Finds(front: seq<Entry>, e: Entry, removed: seq<Entry>) {
    e.hash != "" && |Of(front, Signature(e))| < |Of(removed, Signature(e))|
  }

  lemma {:induction false} MatchInOrder(incoming: seq<Entry>, removed: seq<Entry>, at: map<string, seq<Entry>>)
    requires Sorted(at) && forall s :: s != "" ==> Bucket(at, s) == Of(removed, s)
    ensures Afters(Match(incoming, at).renamed) == Finding(incoming, removed)
    ensures Match(incoming, at).added == NotFinding(incoming, removed)
  {
    if incoming != [] {
      var front, e := incoming[..|incoming| - 1], incoming[|incoming| - 1];
      MatchInOrder(front, removed, at);
      MatchBySignature(front, at, Signature(e));
      StepInOrder(Match(front, at), e, Finds(front, e, removed));
    }
  }

  /** An entry is renamed exactly when one is left in line for it. */
  lemma {:induction false} StepInOrder(m: Matched, e: Entry, finds: bool)
    requires finds <==> Signature(e) != "" && Bucket(m.at, Signature(e)) != []
    ensures Afters(MatchStep(m, e).renamed) == Afters(m.renamed) + (if finds then [e] else [])
    ensures MatchStep(m, e).added == m.added + (if finds then [] else [e])
  {
    if finds { AftersMore(m.renamed, RenameOf(m.at[Signature(e)][0], e)); }
  }

  lemma {:induction false} AftersMore(renamed: seq<Rename>, r: Rename)
    ensures Afters(renamed + [r]) == Afters(renamed) + [r.after]
  {}

  /** The renames come in the order of the second manifest, and so does what is
      added; a rename names the paths of its two entries and the metadata that
      differs, and both have a content hash. */
  lemma {:induction false} RenamesExactly(manifest: seq<Entry>, other: seq<Entry>)
    ensures
      var d := DiffOf(manifest, Some(other));
      && Afters(d.renamed) == Finding(Incoming(manifest, other), Removed(manifest, other))
      && d.added == NotFinding(Incoming(manifest, other), Removed(manifest, other))
      && forall i :: 0 <= i < |d.renamed| ==> RenameFits(d.renamed[i])
  {
    var mine, theirs, removed := ByPath(manifest), ByPath(other), Removed(manifest, other);
    ByPathKnows(manifest);
    RemovedAreMissing(manifest, mine, theirs);
    FillSorted(removed);
    forall s | s != "" ensures Bucket(Fill(removed).at, s) == Of(removed, s) { FillBySignature(removed, s); }
    MatchInOrder(Incoming(manifest, other), removed, Fill(removed).at);
    MatchFits(Incoming(manifest, other), Fill(removed).at);
  }

  ghost predicate RenameFits(r: Rename) {
    && r.from == r.before.path && r.to == r.after.path && r.before.hash != "" && r.after.hash != ""
    && ListsDifferences(r.fields, r.before, r.after)
  }

  lemma {:induction false} MatchFits(incoming: seq<Entry>, at: map<string, seq<Entry>>)
    requires Sorted(at)
    ensures forall i :: 0 <= i < |Match(incoming, at).renamed| ==> RenameFits(Match(incoming, at).renamed[i])
  {
    if incoming != [] {
      var front, e := incoming[..|incoming| - 1], incoming[|incoming| - 1];
      MatchFits(front, at);
      MatchBySignature(front, at, Signature(e));
      var m, s := Match(front, at), Signature(e);
      if s != "" && s in m.at && m.at[s] != [] {
        FirstSigned(m.at, s);
        ChangedAreDifferences(m.at[s][0], e);
      }
    }
  }

  // ---- the order of what is deleted ----

  /** Signature s shows up before signature t does. */
  ghost predicate ComesFirst(removed: seq<Entry>, s: string, t: string) {
    exists i :: 0 <= i < |removed| && Signature(removed[i]) == s && forall j :: 0 <= j <= i ==> Signature(removed[j]) != t
  }

  lemma {:induction false} KeysInOrder(removed: seq<Entry>)
    ensures forall k :: k in Fill(removed).keys <==> k != "" && exists e :: e in removed && Signature(e) == k
    ensures forall i, j :: 0 <= i < j < |Fill(removed).keys| ==> ComesFirst(removed, Fill(removed).keys[i], Fill(removed).keys[j])
  {
    if removed != [] {
      var front, e := removed[..|removed| - 1], removed[|removed| - 1];
      KeysInOrder(front);
      LastApart(removed);
      var keys, keys' := Fill(front).keys, Fill(removed).keys;
      forall i, j | 0 <= i < j < |keys'| ensures ComesFirst(removed, keys'[i], keys'[j]) {
        if j < |keys| {
          StillFirst(front, e, keys[i], keys[j]);
        } else {
          NewComesLast(front, e, keys[i]);
        }
      }
    }
  }

  lemma {:induction false} StillFirst(front: seq<Entry>, e: Entry, s: string, t: string)
    requires ComesFirst(front, s, t)
    ensures ComesFirst(front + [e], s, t)
  {
    var i :| 0 <= i < |front| && Signature(front[i]) == s && forall j :: 0 <= j <= i ==> Signature(front[j]) != t;
    assert Signature((front + [e])[i]) == s;
  }

  lemma {:induction false} NewComesLast(front: seq<Entry>, e: Entry, s: string)
    requires s in Fill(front).keys && Signature(e) !in Fill(front).keys && Signature(e) != ""
    requires forall k :: k in Fill(front).keys <==> k != "" && exists x :: x in front && Signature(x) == k
    ensures ComesFirst(front + [e], s, Signature(e))
  {
    var x :| x in front && Signature(x) == s;
    var i :| 0 <= i < |front| && front[i] == x;
    forall j | 0 <= j <= i ensures Signature((front + [e])[j]) != Signature(e) {
      assert front[j] in front;
    }
    assert Signature((front + [e])[i]) == s;
  }

  /** What is deleted comes grouped by signature: first the entries without a
      content hash, then each signature in the order it shows up. */
  ghost predicate Grouped(deleted: seq<Entry>, removed: seq<Entry>) {
    forall i, j :: 0 <= i < j < |deleted| ==> InGroups(deleted[i], deleted[j], removed)
  }

  ghost predicate InGroups(a: Entry, b: Entry, removed: seq<Entry>) {
    a.hash == "" || Signature(a) == Signature(b) || (b.hash != "" && ComesFirst(removed, Signature(a), Signature(b)))
  }

  lemma {:induction false} LeftoverGrouped(removed: seq<Entry>, keys: seq<string>, at: map<string, seq<Entry>>)
    requires Sorted(at) && forall i :: 0 <= i < |keys| ==> keys[i] in at
    requires forall i, j :: 0 <= i < j < |keys| ==> ComesFirst(removed, keys[i], keys[j])
    ensures Grouped(Leftover(keys, at), removed)
    ensures forall e :: e in Leftover(keys, at) ==> e.hash != "" && Signature(e) in keys
  {
    if keys != [] {
      var front, last := keys[..|keys| - 1], keys[|keys| - 1];
      LeftoverGrouped(removed, front, at);
      GroupBehind(removed, front, Leftover(front, at), last, at[last]);
    }
  }

  lemma {:induction false} GroupBehind(removed: seq<Entry>, keys: seq<string>, left: seq<Entry>, key: string, bucket: seq<Entry>)
    requires Grouped(left, removed) && forall e :: e in left ==> e.hash != "" && Signature(e) in keys
    requires key != "" && (forall e :: e in bucket ==> Signature(e) == key) && forall i :: 0 <= i < |keys| ==> ComesFirst(removed, keys[i], key)
    ensures Grouped(left + bucket, removed)
    ensures forall e :: e in left + bucket ==> e.hash != "" && (Signature(e) in keys || Signature(e) == key)
  {
    var all := left + bucket;
    forall i, j | 0 <= i < j < |all| ensures InGroups(all[i], all[j], removed) {
      if j < |left| {
        assert InGroups(left[i], left[j], removed);
      } else {
        assert all[j] in bucket;
        if i < |left| { assert left[i] in left; } else { assert all[i] in bucket; }
      }
    }
  }

  lemma {:induction false} DeletedInOrder(manifest: seq<Entry>, other: seq<Entry>)
    ensures Grouped(DiffOf(manifest, Some(other)).deleted, Removed(manifest, other))
  {
    var removed := Removed(manifest, other);
    ByPathKnows(manifest);
    RemovedAreMissing(manifest, ByPath(manifest), ByPath(other));
    var f := Fill(removed);
    var at := Match(Incoming(manifest, other), f.at).at;
    FillSorted(removed);
    FillBySignature(removed, "");
    OfSigned(removed, "");
    MatchBySignature(Incoming(manifest, other), f.at, "");
    KeysInOrder(removed);
    assert forall i :: 0 <= i < |f.keys| ==> f.keys[i] in f.keys;
    LeftoverGrouped(removed, f.keys, at);
    NoHashFirst(removed, f.deleted, Leftover(f.keys, at));
  }

  lemma {:induction false} NoHashFirst(removed: seq<Entry>, deleted: seq<Entry>, left: seq<Entry>)
    requires Grouped(left, removed) && forall e :: e in deleted ==> Signature(e) == ""
    ensures Grouped(deleted + left, removed)
  {
    var all := deleted + left;
    forall i, j | 0 <= i < j < |all| ensures InGroups(all[i], all[j], removed) {
      if i < |deleted| { assert all[i] in deleted; } else { assert InGroups(left[i - |deleted|], left[j - |deleted|], removed); }
    }
  }
}
