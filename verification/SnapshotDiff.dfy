/** The difference between two workspace manifests, with rename detection. */
module SnapshotDiff {
  import opened Options

  datatype Entry = Entry(path: string, hash: string, kind: string, bundle: string, preset: string, author: string, time: string)

  /** The metadata of an entry that the diff compares, in its order. */
  datatype Field = Kind | SourceBundle | ImportPresetHash | LastModifiedBy | LastModifiedAt

  const METADATA := [Kind, SourceBundle, ImportPresetHash, LastModifiedBy, LastModifiedAt]

  /** A path on both sides; fields lists the metadata that changed, or is empty. */
  datatype Change = Change(path: string, fields: seq<Field>, before: Entry, after: Entry)

  datatype Rename = Rename(from: string, to: string, fields: seq<Field>, before: Entry, after: Entry)

  datatype Diff = Diff(added: seq<Entry>, modified: seq<Change>, deleted: seq<Entry>, renamed: seq<Rename>, metadata: seq<Change>)

  const NOTHING := Diff([], [], [], [], [])

  // ---- the helpers ----

  function FieldOf(e: Entry, name: Field): string {
    match name
    case Kind => e.kind
    case SourceBundle => e.bundle
    case ImportPresetHash => e.preset
    case LastModifiedBy => e.author
    case LastModifiedAt => e.time
  }

  function ChangedFields(before: Entry, after: Entry, names: seq<Field>): seq<Field> {
    if names == [] then []
    else
      var name := names[|names| - 1];
      ChangedFields(before, after, names[..|names| - 1]) + (if FieldOf(before, name) != FieldOf(after, name) then [name] else [])
  }

  lemma {:induction false} NoFieldChanged(before: Entry, after: Entry, names: seq<Field>)
    ensures ChangedFields(before, after, names) == [] <==>
      forall i :: 0 <= i < |names| ==> FieldOf(before, names[i]) == FieldOf(after, names[i])
  {
    if names != [] {
      NoFieldChanged(before, after, names[..|names| - 1]);
    }
  }

  /** Two entries that differ nowhere the diff looks are the same entry. */
  lemma {:induction false} SameEntry(before: Entry, after: Entry)
    requires before.path == after.path && before.hash == after.hash && ChangedFields(before, after, METADATA) == []
    ensures before == after
  {
    NoFieldChanged(before, after, METADATA);
    assert METADATA[0] == Kind && METADATA[1] == SourceBundle && METADATA[2] == ImportPresetHash;
    assert METADATA[3] == LastModifiedBy && METADATA[4] == LastModifiedAt;
  }

  /** Entries by path; the last one of a path counts, and none without one. */
  function ByPath(entries: seq<Entry>): map<string, Entry> {
    if entries == [] then map[]
    else
      var e := entries[|entries| - 1];
      var before := ByPath(entries[..|entries| - 1]);
      if e.path == "" then before else before[e.path := e]
  }

  function Signature(e: Entry): string { SignatureOf(e.hash, e.kind) }

  function SignatureOf(hash: string, kind: string): string {
    if hash == "" then "" else hash + "|" + kind
  }

  function RenameOf(before: Entry, after: Entry): Rename {
    Rename(before.path, after.path, ChangedFields(before, after, METADATA), before, after)
  }

  // ---- what happens to each entry of the first manifest ----

  datatype Fate = Ignored | Kept | Content(change: Change) | Metadata(change: Change) | Missing

  function FateOf(e: Entry, mine: map<string, Entry>, theirs: map<string, Entry>): Fate
    requires e.path != "" ==> e.path in mine
  {
    if e.path == "" then Ignored
    else if e.path !in theirs then Missing
    else
      var before, after := mine[e.path], theirs[e.path];
      var fields := ChangedFields(before, after, METADATA);
      if before.hash != after.hash then Content(Change(e.path, [], before, after))
      else if fields != [] then Metadata(Change(e.path, fields, before, after))
      else Kept
  }

  datatype Sides = Sides(modified: seq<Change>, metadata: seq<Change>, removed: seq<Entry>)

  function AddFate(s: Sides, e: Entry, fate: Fate): Sides {
    match fate
    case Content(change) => s.(modified := s.modified + [change])
    case Metadata(change) => s.(metadata := s.metadata + [change])
    case Missing => s.(removed := s.removed + [e])
    case _ => s
  }

  predicate Known(entries: seq<Entry>, mine: map<string, Entry>) {
    forall e :: e in entries && e.path != "" ==> e.path in mine
  }

  lemma {:induction false} ByPathKnows(entries: seq<Entry>)
    ensures Known(entries, ByPath(entries))
    ensures forall p :: p in ByPath(entries) ==> p != "" && ByPath(entries)[p].path == p && ByPath(entries)[p] in entries
  {
    if entries != [] { ByPathKnows(entries[..|entries| - 1]); }
  }

  function Classify(entries: seq<Entry>, mine: map<string, Entry>, theirs: map<string, Entry>): Sides
    requires Known(entries, mine)
  {
    if entries == [] then Sides([], [], [])
    else
      var e := entries[|entries| - 1];
      AddFate(Classify(entries[..|entries| - 1], mine, theirs), e, FateOf(e, mine, theirs))
  }

  /** The entries with a path that is not in a manifest. */
  function NotIn(entries: seq<Entry>, theirs: map<string, Entry>): seq<Entry> {
    if entries == [] then []
    else
      var e := entries[|entries| - 1];
      NotIn(entries[..|entries| - 1], theirs) + (if e.path != "" && e.path !in theirs then [e] else [])
  }

  // ---- matching by signature ----

  /** Removed entries in line under their signature, signatures in order of
      appearance; entries without a signature are deleted right away. */
  datatype Filled = Filled(deleted: seq<Entry>, keys: seq<string>, at: map<string, seq<Entry>>)

  function Fill(removed: seq<Entry>): (f: Filled)
    ensures forall k :: k in f.keys <==> k in f.at
  {
    if removed == [] then Filled([], [], map[])
    else
      var e := removed[|removed| - 1];
      var f := Fill(removed[..|removed| - 1]);
      var s := Signature(e);
      if s == "" then f.(deleted := f.deleted + [e])
      else if s !in f.at then Filled(f.deleted, f.keys + [s], f.at[s := [e]])
      else f.(at := f.at[s := f.at[s] + [e]])
  }

  datatype Matched = Matched(added: seq<Entry>, renamed: seq<Rename>, at: map<string, seq<Entry>>)

  function MatchStep(m: Matched, e: Entry): Matched {
    var s := Signature(e);
    if s == "" || s !in m.at || m.at[s] == [] then m.(added := m.added + [e])
    else Matched(m.added, m.renamed + [RenameOf(m.at[s][0], e)], m.at[s := m.at[s][1..]])
  }

  /** Each added entry takes the first removed one in line under its signature. */
  function Match(added: seq<Entry>, at: map<string, seq<Entry>>): (m: Matched)
    ensures m.at.Keys == at.Keys
  {
    if added == [] then Matched([], [], at)
    else
      var e := added[|added| - 1];
      MatchStep(Match(added[..|added| - 1], at), e)
  }

  function Leftover(keys: seq<string>, at: map<string, seq<Entry>>): seq<Entry>
    requires forall i :: 0 <= i < |keys| ==> keys[i] in at
  {
    if keys == [] then [] else Leftover(keys[..|keys| - 1], at) + at[keys[|keys| - 1]]
  }

  /** The whole difference; without a second snapshot everything is deleted. */
  function DiffOf(manifest: seq<Entry>, other: Option<seq<Entry>>): Diff {
    if other.None? then NOTHING.(deleted := manifest)
    else
      var mine, theirs := ByPath(manifest), ByPath(other.value);
      ByPathKnows(manifest);
      var sides := Classify(manifest, mine, theirs);
      var filled := Fill(sides.removed);
      var matched := Match(NotIn(other.value, mine), filled.at);
      Diff(matched.added, sides.modified, filled.deleted + Leftover(filled.keys, matched.at), matched.renamed, sides.metadata)
  }

  // ---- the algorithm ----

  method BuildMap(entries: seq<Entry>) returns (byPath: map<string, Entry>)
    ensures byPath == ByPath(entries)
  {
    byPath := map[];
    for n := 0 to |entries|
      invariant byPath == ByPath(entries[..n])
    {
      assert entries[..n + 1][..n] == entries[..n];
      if entries[n].path != "" { byPath := byPath[entries[n].path := entries[n]]; }
    }
    assert entries[..|entries|] == entries;
  }

  method ChangedMetadata(before: Entry, after: Entry, names: seq<Field>) returns (changed: seq<Field>)
    ensures changed == ChangedFields(before, after, names)
  {
    changed := [];
    for n := 0 to |names|
      invariant changed == ChangedFields(before, after, names[..n])
    {
      assert names[..n + 1][..n] == names[..n];
      if FieldOf(before, names[n]) != FieldOf(after, names[n]) { changed := changed + [names[n]]; }
    }
    assert names[..|names|] == names;
  }

  method ClassifyEntries(entries: seq<Entry>, mine: map<string, Entry>, theirs: map<string, Entry>)
    returns (modified: seq<Change>, metadata: seq<Change>, removed: seq<Entry>)
    requires Known(entries, mine)
    ensures Sides(modified, metadata, removed) == Classify(entries, mine, theirs)
  {
    modified, metadata, removed := [], [], [];
    for n := 0 to |entries|
      invariant Sides(modified, metadata, removed) == Classify(entries[..n], mine, theirs)
    {
      var e := entries[n];
      assert entries[..n + 1][..n] == entries[..n];
      if e.path == "" { continue; }
      if e.path in theirs {
        var before, after := mine[e.path], theirs[e.path];
        if before.hash != after.hash {
          modified := modified + [Change(e.path, [], before, after)];
        } else {
          var fields := ChangedMetadata(before, after, METADATA);
          if |fields| > 0 { metadata := metadata + [Change(e.path, fields, before, after)]; }
        }
      } else {
        removed := removed + [e];
      }
    }
    assert entries[..|entries|] == entries;
  }

  method CollectAdded(entries: seq<Entry>, mine: map<string, Entry>) returns (added: seq<Entry>)
    ensures added == NotIn(entries, mine)
  {
    added := [];
    for n := 0 to |entries|
      invariant added == NotIn(entries[..n], mine)
    {
      assert entries[..n + 1][..n] == entries[..n];
      if entries[n].path != "" && entries[n].path !in mine { added := added + [entries[n]]; }
    }
    assert entries[..|entries|] == entries;
  }

  method FillBuckets(removed: seq<Entry>) returns (deleted: seq<Entry>, keys: seq<string>, at: map<string, seq<Entry>>)
    ensures Filled(deleted, keys, at) == Fill(removed)
  {
    deleted, keys, at := [], [], map[];
    for n := 0 to |removed|
      invariant Filled(deleted, keys, at) == Fill(removed[..n])
    {
      var e := removed[n];
      assert removed[..n + 1][..n] == removed[..n];
      var s := Signature(e);
      if s == "" {
        deleted := deleted + [e];
        continue;
      }
      ghost var before := at;
      if s !in at { keys, at := keys + [s], at[s := []]; }
      var bucket := at[s] + [e];
      at := at[s := bucket];
      assert s !in before ==> bucket == [e] && at == before[s := [e]];
    }
    assert removed[..|removed|] == removed;
  }

  method MatchAdded(incoming: seq<Entry>, start: map<string, seq<Entry>>)
    returns (added: seq<Entry>, renamed: seq<Rename>, at: map<string, seq<Entry>>)
    ensures Matched(added, renamed, at) == Match(incoming, start)
  {
    added, renamed, at := [], [], start;
    for n := 0 to |incoming|
      invariant Matched(added, renamed, at) == Match(incoming[..n], start)
    {
      var e := incoming[n];
      assert incoming[..n + 1][..n] == incoming[..n];
      var s := Signature(e);
      if s == "" || s !in at {
        added := added + [e];
        continue;
      }
      var bucket := at[s];
      if bucket == [] {
        added := added + [e];
        continue;
      }
      at := at[s := bucket[1..]];
      renamed := renamed + [RenameOf(bucket[0], e)];
    }
    assert incoming[..|incoming|] == incoming;
  }

  method DeleteLeftovers(deleted: seq<Entry>, keys: seq<string>, at: map<string, seq<Entry>>) returns (all: seq<Entry>)
    requires forall i :: 0 <= i < |keys| ==> keys[i] in at
    ensures all == deleted + Leftover(keys, at)
  {
    all := deleted;
    for n := 0 to |keys|
      invariant all == deleted + Leftover(keys[..n], at)
    {
      assert keys[..n + 1][..n] == keys[..n];
      var bucket := at[keys[n]];
      for i := 0 to |bucket|
        invariant all == deleted + Leftover(keys[..n], at) + bucket[..i]
      {
        all := all + [bucket[i]];
      }
      assert bucket[..|bucket|] == bucket;
    }
    assert keys[..|keys|] == keys;
  }

  method DiffWith(manifest: seq<Entry>, other: Option<seq<Entry>>) returns (d: Diff)
    ensures d == DiffOf(manifest, other)
  {
    if other.None? { return NOTHING.(deleted := manifest); }
    var mine := BuildMap(manifest);
    var theirs := BuildMap(other.value);
    ByPathKnows(manifest);
    var modified, metadata, removed := ClassifyEntries(manifest, mine, theirs);
    var incoming := CollectAdded(other.value, mine);
    var deleted, keys, start := FillBuckets(removed);
    var added, renamed, at := MatchAdded(incoming, start);
    assert forall i :: 0 <= i < |keys| ==> keys[i] in keys;
    deleted := DeleteLeftovers(deleted, keys, at);
    d := Diff(added, modified, deleted, renamed, metadata);
  }

  // ---- the matching, signature by signature ----

  /** The entries with a signature, in order. */
  function Of(entries: seq<Entry>, s: string): seq<Entry> {
    if entries == [] then []
    else
      var e := entries[|entries| - 1];
      Of(entries[..|entries| - 1], s) + (if Signature(e) == s then [e] else [])
  }

  function PairsOf(renamed: seq<Rename>, s: string): seq<Rename> {
    if renamed == [] then []
    else
      var r := renamed[|renamed| - 1];
      PairsOf(renamed[..|renamed| - 1], s) + (if Signature(r.before) == s then [r] else [])
  }

  function Bucket(at: map<string, seq<Entry>>, s: string): seq<Entry> {
    if s in at then at[s] else []
  }

  function Min(a: nat, b: nat): nat { if a < b then a else b }

  /** The first k of two lists, paired. */
  function Paired(removed: seq<Entry>, added: seq<Entry>, k: nat): seq<Rename>
    requires k <= |removed| && k <= |added|
  {
    seq(k, i requires 0 <= i < k => RenameOf(removed[i], added[i]))
  }

  lemma {:induction false} OfSigned(entries: seq<Entry>, s: string)
    ensures forall e :: e in Of(entries, s) ==> Signature(e) == s
  {
    if entries != [] { OfSigned(entries[..|entries| - 1], s); }
  }

  lemma {:induction false} OfConcat(a: seq<Entry>, b: seq<Entry>, s: string)
    ensures Of(a + b, s) == Of(a, s) + Of(b, s)
  {
    if b == [] { assert a + b == a; }
    else {
      assert (a + b)[..|a + b| - 1] == a + b[..|b| - 1];
      OfConcat(a, b[..|b| - 1], s);
    }
  }

  lemma {:induction false} LastApart(entries: seq<Entry>)
    requires entries != []
    ensures entries == entries[..|entries| - 1] + [entries[|entries| - 1]]
  {}

  lemma {:induction false} OfUniform(entries: seq<Entry>, s: string, t: string)
    requires forall i :: 0 <= i < |entries| ==> Signature(entries[i]) == s
    ensures Of(entries, t) == if s == t then entries else []
  {
    if entries != [] {
      var front, last := entries[..|entries| - 1], entries[|entries| - 1];
      assert Signature(last) == s;
      OfUniform(front, s, t);
      LastApart(entries);
    }
  }

  lemma {:induction false} FillBySignature(removed: seq<Entry>, s: string)
    ensures Fill(removed).deleted == Of(removed, "")
    ensures "" !in Fill(removed).at
    ensures Bucket(Fill(removed).at, s) == if s == "" then [] else Of(removed, s)
  {
    if removed != [] { FillBySignature(removed[..|removed| - 1], s); }
  }

  ghost predicate Distinct(keys: seq<string>) {
    forall i, j :: 0 <= i < j < |keys| ==> keys[i] != keys[j]
  }

  lemma {:induction false} FillKeysDistinct(removed: seq<Entry>)
    ensures Distinct(Fill(removed).keys)
  {
    if removed != [] {
      FillKeysDistinct(removed[..|removed| - 1]);
      var f := Fill(removed[..|removed| - 1]);
      assert forall i :: 0 <= i < |f.keys| ==> f.keys[i] in f.at;
    }
  }

  ghost predicate Sorted(at: map<string, seq<Entry>>) {
    "" !in at && forall s, e :: s in at && e in at[s] ==> Signature(e) == s
  }

  lemma {:induction false} FillSorted(removed: seq<Entry>)
    ensures Sorted(Fill(removed).at)
  {
    var at := Fill(removed).at;
    forall s, e | s in at && e in at[s] ensures Signature(e) == s {
      FillBySignature(removed, s);
      OfSigned(removed, s);
    }
    FillBySignature(removed, "");
  }

  /** With r in line and a added under signature s: what is left in line, what
      stays added, and the renames in between, pair by pair. */
  ghost predicate Matches(m: Matched, r: seq<Entry>, a: seq<Entry>, s: string) {
    var k := Min(|r|, |a|);
    Bucket(m.at, s) == r[k..] && Of(m.added, s) == a[k..] && PairsOf(m.renamed, s) == Paired(r, a, k)
  }

  lemma {:induction false} StepKeepsSorted(m: Matched, e: Entry)
    requires Sorted(m.at)
    ensures Sorted(MatchStep(m, e).at)
  {
    var s := Signature(e);
    if s in m.at && m.at[s] != [] {
      assert forall x :: x in m.at[s][1..] ==> x in m.at[s];
    }
  }

  lemma {:induction false} StepElsewhere(m: Matched, e: Entry, r: seq<Entry>, a: seq<Entry>, s: string)
    requires Sorted(m.at) && Matches(m, r, a, s) && Signature(e) != s
    ensures Matches(MatchStep(m, e), r, a, s)
  {
    var m', t := MatchStep(m, e), Signature(e);
    if t != "" && t in m.at && m.at[t] != [] {
      assert m'.renamed[..|m'.renamed| - 1] == m.renamed;
      assert m.at[t][0] in m.at[t];
    } else {
      assert m'.added[..|m'.added| - 1] == m.added;
    }
  }

  lemma {:induction false} StepAdds(m: Matched, e: Entry, r: seq<Entry>, a: seq<Entry>, s: string)
    requires Matches(m, r, a, s) && Signature(e) == s && Sorted(m.at) && Bucket(m.at, s) == []
    ensures Matches(MatchStep(m, e), r, a + [e], s)
  {
    var m' := MatchStep(m, e);
    assert m'.added[..|m'.added| - 1] == m.added;
    assert (a + [e])[Min(|r|, |a|)..] == a[Min(|r|, |a|)..] + [e];
    assert Paired(r, a + [e], |r|) == Paired(r, a, |r|);
  }

  lemma {:induction false} PairedMore(r: seq<Entry>, a: seq<Entry>, e: Entry)
    requires |a| < |r|
    ensures Paired(r, a + [e], |a| + 1) == Paired(r, a, |a|) + [RenameOf(r[|a|], e)]
  {}

  lemma {:induction false} StepRenames(m: Matched, e: Entry, r: seq<Entry>, a: seq<Entry>, s: string)
    requires Matches(m, r, a, s) && Signature(e) == s && Sorted(m.at) && Bucket(m.at, s) != []
    ensures Matches(MatchStep(m, e), r, a + [e], s)
  {
    FirstSigned(m.at, s);
    RenameMatches(m, e, r, a, s);
  }

  lemma {:induction false} FirstSigned(at: map<string, seq<Entry>>, s: string)
    requires Sorted(at) && Bucket(at, s) != []
    ensures s != "" && s in at && Signature(at[s][0]) == s
  {
    assert at[s][0] in at[s];
  }

  lemma {:induction false} RenameMatches(m: Matched, e: Entry, r: seq<Entry>, a: seq<Entry>, s: string)
    requires Matches(m, r, a, s) && s != "" && s in m.at && m.at[s] != []
    requires Signature(e) == s && Signature(m.at[s][0]) == s
    ensures Matches(MatchStep(m, e), r, a + [e], s)
  {
    var k, first := |a|, m.at[s][0];
    FrontOfRest(r, k);
    PairsOfMore(m.renamed, RenameOf(first, e), s);
    PairedMore(r, a, e);
    NothingBehind(a, e);
  }

  lemma {:induction false} FrontOfRest(r: seq<Entry>, k: nat)
    requires k < |r|
    ensures r[k..][0] == r[k] && r[k..][1..] == r[k + 1..]
  {}

  lemma {:induction false} NothingBehind(a: seq<Entry>, e: Entry)
    ensures a[|a|..] == [] && (a + [e])[|a| + 1..] == []
  {}

  lemma {:induction false} PairsOfMore(renamed: seq<Rename>, r: Rename, s: string)
    requires Signature(r.before) == s
    ensures PairsOf(renamed + [r], s) == PairsOf(renamed, s) + [r]
  {
    assert (renamed + [r])[..|renamed|] == renamed;
  }

  lemma {:induction false} StepMatches(m: Matched, e: Entry, r: seq<Entry>, a: seq<Entry>, s: string)
    requires Matches(m, r, a, s) && Sorted(m.at)
    ensures Matches(MatchStep(m, e), r, if Signature(e) == s then a + [e] else a, s) && Sorted(MatchStep(m, e).at)
  {
    StepKeepsSorted(m, e);
    if Signature(e) != s { StepElsewhere(m, e, r, a, s); }
    else if Bucket(m.at, s) == [] { StepAdds(m, e, r, a, s); }
    else { StepRenames(m, e, r, a, s); }
  }

  lemma {:induction false} NothingPaired(r: seq<Entry>)
    ensures r[0..] == r && Paired(r, [], 0) == []
  {}

  /** Per signature, the front of the line is matched with the front of the
      added entries, in order. */
  lemma {:induction false} MatchBySignature(added: seq<Entry>, at: map<string, seq<Entry>>, s: string)
    requires Sorted(at)
    ensures Sorted(Match(added, at).at) && Matches(Match(added, at), Bucket(at, s), Of(added, s), s)
  {
    if added == [] {
      NothingPaired(Bucket(at, s));
    } else {
      var front, e := added[..|added| - 1], added[|added| - 1];
      MatchBySignature(front, at, s);
      StepMatches(Match(front, at), e, Bucket(at, s), Of(front, s), s);
      assert Of(added, s) == if Signature(e) == s then Of(front, s) + [e] else Of(front, s);
    }
  }

  lemma {:induction false} LeftoverBySignature(keys: seq<string>, at: map<string, seq<Entry>>, s: string)
    requires Sorted(at) && Distinct(keys) && forall i :: 0 <= i < |keys| ==> keys[i] in at
    ensures Of(Leftover(keys, at), s) == if s in keys then at[s] else []
  {
    if keys != [] {
      var front, last := keys[..|keys| - 1], keys[|keys| - 1];
      LeftoverBySignature(front, at, s);
      OfConcat(Leftover(front, at), at[last], s);
      OfUniform(at[last], last, s);
      assert s in keys <==> s in front || s == last;
    }
  }
}
