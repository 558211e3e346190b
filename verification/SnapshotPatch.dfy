/** What the difference between two manifests is good for: it turns the one
    into the other, and its renames are a maximal matching. */
module SnapshotPatch {
  import opened Options
  import opened SnapshotDiff

  // ---- the matching ----

  lemma {:induction false} RemovedAreMissing(entries: seq<Entry>, mine: map<string, Entry>, theirs: map<string, Entry>)
    requires Known(entries, mine)
    ensures Classify(entries, mine, theirs).removed == NotIn(entries, theirs)
  {
    if entries != [] { RemovedAreMissing(entries[..|entries| - 1], mine, theirs); }
  }

  /** The one-sided entries of two manifests. */
  function Removed(manifest: seq<Entry>, other: seq<Entry>): seq<Entry> { NotIn(manifest, ByPath(other)) }

  function Incoming(manifest: seq<Entry>, other: seq<Entry>): seq<Entry> { NotIn(other, ByPath(manifest)) }

  /** How many of each are matched under a signature: as many as possible. */
  function MatchCount(manifest: seq<Entry>, other: seq<Entry>, s: string): nat {
    if s == "" then 0 else Min(|Of(Removed(manifest, other), s)|, |Of(Incoming(manifest, other), s)|)
  }

  /** Under every signature the i-th added entry is a rename of the i-th removed
      one as long as both last; the others stay added or deleted, in order. */
  lemma {:induction false} RenamesMatch(manifest: seq<Entry>, other: seq<Entry>, s: string)
    ensures
      var d, r, a := DiffOf(manifest, Some(other)), Of(Removed(manifest, other), s), Of(Incoming(manifest, other), s);
      var k := MatchCount(manifest, other, s);
      && k <= |r| && k <= |a|
      && PairsOf(d.renamed, s) == Paired(r, a, k)
      && Of(d.added, s) == a[k..]
      && Of(d.deleted, s) == r[k..]
  {
    var mine, theirs := ByPath(manifest), ByPath(other);
    ByPathKnows(manifest);
    RemovedAreMissing(manifest, mine, theirs);
    MatchedLists(Removed(manifest, other), Incoming(manifest, other), s);
  }

  lemma {:induction false} MatchedLists(removed: seq<Entry>, incoming: seq<Entry>, s: string)
    ensures
      var f := Fill(removed);
      var m, r, a := Match(incoming, f.at), Of(removed, s), Of(incoming, s);
      var k := if s == "" then 0 else Min(|r|, |a|);
      && PairsOf(m.renamed, s) == Paired(r, a, k)
      && Of(m.added, s) == a[k..]
      && Of(f.deleted + Leftover(f.keys, m.at), s) == r[k..]
  {
    var f := Fill(removed);
    var m, r, a := Match(incoming, f.at), Of(removed, s), Of(incoming, s);
    FillSorted(removed);
    FillBySignature(removed, s);
    MatchBySignature(incoming, f.at, s);
    LeftInLine(removed, m, s);
    if s == "" {
      Unmatched(m, r, a);
    } else {
      assert Bucket(f.at, s) == r;
    }
  }

  /** Entries without a signature stay as they are. */
  lemma {:induction false} Unmatched(m: Matched, r: seq<Entry>, a: seq<Entry>)
    requires Matches(m, [], a, "")
    ensures PairsOf(m.renamed, "") == Paired(r, a, 0) && Of(m.added, "") == a[0..] && r == r[0..]
  {
    assert Paired([], a, 0) == Paired(r, a, 0);
  }

  /** Deleted in the end: what had no signature, and what stayed in line. */
  lemma {:induction false} LeftInLine(removed: seq<Entry>, m: Matched, s: string)
    requires m.at.Keys == Fill(removed).at.Keys && Sorted(m.at)
    ensures Of(Fill(removed).deleted + Leftover(Fill(removed).keys, m.at), s) == if s == "" then Of(removed, "") else Bucket(m.at, s)
  {
    var f := Fill(removed);
    FillKeysDistinct(removed);
    FillBySignature(removed, s);
    assert forall i :: 0 <= i < |f.keys| ==> f.keys[i] in f.keys;
    LeftoverBySignature(f.keys, m.at, s);
    OfConcat(f.deleted, Leftover(f.keys, m.at), s);
    OfSigned(removed, "");
    OfUniform(f.deleted, "", s);
  }

  /** No added and deleted entry are left under the same signature. */
  lemma {:induction false} MatchingIsMaximal(manifest: seq<Entry>, other: seq<Entry>, a: Entry, b: Entry)
    requires a in DiffOf(manifest, Some(other)).added && b in DiffOf(manifest, Some(other)).deleted
    ensures Signature(a) == "" || Signature(a) != Signature(b)
  {
    var d, s := DiffOf(manifest, Some(other)), Signature(a);
    if s != "" && Signature(b) == s {
      RenamesMatch(manifest, other, s);
      OfKeeps(d.added, a);
      OfKeeps(d.deleted, b);
    }
  }

  lemma {:induction false} OfKeeps(entries: seq<Entry>, e: Entry)
    requires e in entries
    ensures e in Of(entries, Signature(e))
  {
    if entries[|entries| - 1] != e { OfKeeps(entries[..|entries| - 1], e); }
  }

  // ---- every one-sided entry in one category ----

  function Befores(renamed: seq<Rename>): seq<Entry> {
    seq(|renamed|, i requires 0 <= i < |renamed| => renamed[i].before)
  }

  function Afters(renamed: seq<Rename>): seq<Entry> {
    seq(|renamed|, i requires 0 <= i < |renamed| => renamed[i].after)
  }

  lemma {:induction false} OfCount(entries: seq<Entry>, e: Entry)
    ensures multiset(entries)[e] == multiset(Of(entries, Signature(e)))[e]
  {
    if entries != [] {
      OfCount(entries[..|entries| - 1], e);
      LastApart(entries);
    }
  }

  lemma {:induction false} BeforesOf(renamed: seq<Rename>, s: string)
    ensures Of(Befores(renamed), s) == Befores(PairsOf(renamed, s))
  {
    if renamed != [] {
      BeforesOf(renamed[..|renamed| - 1], s);
      assert Befores(renamed)[..|renamed| - 1] == Befores(renamed[..|renamed| - 1]);
    }
  }

  /** A rename is between entries of one signature. */
  ghost predicate SameSignatures(renamed: seq<Rename>) {
    forall i :: 0 <= i < |renamed| ==> Signature(renamed[i].before) == Signature(renamed[i].after) != ""
  }

  lemma {:induction false} AftersOf(renamed: seq<Rename>, s: string)
    requires SameSignatures(renamed)
    ensures Of(Afters(renamed), s) == Afters(PairsOf(renamed, s))
  {
    if renamed != [] {
      AftersOf(renamed[..|renamed| - 1], s);
      assert Afters(renamed)[..|renamed| - 1] == Afters(renamed[..|renamed| - 1]);
    }
  }

  lemma {:induction false} MatchSameSignatures(added: seq<Entry>, at: map<string, seq<Entry>>)
    requires Sorted(at)
    ensures SameSignatures(Match(added, at).renamed) && Sorted(Match(added, at).at)
  {
    if added != [] {
      var front, e := added[..|added| - 1], added[|added| - 1];
      MatchSameSignatures(front, at);
      StepKeepsSorted(Match(front, at), e);
      StepSameSignature(Match(front, at), e);
    }
  }

  lemma {:induction false} StepSameSignature(m: Matched, e: Entry)
    requires Sorted(m.at) && SameSignatures(m.renamed)
    ensures SameSignatures(MatchStep(m, e).renamed)
  {
    var s := Signature(e);
    if s in m.at && m.at[s] != [] { assert m.at[s][0] in m.at[s]; }
  }

  lemma {:induction false} RenamedSameSignatures(manifest: seq<Entry>, other: seq<Entry>)
    ensures SameSignatures(DiffOf(manifest, Some(other)).renamed)
  {
    ByPathKnows(manifest);
    FillSorted(Classify(manifest, ByPath(manifest), ByPath(other)).removed);
    MatchSameSignatures(Incoming(manifest, other), Fill(Classify(manifest, ByPath(manifest), ByPath(other)).removed).at);
  }

  lemma {:induction false} RemovedCount(manifest: seq<Entry>, other: seq<Entry>, e: Entry)
    ensures
      var d := DiffOf(manifest, Some(other));
      multiset(Removed(manifest, other))[e] == multiset(d.deleted)[e] + multiset(Befores(d.renamed))[e]
  {
    var d, k := DiffOf(manifest, Some(other)), MatchCount(manifest, other, Signature(e));
    var r, a := Removed(manifest, other), Incoming(manifest, other);
    RenamesMatch(manifest, other, Signature(e));
    BeforesOf(d.renamed, Signature(e));
    PairedSides(Of(r, Signature(e)), Of(a, Signature(e)), k);
    CountSplit(r, d.deleted, Befores(d.renamed), k, e);
  }

  lemma {:induction false} IncomingCount(manifest: seq<Entry>, other: seq<Entry>, e: Entry)
    ensures
      var d := DiffOf(manifest, Some(other));
      multiset(Incoming(manifest, other))[e] == multiset(d.added)[e] + multiset(Afters(d.renamed))[e]
  {
    var d, k := DiffOf(manifest, Some(other)), MatchCount(manifest, other, Signature(e));
    var r, a := Removed(manifest, other), Incoming(manifest, other);
    RenamesMatch(manifest, other, Signature(e));
    RenamedSameSignatures(manifest, other);
    AftersOf(d.renamed, Signature(e));
    PairedSides(Of(r, Signature(e)), Of(a, Signature(e)), k);
    CountSplit(a, d.added, Afters(d.renamed), k, e);
  }

  lemma {:induction false} SameCounts(all: seq<Entry>, left: seq<Entry>, taken: seq<Entry>)
    requires forall e :: multiset(all)[e] == multiset(left)[e] + multiset(taken)[e]
    ensures multiset(all) == multiset(left) + multiset(taken)
  {}

  /** Each entry of either side is deleted or renamed, added or renamed to, as
      often as it is there. */
  lemma {:induction false} OneSidedConserved(manifest: seq<Entry>, other: seq<Entry>)
    ensures
      var d := DiffOf(manifest, Some(other));
      && multiset(Removed(manifest, other)) == multiset(d.deleted) + multiset(Befores(d.renamed))
      && multiset(Incoming(manifest, other)) == multiset(d.added) + multiset(Afters(d.renamed))
  {
    var d := DiffOf(manifest, Some(other));
    var r, a := Removed(manifest, other), Incoming(manifest, other);
    var deleted, added, befores, afters := d.deleted, d.added, Befores(d.renamed), Afters(d.renamed);
    forall e ensures multiset(r)[e] == multiset(deleted)[e] + multiset(befores)[e] { RemovedCount(manifest, other, e); }
    forall e ensures multiset(a)[e] == multiset(added)[e] + multiset(afters)[e] { IncomingCount(manifest, other, e); }
    SameCounts(r, deleted, befores);
    SameCounts(a, added, afters);
  }

  lemma {:induction false} PairedSides(r: seq<Entry>, a: seq<Entry>, k: nat)
    requires k <= |r| && k <= |a|
    ensures Befores(Paired(r, a, k)) == r[..k] && Afters(Paired(r, a, k)) == a[..k]
  {}

  lemma {:induction false} CountSplit(all: seq<Entry>, left: seq<Entry>, taken: seq<Entry>, k: nat, e: Entry)
    requires k <= |Of(all, Signature(e))|
    requires Of(left, Signature(e)) == Of(all, Signature(e))[k..] && Of(taken, Signature(e)) == Of(all, Signature(e))[..k]
    ensures multiset(all)[e] == multiset(left)[e] + multiset(taken)[e]
  {
    var mine := Of(all, Signature(e));
    OfCount(all, e);
    OfCount(left, e);
    OfCount(taken, e);
    assert mine == mine[..k] + mine[k..];
  }

  /** No two entries share a path. */
  ghost predicate UniquePaths(entries: seq<Entry>) {
    forall i, j :: 0 <= i < j < |entries| ==> entries[i].path != entries[j].path || entries[i].path == ""
  }

  lemma {:induction false} NotInHas(entries: seq<Entry>, theirs: map<string, Entry>, e: Entry)
    ensures e in NotIn(entries, theirs) <==> e in entries && e.path != "" && e.path !in theirs
  {
    if entries != [] {
      NotInHas(entries[..|entries| - 1], theirs, e);
      LastApart(entries);
    }
  }

  lemma {:induction false} NotInOnce(entries: seq<Entry>, theirs: map<string, Entry>, e: Entry)
    requires UniquePaths(entries)
    ensures multiset(NotIn(entries, theirs))[e] <= 1
  {
    if entries != [] {
      var front, last := entries[..|entries| - 1], entries[|entries| - 1];
      NotInOnce(front, theirs, e);
      if last == e && last.path != "" {
        NotInHas(front, theirs, e);
        assert e !in NotIn(front, theirs);
      }
    }
  }

  /** With unique paths, every entry that only the first manifest has is either
      deleted or the source of a rename, and only once; likewise on the other side. */
  lemma {:induction false} ExactlyOneCategory(manifest: seq<Entry>, other: seq<Entry>, e: Entry)
    requires UniquePaths(manifest) && UniquePaths(other)
    ensures
      var d := DiffOf(manifest, Some(other));
      && (e in Removed(manifest, other) ==> multiset(d.deleted)[e] + multiset(Befores(d.renamed))[e] == 1)
      && (e in Incoming(manifest, other) ==> multiset(d.added)[e] + multiset(Afters(d.renamed))[e] == 1)
  {
    OneSidedConserved(manifest, other);
    NotInOnce(manifest, ByPath(other), e);
    NotInOnce(other, ByPath(manifest), e);
  }

  // ---- the difference is a patch ----

  function Paths(entries: seq<Entry>): set<string> {
    set i | 0 <= i < |entries| :: entries[i].path
  }

  function AftersOfChanges(changes: seq<Change>): seq<Entry> {
    seq(|changes|, i requires 0 <= i < |changes| => changes[i].after)
  }

  function PutAll(m: map<string, Entry>, entries: seq<Entry>): map<string, Entry> {
    if entries == [] then m
    else
      var e := entries[|entries| - 1];
      PutAll(m, entries[..|entries| - 1])[e.path := e]
  }

  /** A manifest with a difference applied: deleted paths and rename sources go,
      changed entries and the added and renamed ones are put in. */
  function Patched(m: map<string, Entry>, d: Diff): map<string, Entry> {
    PutAll(m - (Paths(d.deleted) + Paths(Befores(d.renamed))), PutIn(d))
  }

  function PutIn(d: Diff): seq<Entry> {
    AftersOfChanges(d.modified) + AftersOfChanges(d.metadata) + (d.added + Afters(d.renamed))
  }

  /** Every entry is the one a manifest has at its path. */
  ghost predicate From(entries: seq<Entry>, theirs: map<string, Entry>) {
    forall i :: 0 <= i < |entries| ==> entries[i].path in theirs && theirs[entries[i].path] == entries[i]
  }

  lemma {:induction false} PutAllLookup(m: map<string, Entry>, entries: seq<Entry>, theirs: map<string, Entry>)
    requires From(entries, theirs)
    ensures forall p :: p in PutAll(m, entries) <==> p in m || p in Paths(entries)
    ensures forall p :: p in PutAll(m, entries) ==> PutAll(m, entries)[p] == if p in Paths(entries) then theirs[p] else m[p]
  {
    if entries != [] {
      var front, last := entries[..|entries| - 1], entries[|entries| - 1];
      PutAllLookup(m, front, theirs);
      PathsSplit(front, [last]);
      LastApart(entries);
      assert Paths([last]) == {last.path} by { assert [last][0].path in Paths([last]); }
    }
  }

  lemma {:induction false} PathsSplit(a: seq<Entry>, b: seq<Entry>)
    ensures Paths(a + b) == Paths(a) + Paths(b)
  {
    forall p | p in Paths(a) + Paths(b) ensures p in Paths(a + b) {
      if p in Paths(a) {
        var i :| 0 <= i < |a| && a[i].path == p;
        assert (a + b)[i].path == p;
      } else {
        var i :| 0 <= i < |b| && b[i].path == p;
        assert (a + b)[|a| + i].path == p;
      }
    }
  }

  lemma {:induction false} PathsOf(entries: seq<Entry>, p: string)
    ensures p in Paths(entries) <==> exists e :: e in entries && e.path == p
  {
    if p in Paths(entries) {
      var i :| 0 <= i < |entries| && entries[i].path == p;
      assert entries[i] in entries;
    }
    if e :| e in entries && e.path == p {
      var i :| 0 <= i < |entries| && entries[i] == e;
    }
  }

  lemma {:induction false} SamePaths(all: seq<Entry>, left: seq<Entry>, taken: seq<Entry>)
    requires multiset(all) == multiset(left) + multiset(taken)
    ensures Paths(all) == Paths(left) + Paths(taken)
    ensures forall e :: e in left || e in taken ==> e in all
  {
    forall e ensures e in all <==> e in left || e in taken {
      assert e in multiset(all) <==> e in multiset(left) || e in multiset(taken);
    }
    forall p ensures p in Paths(all) <==> p in Paths(left) || p in Paths(taken) {
      PathsOf(all, p);
      PathsOf(left, p);
      PathsOf(taken, p);
    }
  }

  /** The changes are at paths that both manifests have, and every path that is
      not changed holds the same entry on both sides. */
  lemma {:induction false} Classified(entries: seq<Entry>, mine: map<string, Entry>, theirs: map<string, Entry>)
    requires Known(entries, mine) && Keyed(mine) && Keyed(theirs)
    ensures
      var s := Classify(entries, mine, theirs);
      && From(AftersOfChanges(s.modified), theirs) && From(AftersOfChanges(s.metadata), theirs)
      && forall e :: e in entries && e.path != "" && e.path in theirs ==>
           mine[e.path] == theirs[e.path] || e.path in Paths(AftersOfChanges(s.modified)) + Paths(AftersOfChanges(s.metadata))
  {
    if entries != [] {
      var front, last := entries[..|entries| - 1], entries[|entries| - 1];
      Classified(front, mine, theirs);
      ClassifiedMore(front, last, mine, theirs);
      LastApart(entries);
    }
  }

  ghost predicate Keyed(m: map<string, Entry>) {
    forall p :: p in m ==> p != "" && m[p].path == p
  }

  lemma {:induction false} AftersMore(changes: seq<Change>, change: Change)
    ensures AftersOfChanges(changes + [change]) == AftersOfChanges(changes) + [change.after]
    ensures Paths(AftersOfChanges(changes + [change])) == Paths(AftersOfChanges(changes)) + {change.after.path}
  {
    assert AftersOfChanges(changes + [change]) == AftersOfChanges(changes) + [change.after];
    PathsSplit(AftersOfChanges(changes), [change.after]);
    assert [change.after][0].path in Paths([change.after]);
  }

  lemma {:induction false} ClassifiedMore(front: seq<Entry>, last: Entry, mine: map<string, Entry>, theirs: map<string, Entry>)
    requires Known(front, mine) && (last.path != "" ==> last.path in mine) && Keyed(mine) && Keyed(theirs)
    ensures
      var s := Classify(front, mine, theirs);
      var s' := AddFate(s, last, FateOf(last, mine, theirs));
      && (From(AftersOfChanges(s.modified), theirs) ==> From(AftersOfChanges(s'.modified), theirs))
      && (From(AftersOfChanges(s.metadata), theirs) ==> From(AftersOfChanges(s'.metadata), theirs))
      && Paths(AftersOfChanges(s.modified)) <= Paths(AftersOfChanges(s'.modified))
      && Paths(AftersOfChanges(s.metadata)) <= Paths(AftersOfChanges(s'.metadata))
      && (last.path != "" && last.path in theirs ==>
           mine[last.path] == theirs[last.path] || last.path in Paths(AftersOfChanges(s'.modified)) + Paths(AftersOfChanges(s'.metadata)))
  {
    var s := Classify(front, mine, theirs);
    var fate := FateOf(last, mine, theirs);
    match fate {
      case Content(change) => AftersMore(s.modified, change);
      case Metadata(change) => AftersMore(s.metadata, change);
      case Kept => SameEntry(mine[last.path], theirs[last.path]);
      case _ =>
    }
  }

  lemma {:induction false} ByPathHas(entries: seq<Entry>, e: Entry)
    requires UniquePaths(entries) && e in entries && e.path != ""
    ensures e.path in ByPath(entries) && ByPath(entries)[e.path] == e
  {
    var front, last := entries[..|entries| - 1], entries[|entries| - 1];
    if e != last {
      ByPathHas(front, e);
      var i :| 0 <= i < |entries| && entries[i] == e;
      assert entries[i].path != last.path;
    }
  }

  /** What is put in is the other manifest's. */
  lemma {:induction false} PutInTheirs(manifest: seq<Entry>, other: seq<Entry>)
    requires UniquePaths(other)
    ensures From(PutIn(DiffOf(manifest, Some(other))), ByPath(other))
  {
    var d := DiffOf(manifest, Some(other));
    ByPathKnows(manifest);
    ByPathKnows(other);
    Classified(manifest, ByPath(manifest), ByPath(other));
    OneSidedConserved(manifest, other);
    SamePaths(Incoming(manifest, other), d.added, Afters(d.renamed));
    IncomingFrom(manifest, other, d.added);
    IncomingFrom(manifest, other, Afters(d.renamed));
    FromConcat(AftersOfChanges(d.modified), AftersOfChanges(d.metadata), ByPath(other));
    FromConcat(d.added, Afters(d.renamed), ByPath(other));
    FromConcat(AftersOfChanges(d.modified) + AftersOfChanges(d.metadata), d.added + Afters(d.renamed), ByPath(other));
  }

  lemma {:induction false} FromConcat(a: seq<Entry>, b: seq<Entry>, theirs: map<string, Entry>)
    requires From(a, theirs) && From(b, theirs)
    ensures From(a + b, theirs)
  {}

  /** What is put in covers all that differs. */
  lemma {:induction false} PutInComplete(manifest: seq<Entry>, other: seq<Entry>, p: string)
    requires p in ByPath(other)
    ensures
      var mine, theirs := ByPath(manifest), ByPath(other);
      (p in mine && mine[p] == theirs[p]) || p in Paths(PutIn(DiffOf(manifest, Some(other))))
  {
    var d, mine, theirs := DiffOf(manifest, Some(other)), ByPath(manifest), ByPath(other);
    ByPathKnows(manifest);
    ByPathKnows(other);
    PutInPaths(d);
    if p in mine {
      Classified(manifest, mine, theirs);
      assert mine[p] in manifest && mine[p].path == p;
    } else {
      OneSidedConserved(manifest, other);
      SamePaths(Incoming(manifest, other), d.added, Afters(d.renamed));
      NotInHas(other, mine, theirs[p]);
      PathsOf(Incoming(manifest, other), p);
    }
  }

  lemma {:induction false} PutInPaths(d: Diff)
    ensures Paths(PutIn(d)) == Paths(AftersOfChanges(d.modified)) + Paths(AftersOfChanges(d.metadata))
                             + (Paths(d.added) + Paths(Afters(d.renamed)))
  {
    PathsSplit(AftersOfChanges(d.modified), AftersOfChanges(d.metadata));
    PathsSplit(d.added, Afters(d.renamed));
    PathsSplit(AftersOfChanges(d.modified) + AftersOfChanges(d.metadata), d.added + Afters(d.renamed));
  }

  lemma {:induction false} IncomingFrom(manifest: seq<Entry>, other: seq<Entry>, entries: seq<Entry>)
    requires UniquePaths(other) && forall e :: e in entries ==> e in Incoming(manifest, other)
    ensures From(entries, ByPath(other))
  {
    forall i | 0 <= i < |entries|
      ensures entries[i].path in ByPath(other) && ByPath(other)[entries[i].path] == entries[i]
    {
      assert entries[i] in entries;
      NotInHas(other, ByPath(manifest), entries[i]);
      ByPathHas(other, entries[i]);
    }
  }

  /** What goes is exactly what only the first manifest has. */
  lemma {:induction false} TakenOut(manifest: seq<Entry>, other: seq<Entry>, p: string)
    ensures
      var d := DiffOf(manifest, Some(other));
      p in Paths(d.deleted) + Paths(Befores(d.renamed)) <==> p in ByPath(manifest) && p !in ByPath(other)
  {
    var d, mine, theirs := DiffOf(manifest, Some(other)), ByPath(manifest), ByPath(other);
    ByPathKnows(manifest);
    OneSidedConserved(manifest, other);
    SamePaths(Removed(manifest, other), d.deleted, Befores(d.renamed));
    PathsOf(Removed(manifest, other), p);
    if e :| e in Removed(manifest, other) && e.path == p { NotInHas(manifest, theirs, e); }
    if p in mine { NotInHas(manifest, theirs, mine[p]); }
  }

  /** Taking out what only one side has and putting in all that differs. */
  lemma {:induction false} ReplacedIsTheirs(mine: map<string, Entry>, theirs: map<string, Entry>, gone: set<string>, entries: seq<Entry>)
    requires From(entries, theirs)
    requires forall p :: p in theirs ==> (p in mine && mine[p] == theirs[p]) || p in Paths(entries)
    requires forall p :: p in gone <==> p in mine && p !in theirs
    ensures PutAll(mine - gone, entries) == theirs
  {
    PutAllLookup(mine - gone, entries, theirs);
    assert forall p :: p in Paths(entries) ==> p in theirs;
  }

  /** Applying the difference to the first manifest gives the second, whatever
      the first one is, as long as the second has no path twice. */
  lemma {:induction false} DiffIsPatch(manifest: seq<Entry>, other: seq<Entry>)
    requires UniquePaths(other)
    ensures Patched(ByPath(manifest), DiffOf(manifest, Some(other))) == ByPath(other)
  {
    var d, mine, theirs := DiffOf(manifest, Some(other)), ByPath(manifest), ByPath(other);
    var gone := Paths(d.deleted) + Paths(Befores(d.renamed));
    PutInTheirs(manifest, other);
    forall p | p in theirs ensures (p in mine && mine[p] == theirs[p]) || p in Paths(PutIn(d)) { PutInComplete(manifest, other, p); }
    forall p ensures p in gone <==> p in mine && p !in theirs { TakenOut(manifest, other, p); }
    ReplacedIsTheirs(mine, theirs, gone, PutIn(d));
  }

  lemma {:induction false} NothingFated(entries: seq<Entry>, mine: map<string, Entry>)
    requires Known(entries, mine)
    ensures Classify(entries, mine, mine) == Sides([], [], []) && NotIn(entries, mine) == []
  {
    if entries != [] {
      var last := entries[|entries| - 1];
      NothingFated(entries[..|entries| - 1], mine);
      if last.path != "" { NoFieldChanged(mine[last.path], mine[last.path], METADATA); }
    }
  }

  /** A manifest does not differ from itself. */
  lemma {:induction false} SelfDiffEmpty(manifest: seq<Entry>)
    ensures DiffOf(manifest, Some(manifest)) == NOTHING
  {
    ByPathKnows(manifest);
    NothingFated(manifest, ByPath(manifest));
  }

  /** The difference is empty exactly when both sides hold the same entries. */
  lemma {:induction false} EmptyDiff(manifest: seq<Entry>, other: seq<Entry>)
    requires UniquePaths(manifest) && UniquePaths(other)
    ensures DiffOf(manifest, Some(other)) == NOTHING <==> ByPath(manifest) == ByPath(other)
  {
    var mine := ByPath(manifest);
    if DiffOf(manifest, Some(other)) == NOTHING {
      DiffIsPatch(manifest, other);
      assert Patched(mine, NOTHING) == mine;
    } else if mine == ByPath(other) {
      ByPathKnows(manifest);
      ByPathKnows(other);
      NothingFated(manifest, mine);
      NothingFated(other, mine);
    }
  }

  // ---- what a shared signature says ----

  /** Hashes without a bar: sharing a signature is sharing content and kind. */
  lemma {:induction false} SignatureShared(a: Entry, b: Entry)
    requires '|' !in a.hash && '|' !in b.hash && a.hash != "" && b.hash != ""
    ensures Signature(a) == Signature(b) <==> a.hash == b.hash && a.kind == b.kind
  {
    var s, t := Signature(a), Signature(b);
    assert s[|a.hash|] == '|' && t[|b.hash|] == '|';
    assert |a.hash| < |b.hash| ==> t[|a.hash|] == b.hash[|a.hash|];
    assert |b.hash| < |a.hash| ==> s[|b.hash|] == a.hash[|b.hash|];
    assert a.hash == s[..|a.hash|] && b.hash == t[..|b.hash|];
    assert a.kind == s[|a.hash| + 1..] && b.kind == t[|b.hash| + 1..];
  }

  /** One hash goes on behind the other with a bar. */
  predicate Continues(hash: string, other: string) {
    hash + "|" <= other || other + "|" <= hash
  }

  /** Two contents can pass for one, under some kinds, exactly when one of their
      hashes continues the other. */
  lemma {:induction false} SignatureConfused(hash: string, other: string)
    requires hash != "" && other != "" && hash != other
    ensures (exists k, l :: SignatureOf(hash, k) == SignatureOf(other, l)) <==> Continues(hash, other)
  {
    if hash + "|" <= other { ContinuedConfuses(hash, other); }
    if other + "|" <= hash { ContinuedConfuses(other, hash); }
    forall k, l | SignatureOf(hash, k) == SignatureOf(other, l) ensures Continues(hash, other) {
      if |hash| <= |other| { ConfusedContinues(hash, k, other, l); } else { ConfusedContinues(other, l, hash, k); }
    }
  }

  lemma {:induction false} ContinuedConfuses(hash: string, other: string)
    requires hash != "" && hash + "|" <= other
    ensures SignatureOf(hash, other[|hash| + 1..] + "|") == SignatureOf(other, "")
    ensures SignatureOf(other, "") == SignatureOf(hash, other[|hash| + 1..] + "|")
  {
    var rest := other[|hash| + 1..];
    assert other == hash + "|" + rest;
    assert hash + "|" + (rest + "|") == other + "|" + "";
  }

  lemma {:induction false} ConfusedContinues(hash: string, k: string, other: string, l: string)
    requires hash != "" && |hash| <= |other| && SignatureOf(hash, k) == SignatureOf(other, l) && hash != other
    ensures hash + "|" <= other
  {
    var s := SignatureOf(hash, k);
    assert s[..|hash|] == hash && s[|hash|] == '|' && s[..|other|] == other;
    assert |hash| == |other| ==> hash == other;
    assert other[..|hash| + 1] == s[..|hash| + 1] == hash + "|";
  }

  /** So a rename pairs equal contents exactly when neither hash continues the
      other. */
  lemma {:induction false} RenameKeepsContent(manifest: seq<Entry>, other: seq<Entry>, i: nat)
    requires i < |DiffOf(manifest, Some(other)).renamed|
    ensures
      var r := DiffOf(manifest, Some(other)).renamed[i];
      r.before.hash == r.after.hash <==> !Continues(r.before.hash, r.after.hash)
  {
    RenamedSameSignatures(manifest, other);
    var r := DiffOf(manifest, Some(other)).renamed[i];
    SharedOrContinued(r.before, r.after);
  }

  lemma {:induction false} SharedOrContinued(a: Entry, b: Entry)
    requires Signature(a) == Signature(b) != ""
    ensures a.hash == b.hash <==> !Continues(a.hash, b.hash)
  {
    if a.hash != b.hash {
      assert SignatureOf(a.hash, a.kind) == SignatureOf(b.hash, b.kind);
      SignatureConfused(a.hash, b.hash);
    } else {
      assert |a.hash + "|"| > |b.hash|;
    }
  }

  /** One entry of each manifest, with a shared signature: a rename. */
  lemma {:induction false} OneRename(e: Entry, f: Entry)
    requires e.path != "" && f.path != "" && e.path != f.path && Signature(e) == Signature(f) != ""
    ensures DiffOf([e], Some([f])).renamed == [RenameOf(e, f)]
  {
    var mine, theirs := ByPath([e]), ByPath([f]);
    OneByPath(e);
    OneByPath(f);
    OneMissing(e, mine, theirs);
    OneIncoming(f, mine);
    OneInLine(e, f);
  }

  lemma {:induction false} OneByPath(e: Entry)
    requires e.path != ""
    ensures ByPath([e]) == map[e.path := e]
  {
    assert [e][..0] == [];
  }

  lemma {:induction false} OneMissing(e: Entry, mine: map<string, Entry>, theirs: map<string, Entry>)
    requires e.path != "" && e.path in mine && e.path !in theirs
    ensures Known([e], mine) && Classify([e], mine, theirs) == Sides([], [], [e])
  {
    assert [e][..0] == [] && [] + [e] == [e];
  }

  lemma {:induction false} OneIncoming(f: Entry, mine: map<string, Entry>)
    requires f.path != "" && f.path !in mine
    ensures NotIn([f], mine) == [f]
  {
    assert [f][..0] == [] && [] + [f] == [f];
  }

  lemma {:induction false} OneInLine(e: Entry, f: Entry)
    requires Signature(e) == Signature(f) != ""
    ensures Match([f], Fill([e]).at).renamed == [RenameOf(e, f)]
  {
    assert [e][..0] == [] && [f][..0] == [];
    assert Fill([e]).at == map[Signature(e) := [e]];
    assert Match([], Fill([e]).at) == Matched([], [], Fill([e]).at);
    assert [] + [RenameOf(e, f)] == [RenameOf(e, f)];
  }

  /** So a hash that goes on behind another is taken for the other's rename. */
  lemma {:induction false} ContinuedIsRenamed(hash: string, other: string, from: string, to: string)
    requires hash != "" && hash + "|" <= other && from != "" && to != "" && from != to
    ensures
      var e, f := Entry(from, hash, other[|hash| + 1..] + "|", "", "", "", ""), Entry(to, other, "", "", "", "", "");
      e.hash != f.hash && DiffOf([e], Some([f])).renamed == [RenameOf(e, f)]
  {
    ContinuedConfuses(hash, other);
    OneRename(Entry(from, hash, other[|hash| + 1..] + "|", "", "", "", ""), Entry(to, other, "", "", "", "", ""));
  }
}
