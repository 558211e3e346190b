/** A file tree below the project directory and the operating-system calls the
    bridge makes on it. Paths are sequences of names relative to the project
    directory, which itself is the path []. */
module FileTree {
  import opened Options

  type Path = seq<string>

  datatype Node = File(content: string) | Dir

  type Tree = map<Path, Node>

  datatype Error = NotExist | NotDirectory | IsDirectory | Exists | NotEmpty | Invalid | Fault

  /** Every call leaves a tree, also when it fails half way. */
  datatype Outcome = Ok(tree: Tree) | Fail(tree: Tree, error: Error)

  datatype Stat = Found(node: Node) | Missing | Blocked

  function Parent(p: Path): Path {
    if p == [] then [] else p[..|p| - 1]
  }

  function At(t: Tree, p: Path): Option<Node> {
    if p in t then Some(t[p]) else None
  }

  predicate IsDir(t: Tree, p: Path) {
    At(t, p) == Some(Dir)
  }

  predicate IsFile(t: Tree, p: Path) {
    p in t && t[p].File?
  }

  /** The project directory exists and everything lies in a directory. */
  ghost predicate WellFormed(t: Tree) {
    && IsDir(t, [])
    && forall p {:trigger Parent(p)} :: p in t ==> IsDir(t, Parent(p)) || p == []
  }

  lemma {:induction false} PrefixesAreDirs(t: Tree, p: Path, k: nat)
    requires WellFormed(t) && p in t && k < |p|
    ensures IsDir(t, p[..k])
  {
    assert IsDir(t, Parent(p));
    if k < |p| - 1 {
      PrefixesAreDirs(t, Parent(p), k);
      assert Parent(p)[..k] == p[..k];
    } else {
      assert p[..k] == Parent(p);
    }
  }

  /** Same fact with the prefix given as a path. */
  lemma {:induction false} AncestorIsDir(t: Tree, a: Path, p: Path)
    requires WellFormed(t) && p in t && a <= p && a != p
    ensures IsDir(t, a)
  {
    PrefixesAreDirs(t, p, |a|);
    assert p[..|a|] == a;
  }

  predicate HasFileAbove(t: Tree, p: Path) {
    exists k :: 0 <= k < |p| && IsFile(t, p[..k])
  }

  function StatPath(t: Tree, p: Path): Stat {
    if p in t then Found(t[p])
    else if HasFileAbove(t, p) then Blocked
    else Missing
  }

  function MkdirAll(t: Tree, p: Path): Outcome
    decreases |p|
  {
    if p in t then
      if t[p].Dir? then Ok(t) else Fail(t, NotDirectory)
    else if p == [] then Fail(t, NotExist)
    else
      match MkdirAll(t, Parent(p))
      case Ok(t1) => Ok(t1[p := Dir])
      case Fail(t1, e) => Fail(t1, e)
  }

  function WriteFile(t: Tree, p: Path, content: string): Outcome {
    if IsDir(t, p) then Fail(t, IsDirectory)
    else if !IsDir(t, Parent(p)) then Fail(t, NotExist)
    else Ok(t[p := File(content)])
  }

  function AppendFile(t: Tree, p: Path, content: string): Outcome {
    WriteFile(t, p, if IsFile(t, p) then t[p].content + content else content)
  }

  predicate HasChild(t: Tree, p: Path) {
    exists q :: q in t && q != [] && q != p && Parent(q) == p
  }

  function Remove(t: Tree, p: Path): Outcome {
    if p !in t then Fail(t, if HasFileAbove(t, p) then NotDirectory else NotExist)
    else if t[p].Dir? && (p == [] || HasChild(t, p)) then Fail(t, NotEmpty)
    else Ok(t - {p})
  }

  /** Moves the whole subtree at `from` to `to`. */
  function Move(t: Tree, from: Path, to: Path): Tree {
    (map q | q in t && !(from <= q) :: t[q]) +
    (map q | q in (set r | r in t && from <= r :: to + r[|from|..]) && from + q[|to|..] in t :: t[from + q[|to|..]])
  }

  function Rename(t: Tree, from: Path, to: Path): Outcome {
    if from !in t then Fail(t, NotExist)
    else if IsDir(t, to) then Fail(t, Exists)
    else if !IsDir(t, Parent(to)) then Fail(t, NotExist)
    else if from <= to && from != to then Fail(t, Invalid)
    else if to in t && t[from].Dir? then Fail(t, NotDirectory)
    else Ok(Move(t, from, to))
  }

  function CopyFile(t: Tree, src: Path, dst: Path): Outcome {
    match MkdirAll(t, Parent(dst))
    case Fail(t1, e) => Fail(t1, e)
    case Ok(t1) =>
      if !IsFile(t1, src) then Fail(t1, NotExist)
      else WriteFile(t1, dst, t1[src].content)
  }

  /** Lookup after Move, for every path at once. */
  lemma {:induction false} MoveAt(t: Tree, from: Path, to: Path, q: Path)
    requires !(from <= to) || from == to
    ensures At(Move(t, from, to), q) ==
      if to <= q && from + q[|to|..] in t then At(t, from + q[|to|..])
      else if from <= q then None
      else At(t, q)
  {
    if to <= q {
      var r := from + q[|to|..];
      assert from <= r && r[|from|..] == q[|to|..];
      assert to + r[|from|..] == q;
    }
    if q in (set r | r in t && from <= r :: to + r[|from|..]) {
      assert to <= q;
    }
  }

  /** MkdirAll succeeds exactly when no file stands on the way, adds exactly
      the missing directories, and otherwise changes nothing. */
  lemma {:induction false} MkdirAllAt(t: Tree, p: Path)
    requires WellFormed(t)
    ensures MkdirAll(t, p).Ok? <==> forall k :: 0 <= k <= |p| ==> !IsFile(t, p[..k])
    ensures MkdirAll(t, p).Fail? ==> MkdirAll(t, p).tree == t
    ensures MkdirAll(t, p).Ok? ==>
      forall q :: At(MkdirAll(t, p).tree, q) == if q <= p then Some(Dir) else At(t, q)
    ensures WellFormed(MkdirAll(t, p).tree)
    decreases |p|
  {
    assert p[..|p|] == p;
    if p in t {
      forall q | q <= p && q != p ensures At(t, q) == Some(Dir) { AncestorIsDir(t, q, p); }
      forall k | 0 <= k < |p| ensures IsDir(t, p[..k]) { PrefixesAreDirs(t, p, k); }
    } else {
      var a := Parent(p);
      MkdirAllAt(t, a);
      assert forall k :: 0 <= k <= |a| ==> p[..k] == a[..k];
      assert p == a + [p[|a|]];
      if MkdirAll(t, a).Ok? {
        var t1 := MkdirAll(t, a).tree;
        assert At(t1, a) == Some(Dir);
        forall q ensures At(MkdirAll(t, p).tree, q) == if q <= p then Some(Dir) else At(t, q) {
          assert At(t1, q) == if q <= a then Some(Dir) else At(t, q);
          if q <= p && q != p { assert q == p[..|q|] == a[..|q|]; }
          if q <= a { assert q == a[..|q|] == p[..|q|]; }
        }
      }
    }
  }

  lemma {:induction false} MkdirAllExisting(t: Tree, p: Path)
    requires IsDir(t, p)
    ensures MkdirAll(t, p) == Ok(t)
  {}

  // ---- trees stay well formed ----

  lemma {:induction false} WriteKeepsWellFormed(t: Tree, p: Path, content: string)
    requires WellFormed(t)
    ensures WellFormed(WriteFile(t, p, content).tree)
  {
    var t' := WriteFile(t, p, content).tree;
    forall q | q in t' && q != [] ensures IsDir(t', Parent(q)) {
      assert IsDir(t, Parent(q));
    }
  }

  lemma {:induction false} RemoveKeepsWellFormed(t: Tree, p: Path)
    requires WellFormed(t)
    ensures WellFormed(Remove(t, p).tree)
  {
    var t' := Remove(t, p).tree;
    forall q | q in t' && q != [] ensures IsDir(t', Parent(q)) {
      assert IsDir(t, Parent(q));
      if Parent(q) == p && p !in t' { assert HasChild(t, p); }
    }
  }

  lemma {:induction false} MoveParentIsDir(t: Tree, from: Path, to: Path, q: Path)
    requires WellFormed(t) && Rename(t, from, to).Ok? && to !in t
    requires q in Move(t, from, to) && q != []
    ensures IsDir(Move(t, from, to), Parent(q))
  {
    var a := Parent(q);
    assert from <= to ==> from == to;
    MoveAt(t, from, to, q);
    MoveAt(t, from, to, a);
    assert from == [] ==> from <= to;
    if to <= q && from + q[|to|..] in t {
      if q == to {
        assert from <= a ==> from <= to;
      } else {
        var r := from + q[|to|..];
        assert Parent(r) == from + a[|to|..];
        assert IsDir(t, Parent(r));
      }
    } else {
      assert At(t, q).Some? && IsDir(t, a);
      assert from <= a ==> from <= q;
      if to <= a { AncestorIsDir(t, to, q); }
    }
  }

  lemma {:induction false} MoveKeepsWellFormed(t: Tree, from: Path, to: Path)
    requires WellFormed(t) && Rename(t, from, to).Ok? && to !in t
    ensures WellFormed(Move(t, from, to))
  {
    assert from == [] ==> from <= to;
    MoveAt(t, from, to, []);
    forall q | q in Move(t, from, to) && q != [] ensures IsDir(Move(t, from, to), Parent(q)) {
      MoveParentIsDir(t, from, to, q);
    }
  }

  /** Renaming onto an existing file replaces it. */
  lemma {:induction false} RenameKeepsWellFormed(t: Tree, from: Path, to: Path)
    requires WellFormed(t)
    ensures WellFormed(Rename(t, from, to).tree)
  {
    if Rename(t, from, to).Ok? {
      if to !in t {
        MoveKeepsWellFormed(t, from, to);
      } else if from != to {
        assert IsFile(t, from) && IsFile(t, to);
        MoveOntoFile(t, from, to);
        RemoveKeepsWellFormed(t, from);
        WriteKeepsWellFormed(t - {from}, to, t[from].content);
      } else {
        forall q ensures At(Move(t, from, to), q) == At(t, q) {
          MoveAt(t, from, to, q);
          if from <= q { assert from + q[|from|..] == q; }
        }
        SameLookups(Move(t, from, to), t);
      }
    }
  }

  lemma {:induction false} SameLookups(t: Tree, s: Tree)
    requires forall q :: At(t, q) == At(s, q)
    ensures t == s
  {
    forall q ensures q in t <==> q in s { assert At(t, q) == At(s, q); }
    forall q | q in t ensures t[q] == s[q] { assert At(t, q) == At(s, q); }
  }

  lemma {:induction false} MoveOntoFile(t: Tree, from: Path, to: Path)
    requires WellFormed(t) && IsFile(t, from) && IsFile(t, to) && from != to
    ensures Move(t, from, to) == (t - {from})[to := t[from]]
    ensures !(from <= to)
  {
    assert !(from <= to) by { if from <= to { AncestorIsDir(t, from, to); } }
    forall q ensures At(Move(t, from, to), q) == At((t - {from})[to := t[from]], q) {
      MoveAt(t, from, to, q);
      if to <= q {
        var r := from + q[|to|..];
        if r in t && r != from { AncestorIsDir(t, from, r); }
        if q in t && q != to { AncestorIsDir(t, to, q); }
        assert q == to ==> r == from;
        assert r == from ==> q == to;
      } else if from <= q && q != from && q in t {
        AncestorIsDir(t, from, q);
      }
    }
    SameLookups(Move(t, from, to), (t - {from})[to := t[from]]);
  }

  lemma {:induction false} MkdirKeepsWellFormed(t: Tree, p: Path)
    requires WellFormed(t)
    ensures WellFormed(MkdirAll(t, p).tree)
  {
    MkdirAllAt(t, p);
  }

  lemma {:induction false} CopyKeepsWellFormed(t: Tree, src: Path, dst: Path)
    requires WellFormed(t)
    ensures WellFormed(CopyFile(t, src, dst).tree)
  {
    MkdirKeepsWellFormed(t, Parent(dst));
    var t1 := MkdirAll(t, Parent(dst)).tree;
    if IsFile(t1, src) { WriteKeepsWellFormed(t1, dst, t1[src].content); }
  }
}
