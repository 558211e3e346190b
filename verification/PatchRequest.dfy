/** Validating a patch request: kinds, paths, and that no path leaves the project. */
module PatchRequest {
  import opened Options
  import opened Text
  import opened FileTree
  import T = PatchTransaction
  import R = PatchRollback
  import PatchRun

  // ---- paths ----

  /** The names between the slashes of a path. */
  function Segments(s: string): (names: seq<string>)
    ensures names != []
  {
    if s == "" then [""]
    else
      var rest := Segments(s[1..]);
      if s[0] == '/' then [""] + rest else [[s[0]] + rest[0]] + rest[1..]
  }

  function JoinNames(names: seq<string>): string {
    if names == [] then "" else if |names| == 1 then names[0] else names[0] + "/" + JoinNames(names[1..])
  }

  /** Where names lead from a directory: empty ones and "." stay, ".." goes up. */
  function Walk(at: Path, names: seq<string>): Path
    decreases |names|
  {
    if names == [] then at
    else if names[0] == "" || names[0] == "." then Walk(at, names[1..])
    else if names[0] == ".." then Walk(Parent(at), names[1..])
    else Walk(at + [names[0]], names[1..])
  }

  /** Names one after the other: a plain one leads down, ".." back up, and "" and
      "." nowhere. The root has nothing above it. */
  lemma {:induction false} WalkExactly(at: Path, names: seq<string>, name: string)
    ensures Walk(at, []) == at
    ensures
      var there := Walk(at, names);
      && (name == "" || name == "." ==> Walk(at, names + [name]) == there)
      && (name == ".." ==> Walk(at, names + [name]) == if there == [] then [] else there[..|there| - 1])
      && (name != "" && name != "." && name != ".." ==> Walk(at, names + [name]) == there + [name])
    decreases |names|
  {
    if names == [] {
      assert [] + [name] == [name] && [name][1..] == [];
    } else {
      assert (names + [name])[1..] == names[1..] + [name];
      WalkExactly(if names[0] == "" || names[0] == "." then at else if names[0] == ".." then Parent(at) else at + [names[0]], names[1..], name);
    }
  }

  /** The names of a text are what stands between its slashes. */
  lemma {:induction false} SegmentsExactly(name: string, rest: string)
    requires '/' !in name
    ensures Segments(name) == [name] && Segments(name + "/" + rest) == [name] + Segments(rest)
  {
    SegmentsOfName(name);
    SegmentsFirst(name, rest);
  }

  predicate ProperName(name: string) { name != "" && name != "." && name != ".." && '/' !in name }

  ghost predicate Proper(p: Path) { forall i :: 0 <= i < |p| ==> ProperName(p[i]) }

  /** A relative path, resolved against the project directory, when it ends up
      inside it. */
  function SecurePath(project: Path, rel: string): Option<Path> {
    var text := TrimSpace(rel);
    if text == "" || text[0] == '/' then None
    else
      var resolved := Walk(project, Segments(text));
      if project <= resolved then Some(resolved[|project|..]) else None
  }

  /** A path is accepted exactly when its text is relative and leads to the project
      directory or below it, and it is what the text adds to that directory. */
  lemma {:induction false} SecureExactly(project: Path, rel: string, p: Path)
    ensures SecurePath(project, rel) == Some(p) <==>
      TrimSpace(rel) != "" && TrimSpace(rel)[0] != '/' && Walk(project, Segments(TrimSpace(rel))) == project + p
  {
    assert (project + p)[|project|..] == p;
  }

  lemma {:induction false} SegmentsHaveNoSlash(s: string)
    ensures forall i :: 0 <= i < |Segments(s)| ==> '/' !in Segments(s)[i]
  {
    if s != "" { SegmentsHaveNoSlash(s[1..]); }
  }

  lemma {:induction false} WalkIsProper(at: Path, names: seq<string>)
    requires Proper(at) && forall i :: 0 <= i < |names| ==> '/' !in names[i]
    ensures Proper(Walk(at, names))
    decreases |names|
  {
    if names != [] {
      var next := if names[0] == "" || names[0] == "." then at else if names[0] == ".." then Parent(at) else at + [names[0]];
      assert Proper(next);
      WalkIsProper(next, names[1..]);
    }
  }

  lemma {:induction false} WalkProper(at: Path, names: seq<string>)
    requires Proper(names)
    ensures Walk(at, names) == at + names
    decreases |names|
  {
    if names != [] {
      assert ProperName(names[0]);
      assert forall i :: 0 <= i < |names[1..]| ==> names[1..][i] == names[i + 1];
      WalkProper(at + [names[0]], names[1..]);
      assert at + [names[0]] + names[1..] == at + names;
    } else {
      assert at + names == at;
    }
  }

  lemma {:induction false} SegmentsOfName(name: string)
    requires '/' !in name
    ensures Segments(name) == [name]
  {
    if name != "" { SegmentsOfName(name[1..]); assert [name[0]] + name[1..] == name; }
  }

  lemma {:induction false} SegmentsFirst(name: string, rest: string)
    requires '/' !in name
    ensures Segments(name + "/" + rest) == [name] + Segments(rest)
  {
    var s := name + "/" + rest;
    if name == "" { assert s[1..] == rest; }
    else {
      SegmentsFirst(name[1..], rest);
      assert s[1..] == name[1..] + "/" + rest;
      assert [name[0]] + name[1..] == name;
    }
  }

  lemma {:induction false} SegmentsInvertJoin(p: Path)
    requires Proper(p) && p != []
    ensures Segments(JoinNames(p)) == p
  {
    assert ProperName(p[0]);
    if |p| == 1 {
      SegmentsOfName(p[0]);
      assert p == [p[0]];
    } else {
      SegmentsInvertJoin(p[1..]);
      SegmentsFirst(p[0], JoinNames(p[1..]));
      assert p == [p[0]] + p[1..];
    }
  }

  /** An accepted path is plain names below the project directory: whatever the
      text was, it leads to the same place as the path that came out of it. */
  lemma {:induction false} SecurePathStaysInside(project: Path, rel: string)
    requires Proper(project) && SecurePath(project, rel).Some?
    ensures
      var p := SecurePath(project, rel).value;
      Proper(p) && Walk(project, Segments(TrimSpace(rel))) == project + p == Walk(project, p)
  {
    var names, p := Segments(TrimSpace(rel)), SecurePath(project, rel).value;
    SegmentsHaveNoSlash(TrimSpace(rel));
    WalkIsProper(project, names);
    assert Walk(project, names) == project + p;
    assert forall i :: 0 <= i < |p| ==> p[i] == Walk(project, names)[|project| + i];
    WalkProper(project, p);
  }

  /** Resolving the text of an accepted path again gives that path. */
  lemma {:induction false} SecurePathAgain(project: Path, p: Path)
    requires Proper(project) && Proper(p) && p != [] && Trimmed(JoinNames(p))
    ensures SecurePath(project, JoinNames(p)) == Some(p)
  {
    TrimSpaceOfTrimmed(JoinNames(p));
    SegmentsInvertJoin(p);
    WalkProper(project, p);
    assert ProperName(p[0]);
    assert JoinNames(p)[0] == p[0][0];
    assert (project + p)[|project|..] == p;
  }

  // ---- requests ----

  /** An operation as it comes in; `content` is None when it cannot be decoded. */
  datatype RawOperation = RawOperation(kind: string, path: string, oldPath: string, content: Option<string>, description: string)

  datatype RequestError = NoOperations | NoKind(idx: nat) | NoPath(idx: nat) | BadPath(idx: nat) | NoRenamePaths(idx: nat) | BadSource(idx: nat)

  datatype Validation = Validated(operations: seq<T.Operation>) | Rejected(error: RequestError)

  function KindOf(word: string): T.Kind {
    if word == "write" then T.WriteOp
    else if word == "create" then T.CreateOp
    else if word == "append" then T.AppendOp
    else if word == "delete" then T.DeleteOp
    else if word == "rename" then T.RenameOp
    else if word == "mkdir" then T.MkdirOp
    else T.OtherOp(word)
  }

  function Word(raw: RawOperation): string { Lower(TrimSpace(raw.kind)) }

  /** What is wrong with an operation, if anything. */
  function Fault(project: Path, raw: RawOperation, idx: nat): Option<RequestError> {
    if Word(raw) == "" then Some(NoKind(idx))
    else if Word(raw) != "rename" && TrimSpace(raw.path) == "" then Some(NoPath(idx))
    else if TrimSpace(raw.path) != "" && SecurePath(project, raw.path).None? then Some(BadPath(idx))
    else if Word(raw) != "rename" then None
    else if TrimSpace(raw.oldPath) == "" || TrimSpace(raw.path) == "" then Some(NoRenamePaths(idx))
    else if SecurePath(project, raw.oldPath).None? then Some(BadSource(idx))
    else None
  }

  /** Where a text leads when it is not checked: one that is refused is joined to
      the project directory as it is. */
  function ResolvedPath(project: Path, rel: string): Path {
    Walk(project, Segments(TrimSpace(rel)))
  }

  /** The names of a relative path without its needless parts. */
  function CleanNames(done: seq<string>, names: seq<string>): seq<string>
    decreases |names|
  {
    if names == [] then done
    else if names[0] == "" || names[0] == "." then CleanNames(done, names[1..])
    else if names[0] == ".." && done != [] && done[|done| - 1] != ".." then CleanNames(done[..|done| - 1], names[1..])
    else CleanNames(done + [names[0]], names[1..])
  }

  /** The text of a path as the journal keeps it; an absolute one starts with "". */
  function CleanText(text: string): Path {
    if text != "" && text[0] == '/' then [""] + Walk([], Segments(text)) else CleanNames([], Segments(text))
  }

  /** Only names that go up, and behind them only plain ones. */
  ghost predicate Reduced(names: seq<string>) {
    && (forall i :: 0 <= i < |names| ==> names[i] != "" && names[i] != ".")
    && forall i :: 0 < i < |names| && names[i] == ".." ==> names[i - 1] == ".."
  }

  lemma {:induction false} CleanLeads(at: Path, done: seq<string>, names: seq<string>)
    requires Reduced(done)
    ensures Reduced(CleanNames(done, names)) && Walk(at, CleanNames(done, names)) == Walk(Walk(at, done), names)
    decreases |names|
  {
    if names != [] {
      var name, rest := names[0], names[1..];
      if name == "" || name == "." {
        CleanLeads(at, done, rest);
      } else if name == ".." && done != [] && done[|done| - 1] != ".." {
        var front := done[..|done| - 1];
        assert done == front + [done[|done| - 1]];
        WalkExactly(at, front, done[|done| - 1]);
        CleanLeads(at, front, rest);
      } else {
        WalkExactly(at, done, name);
        CleanLeads(at, done + [name], rest);
      }
    }
  }

  /** A relative text is kept as the one reduced path that leads to the same place
      from any directory. */
  lemma {:induction false} CleanExactly(at: Path, text: string)
    requires text != "" && text[0] != '/'
    ensures Reduced(CleanText(text)) && Walk(at, CleanText(text)) == Walk(at, Segments(text))
  {
    CleanLeads(at, [], Segments(text));
  }

  function OldPathOf(project: Path, raw: RawOperation): T.OldPath {
    if TrimSpace(raw.oldPath) == "" then T.NoOldPath
    else if SecurePath(project, raw.oldPath).Some? then T.Inside(CleanText(TrimSpace(raw.oldPath)), SecurePath(project, raw.oldPath).value)
    else T.Unchecked(CleanText(TrimSpace(raw.oldPath)), ResolvedPath(project, raw.oldPath))
  }

  /** The operation that runs. Its old path is checked for renames only. */
  function Accepted(project: Path, raw: RawOperation): T.Operation
    requires Fault(project, raw, 0).None?
  {
    T.Operation(KindOf(Word(raw)), CleanText(TrimSpace(raw.path)), SecurePath(project, raw.path).value, OldPathOf(project, raw), raw.content, raw.description)
  }

  lemma {:induction false} FaultAnywhere(project: Path, raw: RawOperation, i: nat, j: nat)
    ensures Fault(project, raw, i).None? <==> Fault(project, raw, j).None?
  {}

  /** The text is a relative path that leads to the project directory or below it. */
  predicate Inside(project: Path, rel: string) {
    var text := TrimSpace(rel);
    text != "" && text[0] != '/' && project <= Walk(project, Segments(text))
  }

  /** Which operations are accepted, and what the others are told. */
  lemma {:induction false} AcceptedExactly(project: Path, raw: RawOperation, i: nat)
    ensures
      var word, fault := Lower(TrimSpace(raw.kind)), Fault(project, raw, i);
      var path, source := TrimSpace(raw.path) != "", TrimSpace(raw.oldPath) != "";
      && (fault.None? <==> word != "" && Inside(project, raw.path) && (word == "rename" ==> Inside(project, raw.oldPath)))
      && (fault == Some(NoKind(i)) <==> word == "")
      && (fault == Some(NoPath(i)) <==> word != "" && word != "rename" && !path)
      && (fault == Some(BadPath(i)) <==> word != "" && path && !Inside(project, raw.path))
      && (fault == Some(NoRenamePaths(i)) <==> word == "rename" && (path ==> !source && Inside(project, raw.path)))
      && (fault == Some(BadSource(i)) <==> word == "rename" && Inside(project, raw.path) && source && !Inside(project, raw.oldPath))
  {}

  /** What the words of a request ask for at the operation's target, in any tree. */
  lemma {:induction false} WordsMean(project: Path, raw: RawOperation, t: Tree)
    requires Fault(project, raw, 0).None?
    ensures
      var word, op := Lower(TrimSpace(raw.kind)), Accepted(project, raw);
      && PatchRun.KindName(op.kind) == word
      && (word == "delete" ==> R.Wanted(t, op, op.path) == None)
      && (word == "mkdir" ==> R.Wanted(t, op, op.path) == Some(Dir))
      && (word !in ["write", "create", "append", "delete", "mkdir", "rename"] ==> !R.Doable(t, op))
  {}

  lemma {:induction false} ContentsMean(project: Path, raw: RawOperation, t: Tree)
    requires Fault(project, raw, 0).None?
    ensures
      var word, op := Lower(TrimSpace(raw.kind)), Accepted(project, raw);
      var content := if raw.content.Some? then raw.content.value else "";
      && op.content == raw.content && op.description == raw.description
      && (word == "write" || word == "create" ==> R.Wanted(t, op, op.path) == Some(File(content)))
      && (word == "append" ==> R.Wanted(t, op, op.path) == Some(File((if IsFile(t, op.path) then t[op.path].content else "") + content)))
  {}

  /** A rename brings what is at its source. */
  lemma {:induction false} RenameMeans(project: Path, raw: RawOperation, t: Tree)
    requires Fault(project, raw, 0).None? && Lower(TrimSpace(raw.kind)) == "rename"
    ensures
      var op := Accepted(project, raw);
      op.oldPath.Inside? && project + op.oldPath.path == Walk(project, Segments(TrimSpace(raw.oldPath)))
      && R.Wanted(t, op, op.path) == At(t, op.oldPath.path)
  {
    var op := Accepted(project, raw);
    assert op.oldPath.path + op.path[|op.path|..] == op.oldPath.path;
  }

  /** The error is that of the first operation at fault. */
  ghost predicate FirstFault(project: Path, raws: seq<RawOperation>, error: RequestError) {
    exists i :: 0 <= i < |raws| && Fault(project, raws[i], i) == Some(error) && NoFaultBefore(project, raws, i)
  }

  ghost predicate NoFaultBefore(project: Path, raws: seq<RawOperation>, n: nat)
    requires n <= |raws|
  {
    forall j :: 0 <= j < n ==> Fault(project, raws[j], j).None?
  }

  /** Accepts a request exactly when it has operations and none is at fault;
      otherwise reports the first fault. */
  method ValidatePatchRequest(project: Path, raws: seq<RawOperation>) returns (r: Validation)
    ensures r.Validated? <==> raws != [] && forall i :: 0 <= i < |raws| ==> Fault(project, raws[i], i).None?
    ensures r.Validated? ==> |r.operations| == |raws| && forall i :: 0 <= i < |raws| ==>
      Fault(project, raws[i], 0).None? && r.operations[i] == Accepted(project, raws[i])
    ensures r.Rejected? ==> if raws == [] then r.error == NoOperations else FirstFault(project, raws, r.error)
  {
    if |raws| == 0 { return Rejected(NoOperations); }
    var operations: seq<T.Operation> := [];
    for i := 0 to |raws|
      invariant |operations| == i
      invariant forall j :: 0 <= j < i ==>
        Fault(project, raws[j], j).None? && Fault(project, raws[j], 0).None? && operations[j] == Accepted(project, raws[j])
    {
      var fault := Fault(project, raws[i], i);
      if fault.Some? {
        assert NoFaultBefore(project, raws, i);
        return Rejected(fault.value);
      }
      FaultAnywhere(project, raws[i], i, 0);
      operations := operations + [Accepted(project, raws[i])];
    }
    r := Validated(operations);
  }

  /** Every accepted operation changes plain paths inside the project only: its
      target, and for a rename its source. */
  lemma {:induction false} AcceptedStaysInside(project: Path, raw: RawOperation)
    requires Proper(project) && Fault(project, raw, 0).None?
    ensures
      var op := Accepted(project, raw);
      && Proper(op.path) && ResolvedPath(project, raw.path) == project + op.path
      && (op.kind.RenameOp? ==>
            op.oldPath.Inside? && Proper(op.oldPath.path) && ResolvedPath(project, raw.oldPath) == project + op.oldPath.path)
  {
    SecurePathStaysInside(project, raw.path);
    if Word(raw) == "rename" { SecurePathStaysInside(project, raw.oldPath); }
  }

  /** Every file whose hash is recorded lies in the project. */
  ghost predicate ReadsInside(project: Path, op: T.Operation) {
    forall i :: 0 <= i < |T.Imaged(project, op)| ==> project <= T.Imaged(project, op)[i].at
  }

  /** Which accepted operations read nothing outside the project: a rename; one
      without an old path; and one whose old path leads inside, unchecked. */
  lemma {:induction false} AcceptedReadsInside(project: Path, raw: RawOperation)
    requires Proper(project) && Fault(project, raw, 0).None?
    ensures ReadsInside(project, Accepted(project, raw))
      <==> Word(raw) == "rename" || TrimSpace(raw.oldPath) == "" || project <= ResolvedPath(project, raw.oldPath)
  {
    var op := Accepted(project, raw);
    var places := T.Imaged(project, op);
    assert places[0] == T.Place(op.text, project + op.path);
    match op.oldPath {
      case NoOldPath =>
      case Inside(text, p) => assert places[1] == T.Place(text, project + p);
      case Unchecked(text, at) => assert places[1] == T.Place(text, at);
    }
  }

  /** A write is accepted whose old path leads to a neighbour of the project, and
      the neighbour's hash is recorded. */
  lemma {:induction false} NeighbourIsRead(project: Path, name: string, content: Option<string>, description: string)
    requires Proper(project) && project != [] && ProperName(name) && Trimmed(name) && name != project[|project| - 1]
    ensures
      var raw := RawOperation("write", "a", "../" + name, content, description);
      && Fault(project, raw, 0).None? && !ReadsInside(project, Accepted(project, raw))
      && T.Imaged(project, Accepted(project, raw))[1..] == [T.Place(["..", name], Parent(project) + [name])]
  {
    var raw := RawOperation("write", "a", "../" + name, content, description);
    WriteAccepted(project, raw);
    NeighbourText(project, name);
    var places := T.Imaged(project, Accepted(project, raw));
    assert places[1] == T.Place(["..", name], Parent(project) + [name]);
  }

  /** Where the text of a neighbour leads. */
  lemma {:induction false} NeighbourText(project: Path, name: string)
    requires Proper(project) && project != [] && ProperName(name) && Trimmed(name) && name != project[|project| - 1]
    ensures TrimSpace("../" + name) == "../" + name && CleanText("../" + name) == ["..", name]
    ensures SecurePath(project, "../" + name).None? && ResolvedPath(project, "../" + name) == Parent(project) + [name]
    ensures !(project <= Parent(project) + [name])
  {
    var text := "../" + name;
    assert text[0] == '.' && text[|text| - 1] == name[|name| - 1];
    TrimSpaceOfTrimmed(text);
    UpAndDown(project, name);
    assert (Parent(project) + [name])[|project| - 1] == name;
  }

  lemma {:induction false} WriteAccepted(project: Path, raw: RawOperation)
    requires Proper(project) && raw.kind == "write" && raw.path == "a"
    ensures Word(raw) == "write" && Fault(project, raw, 0).None?
  {
    TrimSpaceOfTrimmed("write");
    assert Lower("write") == "write";
    TrimSpaceOfTrimmed("a");
    SegmentsOfName("a");
    assert Walk(project, ["a"]) == project + ["a"];
  }

  lemma {:induction false} UpAndDown(project: Path, name: string)
    requires ProperName(name)
    ensures Segments("../" + name) == ["..", name]
    ensures Walk(project, ["..", name]) == Parent(project) + [name]
    ensures CleanText("../" + name) == ["..", name]
  {
    SegmentsFirst("..", name);
    SegmentsOfName(name);
    assert "../" + name == ".." + "/" + name;
    CleanUp(name);
  }

  lemma {:induction false} CleanUp(name: string)
    requires ProperName(name)
    ensures CleanNames([], ["..", name]) == ["..", name]
    ensures forall at :: Walk(at, ["..", name]) == Parent(at) + [name]
  {
    assert ["..", name][1..] == [name] && [name][1..] == [];
    assert [] + [".."] == [".."] && [".."] + [name] == ["..", name];
    assert CleanNames(["..", name], []) == ["..", name];
    assert CleanNames([".."], [name]) == CleanNames(["..", name], []);
    forall at ensures Walk(at, ["..", name]) == Parent(at) + [name] {
      assert Walk(Parent(at), [name]) == Walk(Parent(at) + [name], []);
    }
  }
}
