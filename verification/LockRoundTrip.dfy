/** Loading what was saved: what comes back, and exactly when it is the lock. */
module LockRoundTrip {
  import opened Options
  import opened Text
  import opened Utf8
  import opened LockText
  import opened LockYaml
  import opened LockFile

  // ---- one line of the file ----

  lemma {:induction false} LeadingSpacesAt(s: string, k: nat)
    requires k < |s| && s[k] != ' ' && forall i :: 0 <= i < k ==> s[i] == ' '
    ensures LeadingSpaces(s) == k
  {
    if k > 0 { LeadingSpacesAt(s[1..], k - 1); }
  }

  lemma {:induction false} FindAt(s: string, c: char, n: nat)
    requires n < |s| && s[n] == c && forall i :: 0 <= i < n ==> s[i] != c
    ensures FindChar(s, c) == n
  {
    var m := FindChar(s, c);
    assert m <= n;
  }

  /** A line of k spaces and a text that starts and ends the line's content. */
  lemma {:induction false} IndentedLine(line: string, k: nat)
    requires k < |line| && !IsSpace(line[k]) && forall i :: 0 <= i < k ==> line[i] == ' '
    ensures LeadingSpaces(line) == k && TrimSpace(line) == TrimRight(line[k..])
  {
    LeadingSpacesAt(line, k);
    TrimLeftAt(line, k);
  }

  predicate FieldName(name: string) {
    Neutral(name) && Trimmed(name) && name != "" && ':' !in name
  }

  function FieldPrefix(name: string): string { "    " + name + ": " }

  lemma {:induction false} FieldPrefixShape(name: string)
    requires FieldName(name)
    ensures Neutral(FieldPrefix(name)) && |FieldPrefix(name)| == |name| + 6
    ensures FieldPrefix(name)[4..] == name + ": " && forall i :: 0 <= i < 4 ==> FieldPrefix(name)[i] == ' '
  {}

  lemma {:induction false} PrefixedContent(name: string, kept: string)
    requires FieldName(name) && kept != "" && !IsSpace(kept[0])
    ensures
      var line := FieldPrefix(name) + kept;
      && LeadingSpaces(line) == 4
      && TrimSpace(line) == name + ": " + TrimRight(kept)
  {
    FieldPrefixShape(name);
    var line := FieldPrefix(name) + kept;
    assert line[4] == name[0];
    IndentedLine(line, 4);
    assert line[4..] == (name + ": ") + kept;
    TrimRightConcat(name + ": ", kept);
  }

  /** What is left of a scalar line after stripping and trimming. */
  lemma {:induction false} FieldLineContent(name: string, value: string)
    requires FieldName(name)
    ensures
      var line := StripInlineComment(FieldLine(name, value));
      LeadingSpaces(line) == 4 && TrimSpace(line) == name + ": " + TrimRight(Kept(value))
  {
    FieldPrefixShape(name);
    StripKeepsPrefix(FieldPrefix(name), value);
    KeptStart(value);
    assert FieldLine(name, value) == FieldPrefix(name) + EscapeScalar(value);
    PrefixedContent(name, Kept(value));
  }

  /** The kept part of a scalar starts where the scalar starts. */
  lemma {:induction false} KeptStart(value: string)
    ensures Kept(value) != "" && !IsSpace(Kept(value)[0])
    ensures ScanQuotes(Outside, EscapeScalar(value)) == Comment ==> Kept(value)[0] == '"'
  {
    var e := EscapeScalar(value);
    EscapeScalarTrimmed(value);
    EscapedScan(value);
    CommentStartFacts(Outside, e);
    var n := CommentStart(Outside, e);
    if n < |e| {
      TrimRightSpacesConcat("", e[..n]);
      assert "" + e[..n] == e[..n];
    }
  }

  lemma {:induction false} ParseFieldContent(st: State, name: string, kept: string)
    requires FieldName(name) && st.stack != [] && st.stack[|st.stack| - 1].indent == 2
    requires kept != "" && Trimmed(kept)
    ensures ParseEntry(st, 4, name + ": " + kept) ==
      Ok(State(SetIn(st.root, st.stack[|st.stack| - 1].path, name, Scalar(UnquoteScalar(kept))), st.stack))
  {
    assert name + ": " + kept == name + ":" + (" " + kept);
    KeyContent(name, " " + kept);
    TrimSpaced(kept);
    SetScalar(st, 4, name + ": " + kept, name, kept);
  }

  /** A key with a value, one level below the innermost open mapping. */
  lemma {:induction false} SetScalar(st: State, indent: nat, content: string, key: string, value: string)
    requires st.stack != [] && st.stack[|st.stack| - 1].indent + 2 == indent && indent % 2 == 0
    requires FindChar(content, ':') == |key| < |content| && key != "" && value != ""
    requires TrimSpace(content[..|key|]) == key && TrimSpace(content[|key| + 1..]) == value
    ensures ParseEntry(st, indent, content) ==
      Ok(State(SetIn(st.root, st.stack[|st.stack| - 1].path, key, Scalar(UnquoteScalar(value))), st.stack))
  {}

  lemma {:induction false} KeyContent(key: string, rest: string)
    requires Trimmed(key) && ':' !in key
    ensures
      var content := key + ":" + rest;
      && FindChar(content, ':') == |key| < |content|
      && TrimSpace(content[..|key|]) == key && content[|key| + 1..] == rest
  {
    var content := key + ":" + rest;
    assert content[|key|] == ':' && content[..|key|] == key;
    FindAt(content, ':', |key|);
    TrimSpaceOfTrimmed(key);
  }

  lemma {:induction false} TrimSpaced(kept: string)
    requires kept != "" && Trimmed(kept)
    ensures TrimSpace(" " + kept) == kept
  {
    TrimSpaceOfTrimmed(kept);
    TrimLeftAt(" " + kept, 1);
    TrimLeftAt(kept, 0);
    assert (" " + kept)[1..] == kept;
  }

  /** The text of a scalar, trimmed as the parser trims it. */
  lemma {:induction false} KeptTrimmed(value: string)
    ensures
      var kept := TrimRight(Kept(value));
      kept != "" && Trimmed(kept) && UnquoteScalar(kept) == ReadBack(value)
  {
    KeptStart(value);
    TrimStarted(Kept(value));
  }

  lemma {:induction false} TrimStarted(s: string)
    requires s != "" && !IsSpace(s[0])
    ensures
      var kept := TrimRight(s);
      kept != "" && Trimmed(kept) && TrimSpace(s) == kept && TrimSpace(kept) == kept
  {
    TrimLeftAt(s, 0);
    TrimRightConcat("", s);
    TrimSpaceTrims(s);
    TrimSpaceOfTrimmed(TrimRight(s));
  }

  lemma {:induction false} ParseFieldLine(st: State, name: string, value: string)
    requires FieldName(name) && st.stack != [] && st.stack[|st.stack| - 1].indent == 2
    ensures ParseLine(st, FieldLine(name, value)) ==
      Ok(State(SetIn(st.root, st.stack[|st.stack| - 1].path, name, Scalar(ReadBack(value))), st.stack))
  {
    FieldLineContent(name, value);
    KeptTrimmed(value);
    var content := name + ": " + TrimRight(Kept(value));
    assert content[|name|] == ':';
    ParseFieldContent(st, name, TrimRight(Kept(value)));
  }

  // ---- the line that opens an entry ----

  function IDLine(id: string): string { "  " + EscapeScalar(id) + ":" }

  lemma {:induction false} EscapeAddsNone(s: string, c: char)
    requires c !in s && c != BS && c != 'n'
    ensures c !in EscapeBody(s)
  {
    if s == "" {
    } else if |s| >= 2 && s[0] == BS && s[1] == BS {
      EscapeAddsNone(s[2..], c);
    } else {
      EscapeAddsNone(s[1..], c);
      assert s[0] != c;
    }
  }

  lemma {:induction false} ScalarAddsNone(value: string, c: char)
    requires c !in value && c != BS && c != 'n' && c != '"'
    ensures c !in EscapeScalar(value)
  {
    EscapeAddsNone(value, c);
  }

  /** A stack that is inside the mapping of assets, perhaps still in an entry. */
  predicate AtAssets(stack: seq<Frame>) {
    && |stack| >= 2 && |stack| <= 3
    && stack[0] == Frame(-2, []) && stack[1] == Frame(0, ["assets"])
    && (|stack| == 3 ==> stack[2].indent == 2)
  }

  lemma {:induction false} PopToAssets(stack: seq<Frame>)
    requires AtAssets(stack)
    ensures Pop(stack, 2) == stack[..2]
  {
    assert stack[..2][..2] == stack[..2];
    if |stack| == 3 { assert Pop(stack[..2], 2) == stack[..2]; }
    else { assert stack == stack[..2]; }
  }

  lemma {:induction false} IDContent(id: string)
    requires ':' !in id && id != "" && CommentSafe(id)
    ensures
      var line := StripInlineComment(IDLine(id));
      LeadingSpaces(line) == 2 && TrimSpace(line) == EscapeScalar(id) + ":"
  {
    IDUncut(id);
    CommentStartFacts(Outside, IDLine(id));
    EscapeScalarTrimmed(id);
    IDShape(EscapeScalar(id));
  }

  /** No comment starts in the line of an ID that is safe. */
  lemma {:induction false} IDUncut(id: string)
    requires ':' !in id && id != "" && CommentSafe(id)
    ensures ScanQuotes(Outside, IDLine(id)) != Comment
  {
    var e := EscapeScalar(id);
    EscapedScan(id);
    NeutralStaysOutside("  ");
    ScanConcat(Outside, "  ", e + ":");
    ScanConcat(Outside, e, ":");
    assert "  " + e + ":" == "  " + (e + ":");
  }

  lemma {:induction false} IDShape(e: string)
    requires e != "" && !IsSpace(e[0])
    ensures LeadingSpaces("  " + e + ":") == 2 && TrimSpace("  " + e + ":") == e + ":"
  {
    var line := "  " + e + ":";
    assert line[2..] == e + ":";
    IndentedLine(line, 2);
    assert TrimRight(e + ":") == e + ":";
  }

  lemma {:induction false} ParseIDLine(st: State, id: string)
    requires ':' !in id && id != "" && CommentSafe(id) && AtAssets(st.stack)
    ensures ParseLine(st, IDLine(id)) ==
      Ok(State(SetIn(st.root, ["assets"], EscapeScalar(id), Mapping(map[])),
               st.stack[..2] + [Frame(2, ["assets", EscapeScalar(id)])]))
  {
    var e := EscapeScalar(id);
    IDContent(id);
    ScalarAddsNone(id, ':');
    var content := e + ":";
    assert content[|e|] == ':' && content[..|e|] == e && content[|e| + 1..] == "";
    FindAt(content, ':', |e|);
    EscapeScalarTrimmed(id);
    TrimSpaceOfTrimmed(e);
    PopToAssets(st.stack);
    assert ["assets"] + [e] == ["assets", e];
  }

  lemma {:induction false} UnsafeIDStripped(id: string)
    requires id != "" && RequiresQuotes(id) && !CommentSafe(id)
    ensures StripInlineComment(IDLine(id)) == "  " + Kept(id)
    ensures Kept(id) <= EscapeScalar(id) && Kept(id) != "" && Kept(id)[0] == '"'
  {
    var e := EscapeScalar(id);
    EscapedScan(id);
    CommentStartFacts(Outside, e);
    var n := CommentStart(Outside, e);
    UnsafeIDCut(id, n);
    TrimRightSpacesConcat("  ", e[..n]);
    TrimRightSpacesIsPrefix(e[..n]);
  }

  lemma {:induction false} UnsafeIDCut(id: string, n: nat)
    requires n < |EscapeScalar(id)| && n == CommentStart(Outside, EscapeScalar(id))
    ensures CommentStart(Outside, IDLine(id)) == 2 + n < |IDLine(id)| && IDLine(id)[..2 + n] == "  " + EscapeScalar(id)[..n]
  {
    var e := EscapeScalar(id);
    NeutralStaysOutside("  ");
    CommentStartConcat("  ", e + ":", Outside);
    CutInside(Outside, e, ":");
    assert IDLine(id) == "  " + (e + ":");
    assert IDLine(id)[..2 + n] == "  " + e[..n];
  }

  lemma {:induction false} NoColonNoEntry(st: State, indent: nat, trimmed: string)
    requires st.stack != [] && ':' !in trimmed
    ensures ParseEntry(st, indent, trimmed).Err?
  {}

  lemma {:induction false} UnsafeIDContent(id: string)
    requires ':' !in id && id != "" && RequiresQuotes(id) && !CommentSafe(id)
    ensures
      var content := TrimSpace("  " + Kept(id));
      content != "" && content[0] == '"' && ':' !in content
  {
    UnsafeIDStripped(id);
    var kept := Kept(id);
    IndentedLine("  " + kept, 2);
    assert ("  " + kept)[2..] == kept;
    TrimRightConcat("", kept);
    TrimRightFacts(kept);
    ScalarAddsNone(id, ':');
    var content := TrimRight(kept);
    assert forall i :: 0 <= i < |content| ==> content[i] == EscapeScalar(id)[i];
  }

  /** The line of an unsafe ID is cut before its colon, and the file refused. */
  lemma {:induction false} ParseUnsafeIDLine(st: State, id: string)
    requires ':' !in id && id != "" && RequiresQuotes(id) && !CommentSafe(id) && st.stack != []
    ensures ParseLine(st, IDLine(id)).Err?
  {
    UnsafeIDStripped(id);
    UnsafeIDContent(id);
    NoColonNoEntry(st, LeadingSpaces("  " + Kept(id)), TrimSpace("  " + Kept(id)));
  }

  /** A comment that starts in a text also starts there when more follows. */
  lemma {:induction false} CutInside(q: Quote, a: string, b: string)
    requires q != Comment && CommentStart(q, a) < |a|
    ensures CommentStart(q, a + b) == CommentStart(q, a)
    decreases |a|
  {
    if ScanChar(q, a[0]) != Comment {
      assert (a + b)[1..] == a[1..] + b;
      CutInside(ScanChar(q, a[0]), a[1..], b);
    }
  }

  // ---- one entry ----

  function Pick(v: AssetRef, slot: Slot): string {
    match slot
    case IDSlot => v.assetID
    case RepoSlot => v.repo
    case RefSlot => v.ref
    case CommitSlot => v.commitID
    case TagSlot => v.tag
    case TargetSlot => v.importTarget
    case NoSlot => ""
  }

  /** The slot of each field name the writer uses. */
  function SlotTable(name: string): Slot {
    if name == "asset_id" then IDSlot else if name == "repo" then RepoSlot else if name == "ref" then RefSlot
    else if name == "commit_id" then CommitSlot else if name == "tag" then TagSlot else TargetSlot
  }

  predicate WrittenName(name: string) {
    name == "asset_id" || name == "repo" || name == "ref" || name == "commit_id" || name == "tag" || name == "import_target"
  }

  /** The mapping parsed from an entry's lines. */
  function EntryFields(ref: AssetRef): map<string, Yaml> {
    map["asset_id" := Scalar(ReadBack(ref.assetID)), "repo" := Scalar(ReadBack(ref.repo)), "ref" := Scalar(ReadBack(ref.ref)),
        "commit_id" := Scalar(ReadBack(ref.commitID)), "tag" := Scalar(ReadBack(ref.tag)),
        "import_target" := Scalar(ReadBack(ref.importTarget))]
  }

  function RootOf(assets: map<string, Yaml>): map<string, Yaml> { map["assets" := Mapping(assets)] }

  lemma {:induction false} SetAsset(assets: map<string, Yaml>, key: string, value: Yaml)
    ensures SetIn(RootOf(assets), ["assets"], key, value) == RootOf(assets[key := value])
  {
    assert ["assets"][1..] == [];
  }

  lemma {:induction false} SetField(assets: map<string, Yaml>, id: string, fields: map<string, Yaml>, name: string, value: Yaml)
    ensures SetIn(RootOf(assets[id := Mapping(fields)]), ["assets", id], name, value)
      == RootOf(assets[id := Mapping(fields[name := value])])
  {
    assert ["assets", id][1..] == [id] && [id][1..] == [];
    var m := assets[id := Mapping(fields)];
    assert SetIn(m, [id], name, value) == m[id := Mapping(fields[name := value])];
    assert m[id := Mapping(fields[name := value])] == assets[id := Mapping(fields[name := value])];
  }

  lemma {:induction false} ParseLinesConcat(st: State, a: seq<string>, b: seq<string>)
    requires st.stack != []
    ensures ParseLines(st, a).Ok? ==> ParseLines(st, a).value.stack != []
    ensures ParseLines(st, a + b) == if ParseLines(st, a).Ok? then ParseLines(ParseLines(st, a).value, b) else ParseLines(st, a)
    decreases |a|
  {
    if a == [] { assert a + b == b; }
    else {
      assert (a + b)[1..] == a[1..] + b;
      if ParseLine(st, a[0]).Ok? { ParseLinesConcat(ParseLine(st, a[0]).value, a[1..], b); }
    }
  }

  function InEntry(assets: map<string, Yaml>, key: string, fields: map<string, Yaml>): State {
    State(RootOf(assets[key := Mapping(fields)]), [Frame(-2, []), Frame(0, ["assets"]), Frame(2, ["assets", key])])
  }

  lemma {:induction false} ParseField(assets: map<string, Yaml>, key: string, fields: map<string, Yaml>, name: string, value: string, rest: seq<string>)
    requires FieldName(name)
    ensures ParseLines(InEntry(assets, key, fields), [FieldLine(name, value)] + rest)
      == ParseLines(InEntry(assets, key, fields[name := Scalar(ReadBack(value))]), rest)
  {
    var st := InEntry(assets, key, fields);
    ParseFieldLine(st, name, value);
    SetField(assets, key, fields, name, Scalar(ReadBack(value)));
    assert ([FieldLine(name, value)] + rest)[1..] == rest;
  }

  lemma {:induction false} FieldNames()
    ensures FieldName("asset_id") && FieldName("repo") && FieldName("ref")
  {}

  lemma {:induction false} CommitFieldName()
    ensures FieldName("commit_id")
  {}

  lemma {:induction false} TagFieldName()
    ensures FieldName("tag")
  {}

  lemma {:induction false} TargetFieldName()
    ensures FieldName("import_target")
  {}

  lemma {:induction false} MoreFieldNames()
    ensures FieldName("commit_id") && FieldName("tag") && FieldName("import_target")
  {
    CommitFieldName();
    TagFieldName();
    TargetFieldName();
  }

  lemma {:induction false} ParseThree(assets: map<string, Yaml>, key: string, fields: map<string, Yaml>, rest: seq<string>,
                   n1: string, v1: string, n2: string, v2: string, n3: string, v3: string)
    requires FieldName(n1) && FieldName(n2) && FieldName(n3)
    ensures ParseLines(InEntry(assets, key, fields), [FieldLine(n1, v1), FieldLine(n2, v2), FieldLine(n3, v3)] + rest)
      == ParseLines(InEntry(assets, key, fields[n1 := Scalar(ReadBack(v1))][n2 := Scalar(ReadBack(v2))][n3 := Scalar(ReadBack(v3))]), rest)
  {
    var l1, l2, l3 := FieldLine(n1, v1), FieldLine(n2, v2), FieldLine(n3, v3);
    assert [l1, l2, l3] + rest == [l1] + ([l2] + ([l3] + rest));
    var f1 := fields[n1 := Scalar(ReadBack(v1))];
    ParseField(assets, key, fields, n1, v1, [l2] + ([l3] + rest));
    ParseField(assets, key, f1, n2, v2, [l3] + rest);
    ParseField(assets, key, f1[n2 := Scalar(ReadBack(v2))], n3, v3, rest);
  }

  lemma {:induction false} ParseFields(assets: map<string, Yaml>, key: string, id: string, ref: AssetRef)
    requires ref.assetID == id && FirstNonEmpty([TrimSpace(ref.assetID), id]) == id
    ensures ParseLines(InEntry(assets, key, map[]), EntryLines(id, ref)[1..]) == Ok(InEntry(assets, key, EntryFields(ref)))
  {
    FieldNames();
    MoreFieldNames();
    var last := [FieldLine("commit_id", ref.commitID), FieldLine("tag", ref.tag), FieldLine("import_target", ref.importTarget)];
    var first := [FieldLine("asset_id", id), FieldLine("repo", ref.repo), FieldLine("ref", ref.ref)];
    assert EntryLines(id, ref)[1..] == first + last && last == last + [];
    var half: map<string, Yaml> := map["asset_id" := Scalar(ReadBack(id)), "repo" := Scalar(ReadBack(ref.repo)), "ref" := Scalar(ReadBack(ref.ref))];
    ParseThree(assets, key, map[], last, "asset_id", id, "repo", ref.repo, "ref", ref.ref);
    ParseThree(assets, key, half, [], "commit_id", ref.commitID, "tag", ref.tag, "import_target", ref.importTarget);
  }

  lemma {:induction false} ParseEntryLines(assets: map<string, Yaml>, stack: seq<Frame>, id: string, ref: AssetRef)
    requires AtAssets(stack) && ':' !in id && id != "" && CommentSafe(id)
    requires ref.assetID == id && FirstNonEmpty([TrimSpace(ref.assetID), id]) == id
    ensures ParseLines(State(RootOf(assets), stack), EntryLines(id, ref))
      == Ok(InEntry(assets, EscapeScalar(id), EntryFields(ref)))
  {
    var key := EscapeScalar(id);
    ParseIDLine(State(RootOf(assets), stack), id);
    SetAsset(assets, key, Mapping(map[]));
    assert stack[..2] == [Frame(-2, []), Frame(0, ["assets"])];
    assert stack[..2] + [Frame(2, ["assets", key])] == InEntry(assets, key, map[]).stack;
    assert EntryLines(id, ref)[0] == IDLine(id);
    ParseFields(assets, key, id, ref);
  }

  // ---- the whole file ----

  /** A value that the writer keeps on one line and the reader trims to itself. */
  predicate Storable(value: string) {
    Trimmed(value) && ('\n' in value ==> RequiresQuotes(value))
  }

  predicate StorableRef(ref: AssetRef) {
    && Storable(ref.assetID) && Storable(ref.repo) && Storable(ref.ref)
    && Storable(ref.commitID) && Storable(ref.tag) && Storable(ref.importTarget)
  }

  /** Every entry is there, stored under its own ID, and storable. */
  ghost predicate WellKept(lock: Lock) {
    forall id :: id in lock ==>
      lock[id].Some? && lock[id].value.assetID == id && id != "" && ':' !in id && StorableRef(lock[id].value)
  }

  ghost predicate SafeRef(ref: AssetRef) {
    && CommentSafe(ref.assetID) && CommentSafe(ref.repo) && CommentSafe(ref.ref)
    && CommentSafe(ref.commitID) && CommentSafe(ref.tag) && CommentSafe(ref.importTarget)
  }

  ghost predicate Safe(lock: Lock) {
    forall id :: id in lock ==> SafeEntry(lock[id])
  }

  /** Every line of the file fits the line scanner's buffer. */
  ghost predicate LinesFit(lock: Lock, ids: seq<string>)
    requires forall i :: 0 <= i < |ids| ==> ids[i] in lock
  {
    forall i :: 0 <= i < |RenderLines(lock, ids)| ==> Fits(RenderLines(lock, ids)[i])
  }

  /** A map filled entry by entry. */
  function Zip<V>(keys: seq<string>, values: seq<V>, n: nat): map<string, V>
    requires n <= |keys| && n <= |values|
  {
    if n == 0 then map[] else Zip(keys, values, n - 1)[keys[n - 1] := values[n - 1]]
  }

  ghost predicate Distinct(keys: seq<string>) {
    forall i, j :: 0 <= i < j < |keys| ==> keys[i] != keys[j]
  }

  lemma {:induction false} ZipAt<V>(keys: seq<string>, values: seq<V>, n: nat, i: nat)
    requires i < n <= |keys| && n <= |values| && Distinct(keys)
    ensures keys[i] in Zip(keys, values, n) && Zip(keys, values, n)[keys[i]] == values[i]
  {
    if i < n - 1 { ZipAt(keys, values, n - 1, i); }
  }

  lemma {:induction false} ZipHas<V>(keys: seq<string>, values: seq<V>, n: nat, key: string)
    requires n <= |keys| && n <= |values| && key in Zip(keys, values, n)
    ensures exists i :: 0 <= i < n && keys[i] == key
  {
    if keys[n - 1] != key { ZipHas(keys, values, n - 1, key); }
  }

  /** Two fillings with the same pairs give the same map. */
  lemma {:induction false} ZipSame<V>(keys: seq<string>, values: seq<V>, m: map<string, V>)
    requires |keys| == |values| && Distinct(keys)
    requires forall i :: 0 <= i < |keys| ==> keys[i] in m && m[keys[i]] == values[i]
    requires forall k {:trigger k in keys} :: k in m ==> k in keys
    ensures Zip(keys, values, |keys|) == m
  {
    var z := Zip(keys, values, |keys|);
    forall k | k in m ensures k in z && z[k] == m[k] {
      assert k in keys;
      var i :| 0 <= i < |keys| && keys[i] == k;
      ZipAt(keys, values, |keys|, i);
    }
    forall k | k in z ensures k in m {
      ZipHas(keys, values, |keys|, k);
    }
  }

  /** The parsed form of each entry. */
  ghost predicate Written(keys: seq<string>, entries: seq<Yaml>, lock: Lock, ids: seq<string>) {
    && |keys| == |entries| == |ids|
    && forall i :: 0 <= i < |ids| ==> WrittenEntry(keys[i], entries[i], lock, ids[i])
  }

  predicate WrittenEntry(key: string, entry: Yaml, lock: Lock, id: string) {
    && id in lock && lock[id].Some? && OwnID(id, lock[id].value)
    && key == EscapeScalar(id) && entry == Mapping(EntryFields(lock[id].value))
  }

  lemma {:induction false} OwnIDPrinted(id: string)
    requires Trimmed(id) && id != ""
    ensures FirstNonEmpty([TrimSpace(id), id]) == id
  {
    TrimSpaceOfTrimmed(id);
  }

  lemma {:induction false} HeaderContent()
    ensures StripInlineComment("assets:") == "assets:" && TrimSpace("assets:") == "assets:" && LeadingSpaces("assets:") == 0
  {
    var line := "assets:";
    assert line[0] == 'a' && line[6] == ':';
    assert Neutral(line);
    NeutralStaysOutside(line);
    CommentStartFacts(Outside, line);
    TrimSpaceOfTrimmed(line);
    LeadingSpacesAt(line, 0);
  }

  lemma {:induction false} ParseHeader()
    ensures ParseLine(START, "assets:") == Ok(State(RootOf(map[]), [Frame(-2, []), Frame(0, ["assets"])]))
  {
    HeaderContent();
    assert "assets:" == "assets" + ":" + "";
    KeyContent("assets", "");
    OpenTop("assets:", "assets");
  }

  /** A key without a value, on the left margin, opens a mapping of its own. */
  lemma {:induction false} OpenTop(content: string, key: string)
    requires FindChar(content, ':') == |key| < |content| && key != ""
    requires TrimSpace(content[..|key|]) == key && content[|key| + 1..] == ""
    ensures ParseEntry(START, 0, content) == Ok(State(map[key := Mapping(map[])], [Frame(-2, []), Frame(0, [key])]))
  {
    var start: seq<Frame> := [Frame(-2, [])];
    assert Pop(start, 0) == start;
    assert start[0].path + [key] == [key];
    assert start + [Frame(0, [key])] == [Frame(-2, []), Frame(0, [key])];
  }

  predicate OwnID(id: string, ref: AssetRef) {
    ref.assetID == id && Trimmed(id) && id != "" && ':' !in id
  }

  /** Reading the lines of the first n entries leads from start to st. */
  ghost predicate ReadUpTo(lock: Lock, ids: seq<string>, keys: seq<string>, entries: seq<Yaml>, n: nat, start: State, st: State)
    requires Written(keys, entries, lock, ids) && n <= |ids|
  {
    && start.stack != [] && ParseLines(start, LinesOf(lock, ids, n)) == Ok(st)
    && st.root == RootOf(Zip(keys, entries, n)) && AtAssets(st.stack)
  }

  lemma {:induction false} ReadNothing(lock: Lock, ids: seq<string>, keys: seq<string>, entries: seq<Yaml>, start: State)
    requires Written(keys, entries, lock, ids) && start.root == RootOf(map[]) && AtAssets(start.stack)
    ensures ReadUpTo(lock, ids, keys, entries, 0, start, start)
  {}

  lemma {:induction false} ParseEntries(lock: Lock, ids: seq<string>, keys: seq<string>, entries: seq<Yaml>, n: nat, start: State)
    returns (st: State)
    requires Written(keys, entries, lock, ids) && n <= |ids| && start.root == RootOf(map[]) && AtAssets(start.stack)
    requires forall i :: 0 <= i < n ==> CommentSafe(ids[i])
    ensures ReadUpTo(lock, ids, keys, entries, n, start, st)
  {
    ReadNothing(lock, ids, keys, entries, start);
    st := start;
    for k := 0 to n
      invariant ReadUpTo(lock, ids, keys, entries, k, start, st)
    {
      st := ParseNextEntry(lock, ids, keys, entries, k + 1, start, st);
    }
  }

  lemma {:induction false} ParseNextEntry(lock: Lock, ids: seq<string>, keys: seq<string>, entries: seq<Yaml>, n: nat, start: State, before: State)
    returns (st: State)
    requires Written(keys, entries, lock, ids) && 0 < n <= |ids| && CommentSafe(ids[n - 1])
    requires ReadUpTo(lock, ids, keys, entries, n - 1, start, before)
    ensures ReadUpTo(lock, ids, keys, entries, n, start, st)
  {
    assert WrittenEntry(keys[n - 1], entries[n - 1], lock, ids[n - 1]);
    st := ParseOneMore(Zip(keys, entries, n - 1), start, LinesOf(lock, ids, n - 1), before, ids[n - 1], lock[ids[n - 1]].value);
  }

  lemma {:induction false} ParseOneMore(assets: map<string, Yaml>, start: State, lines: seq<string>, before: State, id: string, ref: AssetRef)
    returns (st: State)
    requires start.stack != [] && ParseLines(start, lines) == Ok(before) && before.root == RootOf(assets) && AtAssets(before.stack)
    requires OwnID(id, ref) && CommentSafe(id)
    ensures ParseLines(start, lines + EntryLines(id, ref)) == Ok(st)
    ensures st.root == RootOf(assets[EscapeScalar(id) := Mapping(EntryFields(ref))]) && AtAssets(st.stack)
  {
    assert before == State(RootOf(assets), before.stack);
    ParseLinesConcat(start, lines, EntryLines(id, ref));
    OwnIDPrinted(id);
    ParseEntryLines(assets, before.stack, id, ref);
    st := InEntry(assets, EscapeScalar(id), EntryFields(ref));
  }

  lemma {:induction false} StopsAfter(lock: Lock, ids: seq<string>, keys: seq<string>, entries: seq<Yaml>, bad: nat, start: State, before: State)
    requires Written(keys, entries, lock, ids) && bad < |ids| && !CommentSafe(ids[bad])
    requires ReadUpTo(lock, ids, keys, entries, bad, start, before)
    ensures ParseLines(start, LinesOf(lock, ids, bad + 1)).Err?
  {
    assert WrittenEntry(keys[bad], entries[bad], lock, ids[bad]);
    ParseStopsHere(start, LinesOf(lock, ids, bad), before, ids[bad], lock[ids[bad]].value);
  }

  lemma {:induction false} LinesRegrouped(a: seq<string>, b: seq<string>, c: seq<string>)
    ensures a + b + c == a + (b + c)
  {}

  lemma {:induction false} LinesSplit(lock: Lock, ids: seq<string>, n: nat, m: nat) returns (more: seq<string>)
    requires (forall i :: 0 <= i < |ids| ==> ids[i] in lock) && n <= m <= |ids|
    ensures LinesOf(lock, ids, m) == LinesOf(lock, ids, n) + more
    decreases m
  {
    more := [];
    if n < m {
      var front := LinesSplit(lock, ids, n, m - 1);
      more := front + LinesFor(ids[m - 1], lock[ids[m - 1]]);
      LinesRegrouped(LinesOf(lock, ids, n), front, LinesFor(ids[m - 1], lock[ids[m - 1]]));
    }
  }

  lemma {:induction false} ParseStopsHere(start: State, lines: seq<string>, before: State, id: string, ref: AssetRef)
    requires start.stack != [] && before.stack != [] && ParseLines(start, lines) == Ok(before)
    requires OwnID(id, ref) && !CommentSafe(id)
    ensures ParseLines(start, lines + EntryLines(id, ref)).Err?
  {
    ParseLinesConcat(start, lines, EntryLines(id, ref));
    UnsafeNeedsQuotes(id);
    assert EntryLines(id, ref)[0] == IDLine(id);
    ParseUnsafeIDLine(before, id);
  }

  /** Beyond an ID with a '#' outside its quotes nothing is parsed. */
  lemma {:induction false} ParseStopsAtUnsafe(lock: Lock, ids: seq<string>, keys: seq<string>, entries: seq<Yaml>, start: State, bad: nat)
    requires Written(keys, entries, lock, ids) && start.root == RootOf(map[]) && AtAssets(start.stack)
    requires bad < |ids| && !CommentSafe(ids[bad]) && forall i :: 0 <= i < bad ==> CommentSafe(ids[i])
    ensures ParseLines(start, LinesOf(lock, ids, |ids|)).Err?
  {
    var before := ParseEntries(lock, ids, keys, entries, bad, start);
    StopsAfter(lock, ids, keys, entries, bad, start, before);
    WrittenInside(keys, entries, lock, ids);
    var more := LinesSplit(lock, ids, bad + 1, |ids|);
    ParseLinesConcat(start, LinesOf(lock, ids, bad + 1), more);
  }

  lemma {:induction false} WrittenInside(keys: seq<string>, entries: seq<Yaml>, lock: Lock, ids: seq<string>)
    requires Written(keys, entries, lock, ids)
    ensures forall i :: 0 <= i < |ids| ==> ids[i] in lock
  {
    forall i | 0 <= i < |ids| ensures ids[i] in lock { assert WrittenEntry(keys[i], entries[i], lock, ids[i]); }
  }

  lemma {:induction false} UnsafeNeedsQuotes(value: string)
    requires !CommentSafe(value)
    ensures RequiresQuotes(value) && value != ""
  {
    if !RequiresQuotes(value) {
      assert forall c :: c in value ==> c !in SPECIAL;
      NoQuoteStays(value);
    }
  }

  // ---- every written line is one line ----

  lemma {:induction false} EscapeBodyOneLine(s: string)
    ensures '\n' !in EscapeBody(s)
  {
    if s == "" {
    } else if |s| >= 2 && s[0] == BS && s[1] == BS {
      EscapeBodyOneLine(s[2..]);
    } else {
      EscapeBodyOneLine(s[1..]);
    }
  }

  lemma {:induction false} ScalarOneLine(value: string)
    requires Storable(value)
    ensures '\n' !in EscapeScalar(value)
    ensures EscapeScalar(value) != "" && EscapeScalar(value)[|EscapeScalar(value)| - 1] != '\r'
  {
    EscapeBodyOneLine(value);
    EscapeScalarTrimmed(value);
  }

  lemma {:induction false} FieldLinePlain(name: string, value: string)
    requires Storable(value) && '\n' !in name
    ensures PlainLine(FieldLine(name, value))
  {
    ScalarOneLine(value);
    var e, line := EscapeScalar(value), FieldLine(name, value);
    assert line[|line| - 1] == e[|e| - 1];
  }

  ghost predicate AllPlain(lines: seq<string>) {
    forall i :: 0 <= i < |lines| ==> PlainLine(lines[i])
  }

  lemma {:induction false} PlainConcat(a: seq<string>, b: seq<string>)
    requires AllPlain(a) && AllPlain(b)
    ensures AllPlain(a + b)
  {}

  lemma {:induction false} IDLinePlain(id: string)
    requires Storable(id)
    ensures PlainLine(IDLine(id))
  {
    ScalarOneLine(id);
  }

  lemma {:induction false} ThreePlain(n1: string, v1: string, n2: string, v2: string, n3: string, v3: string)
    requires FieldName(n1) && FieldName(n2) && FieldName(n3) && '\n' !in n1 && '\n' !in n2 && '\n' !in n3
    requires Storable(v1) && Storable(v2) && Storable(v3)
    ensures AllPlain([FieldLine(n1, v1), FieldLine(n2, v2), FieldLine(n3, v3)])
  {
    FieldLinePlain(n1, v1);
    FieldLinePlain(n2, v2);
    FieldLinePlain(n3, v3);
  }

  lemma {:induction false} EntryLinesShape(id: string, ref: AssetRef)
    requires FirstNonEmpty([TrimSpace(ref.assetID), id]) == id
    ensures EntryLines(id, ref) == [IDLine(id)]
      + [FieldLine("asset_id", id), FieldLine("repo", ref.repo), FieldLine("ref", ref.ref)]
      + [FieldLine("commit_id", ref.commitID), FieldLine("tag", ref.tag), FieldLine("import_target", ref.importTarget)]
  {}

  lemma {:induction false} FieldNamesOneLine()
    ensures '\n' !in "asset_id" && '\n' !in "repo" && '\n' !in "ref"
    ensures '\n' !in "commit_id" && '\n' !in "tag" && '\n' !in "import_target"
  {}

  lemma {:induction false} FieldLinesPlain(id: string, repo: string, ref: string, commitID: string, tag: string, target: string)
    requires Storable(id) && Storable(repo) && Storable(ref) && Storable(commitID) && Storable(tag) && Storable(target)
    ensures AllPlain([FieldLine("asset_id", id), FieldLine("repo", repo), FieldLine("ref", ref)])
    ensures AllPlain([FieldLine("commit_id", commitID), FieldLine("tag", tag), FieldLine("import_target", target)])
  {
    FieldNames();
    MoreFieldNames();
    FieldNamesOneLine();
    ThreePlain("asset_id", id, "repo", repo, "ref", ref);
    ThreePlain("commit_id", commitID, "tag", tag, "import_target", target);
  }

  lemma {:induction false} EntryLinesPlain(id: string, ref: AssetRef)
    requires StorableRef(ref) && ref.assetID == id && id != ""
    ensures AllPlain(EntryLines(id, ref))
  {
    OwnIDPrinted(id);
    IDLinePlain(id);
    FieldLinesPlain(id, ref.repo, ref.ref, ref.commitID, ref.tag, ref.importTarget);
    EntryLinesShape(id, ref);
    ThreeParts([IDLine(id)], [FieldLine("asset_id", id), FieldLine("repo", ref.repo), FieldLine("ref", ref.ref)],
      [FieldLine("commit_id", ref.commitID), FieldLine("tag", ref.tag), FieldLine("import_target", ref.importTarget)]);
  }

  lemma {:induction false} ThreeParts(a: seq<string>, b: seq<string>, c: seq<string>)
    requires AllPlain(a) && AllPlain(b) && AllPlain(c)
    ensures AllPlain(a + b + c)
  {
    PlainConcat(a, b);
    PlainConcat(a + b, c);
  }

  lemma {:induction false} LinesForPlain(lock: Lock, id: string)
    requires WellKept(lock) && id in lock
    ensures AllPlain(LinesFor(id, lock[id]))
  {
    EntryLinesPlain(id, lock[id].value);
  }

  lemma {:induction false} OneMorePlain(lock: Lock, ids: seq<string>, n: nat)
    requires 0 < n <= |ids| && forall i :: 0 <= i < |ids| ==> ids[i] in lock
    requires AllPlain(LinesOf(lock, ids, n - 1)) && AllPlain(LinesFor(ids[n - 1], lock[ids[n - 1]]))
    ensures AllPlain(LinesOf(lock, ids, n))
  {
    PlainConcat(LinesOf(lock, ids, n - 1), LinesFor(ids[n - 1], lock[ids[n - 1]]));
  }

  ghost predicate EntryPlain(lock: Lock, ids: seq<string>, i: nat)
    requires i < |ids|
  {
    ids[i] in lock && AllPlain(LinesFor(ids[i], lock[ids[i]]))
  }

  lemma {:induction false} PlainUpTo(lock: Lock, ids: seq<string>, n: nat)
    requires n <= |ids| && forall i :: 0 <= i < |ids| ==> ids[i] in lock
    requires forall i: nat {:trigger EntryPlain(lock, ids, i)} :: i < |ids| ==> EntryPlain(lock, ids, i)
    ensures AllPlain(LinesOf(lock, ids, n))
  {
    if n > 0 {
      PlainUpTo(lock, ids, n - 1);
      assert EntryPlain(lock, ids, n - 1);
      OneMorePlain(lock, ids, n);
    }
  }

  lemma {:induction false} LinesPlain(lock: Lock, ids: seq<string>)
    requires WellKept(lock) && forall i :: 0 <= i < |ids| ==> ids[i] in lock
    ensures AllPlain(LinesOf(lock, ids, |ids|))
  {
    forall i: nat | i < |ids| ensures EntryPlain(lock, ids, i) { LinesForPlain(lock, ids[i]); }
    PlainUpTo(lock, ids, |ids|);
  }

  // ---- reading the entries back ----

  lemma {:induction false} NormalizedConcat(a: string, b: string)
    ensures Normalized(a + b) == Normalized(a) + Normalized(b)
  {
    if a == "" { assert a + b == b; }
    else {
      assert (a + b)[1..] == a[1..] + b;
      NormalizedConcat(a[1..], b);
    }
  }

  predicate LowerWord(s: string) { forall i :: 0 <= i < |s| ==> 'a' <= s[i] <= 'z' }

  lemma {:induction false} NormalizedWord(s: string)
    requires LowerWord(s)
    ensures Normalized(s) == s
  {
    if s != "" { NormalizedWord(s[1..]); }
  }

  lemma {:induction false} NormalizedPair(a: string, b: string)
    requires LowerWord(a) && LowerWord(b)
    ensures Normalized(a + "_" + b) == a + b
  {
    NormalizedConcat(a + "_", b);
    NormalizedConcat(a, "_");
    NormalizedWord(a);
    NormalizedWord(b);
    assert Normalized("_") == "";
  }

  lemma {:induction false} NormalizedName(name: string)
    requires WrittenName(name)
    ensures Normalized(name) == (if name == "asset_id" then "asset" + "id" else if name == "commit_id" then "commit" + "id"
                                 else if name == "import_target" then "import" + "target" else name)
  {
    if name == "asset_id" { NormalizedPair("asset", "id"); assert "asset" + "_" + "id" == name; }
    else if name == "commit_id" { NormalizedPair("commit", "id"); assert "commit" + "_" + "id" == name; }
    else if name == "import_target" { NormalizedPair("import", "target"); assert "import" + "_" + "target" == name; }
    else { NormalizedWord(name); }
  }

  lemma {:induction false} SlotOfWritten(name: string)
    requires WrittenName(name)
    ensures SlotOf(name) == SlotTable(name)
  {
    NormalizedName(name);
    NameTrimmed(name);
    if name == "asset_id" { assert SlotOfKey("asset" + "id") == IDSlot; }
    else if name == "commit_id" { assert SlotOfKey("commit" + "id") == CommitSlot; }
    else if name == "import_target" { assert SlotOfKey("import" + "target") == TargetSlot; }
    else { assert SlotOfKey(name) == SlotTable(name); }
  }

  lemma {:induction false} NameTrimmed(name: string)
    requires WrittenName(name)
    ensures TrimSpace(name) == name
  {
    TrimSpaceOfTrimmed(name);
  }

  /** A reference with every value seen through f. */
  function Through(f: string -> string, ref: AssetRef): AssetRef {
    AssetRef(f(ref.assetID), f(ref.repo), f(ref.ref), f(ref.commitID), f(ref.tag), f(ref.importTarget))
  }

  /** The reference when the slots in `done` have been read. */
  function PartlyRead(start: AssetRef, v: AssetRef, done: set<Slot>): AssetRef {
    AssetRef(if IDSlot in done then v.assetID else start.assetID, if RepoSlot in done then v.repo else start.repo,
             if RefSlot in done then v.ref else start.ref, if CommitSlot in done then v.commitID else start.commitID,
             if TagSlot in done then v.tag else start.tag, if TargetSlot in done then v.importTarget else start.importTarget)
  }

  lemma {:induction false} PutPicked(start: AssetRef, v: AssetRef, done: set<Slot>, slot: Slot)
    requires slot != NoSlot
    ensures Put(PartlyRead(start, v, done), slot, Pick(v, slot)) == PartlyRead(start, v, done + {slot})
  {}

  /** Slots of the first n names of an order. */
  function SlotsOf(order: seq<string>, n: nat): set<Slot>
    requires n <= |order|
  {
    set i | 0 <= i < n :: SlotTable(order[i])
  }

  lemma {:induction false} SlotsOfOneMore(order: seq<string>, n: nat)
    requires 0 < n <= |order|
    ensures SlotsOf(order, n) == SlotsOf(order, n - 1) + {SlotTable(order[n - 1])}
  {}

  /** The fields hold, name by name, the values of v. */
  ghost predicate Holds(fields: map<string, Yaml>, v: AssetRef) {
    forall name :: name in fields ==>
      WrittenName(name) && fields[name].Scalar? && TrimSpace(fields[name].text) == Pick(v, SlotTable(name))
  }

  lemma {:induction false} ReadOneMore(start: AssetRef, fields: map<string, Yaml>, v: AssetRef, done: set<Slot>, name: string)
    requires Holds(fields, v) && name in fields
    ensures fields[name].Scalar?
    ensures Put(PartlyRead(start, v, done), SlotOf(name), TrimSpace(fields[name].text)) == PartlyRead(start, v, done + {SlotTable(name)})
  {
    assert WrittenName(name);
    SlotOfWritten(name);
    PutPicked(start, v, done, SlotTable(name));
  }

  lemma {:induction false} FieldsReadInAnyOrder(key: string, fields: map<string, Yaml>, v: AssetRef, order: seq<string>, n: nat)
    requires Holds(fields, v) && n <= |order| && forall i :: 0 <= i < |order| ==> order[i] in fields
    ensures FieldsInOrder(key, fields, order, n)
      == Loaded(PartlyRead(AssetRef(TrimSpace(key), "", "", "", "", ""), v, SlotsOf(order, n)))
  {
    if n > 0 {
      FieldsReadInAnyOrder(key, fields, v, order, n - 1);
      ReadOneMore(AssetRef(TrimSpace(key), "", "", "", "", ""), fields, v, SlotsOf(order, n - 1), order[n - 1]);
      SlotsOfOneMore(order, n);
    }
  }

  predicate AllWritten(fields: map<string, Yaml>) {
    "asset_id" in fields && "repo" in fields && "ref" in fields && "commit_id" in fields && "tag" in fields && "import_target" in fields
  }

  lemma {:induction false} SlotVisited(fields: map<string, Yaml>, order: seq<string>, name: string)
    requires Orders(order, fields) && name in fields
    ensures SlotTable(name) in SlotsOf(order, |order|)
  {
    assert name in order;
    var i :| 0 <= i < |order| && order[i] == name;
  }

  lemma {:induction false} AllSlotsVisited(fields: map<string, Yaml>, order: seq<string>)
    requires Orders(order, fields) && AllWritten(fields)
    ensures {IDSlot, RepoSlot, RefSlot, CommitSlot, TagSlot, TargetSlot} <= SlotsOf(order, |order|)
  {
    SlotVisited(fields, order, "asset_id");
    SlotVisited(fields, order, "repo");
    SlotVisited(fields, order, "ref");
    SlotVisited(fields, order, "commit_id");
    SlotVisited(fields, order, "tag");
    SlotVisited(fields, order, "import_target");
  }

  /** Whatever order the fields are visited in, the entry read is the same. */
  lemma {:induction false} EntryReadInAnyOrder(key: string, fields: map<string, Yaml>, v: AssetRef, order: seq<string>)
    requires Holds(fields, v) && Orders(order, fields) && AllWritten(fields)
    ensures FieldsInOrder(key, fields, order, |order|) == Loaded(v)
  {
    FieldsReadInAnyOrder(key, fields, v, order, |order|);
    AllSlotsVisited(fields, order);
  }

  function ReadValue(value: string): string { TrimSpace(ReadBack(value)) }

  /** What is loaded for an entry: each value as the reader sees it. */
  function LoadedRef(ref: AssetRef): AssetRef {
    Through(v => ReadValue(v), ref)
  }

  function FieldsThrough(g: string -> string, ref: AssetRef): map<string, Yaml> {
    map["asset_id" := Scalar(g(ref.assetID)), "repo" := Scalar(g(ref.repo)), "ref" := Scalar(g(ref.ref)),
        "commit_id" := Scalar(g(ref.commitID)), "tag" := Scalar(g(ref.tag)), "import_target" := Scalar(g(ref.importTarget))]
  }

  lemma {:induction false} FieldsThroughHold(g: string -> string, f: string -> string, ref: AssetRef)
    requires forall v :: f(v) == TrimSpace(g(v))
    ensures Holds(FieldsThrough(g, ref), Through(f, ref)) && AllWritten(FieldsThrough(g, ref))
  {
    var fields, v := FieldsThrough(g, ref), Through(f, ref);
    forall name | name in fields
      ensures WrittenName(name) && fields[name].Scalar? && TrimSpace(fields[name].text) == Pick(v, SlotTable(name))
    {
      FieldThroughHolds(g, f, ref, name);
    }
  }

  lemma {:induction false} FieldThroughHolds(g: string -> string, f: string -> string, ref: AssetRef, name: string)
    requires forall v :: f(v) == TrimSpace(g(v))
    requires name in FieldsThrough(g, ref)
    ensures WrittenName(name)
    ensures FieldsThrough(g, ref)[name].Scalar?
    ensures TrimSpace(FieldsThrough(g, ref)[name].text) == Pick(Through(f, ref), SlotTable(name))
  {}

  lemma {:induction false} WrittenFieldsHold(ref: AssetRef)
    ensures Holds(EntryFields(ref), LoadedRef(ref)) && AllWritten(EntryFields(ref))
  {
    assert EntryFields(ref) == FieldsThrough(v => ReadBack(v), ref);
    FieldsThroughHold(v => ReadBack(v), v => ReadValue(v), ref);
  }

  // ---- loading all entries ----

  /** Reading entries one by one, when each gives its reference. */
  lemma {:induction false} EntriesLoaded(assets: map<string, Yaml>, v: Visits, ids: seq<string>, refs: seq<Option<AssetRef>>, n: nat)
    requires StaysInside(v, assets) && n <= |v.keys| == |ids| == |refs|
    requires forall i, done :: 0 <= i < |ids| ==>
      AddEntry(done, v.keys[i], assets[v.keys[i]], FieldOrder(v, v.keys[i])) == Loaded(done[ids[i] := refs[i]])
    ensures EntriesInOrder(assets, v, n) == Loaded(Zip(ids, refs, n))
  {
    if n > 0 { EntriesLoaded(assets, v, ids, refs, n - 1); }
  }

  lemma {:induction false} ScalarInjective(a: string, b: string)
    requires EscapeScalar(a) == EscapeScalar(b)
    ensures a == b
  {
    UnquoteInvertsEscapeScalar(a);
    UnquoteInvertsEscapeScalar(b);
  }

  lemma {:induction false} KeysDistinct(keys: seq<string>, entries: seq<Yaml>, lock: Lock, ids: seq<string>)
    requires Written(keys, entries, lock, ids) && Distinct(ids)
    ensures Distinct(keys)
  {
    forall i, j | 0 <= i < j < |keys| ensures keys[i] != keys[j] {
      assert WrittenEntry(keys[i], entries[i], lock, ids[i]) && WrittenEntry(keys[j], entries[j], lock, ids[j]);
      if keys[i] == keys[j] { ScalarInjective(ids[i], ids[j]); }
    }
  }

  /** Reading this entry adds this reference, in whatever order its fields come. */
  ghost predicate Adds(key: string, entry: Yaml, id: string, ref: Option<AssetRef>) {
    entry.Mapping? &&
    forall done, order :: Orders(order, entry.fields) ==> AddEntry(done, key, entry, order) == Loaded(done[id := ref])
  }

  lemma {:induction false} WrittenAdds(key: string, entry: Yaml, lock: Lock, id: string)
    requires WrittenEntry(key, entry, lock, id) && CommentSafe(id)
    ensures Adds(key, entry, id, Some(LoadedRef(lock[id].value)))
  {
    var ref := lock[id].value;
    WrittenFieldsHold(ref);
    SafeKept(id);
    TrimSpaceOfTrimmed(id);
    assert LoadedRef(ref).assetID == id;
    forall done, order | Orders(order, entry.fields)
      ensures AddEntry(done, key, entry, order) == Loaded(done[id := Some(LoadedRef(ref))])
    {
      EntryReadInAnyOrder(key, entry.fields, LoadedRef(ref), order);
    }
  }

  /** Whatever orders the maps are visited in, the loaded lock is the same. */
  lemma {:induction false} AnyVisitLoads(keys: seq<string>, entries: seq<Yaml>, ids: seq<string>, refs: seq<Option<AssetRef>>, v: Visits)
    requires |keys| == |entries| == |ids| == |refs| && Distinct(keys) && Distinct(ids)
    requires forall i :: 0 <= i < |keys| ==> Adds(keys[i], entries[i], ids[i], refs[i])
    requires VisitsAll(v, Zip(keys, entries, |keys|))
    ensures StaysInside(v, Zip(keys, entries, |keys|))
    ensures EntriesInOrder(Zip(keys, entries, |keys|), v, |v.keys|) == Loaded(Zip(ids, refs, |ids|))
  {
    var assets := Zip(keys, entries, |keys|);
    var at := seq(|v.keys|, j requires 0 <= j < |v.keys| => IndexOf(keys, v.keys[j]));
    forall j | 0 <= j < |v.keys| ensures at[j] < |keys| && keys[at[j]] == v.keys[j] && assets[v.keys[j]] == entries[at[j]] {
      ZipHas(keys, entries, |keys|, v.keys[j]);
      IndexFound(keys, v.keys[j]);
      ZipAt(keys, entries, |keys|, at[j]);
    }
    var ids' := seq(|v.keys|, j requires 0 <= j < |v.keys| && at[j] < |ids| => ids[at[j]]);
    var refs' := seq(|v.keys|, j requires 0 <= j < |v.keys| && at[j] < |refs| => refs[at[j]]);
    VisitedInside(keys, entries, ids, refs, v, at);
    VisitedAdd(keys, entries, ids, refs, v, at, ids', refs');
    EntriesLoaded(assets, v, ids', refs', |v.keys|);
    VisitedAll(keys, entries, ids, refs, v, at, ids', refs');
  }

  function IndexOf(keys: seq<string>, key: string): nat {
    if keys == [] || keys[0] == key then 0 else 1 + IndexOf(keys[1..], key)
  }

  lemma {:induction false} IndexFound(keys: seq<string>, key: string)
    requires key in keys
    ensures IndexOf(keys, key) < |keys| && keys[IndexOf(keys, key)] == key
  {
    if keys[0] != key { IndexFound(keys[1..], key); }
  }

  /** at[j] is where the j-th visited key stands. */
  ghost predicate Located(keys: seq<string>, entries: seq<Yaml>, v: Visits, at: seq<nat>) {
    && |keys| == |entries| && |at| == |v.keys|
    && VisitsAll(v, Zip(keys, entries, |keys|))
    && forall j :: 0 <= j < |at| ==>
         at[j] < |keys| && keys[at[j]] == v.keys[j] && Zip(keys, entries, |keys|)[v.keys[j]] == entries[at[j]]
  }

  lemma {:induction false} VisitedInside(keys: seq<string>, entries: seq<Yaml>, ids: seq<string>, refs: seq<Option<AssetRef>>, v: Visits, at: seq<nat>)
    requires |ids| == |refs| == |keys| && Located(keys, entries, v, at)
    requires forall i :: 0 <= i < |keys| ==> Adds(keys[i], entries[i], ids[i], refs[i])
    ensures StaysInside(v, Zip(keys, entries, |keys|))
  {
    var assets := Zip(keys, entries, |keys|);
    forall j | 0 <= j < |v.keys| ensures Covers(assets[v.keys[j]], FieldOrder(v, v.keys[j])) {
      assert Adds(keys[at[j]], entries[at[j]], ids[at[j]], refs[at[j]]);
      assert Orders(v.fields[v.keys[j]], assets[v.keys[j]].fields);
    }
  }

  lemma {:induction false} VisitedAdd(keys: seq<string>, entries: seq<Yaml>, ids: seq<string>, refs: seq<Option<AssetRef>>, v: Visits, at: seq<nat>,
                   ids': seq<string>, refs': seq<Option<AssetRef>>)
    requires |ids| == |refs| == |keys| && Located(keys, entries, v, at)
    requires forall i :: 0 <= i < |keys| ==> Adds(keys[i], entries[i], ids[i], refs[i])
    requires Permuted(ids, at, ids') && Permuted(refs, at, refs')
    requires StaysInside(v, Zip(keys, entries, |keys|))
    ensures forall j, done :: 0 <= j < |ids'| ==>
      AddEntry(done, v.keys[j], Zip(keys, entries, |keys|)[v.keys[j]], FieldOrder(v, v.keys[j])) == Loaded(done[ids'[j] := refs'[j]])
  {
    var assets := Zip(keys, entries, |keys|);
    forall j, done: Lock | 0 <= j < |ids'|
      ensures AddEntry(done, v.keys[j], assets[v.keys[j]], FieldOrder(v, v.keys[j])) == Loaded(done[ids'[j] := refs'[j]])
    {
      assert Adds(keys[at[j]], entries[at[j]], ids[at[j]], refs[at[j]]);
      assert Orders(v.fields[v.keys[j]], assets[v.keys[j]].fields);
    }
  }

  /** Distinct keys visited at distinct places, every place visited. */
  lemma {:induction false} VisitCovers(keys: seq<string>, entries: seq<Yaml>, v: Visits, at: seq<nat>, i: nat) returns (j: nat)
    requires Located(keys, entries, v, at) && Distinct(keys) && i < |keys|
    ensures j < |at| && at[j] == i
  {
    ZipAt(keys, entries, |keys|, i);
    assert keys[i] in v.keys;
    j :| 0 <= j < |v.keys| && v.keys[j] == keys[i];
    SameIndex(keys, at[j], i);
  }

  ghost predicate Permuted<V>(values: seq<V>, at: seq<nat>, values': seq<V>) {
    |values'| == |at| && forall j :: 0 <= j < |at| ==> at[j] < |values| && values'[j] == values[at[j]]
  }

  lemma {:induction false} PermutedDistinct(ids: seq<string>, at: seq<nat>, ids': seq<string>)
    requires Distinct(ids) && Permuted(ids, at, ids')
    requires forall j, k :: 0 <= j < k < |at| ==> at[j] != at[k]
    ensures Distinct(ids')
  {
    forall i, j | 0 <= i < j < |ids'| ensures ids'[i] != ids'[j] {
      assert at[i] != at[j];
      if at[i] < at[j] { assert ids[at[i]] != ids[at[j]]; } else { assert ids[at[j]] != ids[at[i]]; }
    }
  }

  lemma {:induction false} PermutedZip(ids: seq<string>, refs: seq<Option<AssetRef>>, at: seq<nat>, ids': seq<string>, refs': seq<Option<AssetRef>>)
    requires |ids| == |refs| && Distinct(ids) && Distinct(ids')
    requires Permuted(ids, at, ids') && Permuted(refs, at, refs')
    requires forall i :: 0 <= i < |ids| ==> ids[i] in ids'
    ensures Zip(ids', refs', |ids'|) == Zip(ids, refs, |ids|)
  {
    var target := Zip(ids, refs, |ids|);
    forall j | 0 <= j < |ids'| ensures ids'[j] in target && target[ids'[j]] == refs'[j] {
      ZipAt(ids, refs, |ids|, at[j]);
    }
    forall id | id in target ensures id in ids' {
      ZipHas(ids, refs, |ids|, id);
    }
    ZipSame(ids', refs', target);
  }

  lemma {:induction false} VisitedAll(keys: seq<string>, entries: seq<Yaml>, ids: seq<string>, refs: seq<Option<AssetRef>>, v: Visits, at: seq<nat>,
                   ids': seq<string>, refs': seq<Option<AssetRef>>)
    requires |ids| == |refs| == |keys| && Located(keys, entries, v, at) && Distinct(keys) && Distinct(ids)
    requires Permuted(ids, at, ids') && Permuted(refs, at, refs')
    ensures Zip(ids', refs', |ids'|) == Zip(ids, refs, |ids|)
  {
    forall j, k | 0 <= j < k < |at| ensures at[j] != at[k] { assert v.keys[j] != v.keys[k]; }
    forall i | 0 <= i < |ids| ensures ids[i] in ids' {
      var j := VisitCovers(keys, entries, v, at, i);
      assert ids'[j] == ids[i];
    }
    PermutedDistinct(ids, at, ids');
    PermutedZip(ids, refs, at, ids', refs');
  }

  lemma {:induction false} SameIndex(keys: seq<string>, i: nat, j: nat)
    requires Distinct(keys) && i < |keys| && j < |keys| && keys[i] == keys[j]
    ensures i == j
  {}

  // ---- the round trip ----

  /** A trimmed value is read back exactly when it is comment-safe. */
  lemma {:induction false} ReadsItself(value: string)
    requires Trimmed(value)
    ensures ReadValue(value) == value <==> CommentSafe(value)
  {
    if CommentSafe(value) {
      SafeKept(value);
      TrimSpaceOfTrimmed(value);
    } else {
      UnsafeNeedsQuotes(value);
      UnsafeIsLost(value);
      HashesOfTrimmed(ReadBack(value));
    }
  }

  lemma {:induction false} RefReadsItself(ref: AssetRef)
    requires StorableRef(ref)
    ensures LoadedRef(ref) == ref <==> SafeRef(ref)
  {
    ReadsItself(ref.assetID);
    ReadsItself(ref.repo);
    ReadsItself(ref.ref);
    ReadsItself(ref.commitID);
    ReadsItself(ref.tag);
    ReadsItself(ref.importTarget);
  }

  function LoadedEntry(entry: Option<AssetRef>): Option<AssetRef> {
    if entry.Some? then Some(LoadedRef(entry.value)) else None
  }

  /** What is loaded for a lock: the same entries, each value as read back. */
  function LoadedLock(lock: Lock): Lock {
    map id | id in lock :: LoadedEntry(lock[id])
  }

  ghost predicate SafeEntry(entry: Option<AssetRef>) { entry.Some? ==> SafeRef(entry.value) }

  lemma {:induction false} EntryReadsItself(entry: Option<AssetRef>)
    requires entry.Some? && StorableRef(entry.value)
    ensures LoadedEntry(entry) == entry <==> SafeEntry(entry)
  {
    RefReadsItself(entry.value);
  }

  lemma {:induction false} MapReadsItself<V(!new)>(m: map<string, V>, m': map<string, V>, ok: V -> bool)
    requires m.Keys == m'.Keys && forall k :: k in m ==> (m'[k] == m[k] <==> ok(m[k]))
    ensures m' == m <==> forall k :: k in m ==> ok(m[k])
  {
    if forall k :: k in m ==> ok(m[k]) { assert forall k :: k in m ==> m'[k] == m[k]; }
  }

  lemma {:induction false} LockReadsItself(lock: Lock)
    requires WellKept(lock)
    ensures LoadedLock(lock) == lock <==> Safe(lock)
  {
    var loaded := LoadedLock(lock);
    forall id | id in lock ensures loaded[id] == lock[id] <==> SafeEntry(lock[id]) {
      EntryReadsItself(lock[id]);
    }
    MapReadsItself(lock, loaded, entry => SafeEntry(entry));
  }

  lemma {:induction false} IDsDistinct(ids: seq<string>, lock: Lock)
    requires SortedIDs(ids, lock)
    ensures Distinct(ids) && forall i :: 0 <= i < |ids| ==> ids[i] in lock
  {
    forall i, j | 0 <= i < j < |ids| ensures ids[i] != ids[j] { LessAsymmetric(ids[i], ids[i]); }
    forall i | 0 <= i < |ids| ensures ids[i] in lock { assert ids[i] in ids; }
  }

  /** The written keys and entries of a lock. */
  lemma {:induction false} WrittenForms(lock: Lock, ids: seq<string>) returns (keys: seq<string>, entries: seq<Yaml>)
    requires WellKept(lock) && forall i :: 0 <= i < |ids| ==> ids[i] in lock
    ensures Written(keys, entries, lock, ids)
  {
    keys := seq(|ids|, i requires 0 <= i < |ids| => EscapeScalar(ids[i]));
    entries := seq(|ids|, i requires 0 <= i < |ids| => Mapping(EntryFields(lock[ids[i]].value)));
    forall i | 0 <= i < |ids| ensures WrittenEntry(keys[i], entries[i], lock, ids[i]) {}
  }

  function SavedText(lock: Lock, ids: seq<string>): string
    requires forall i :: 0 <= i < |ids| ==> ids[i] in lock
  {
    JoinLines(RenderLines(lock, ids))
  }

  lemma {:induction false} SavedTextScans(lock: Lock, ids: seq<string>)
    requires WellKept(lock) && forall i :: 0 <= i < |ids| ==> ids[i] in lock
    ensures LinesFit(lock, ids) ==> ScanLines(SavedText(lock, ids)) == Scanned(RenderLines(lock, ids), false)
    ensures !LinesFit(lock, ids) ==> ScanLines(SavedText(lock, ids)).tooLong
  {
    LinesPlain(lock, ids);
    assert PlainLine("assets:");
    ScanInvertsJoin(RenderLines(lock, ids));
  }

  lemma {:induction false} LongLinesAreRefused(lock: Lock, ids: seq<string>)
    requires WellKept(lock) && (forall i :: 0 <= i < |ids| ==> ids[i] in lock) && !LinesFit(lock, ids)
    ensures Parse(SavedText(lock, ids)).Err?
  {
    SavedTextScans(lock, ids);
  }

  lemma {:induction false} OpenedAssets(lock: Lock, ids: seq<string>) returns (st: State)
    requires forall i :: 0 <= i < |ids| ==> ids[i] in lock
    ensures st.root == RootOf(map[]) && AtAssets(st.stack)
    ensures ParseLines(START, RenderLines(lock, ids)) == ParseLines(st, LinesOf(lock, ids, |ids|))
  {
    ParseHeader();
    st := State(RootOf(map[]), [Frame(-2, []), Frame(0, ["assets"])]);
    assert RenderLines(lock, ids)[1..] == LinesOf(lock, ids, |ids|);
  }

  lemma {:induction false} SavedTextParses(lock: Lock, ids: seq<string>, keys: seq<string>, entries: seq<Yaml>)
    requires WellKept(lock) && Written(keys, entries, lock, ids) && LinesFit(lock, ids)
    requires forall i :: 0 <= i < |ids| ==> CommentSafe(ids[i])
    ensures Parse(SavedText(lock, ids)) == LockYaml.Ok(RootOf(Zip(keys, entries, |keys|)))
  {
    SavedTextScans(lock, ids);
    var start := OpenedAssets(lock, ids);
    var st := ParseEntries(lock, ids, keys, entries, |ids|, start);
  }

  lemma {:induction false} UnsafeIDIsRefused(lock: Lock, ids: seq<string>, keys: seq<string>, entries: seq<Yaml>, bad: nat)
    requires WellKept(lock) && Written(keys, entries, lock, ids) && LinesFit(lock, ids)
    requires bad < |ids| && !CommentSafe(ids[bad]) && forall i :: 0 <= i < bad ==> CommentSafe(ids[i])
    ensures Parse(SavedText(lock, ids)).Err?
  {
    SavedTextScans(lock, ids);
    var start := OpenedAssets(lock, ids);
    ParseStopsAtUnsafe(lock, ids, keys, entries, start, bad);
  }

  lemma {:induction false} WrittenAllAdd(keys: seq<string>, entries: seq<Yaml>, lock: Lock, ids: seq<string>) returns (refs: seq<Option<AssetRef>>)
    requires Written(keys, entries, lock, ids) && forall i :: 0 <= i < |ids| ==> CommentSafe(ids[i])
    ensures |refs| == |ids| && forall i :: 0 <= i < |ids| ==> Adds(keys[i], entries[i], ids[i], refs[i])
    ensures forall i :: 0 <= i < |ids| ==> ids[i] in lock && refs[i] == LoadedEntry(lock[ids[i]])
  {
    refs := seq(|ids|, i requires 0 <= i < |ids| && ids[i] in lock => LoadedEntry(lock[ids[i]]));
    forall i | 0 <= i < |ids| ensures Adds(keys[i], entries[i], ids[i], refs[i]) {
      assert WrittenEntry(keys[i], entries[i], lock, ids[i]);
      WrittenAdds(keys[i], entries[i], lock, ids[i]);
    }
  }

  lemma {:induction false} LoadsParsed(text: string, v: Visits, assets: map<string, Yaml>)
    requires Parse(text) == LockYaml.Ok(RootOf(assets)) && VisitsText(v, text)
    ensures VisitsAll(v, assets)
    ensures StaysInside(v, assets) ==> Load(text, v) == EntriesInOrder(assets, v, |v.keys|)
  {
    assert AssetsIn(RootOf(assets)) == Loaded(assets);
  }

  /** The entries gathered by ID are the loaded lock. */
  lemma {:induction false} GatheredByID(lock: Lock, ids: seq<string>, refs: seq<Option<AssetRef>>)
    requires SortedIDs(ids, lock) && Distinct(ids) && |refs| == |ids|
    requires forall i :: 0 <= i < |ids| ==> ids[i] in lock && refs[i] == LoadedEntry(lock[ids[i]])
    ensures Zip(ids, refs, |ids|) == LoadedLock(lock)
  {
    ZipSame(ids, refs, LoadedLock(lock));
  }

  /** What is loaded from a saved lock whose IDs are safe and whose lines fit:
      every entry, in whatever order its maps are visited, each value cut at an
      unquoted '#'. */
  lemma {:induction false} SavedLockLoads(lock: Lock, ids: seq<string>, v: Visits)
    requires WellKept(lock) && SortedIDs(ids, lock)
    requires (forall i :: 0 <= i < |ids| ==> ids[i] in lock && CommentSafe(ids[i])) && LinesFit(lock, ids)
    requires VisitsText(v, SavedText(lock, ids))
    ensures Load(SavedText(lock, ids), v) == Loaded(LoadedLock(lock))
  {
    IDsDistinct(ids, lock);
    var keys, entries := WrittenForms(lock, ids);
    KeysDistinct(keys, entries, lock, ids);
    SavedTextParses(lock, ids, keys, entries);
    var refs := WrittenAllAdd(keys, entries, lock, ids);
    LoadsParsed(SavedText(lock, ids), v, Zip(keys, entries, |keys|));
    AnyVisitLoads(keys, entries, ids, refs, v);
    GatheredByID(lock, ids, refs);
  }

  lemma {:induction false} FirstUnsafe(ids: seq<string>) returns (bad: nat)
    ensures bad <= |ids| && (forall i :: 0 <= i < bad ==> CommentSafe(ids[i]))
    ensures bad < |ids| ==> !CommentSafe(ids[bad])
  {
    bad := 0;
    while bad < |ids| && CommentSafe(ids[bad])
      invariant bad <= |ids| && forall i :: 0 <= i < bad ==> CommentSafe(ids[i])
    {
      bad := bad + 1;
    }
  }

  /** Loading what was saved gives the lock back exactly when no value has a '#'
      that its quotes leave outside and every written line fits the scanner. */
  lemma {:induction false} SaveThenLoad(lock: Lock, ids: seq<string>, v: Visits)
    requires WellKept(lock) && SortedIDs(ids, lock) && forall i :: 0 <= i < |ids| ==> ids[i] in lock
    requires VisitsText(v, SavedText(lock, ids))
    ensures Load(SavedText(lock, ids), v) == Loaded(lock) <==> Safe(lock) && LinesFit(lock, ids)
  {
    if !LinesFit(lock, ids) {
      LongLinesAreRefused(lock, ids);
    } else {
      var bad := FirstUnsafe(ids);
      if bad < |ids| { UnsafeLockIsRefused(lock, ids, bad); }
      else { SafeIDsLoad(lock, ids, v); }
    }
  }

  lemma {:induction false} SafeIDsLoad(lock: Lock, ids: seq<string>, v: Visits)
    requires WellKept(lock) && SortedIDs(ids, lock)
    requires (forall i :: 0 <= i < |ids| ==> ids[i] in lock && CommentSafe(ids[i])) && LinesFit(lock, ids)
    requires VisitsText(v, SavedText(lock, ids))
    ensures Load(SavedText(lock, ids), v) == Loaded(lock) <==> Safe(lock)
  {
    SavedLockLoads(lock, ids, v);
    LockReadsItself(lock);
  }

  lemma {:induction false} UnsafeLockIsRefused(lock: Lock, ids: seq<string>, bad: nat)
    requires WellKept(lock) && (forall i :: 0 <= i < |ids| ==> ids[i] in lock) && LinesFit(lock, ids)
    requires bad < |ids| && !CommentSafe(ids[bad]) && forall i :: 0 <= i < bad ==> CommentSafe(ids[i])
    ensures Parse(SavedText(lock, ids)).Err? && !Safe(lock)
  {
    var keys, entries := WrittenForms(lock, ids);
    UnsafeIDIsRefused(lock, ids, keys, entries, bad);
    UnsafeIDIsUnsafe(lock, ids[bad]);
  }

  lemma {:induction false} UnsafeIDIsUnsafe(lock: Lock, id: string)
    requires WellKept(lock) && id in lock && !CommentSafe(id)
    ensures !Safe(lock)
  {
    assert !SafeEntry(lock[id]);
  }

  /** The plain values: trimmed, on one line, no quote together with a '#'. */
  predicate Plain(value: string) {
    Trimmed(value) && '\n' !in value && ('"' !in value || '#' !in value)
  }

  predicate PlainRef(ref: AssetRef) {
    && Plain(ref.assetID) && Plain(ref.repo) && Plain(ref.ref)
    && Plain(ref.commitID) && Plain(ref.tag) && Plain(ref.importTarget)
  }

  ghost predicate PlainLock(lock: Lock) {
    forall id :: id in lock ==>
      lock[id].Some? && lock[id].value.assetID == id && id != "" && ':' !in id && PlainRef(lock[id].value)
  }

  /** Plain locks come back whatever their values, unless a line is too long. */
  lemma {:induction false} PlainLockRoundTrip(lock: Lock, ids: seq<string>, v: Visits)
    requires PlainLock(lock) && SortedIDs(ids, lock) && forall i :: 0 <= i < |ids| ==> ids[i] in lock
    requires VisitsText(v, SavedText(lock, ids))
    ensures Load(SavedText(lock, ids), v) == Loaded(lock) <==> LinesFit(lock, ids)
  {
    forall id | id in lock ensures SafeEntry(lock[id]) && StorableRef(lock[id].value) {
      var ref := lock[id].value;
      SafeWithoutQuotes(ref.assetID);
      SafeWithoutQuotes(ref.repo);
      SafeWithoutQuotes(ref.ref);
      SafeWithoutQuotes(ref.commitID);
      SafeWithoutQuotes(ref.tag);
      SafeWithoutQuotes(ref.importTarget);
    }
    SaveThenLoad(lock, ids, v);
  }

  /** A lock with one entry that has this tag. */
  function OneTag(tag: string): Lock {
    map["x" := Some(AssetRef("x", "", "", "", tag, ""))]
  }

  lemma {:induction false} OneTagLines(tag: string)
    ensures RenderLines(OneTag(tag), ["x"])[6] == FieldLine("tag", tag)
  {
    var lock, ids := OneTag(tag), ["x"];
    assert LinesOf(lock, ids, 0) == [];
    assert LinesOf(lock, ids, 1) == LinesOf(lock, ids, 0) + EntryLines("x", lock["x"].value);
  }

  lemma {:induction false} EscapeNotShorter(s: string)
    ensures |EscapeBody(s)| >= |s|
  {
    if s == "" {
    } else if |s| >= 2 && s[0] == BS && s[1] == BS { EscapeNotShorter(s[2..]); }
    else { EscapeNotShorter(s[1..]); }
  }

  lemma {:induction false} LongFieldDoesNotFit(name: string, value: string)
    requires |value| >= MAX_TOKEN
    ensures !Fits(FieldLine(name, value))
  {
    EscapeNotShorter(value);
    EncodedLength(FieldLine(name, value));
  }

  lemma {:induction false} OneTagDoesNotFit(tag: string)
    requires |tag| >= MAX_TOKEN
    ensures !LinesFit(OneTag(tag), ["x"])
  {
    OneTagLines(tag);
    LongFieldDoesNotFit("tag", tag);
  }

  lemma {:induction false} OneTagIsPlain(tag: string)
    requires Plain(tag)
    ensures PlainLock(OneTag(tag)) && SortedIDs(["x"], OneTag(tag))
  {}

  /** A lock with a tag of 65536 characters or more is saved without complaint
      and can never be loaded again. */
  lemma {:induction false} LongTagIsNotLoaded(tag: string, v: Visits)
    requires Plain(tag) && |tag| >= MAX_TOKEN && VisitsText(v, SavedText(OneTag(tag), ["x"]))
    ensures PlainLock(OneTag(tag)) && SortedIDs(["x"], OneTag(tag))
    ensures Load(SavedText(OneTag(tag), ["x"]), v) != Loaded(OneTag(tag))
  {
    OneTagIsPlain(tag);
    OneTagDoesNotFit(tag);
    PlainLockRoundTrip(OneTag(tag), ["x"], v);
  }

  /** A lock with a tag that leaves a '#' outside its quotes is saved without
      complaint, and what is loaded is another lock, or none. */
  lemma {:induction false} UnsafeTagIsLost(tag: string, v: Visits)
    requires Storable(tag) && !CommentSafe(tag) && VisitsText(v, SavedText(OneTag(tag), ["x"]))
    ensures WellKept(OneTag(tag)) && SortedIDs(["x"], OneTag(tag))
    ensures Load(SavedText(OneTag(tag), ["x"]), v) != Loaded(OneTag(tag))
  {
    OneTagIsKept(tag);
    UnsafeTagIsUnsafe(tag);
    SaveThenLoad(OneTag(tag), ["x"], v);
  }

  lemma {:induction false} OneTagIsKept(tag: string)
    requires Storable(tag)
    ensures WellKept(OneTag(tag)) && SortedIDs(["x"], OneTag(tag))
  {}

  lemma {:induction false} UnsafeTagIsUnsafe(tag: string)
    requires !CommentSafe(tag)
    ensures !Safe(OneTag(tag))
  {
    assert !SafeEntry(OneTag(tag)["x"]);
  }

  /** A quote before a '#' is enough. */
  lemma {:induction false} QuoteBeforeHash(before: string, after: string)
    requires '"' !in before
    ensures !CommentSafe(before + "\"#" + after)
  {
    NoQuoteStays(before);
    assert before + "\"#" + after == before + ("\"#" + after);
    ScanConcat(InDouble, before, "\"#" + after);
    ScanConcat(InDouble, "\"#", after);
    assert "\"#"[1..] == "#" && "#"[1..] == "";
    CommentSticks(after);
  }

  // ---- edited locks ----

  /** References whose values can be kept, under whatever ID they carry. */
  predicate Keepable(ref: AssetRef) {
    && ':' !in TrimSpace(ref.assetID) && Storable(TrimSpace(ref.assetID))
    && Storable(ref.repo) && Storable(ref.ref) && Storable(ref.commitID) && Storable(ref.tag) && Storable(ref.importTarget)
  }

  /** Editing keeps a lock within what can be saved and loaded, and changes
      only the entry of the trimmed ID. */
  lemma {:induction false} UpdateKeepsWellKept(lock: Lock, ref: AssetRef)
    requires WellKept(lock) && Keepable(ref)
    ensures WellKept(Updated(lock, Some(ref)))
    ensures forall id :: id != TrimSpace(ref.assetID) ==>
      (id in Updated(lock, Some(ref)) <==> id in lock) && (id in lock ==> Updated(lock, Some(ref))[id] == lock[id])
    ensures TrimSpace(ref.assetID) != "" ==> Updated(lock, Some(ref))[TrimSpace(ref.assetID)].Some?
  {
    var id := TrimSpace(ref.assetID);
    if id != "" {
      assert StorableRef(ref.(assetID := id));
    }
  }
}
