/** What the lock file's text says, piece by piece: the lines that are written, and
    what a line, a scalar and a field mean to the reader. */
module LockMeaning {
  import opened Options
  import opened Text
  import opened LockText
  import opened LockYaml
  import opened LockFile

  // ---- escaping, as pieces replaced from left to right ----

  /** Two backslashes, or a single character. */
  predicate Piece(p: string) { p == "\\\\" || |p| == 1 }

  /** What stands for a piece: two backslashes become four, a quote and a line
      break get two in front. */
  function Replaced(p: string): string {
    if p == "\\\\" then "\\\\\\\\" else if p == "\"" then "\\\\\"" else if p == "\n" then "\\\\n" else p
  }

  function Flat(pieces: seq<string>): string {
    if pieces == [] then "" else pieces[0] + Flat(pieces[1..])
  }

  function AllReplaced(pieces: seq<string>): seq<string> {
    seq(|pieces|, i requires 0 <= i < |pieces| => Replaced(pieces[i]))
  }

  /** Taken from left to right: a backslash by itself has none behind it. */
  ghost predicate CutUp(pieces: seq<string>) {
    && (forall i :: 0 <= i < |pieces| ==> Piece(pieces[i]))
    && forall i :: 0 <= i < |pieces| - 1 && pieces[i] == "\\" ==> pieces[i + 1] != "\\" && pieces[i + 1] != "\\\\"
  }

  ghost predicate Escapes(value: string, body: string) {
    exists pieces :: CutUp(pieces) && Flat(pieces) == value && Flat(AllReplaced(pieces)) == body
  }

  lemma {:induction false} OnePiece(p: string, pieces: seq<string>)
    requires CutUp(pieces) && Piece(p) && (p == "\\" && pieces != [] ==> pieces[0] != "\\" && pieces[0] != "\\\\")
    ensures CutUp([p] + pieces) && Flat([p] + pieces) == p + Flat(pieces)
    ensures Flat(AllReplaced([p] + pieces)) == Replaced(p) + Flat(AllReplaced(pieces))
  {
    assert ([p] + pieces)[1..] == pieces;
    assert AllReplaced([p] + pieces)[1..] == AllReplaced(pieces);
  }

  /** Escaping replaces the pieces of a text. */
  lemma {:induction false} EscapeExactly(s: string) returns (pieces: seq<string>)
    ensures CutUp(pieces) && Flat(pieces) == s && Flat(AllReplaced(pieces)) == EscapeBody(s)
  {
    pieces := [];
    if s != "" {
      var n := if |s| >= 2 && s[0] == BS && s[1] == BS then 2 else 1;
      var rest := EscapeExactly(s[n..]);
      assert s == s[..n] + s[n..];
      if n == 1 && s[0] == BS && rest != [] { FirstPiece(rest, s[1..]); }
      if n == 2 { assert s[..2] == "\\\\"; } else { assert s[..1] == [s[0]]; }
      OnePiece(s[..n], rest);
      pieces := [s[..n]] + rest;
    }
  }

  lemma {:induction false} FirstPiece(pieces: seq<string>, s: string)
    requires pieces != [] && CutUp(pieces) && Flat(pieces) == s && (s == "" || s[0] != BS)
    ensures pieces[0] != "\\" && pieces[0] != "\\\\"
  {
    assert Piece(pieces[0]);
    assert s[0] == pieces[0][0];
  }

  // ---- the lines written ----

  const MARKS: set<char> := {':', '#', '{', '}', '[', ']', '&', ',', '*', '!', '?', '|', '>', '\'', '"', '%', '@', '`', '\t'}

  /** A text that stands as it is: without a mark or white space around it. */
  ghost predicate Bare(value: string) {
    value != "" && Trimmed(value) && forall i :: 0 <= i < |value| ==> value[i] !in MARKS
  }

  /** The text written for a value. */
  ghost predicate Stands(text: string, value: string) {
    if value == "" then text == "\"\""
    else if Bare(value) then text == value
    else exists body :: Escapes(value, body) && text == "\"" + body + "\""
  }

  lemma {:induction false} StandsExactly(value: string)
    ensures Stands(EscapeScalar(value), value)
  {
    TrimSpaceOfTrimmed(value);
    forall i | 0 <= i < |value| ensures value[i] in MARKS <==> value[i] in SPECIAL || value[i] == '\t' { Special(value[i]); }
    if value != "" && !Bare(value) {
      var pieces := EscapeExactly(value);
      assert Escapes(value, EscapeBody(value));
    }
  }

  lemma {:induction false} Special(c: char)
    ensures c in SPECIAL <==> c in MARKS && c != '\t'
  {
    assert SPECIAL == [':', '#', '{', '}', '[', ']', '&', ',', '*', '!', '?', '|', '>', '\'', '"', '%', '@', '`'];
    if c in MARKS && c != '\t' { SpecialAt(c); }
  }

  lemma {:induction false} SpecialAt(c: char)
    requires c in MARKS && c != '\t'
    ensures c in SPECIAL
  {
    var s := SPECIAL;
    assert s[0] == ':' && s[1] == '#' && s[2] == '{' && s[3] == '}' && s[4] == '[' && s[5] == ']' && s[6] == '&' && s[7] == ',' && s[8] == '*';
    assert s[9] == '!' && s[10] == '?' && s[11] == '|' && s[12] == '>' && s[13] == '\'' && s[14] == '"' && s[15] == '%' && s[16] == '@' && s[17] == '`';
  }

  /** A line with a name and a value. */
  ghost predicate Says(line: string, name: string, value: string) {
    exists text :: Stands(text, value) && line == "    " + name + ": " + text
  }

  /** The seven lines of an entry; a reference without an ID has the one of its
      place. */
  ghost predicate EntryAs(lines: seq<string>, id: string, ref: AssetRef) {
    && |lines| == 7
    && NamesEntry(lines[0], id)
    && Says(lines[1], "asset_id", if TrimSpace(ref.assetID) == "" then TrimSpace(id) else TrimSpace(ref.assetID))
    && Says(lines[2], "repo", ref.repo)
    && Says(lines[3], "ref", ref.ref)
    && Says(lines[4], "commit_id", ref.commitID)
    && Says(lines[5], "tag", ref.tag)
    && Says(lines[6], "import_target", ref.importTarget)
  }

  lemma {:induction false} FieldSays(name: string, value: string)
    ensures Says(FieldLine(name, value), name, value)
  {
    StandsExactly(value);
  }

  lemma {:induction false} EntryExactly(id: string, ref: AssetRef)
    ensures EntryAs(EntryLines(id, ref), id, ref)
  {
    var own := if TrimSpace(ref.assetID) == "" then TrimSpace(id) else TrimSpace(ref.assetID);
    FirstOfTwo(ref.assetID, id);
    IDStands(id);
    FieldSays("asset_id", own);
    FieldSays("repo", ref.repo);
    FieldSays("ref", ref.ref);
    FieldSays("commit_id", ref.commitID);
    FieldSays("tag", ref.tag);
    FieldSays("import_target", ref.importTarget);
    SevenLines("  " + EscapeScalar(id) + ":", FieldLine("asset_id", own), FieldLine("repo", ref.repo), FieldLine("ref", ref.ref),
               FieldLine("commit_id", ref.commitID), FieldLine("tag", ref.tag), FieldLine("import_target", ref.importTarget), id, ref);
  }

  ghost predicate NamesEntry(line: string, id: string) {
    exists text :: Stands(text, id) && line == "  " + text + ":"
  }

  lemma {:induction false} IDStands(id: string)
    ensures NamesEntry("  " + EscapeScalar(id) + ":", id)
  {
    StandsExactly(id);
  }

  lemma {:induction false} SevenLines(l0: string, l1: string, l2: string, l3: string, l4: string, l5: string, l6: string, id: string, ref: AssetRef)
    requires NamesEntry(l0, id)
    requires Says(l1, "asset_id", if TrimSpace(ref.assetID) == "" then TrimSpace(id) else TrimSpace(ref.assetID))
    requires Says(l2, "repo", ref.repo) && Says(l3, "ref", ref.ref) && Says(l4, "commit_id", ref.commitID)
    requires Says(l5, "tag", ref.tag) && Says(l6, "import_target", ref.importTarget)
    ensures EntryAs([l0, l1, l2, l3, l4, l5, l6], id, ref)
  {}

  lemma {:induction false} FirstOfTwo(a: string, b: string)
    ensures FirstNonEmpty([TrimSpace(a), b]) == if TrimSpace(a) == "" then TrimSpace(b) else TrimSpace(a)
  {
    TrimmedTwice(a);
    var values := [TrimSpace(a), b];
    assert FirstNonEmpty([b]) == TrimSpace(b);
    assert values[1..] == [b];
  }

  lemma {:induction false} TrimmedTwice(s: string)
    ensures TrimSpace(TrimSpace(s)) == TrimSpace(s)
  {
    TrimSpaceTrims(s);
    TrimSpaceOfTrimmed(TrimSpace(s));
  }

  /** How many of the first n IDs have an entry. */
  function Filled(lock: Lock, ids: seq<string>, n: nat): nat
    requires n <= |ids| && forall i :: 0 <= i < |ids| ==> ids[i] in lock
  {
    if n == 0 then 0 else Filled(lock, ids, n - 1) + (if lock[ids[n - 1]].Some? then 1 else 0)
  }

  lemma {:induction false} LinesBefore(lock: Lock, ids: seq<string>, n: nat, k: nat)
    requires n < k <= |ids| && (forall i :: 0 <= i < |ids| ==> ids[i] in lock) && lock[ids[n]].Some?
    ensures |LinesOf(lock, ids, k)| == 7 * Filled(lock, ids, k) && Filled(lock, ids, n) < Filled(lock, ids, k)
    ensures LinesOf(lock, ids, k)[7 * Filled(lock, ids, n)..7 * Filled(lock, ids, n) + 7] == EntryLines(ids[n], lock[ids[n]].value)
  {
    LinesCounted(lock, ids, n);
    LinesCounted(lock, ids, k);
    FilledMore(lock, ids, n, k);
    var lines := seq(|ids| + 1, i requires 0 <= i <= |ids| => LinesOf(lock, ids, i));
    var blocks := seq(|ids|, i requires 0 <= i < |ids| => LinesFor(ids[i], lock[ids[i]]));
    forall i | 0 <= i < |ids| ensures lines[i + 1] == lines[i] + blocks[i] { LinesStep(lock, ids, i); }
    BlockStays(lines, blocks, n, k);
    assert blocks[n] == EntryLines(ids[n], lock[ids[n]].value);
  }

  lemma {:induction false} LinesStep(lock: Lock, ids: seq<string>, n: nat)
    requires n < |ids| && forall i :: 0 <= i < |ids| ==> ids[i] in lock
    ensures LinesOf(lock, ids, n + 1) == LinesOf(lock, ids, n) + LinesFor(ids[n], lock[ids[n]])
  {}

  /** A block of lines stays where it was put. */
  lemma {:induction false} BlockStays(lines: seq<seq<string>>, blocks: seq<seq<string>>, n: nat, k: nat)
    requires |lines| == |blocks| + 1 && n < k <= |blocks| && forall i :: 0 <= i < |blocks| ==> lines[i + 1] == lines[i] + blocks[i]
    ensures |lines[k]| >= |lines[n]| + |blocks[n]| && lines[k][|lines[n]|..|lines[n]| + |blocks[n]|] == blocks[n]
  {
    if k == n + 1 {
      assert lines[n + 1] == lines[n] + blocks[n];
    } else {
      BlockStays(lines, blocks, n, k - 1);
      assert lines[k - 1 + 1] == lines[k - 1] + blocks[k - 1];
      FrontKept(lines[k - 1], blocks[k - 1], |lines[n]|, |lines[n]| + |blocks[n]|);
    }
  }

  lemma {:induction false} FrontKept(front: seq<string>, more: seq<string>, i: nat, j: nat)
    requires i <= j <= |front|
    ensures (front + more)[i..j] == front[i..j]
  {}

  lemma {:induction false} LinesCounted(lock: Lock, ids: seq<string>, n: nat)
    requires n <= |ids| && forall i :: 0 <= i < |ids| ==> ids[i] in lock
    ensures |LinesOf(lock, ids, n)| == 7 * Filled(lock, ids, n)
  {
    if n > 0 { LinesCounted(lock, ids, n - 1); }
  }

  /** What is saved: a first line, and behind it the lines of the entries, in the
      order of their IDs and nothing else. */
  lemma {:induction false} SavedExactly(lock: Lock, ids: seq<string>, n: nat)
    requires forall i :: 0 <= i < |ids| ==> ids[i] in lock
    ensures |RenderLines(lock, ids)| == 1 + 7 * Filled(lock, ids, |ids|) && RenderLines(lock, ids)[0] == "assets:"
    ensures n < |ids| && lock[ids[n]].Some? ==>
      var at := 1 + 7 * Filled(lock, ids, n);
      at + 7 <= |RenderLines(lock, ids)| && EntryAs(RenderLines(lock, ids)[at..at + 7], ids[n], lock[ids[n]].value)
  {
    LinesCounted(lock, ids, |ids|);
    if n < |ids| && lock[ids[n]].Some? {
      LinesBefore(lock, ids, n, |ids|);
      EntryExactly(ids[n], lock[ids[n]].value);
      FilledMore(lock, ids, n, |ids|);
      BehindFirst(LinesOf(lock, ids, |ids|), 7 * Filled(lock, ids, n));
    }
  }

  lemma {:induction false} BehindFirst(lines: seq<string>, at: nat)
    requires at + 7 <= |lines|
    ensures (["assets:"] + lines)[1 + at..1 + at + 7] == lines[at..at + 7]
  {}

  lemma {:induction false} FilledMore(lock: Lock, ids: seq<string>, n: nat, k: nat)
    requires n < k <= |ids| && (forall i :: 0 <= i < |ids| ==> ids[i] in lock) && lock[ids[n]].Some?
    ensures Filled(lock, ids, n) + 1 <= Filled(lock, ids, k)
  {
    if k > n + 1 { FilledMore(lock, ids, n, k - 1); }
  }

  // ---- the lines read ----

  /** Lines, each ended by a line feed with or without a carriage return. */
  function Ended(lines: seq<string>, crs: seq<bool>): string
    requires |lines| == |crs|
  {
    if lines == [] then "" else lines[0] + (if crs[0] then "\r\n" else "\n") + Ended(lines[1..], crs[1..])
  }

  /** Lines are read with either end, and a last one also without any. */
  lemma {:induction false} LinesScanned(lines: seq<string>, crs: seq<bool>, last: string)
    requires |lines| == |crs| && forall i :: 0 <= i < |lines| ==> PlainLine(lines[i]) && Fits(lines[i] + "\r")
    requires PlainLine(last) && Fits(last) && forall i :: 0 <= i < |lines| ==> Fits(lines[i])
    ensures ScanLines(Ended(lines, crs) + last) == Scanned(lines + (if last == "" then [] else [last]), false)
    decreases |lines|
  {
    if lines == [] {
      LastScanned(last);
    } else {
      var rest, line := Ended(lines[1..], crs[1..]) + last, lines[0] + (if crs[0] then "\r" else "");
      LinesScanned(lines[1..], crs[1..], last);
      FirstEnded(lines, crs, last);
      CRDropped(lines[0], crs[0]);
      FirstScanned(line, rest);
      OneLineMore(lines, if last == "" then [] else [last]);
    }
  }

  lemma {:induction false} CRDropped(line: string, cr: bool)
    requires PlainLine(line)
    ensures line + "" == line && DropCR(line + (if cr then "\r" else "")) == line && '\n' !in line + (if cr then "\r" else "")
  {
    assert line + "" == line && (line + "\r")[..|line|] == line;
  }

  lemma {:induction false} OneLineMore(lines: seq<string>, last: seq<string>)
    requires lines != []
    ensures [lines[0]] + (lines[1..] + last) == lines + last
  {}

  lemma {:induction false} FirstEnded(lines: seq<string>, crs: seq<bool>, last: string)
    requires |lines| == |crs| && lines != []
    ensures Ended(lines, crs) + last == lines[0] + (if crs[0] then "\r" else "") + "\n" + (Ended(lines[1..], crs[1..]) + last)
  {
    assert "\r\n" == "\r" + "\n";
  }

  lemma {:induction false} FirstScanned(line: string, rest: string)
    requires '\n' !in line && Fits(line)
    ensures ScanLines(line + "\n" + rest) == Scanned([DropCR(line)] + ScanLines(rest).lines, ScanLines(rest).tooLong)
  {
    var text := line + "\n" + rest;
    FindInLine(line, rest);
    assert text[..|line|] == line && text[|line| + 1..] == rest;
  }

  lemma {:induction false} LastScanned(last: string)
    requires PlainLine(last) && Fits(last)
    ensures ScanLines("" + last) == Scanned(if last == "" then [] else [last], false)
  {
    assert "" + last == last;
    if last != "" {
      assert FindChar(last, '\n') == |last|;
      assert last[..|last|] == last;
    }
  }

  // ---- comments ----

  /** Every quote in the text is closed by the next one of its kind. */
  predicate Balanced(s: string)
    decreases |s|
  {
    if s == "" then true
    else if s[0] != '\'' && s[0] != '"' then Balanced(s[1..])
    else
      var close := FindChar(s[1..], s[0]);
      close < |s| - 1 && Balanced(s[1..][close + 1..])
  }

  lemma {:induction false} ClosedBy(q: Quote, c: char, s: string)
    requires (q == InSingle && c == '\'') || (q == InDouble && c == '"')
    ensures
      var close := FindChar(s, c);
      if close < |s| then ScanQuotes(q, s) == ScanQuotes(Outside, s[close + 1..]) else ScanQuotes(q, s) == q
  {
    if s != "" && s[0] != c {
      ClosedBy(q, c, s[1..]);
      if FindChar(s, c) < |s| { assert s[1..][FindChar(s[1..], c) + 1..] == s[FindChar(s, c) + 1..]; }
    }
  }

  /** Outside quotes is where every quote before is closed. */
  lemma {:induction false} OutsideExactly(s: string)
    requires ScanQuotes(Outside, s) != Comment
    ensures ScanQuotes(Outside, s) == Outside <==> Balanced(s)
    decreases |s|
  {
    if s != "" {
      if s[0] == '\'' { ClosedBy(InSingle, '\'', s[1..]); }
      else if s[0] == '"' { ClosedBy(InDouble, '"', s[1..]); }
      else if s[0] == '#' { CommentSticks(s[1..]); }
      if s[0] == '\'' || s[0] == '"' {
        var close := FindChar(s[1..], s[0]);
        if close < |s| - 1 { OutsideExactly(s[1..][close + 1..]); }
      } else if s[0] != '#' {
        OutsideExactly(s[1..]);
      }
    }
  }

  /** A comment starts at a '#' behind closed quotes. */
  predicate CommentAt(line: string, i: nat) {
    i < |line| && line[i] == '#' && Balanced(line[..i])
  }

  /** A line loses its first comment, and the spaces before that; one without a
      comment is kept. */
  lemma {:induction false} CommentExactly(line: string, i: nat)
    requires CommentAt(line, i) && forall j: nat :: j < i ==> !CommentAt(line, j)
    ensures StripInlineComment(line) == TrimRightSpaces(line[..i])
  {
    var n := CommentStart(Outside, line);
    CommentStartFacts(Outside, line);
    NothingCut(line, i);
    if n < i { StartsOutside(line); }
  }

  lemma {:induction false} NoComment(line: string)
    requires forall j: nat :: !CommentAt(line, j)
    ensures StripInlineComment(line) == line
  {
    CommentStartFacts(Outside, line);
    if CommentStart(Outside, line) < |line| { StartsOutside(line); }
  }

  /** Where the scanner finds a comment, there is one. */
  lemma {:induction false} StartsOutside(line: string)
    requires CommentStart(Outside, line) < |line|
    ensures CommentAt(line, CommentStart(Outside, line))
  {
    var n := CommentStart(Outside, line);
    CommentStartFacts(Outside, line);
    OutsideAt(Outside, line);
    OutsideExactly(line[..n]);
  }

  lemma {:induction false} OutsideAt(q: Quote, s: string)
    requires q != Comment && CommentStart(q, s) < |s|
    ensures ScanQuotes(q, s[..CommentStart(q, s)]) == Outside
    decreases |s|
  {
    if ScanChar(q, s[0]) != Comment {
      OutsideAt(ScanChar(q, s[0]), s[1..]);
      var n := CommentStart(ScanChar(q, s[0]), s[1..]);
      assert s[..n + 1][1..] == s[1..][..n];
    }
  }

  /** Where there is a comment, the scanner goes no further. */
  lemma {:induction false} NothingCut(line: string, i: nat)
    requires CommentAt(line, i)
    ensures CommentStart(Outside, line) <= i
  {
    CommentStartFacts(Outside, line);
    if CommentStart(Outside, line) > i { HashEnds(line, i, CommentStart(Outside, line)); }
  }

  lemma {:induction false} HashEnds(line: string, i: nat, n: nat)
    requires CommentAt(line, i) && i < n <= |line|
    ensures ScanQuotes(Outside, line[..n]) == Comment
  {
    var rest := line[i..n];
    assert line[..n] == line[..i] + rest;
    ScanConcat(Outside, line[..i], rest);
    CommentSticks(rest);
    CommentSticks(rest[1..]);
    if ScanQuotes(Outside, line[..i]) != Comment { OutsideExactly(line[..i]); }
  }

  // ---- scalars ----

  /** Single quotes doubled. */
  function Doubled(s: string): string {
    if s == "" then "" else (if s[0] == '\'' then "''" else [s[0]]) + Doubled(s[1..])
  }

  lemma {:induction false} CollapseInvertsDouble(s: string)
    ensures CollapseQuotes(Doubled(s)) == s
  {
    if s != "" {
      CollapseInvertsDouble(s[1..]);
      var d := Doubled(s);
      if s[0] == '\'' { assert d[2..] == Doubled(s[1..]); } else { assert d[1..] == Doubled(s[1..]); }
      assert s == [s[0]] + s[1..];
    }
  }

  /** Any text can be written in single quotes as well, its own doubled. */
  lemma {:induction false} SingleQuotedRead(s: string)
    ensures UnquoteScalar("'" + Doubled(s) + "'") == s
  {
    var text := "'" + Doubled(s) + "'";
    TrimSpaceOfTrimmed(text);
    assert text[1..|text| - 1] == Doubled(s);
    CollapseInvertsDouble(s);
  }

  /** A text without quotes at both ends is read as it is, but for white space. */
  lemma {:induction false} UnquotedRead(text: string)
    requires
      var t := TrimSpace(text);
      |t| < 2 || t[0] != t[|t| - 1] || (t[0] != '"' && t[0] != '\'')
    ensures UnquoteScalar(text) == TrimSpace(text)
  {}

  // ---- one line ----

  /** The mappings that are still open: all up to the last one with a smaller
      indentation, or the outermost. */
  lemma {:induction false} PopExactly(stack: seq<Frame>, indent: int) returns (n: nat)
    requires stack != []
    ensures 0 < n <= |stack| && Pop(stack, indent) == stack[..n] && (n == 1 || stack[n - 1].indent < indent)
    ensures forall i :: n <= i < |stack| ==> indent <= stack[i].indent
  {
    n := |stack|;
    assert stack[..n] == stack;
    while n > 1 && indent <= stack[n - 1].indent
      invariant 0 < n <= |stack| && Pop(stack[..n], indent) == Pop(stack, indent)
      invariant forall i :: n <= i < |stack| ==> indent <= stack[i].indent
    {
      assert stack[..n][..n - 1] == stack[..n - 1];
      n := n - 1;
    }
  }

  /** A line between mappings: blank, or a document mark. */
  predicate Skipped(line: string) {
    TrimSpace(line) == "" || TrimSpace(line) == "---" || TrimSpace(line) == "..."
  }

  /** The spaces in front. */
  predicate IndentedBy(line: string, indent: nat) {
    indent <= |line| && (forall i :: 0 <= i < indent ==> line[i] == ' ') && (indent < |line| ==> line[indent] != ' ')
  }

  lemma {:induction false} SpacesCounted(line: string)
    ensures IndentedBy(line, LeadingSpaces(line))
  {
    if line != "" && line[0] == ' ' {
      SpacesCounted(line[1..]);
      var n := LeadingSpaces(line[1..]);
      assert forall i :: 0 < i < n + 1 ==> line[i] == line[1..][i - 1];
    }
  }

  /** What one line does, its comment gone: key and value on either side of the
      first colon go into the innermost mapping that is indented less; a line
      without a value opens a mapping. */
  ghost predicate LineDoes(st: State, line: string, indent: nat, n: nat, r: Result<State>)
    requires 0 < n <= |st.stack| && IndentedBy(line, indent)
  {
    var trimmed, top := TrimSpace(line), st.stack[n - 1];
    var colon := FindChar(trimmed, ':');
    var key := TrimSpace(trimmed[..colon]);
    if indent % 2 == 1 then r == Err(OddIndent)
    else if indent > top.indent + 2 then r == Err(IndentJump)
    else if ':' !in trimmed then r == Err(NoColon)
    else if key == "" then r == Err(EmptyKey)
    else
      && r.Ok?
      && var value := if colon < |trimmed| then TrimSpace(trimmed[colon + 1..]) else "";
         r.value == (if value == "" then State(SetIn(st.root, top.path, key, Mapping(map[])), st.stack[..n] + [Frame(indent, top.path + [key])])
                     else State(SetIn(st.root, top.path, key, Scalar(UnquoteScalar(value))), st.stack[..n]))
  }

  lemma {:induction false} LineExactly(st: State, raw: string) returns (line: string, indent: nat, n: nat)
    requires st.stack != []
    ensures line == StripInlineComment(raw) && IndentedBy(line, indent)
    ensures 0 < n <= |st.stack| && (n == 1 || st.stack[n - 1].indent < indent) && forall i :: n <= i < |st.stack| ==> indent <= st.stack[i].indent
    ensures if Skipped(line) then ParseLine(st, raw) == Ok(st) else LineDoes(st, line, indent, n, ParseLine(st, raw))
  {
    line := StripInlineComment(raw);
    indent := LeadingSpaces(line);
    SpacesCounted(line);
    n := PopExactly(st.stack, indent);
    var trimmed := TrimSpace(line);
    assert ':' in trimmed <==> FindChar(trimmed, ':') < |trimmed|;
  }

  // ---- the tree ----

  /** What a path of keys leads to. */
  function Get(m: map<string, Yaml>, path: seq<string>): Option<Yaml>
    decreases |path|
  {
    if path == [] then Some(Mapping(m))
    else if path[0] !in m then None
    else if |path| == 1 then Some(m[path[0]])
    else if m[path[0]].Scalar? then None
    else Get(m[path[0]].fields, path[1..])
  }

  ghost predicate IsMapping(m: map<string, Yaml>, path: seq<string>) {
    Get(m, path).Some? && Get(m, path).value.Mapping?
  }

  /** Setting a key puts the value there, and leaves alone what other paths lead to
      that do not pass or contain it. */
  lemma {:induction false} SetInExactly(m: map<string, Yaml>, path: seq<string>, key: string, value: Yaml, other: seq<string>)
    requires IsMapping(m, path)
    ensures Get(SetIn(m, path, key, value), path + [key]) == Some(value)
    ensures !(path + [key] <= other) && !(other <= path) ==> Get(SetIn(m, path, key, value), other) == Get(m, other)
    decreases |path|
  {
    if path == [] {
      if other != [] && other[0] == key { assert [] + [key] <= other; }
    } else {
      var fields := m[path[0]].fields;
      assert (path + [key])[1..] == path[1..] + [key];
      if |path| == 1 { assert path[1..] == []; }
      if other != [] && other[0] == path[0] {
        SetInExactly(fields, path[1..], key, value, other[1..]);
        if path[1..] + [key] <= other[1..] { SameStart(path + [key], other); }
        if other[1..] <= path[1..] { SameStart(other, path); }
      } else {
        SetInExactly(fields, path[1..], key, value, []);
      }
    }
  }

  lemma {:induction false} SameStart(a: seq<string>, b: seq<string>)
    requires a != [] && b != [] && a[0] == b[0] && a[1..] <= b[1..]
    ensures a <= b
  {
    assert a == [a[0]] + a[1..] && b == [b[0]] + b[1..];
  }
}
