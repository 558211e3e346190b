/** The scalars of assets.lock: escaping, quoting and comment stripping. */
module LockText {
  import opened Text

  const BS: char := '\\'

  // ---- escaping ----

  /** The writer's replacer, left to right: two backslashes become four, a quote
      and a newline get two backslashes in front. */
  function EscapeBody(s: string): string {
    if s == "" then ""
    else if |s| >= 2 && s[0] == BS && s[1] == BS then [BS, BS, BS, BS] + EscapeBody(s[2..])
    else if s[0] == '"' then [BS, BS, '"'] + EscapeBody(s[1..])
    else if s[0] == '\n' then [BS, BS, 'n'] + EscapeBody(s[1..])
    else [s[0]] + EscapeBody(s[1..])
  }

  /** The reader's replacer. */
  function UnescapeBody(s: string): string {
    if s == "" then ""
    else if |s| >= 3 && s[0] == BS && s[1] == BS && s[2] == 'n' then "\n" + UnescapeBody(s[3..])
    else if |s| >= 3 && s[0] == BS && s[1] == BS && s[2] == '"' then "\"" + UnescapeBody(s[3..])
    else if |s| >= 4 && s[0] == BS && s[1] == BS && s[2] == BS && s[3] == BS then [BS, BS] + UnescapeBody(s[4..])
    else [s[0]] + UnescapeBody(s[1..])
  }

  /** Escaping is undone by unescaping, whatever runs of backslashes stand
      before quotes, newlines or the letter n. */
  lemma {:induction false} UnescapeInvertsEscape(s: string)
    ensures UnescapeBody(EscapeBody(s)) == s
  {
    if s == "" {
    } else if |s| >= 2 && s[0] == BS && s[1] == BS {
      UnescapeInvertsEscape(s[2..]);
      var e := [BS, BS, BS, BS] + EscapeBody(s[2..]);
      assert e[4..] == EscapeBody(s[2..]);
      assert s == [BS, BS] + s[2..];
    } else {
      UnescapeInvertsEscape(s[1..]);
      var rest := EscapeBody(s[1..]);
      assert s == [s[0]] + s[1..];
      if s[0] == '"' {
        assert ([BS, BS, '"'] + rest)[3..] == rest;
      } else if s[0] == '\n' {
        assert ([BS, BS, 'n'] + rest)[3..] == rest;
      } else {
        assert ([s[0]] + rest)[1..] == rest;
        if s[0] == BS { LoneBackslash(s[1..]); }
      }
    }
  }

  /** A single backslash in front of an escaped text starts no escape. */
  lemma {:induction false} LoneBackslash(t: string)
    requires t == "" || t[0] != BS
    ensures UnescapeBody([BS] + EscapeBody(t)) == [BS] + UnescapeBody(EscapeBody(t))
  {
    var e := [BS] + EscapeBody(t);
    assert e[1..] == EscapeBody(t);
  }

  /** Hence no two texts are escaped alike. */
  lemma {:induction false} EscapeInjective(s: string, t: string)
    requires EscapeBody(s) == EscapeBody(t)
    ensures s == t
  {
    UnescapeInvertsEscape(s);
    UnescapeInvertsEscape(t);
  }

  // ---- scalars ----

  const SPECIAL: string := ":#{}[]&,*!?|>'\"%@`"

  predicate RequiresQuotes(value: string) {
    (exists i :: 0 <= i < |value| && value[i] in SPECIAL) || TrimSpace(value) != value || '\t' in value
  }

  function EscapeScalar(value: string): string {
    if value == "" then "\"\""
    else if RequiresQuotes(value) then "\"" + EscapeBody(value) + "\""
    else value
  }

  function CollapseQuotes(s: string): string {
    if s == "" then ""
    else if |s| >= 2 && s[0] == '\'' && s[1] == '\'' then "'" + CollapseQuotes(s[2..])
    else [s[0]] + CollapseQuotes(s[1..])
  }

  function UnquoteScalar(text: string): string {
    var value := TrimSpace(text);
    if |value| >= 2 && value[0] == '"' && value[|value| - 1] == '"' then UnescapeBody(value[1..|value| - 1])
    else if |value| >= 2 && value[0] == '\'' && value[|value| - 1] == '\'' then CollapseQuotes(value[1..|value| - 1])
    else value
  }

  lemma {:induction false} EscapeScalarTrimmed(value: string)
    ensures EscapeScalar(value) != "" && Trimmed(EscapeScalar(value))
  {
    TrimSpaceOfTrimmed(value);
  }

  /** Every scalar is read back from the text it is written as. */
  lemma {:induction false} UnquoteInvertsEscapeScalar(value: string)
    ensures UnquoteScalar(EscapeScalar(value)) == value
  {
    var e := EscapeScalar(value);
    EscapeScalarTrimmed(value);
    TrimSpaceOfTrimmed(e);
    if value != "" && RequiresQuotes(value) {
      assert e[1..|e| - 1] == EscapeBody(value);
      UnescapeInvertsEscape(value);
    } else if value != "" {
      assert value[0] !in SPECIAL;
    }
  }

  // ---- comments ----

  /** Where the comment scanner is: outside quotes, inside them, or past an
      unquoted '#'. */
  datatype Quote = Outside | InSingle | InDouble | Comment

  function ScanChar(q: Quote, c: char): Quote {
    match q
    case Outside => if c == '\'' then InSingle else if c == '"' then InDouble else if c == '#' then Comment else Outside
    case InSingle => if c == '\'' then Outside else InSingle
    case InDouble => if c == '"' then Outside else InDouble
    case Comment => Comment
  }

  function ScanQuotes(q: Quote, s: string): Quote
    decreases |s|
  {
    if s == "" then q else ScanQuotes(ScanChar(q, s[0]), s[1..])
  }

  lemma {:induction false} ScanConcat(q: Quote, a: string, b: string)
    ensures ScanQuotes(q, a + b) == ScanQuotes(ScanQuotes(q, a), b)
    decreases |a|
  {
    if a == "" { assert a + b == b; }
    else {
      assert (a + b)[1..] == a[1..] + b;
      ScanConcat(ScanChar(q, a[0]), a[1..], b);
    }
  }

  lemma {:induction false} CommentSticks(s: string)
    ensures ScanQuotes(Comment, s) == Comment
  {
    if s != "" { CommentSticks(s[1..]); }
  }

  function TrimRightSpaces(s: string): string {
    if s != "" && s[|s| - 1] == ' ' then TrimRightSpaces(s[..|s| - 1]) else s
  }

  /** Index of the first unquoted '#', or the length. */
  function CommentStart(q: Quote, s: string): nat
    decreases |s|
  {
    if s == "" || ScanChar(q, s[0]) == Comment then 0 else 1 + CommentStart(ScanChar(q, s[0]), s[1..])
  }

  lemma {:induction false} CommentStartFacts(q: Quote, s: string)
    requires q != Comment
    ensures CommentStart(q, s) <= |s|
    ensures CommentStart(q, s) < |s| <==> ScanQuotes(q, s) == Comment
    ensures CommentStart(q, s) < |s| ==> s[CommentStart(q, s)] == '#'
    ensures ScanQuotes(q, s[..CommentStart(q, s)]) != Comment
    decreases |s|
  {
    if s != "" {
      var q' := ScanChar(q, s[0]);
      if q' == Comment { CommentSticks(s[1..]); }
      else {
        CommentStartFacts(q', s[1..]);
        var n := CommentStart(q', s[1..]);
        assert s[..n + 1][1..] == s[1..][..n];
      }
    }
  }

  function StripInlineComment(line: string): string {
    var n := CommentStart(Outside, line);
    if n < |line| then TrimRightSpaces(line[..n]) else line
  }

  /** The scanner as a loop over two flags. */
  method StripComment(line: string) returns (r: string)
    ensures r == StripInlineComment(line)
  {
    var inSingle, inDouble := false, false;
    for idx := 0 to |line|
      invariant !(inSingle && inDouble)
      invariant CommentStart(Outside, line) == idx + CommentStart(Flags(inSingle, inDouble), line[idx..])
    {
      var c := line[idx];
      assert line[idx..][1..] == line[idx + 1..];
      if c == '\'' {
        if !inDouble { inSingle := !inSingle; }
      } else if c == '"' {
        if !inSingle { inDouble := !inDouble; }
      } else if c == '#' {
        if !inSingle && !inDouble { return TrimRightSpaces(line[..idx]); }
      }
    }
    return line;
  }

  function Flags(inSingle: bool, inDouble: bool): Quote {
    if inSingle then InSingle else if inDouble then InDouble else Outside
  }

  /** A value whose quoted form has no '#' outside its quotes. */
  predicate CommentSafe(value: string) {
    ScanQuotes(InDouble, value) != Comment
  }

  /** Escaping adds nothing that the comment scanner reacts to. */
  lemma {:induction false} EscapeKeepsQuotes(q: Quote, s: string)
    ensures ScanQuotes(q, EscapeBody(s)) == ScanQuotes(q, s)
    decreases |s|
  {
    if s == "" {
    } else if |s| >= 2 && s[0] == BS && s[1] == BS {
      var rest := EscapeBody(s[2..]);
      EscapeKeepsQuotes(q, s[2..]);
      ScanConcat(q, [BS, BS, BS, BS], rest);
      ScanConcat(q, [BS, BS], s[2..]);
      assert s == [BS, BS] + s[2..];
      Backslashes(q);
    } else {
      var q' := ScanChar(q, s[0]);
      EscapeKeepsQuotes(q', s[1..]);
      var rest := EscapeBody(s[1..]);
      Backslashes(q);
      if s[0] == '"' {
        ScanConcat(q, [BS, BS], ['"'] + rest);
        assert [BS, BS, '"'] + rest == [BS, BS] + (['"'] + rest);
        assert (['"'] + rest)[1..] == rest;
      } else if s[0] == '\n' {
        ScanConcat(q, [BS, BS], ['n'] + rest);
        assert [BS, BS, 'n'] + rest == [BS, BS] + (['n'] + rest);
        assert (['n'] + rest)[1..] == rest;
      } else {
        assert ([s[0]] + rest)[1..] == rest;
      }
    }
  }

  lemma {:induction false} Backslashes(q: Quote)
    ensures ScanQuotes(q, [BS, BS]) == q && ScanQuotes(q, [BS, BS, BS, BS]) == q
  {
    ScanConcat(q, [BS], [BS]);
    ScanConcat(q, [BS, BS], [BS, BS]);
    assert [BS] + [BS] == [BS, BS] && [BS, BS] + [BS, BS] == [BS, BS, BS, BS];
  }

  /** Not both a quote and a '#': enough for a value to be safe. */
  lemma {:induction false} SafeWithoutQuotes(value: string)
    requires '"' !in value || '#' !in value
    ensures CommentSafe(value)
  {
    if '"' !in value { NoQuoteStays(value); } else { NoHashNoComment(InDouble, value); }
  }

  lemma {:induction false} NoQuoteStays(s: string)
    requires '"' !in s
    ensures ScanQuotes(InDouble, s) == InDouble
  {
    if s != "" { NoQuoteStays(s[1..]); }
  }

  lemma {:induction false} NoHashNoComment(q: Quote, s: string)
    requires '#' !in s && q != Comment
    ensures ScanQuotes(q, s) != Comment
    decreases |s|
  {
    if s != "" { NoHashNoComment(ScanChar(q, s[0]), s[1..]); }
  }

  // ---- a scalar behind a key ----

  /** Free of everything the comment scanner reacts to. */
  predicate Neutral(s: string) {
    '\'' !in s && '"' !in s && '#' !in s
  }

  lemma {:induction false} NeutralStaysOutside(s: string)
    requires Neutral(s)
    ensures ScanQuotes(Outside, s) == Outside
  {
    if s != "" { NeutralStaysOutside(s[1..]); }
  }

  /** What is left of the written scalar once the comment is stripped. */
  function Kept(value: string): string {
    var e := EscapeScalar(value);
    if CommentStart(Outside, e) < |e| then TrimRightSpaces(e[..CommentStart(Outside, e)]) else e
  }

  /** What the reader makes of the scalar written for a value. */
  function ReadBack(value: string): string {
    UnquoteScalar(Kept(value))
  }

  lemma {:induction false} CommentStartConcat(a: string, b: string, q: Quote)
    requires ScanQuotes(q, a) != Comment && q != Comment
    ensures CommentStart(q, a + b) == |a| + CommentStart(ScanQuotes(q, a), b)
    decreases |a|
  {
    if a == "" { assert a + b == b; }
    else {
      assert (a + b)[1..] == a[1..] + b;
      if ScanChar(q, a[0]) == Comment { CommentSticks(a[1..]); }
      CommentStartConcat(a[1..], b, ScanChar(q, a[0]));
    }
  }

  lemma {:induction false} TrimRightSpacesConcat(a: string, b: string)
    requires b != "" && b[0] != ' '
    ensures TrimRightSpaces(a + b) == a + TrimRightSpaces(b)
    ensures TrimRightSpaces(b) != "" && TrimRightSpaces(b)[0] == b[0]
    decreases |b|
  {
    if b[|b| - 1] == ' ' {
      assert (a + b)[..|a + b| - 1] == a + b[..|b| - 1];
      TrimRightSpacesConcat(a, b[..|b| - 1]);
    }
  }

  /** The scanner sees an escaped scalar as its value inside double quotes. */
  lemma {:induction false} EscapedScan(value: string)
    ensures ScanQuotes(Outside, EscapeScalar(value)) == Comment <==> RequiresQuotes(value) && !CommentSafe(value)
    ensures RequiresQuotes(value) && value != "" ==>
      CommentStart(Outside, EscapeScalar(value)) > 0 && EscapeScalar(value)[0] == '"'
  {
    var e := EscapeScalar(value);
    if value == "" {
      assert e == "\"\"" == ['"'] + ['"'];
      ScanConcat(Outside, ['"'], ['"']);
    } else if RequiresQuotes(value) {
      var body := EscapeBody(value);
      assert e == ['"'] + (body + ['"']);
      assert e[1..] == body + ['"'];
      ScanConcat(InDouble, body, ['"']);
      EscapeKeepsQuotes(InDouble, value);
      assert ScanQuotes(Outside, e) == ScanQuotes(InDouble, body + ['"']);
      assert ScanQuotes(InDouble, value) != Comment ==> ScanQuotes(ScanQuotes(InDouble, value), ['"']) != Comment;
      CommentSticks(['"']);
    } else {
      assert forall c :: c in value ==> c !in SPECIAL;
      NeutralStaysOutside(value);
    }
  }

  /** A line with a scalar keeps its prefix; only the scalar can be cut. */
  lemma {:induction false} StripKeepsPrefix(prefix: string, value: string)
    requires Neutral(prefix)
    ensures StripInlineComment(prefix + EscapeScalar(value)) == prefix + Kept(value)
    ensures Kept(value) != ""
  {
    var e := EscapeScalar(value);
    NeutralStaysOutside(prefix);
    CommentStartConcat(prefix, e, Outside);
    EscapedScan(value);
    EscapeScalarTrimmed(value);
    CommentStartFacts(Outside, e);
    var n := CommentStart(Outside, e);
    if n < |e| {
      assert (prefix + e)[..|prefix| + n] == prefix + e[..n];
      TrimRightSpacesConcat(prefix, e[..n]);
    }
  }

  lemma {:induction false} SafeKept(value: string)
    requires CommentSafe(value)
    ensures Kept(value) == EscapeScalar(value) && ReadBack(value) == value
  {
    EscapedScan(value);
    CommentStartFacts(Outside, EscapeScalar(value));
    UnquoteInvertsEscapeScalar(value);
  }

  // ---- a value that is cut does not come back ----

  function Hashes(s: string): nat {
    if s == "" then 0 else (if s[0] == '#' then 1 else 0) + Hashes(s[1..])
  }

  lemma {:induction false} HashesConcat(a: string, b: string)
    ensures Hashes(a + b) == Hashes(a) + Hashes(b)
  {
    if a == "" { assert a + b == b; }
    else {
      assert (a + b)[1..] == a[1..] + b;
      HashesConcat(a[1..], b);
    }
  }

  lemma {:induction false} HashesOfPart(s: string, i: nat, j: nat)
    requires i <= j <= |s|
    ensures Hashes(s[i..j]) <= Hashes(s)
  {
    assert s == s[..i] + (s[i..j] + s[j..]);
    HashesConcat(s[..i], s[i..j] + s[j..]);
    HashesConcat(s[i..j], s[j..]);
  }

  lemma {:induction false} NoHashes(s: string)
    requires '#' !in s
    ensures Hashes(s) == 0
  {
    if s != "" { NoHashes(s[1..]); }
  }

  lemma {:induction false} HashesOfEscape(s: string)
    ensures Hashes(EscapeBody(s)) == Hashes(s)
  {
    if s == "" {
    } else if |s| >= 2 && s[0] == BS && s[1] == BS {
      HashesOfEscape(s[2..]);
      HashesConcat([BS, BS, BS, BS], EscapeBody(s[2..]));
      HashesConcat([BS, BS], s[2..]);
      assert s == [BS, BS] + s[2..];
      NoHashes([BS, BS]);
      NoHashes([BS, BS, BS, BS]);
    } else {
      HashesOfEscape(s[1..]);
      var rest := EscapeBody(s[1..]);
      var head := if s[0] == '"' then [BS, BS, '"'] else if s[0] == '\n' then [BS, BS, 'n'] else [s[0]];
      HashesConcat(head, rest);
      if |head| == 3 { NoHashes(head); }
      else { assert Hashes(head) == if s[0] == '#' then 1 else 0; }
    }
  }

  lemma {:induction false} HashesOfUnescape(s: string)
    ensures Hashes(UnescapeBody(s)) <= Hashes(s)
  {
    if s == "" {
    } else if |s| >= 3 && s[0] == BS && s[1] == BS && (s[2] == 'n' || s[2] == '"') {
      HashesOfUnescape(s[3..]);
      HashesOfPart(s, 3, |s|);
      assert s[3..|s|] == s[3..];
      var head := if s[2] == 'n' then "\n" else "\"";
      HashesConcat(head, UnescapeBody(s[3..]));
      NoHashes(head);
    } else if |s| >= 4 && s[0] == BS && s[1] == BS && s[2] == BS && s[3] == BS {
      HashesOfUnescape(s[4..]);
      HashesOfPart(s, 4, |s|);
      assert s[4..|s|] == s[4..];
      HashesConcat([BS, BS], UnescapeBody(s[4..]));
      NoHashes([BS, BS]);
    } else {
      HashesOfUnescape(s[1..]);
      assert ([s[0]] + UnescapeBody(s[1..]))[1..] == UnescapeBody(s[1..]);
    }
  }

  /** An unsafe value is cut at a '#', so fewer of them come back. */
  lemma {:induction false} UnsafeIsLost(value: string)
    requires RequiresQuotes(value) && value != "" && !CommentSafe(value)
    ensures Hashes(ReadBack(value)) < Hashes(value)
  {
    var e := EscapeScalar(value);
    EscapedScan(value);
    CommentStartFacts(Outside, e);
    var n := CommentStart(Outside, e);
    HashesOfScalar(value);
    HashesBefore(e, n);
    TrimRightSpacesConcat("", e[..n]);
    assert "" + e[..n] == e[..n];
    TrimRightSpacesIsPrefix(e[..n]);
    HashesOfPart(e[..n], 0, |Kept(value)|);
    assert Kept(value) == e[..n][0..|Kept(value)|];
    UnquoteLosesNoHash(Kept(value));
  }

  lemma {:induction false} HashesOfScalar(value: string)
    requires RequiresQuotes(value) && value != ""
    ensures Hashes(EscapeScalar(value)) == Hashes(value)
  {
    var body := EscapeBody(value);
    HashesOfEscape(value);
    assert EscapeScalar(value) == ['"'] + (body + ['"']);
    HashesConcat(['"'], body + ['"']);
    HashesConcat(body, ['"']);
  }

  lemma {:induction false} HashesBefore(s: string, n: nat)
    requires n < |s| && s[n] == '#'
    ensures Hashes(s[..n]) < Hashes(s)
  {
    assert s == s[..n] + s[n..];
    HashesConcat(s[..n], s[n..]);
  }

  lemma {:induction false} TrimRightSpacesIsPrefix(s: string)
    ensures TrimRightSpaces(s) <= s
  {
    if s != "" && s[|s| - 1] == ' ' { TrimRightSpacesIsPrefix(s[..|s| - 1]); }
  }

  lemma {:induction false} HashesOfTrimmed(s: string)
    ensures Hashes(TrimSpace(s)) <= Hashes(s)
  {
    var l := TrimLeft(s);
    TrimLeftFacts(s);
    TrimRightFacts(l);
    assert l == s[|s| - |l|..|s|] && TrimSpace(s) == l[0..|TrimSpace(s)|];
    HashesOfPart(s, |s| - |l|, |s|);
    HashesOfPart(l, 0, |TrimSpace(s)|);
  }

  lemma {:induction false} UnquoteLosesNoHash(s: string)
    requires s != "" && s[0] == '"'
    ensures Hashes(UnquoteScalar(s)) <= Hashes(s)
  {
    var t := TrimSpace(s);
    TrimRightFacts(TrimLeft(s));
    assert TrimLeft(s) == s;
    assert t == s[0..|t|];
    HashesOfPart(s, 0, |t|);
    if |t| >= 2 && t[0] == '"' && t[|t| - 1] == '"' {
      HashesOfPart(t, 1, |t| - 1);
      HashesOfUnescape(t[1..|t| - 1]);
    }
  }
}
