/** Safety of the sessions of the JSON-RPC server over every interleaving. */
module IpcSafety {
  import opened Options
  import opened IpcSession

  lemma {:induction false} LogMore(log: seq<Event>, e: Event, encode: Payload -> string)
    ensures Grants(log + [e]) == Grants(log) + (if e.Granted? then [e.mode] else [])
    ensures Replies(log + [e]) == Replies(log) + (if e.Queued? && e.payload.Reply? then [e.payload] else [])
    ensures Due(log + [e]) == Due(log) + (if e.Arrived? then ReplyTo(Grants(log) != [], e.message, e.cfg) else [])
    ensures Over(log + [e]) <==> Over(log) || (e.Arrived? && EndsWith(Grants(log) != [], e.message, e.cfg))
    ensures Stream(log + [e], encode) == Stream(log, encode) + (if e.Queued? then encode(e.payload) else "")
    ensures Ordered(log + [e]) <==>
      && Ordered(log) && (e.Called? || e.Granted? ==> AsksFor(log, e)) && (e.Arrived? ==> !Over(log))
      && (e.Called? ==> Grants(log) != [])
      && (e.Queued? && e.payload.Notice? ==> Grants(log) == [e.payload.mode])
  {
    assert (log + [e])[..|log|] == log;
  }

  // ---- what a message can do ----

  /** A message authenticates exactly when the session is not, it is a call of
      session.authenticate, its stream word is known, and its nonce is one of those
      that the server takes. */
  lemma {:induction false} GrantsExactly(authenticated: bool, m: Message, cfg: Config, mode: Mode)
    ensures React(authenticated, m, cfg).granted == Some(mode) <==> !authenticated && Admits(m, cfg, mode)
  {
    if Calls(m) && !authenticated { AuthenticatesExactly(m.params, cfg, mode); }
  }

  lemma {:induction false} AuthenticatesExactly(params: AuthParams, cfg: Config, mode: Mode)
    ensures Authenticate(params, cfg) == Accepted(mode) <==> Proves(params, cfg, mode)
    ensures Authenticate(params, cfg).Rejected? <==> !Proves(params, cfg, Json) && !Proves(params, cfg, Sse)
    ensures Authenticate(params, cfg).Rejected? ==> Authenticate(params, cfg).code == if WellFormed(params) then -32001 else -32602
  {}

  /** A handler is called exactly when the session is authenticated and the message
      names a method of the server. */
  lemma {:induction false} CallsExactly(authenticated: bool, m: Message, cfg: Config, name: string)
    ensures React(authenticated, m, cfg).called == Some(name) <==> authenticated && Reaches(m, cfg, name)
  {}

  /** A message is answered exactly as it asks; with a result exactly when nothing
      is wrong with it, and else with the code of what is wrong. */
  lemma {:induction false} RepliesExactly(authenticated: bool, m: Message, cfg: Config)
    ensures
      var r := React(authenticated, m, cfg).reply;
      && (r.Some? ==> r.value.Reply? && Answers(m) == [r.value.id])
      && (r.None? ==> Answers(m) == [])
      && (r.Some? ==> (r.value.body == Result <==> !Fails(authenticated, m, cfg)))
      && (r.Some? ==> forall code :: r.value.body == Failure(code) <==> Wrong(authenticated, m, cfg, code))
  {
    if Calls(m) && !authenticated {
      AuthenticatesExactly(m.params, cfg, Json);
      AuthenticatesExactly(m.params, cfg, Sse);
    }
    var r := React(authenticated, m, cfg).reply;
    if r.Some? && r.value.body.Failure? { assert Wrong(authenticated, m, cfg, r.value.body.code); }
  }

  lemma {:induction false} EndsExactly(authenticated: bool, m: Message, cfg: Config)
    ensures React(authenticated, m, cfg).ends <==> EndsWith(authenticated, m, cfg)
  {
    if m.Envelope? && m.version == "2.0" && m.id.None? {
      if Calls(m) && !authenticated {
        AuthenticatesExactly(m.params, cfg, Json);
        AuthenticatesExactly(m.params, cfg, Sse);
        assert Wrong(authenticated, m, cfg, -32001) || Wrong(authenticated, m, cfg, -32602) <==> React(authenticated, m, cfg).ends;
      } else if Calls(m) {
        assert cfg.failure.Some? && m.name in cfg.methods && m.name != AUTHENTICATE ==> Wrong(authenticated, m, cfg, cfg.failure.value);
        assert m.name == AUTHENTICATE ==> Wrong(authenticated, m, cfg, -32600);
        assert m.name != AUTHENTICATE && m.name !in cfg.methods ==> Wrong(authenticated, m, cfg, -32601);
      } else {
        assert Wrong(authenticated, m, cfg, -32600) <==> !m.answer;
      }
    }
  }

  /** A reaction calls handlers only once authenticated, grants only before, and
      is answered as its message asks. */
  lemma {:induction false} ReactionFacts(authenticated: bool, m: Message, cfg: Config)
    ensures
      var r := React(authenticated, m, cfg);
      && (r.called.Some? ==> authenticated && r.granted.None? && Reaches(m, cfg, r.called.value))
      && (r.granted.Some? ==> !authenticated && Admits(m, cfg, r.granted.value))
      && (r.reply.Some? ==> r.reply.value.Reply?)
      && (r.ends <==> EndsWith(authenticated, m, cfg))
  {
    var r := React(authenticated, m, cfg);
    if r.called.Some? { CallsExactly(authenticated, m, cfg, r.called.value); }
    if r.granted.Some? { GrantsExactly(authenticated, m, cfg, r.granted.value); }
    RepliesExactly(authenticated, m, cfg);
    EndsExactly(authenticated, m, cfg);
  }

  /** A call or a grant noted in a history. */
  lemma {:induction false} NotedFacts(log: seq<Event>, e: Event, encode: Payload -> string)
    requires e.Called? || e.Granted?
    ensures
      var more := log + [e];
      && Replies(more) == Replies(log) && Due(more) == Due(log) && Stream(more, encode) == Stream(log, encode)
      && Over(more) == Over(log) && Grants(more) == Grants(log) + (if e.Granted? then [e.mode] else [])
      && (Ordered(log) && AsksFor(log, e) && (e.Called? ==> Grants(log) != []) ==> Ordered(more))
  {
    LogMore(log, e, encode);
  }

  /** What the history says after a message: nothing queued, its answer due. */
  ghost predicate Heard(log: seq<Event>, log': seq<Event>, s: Session, m: Message, cfg: Config, encode: Payload -> string) {
    var r := React(s.authenticated, m, cfg);
    && Replies(log') == Replies(log) && Stream(log', encode) == Stream(log, encode)
    && Due(log') == Due(log) + ReplyTo(s.authenticated, m, cfg)
    && Grants(log') == Grants(log) + (if r.granted.Some? then [r.granted.value] else [])
    && (Over(log') <==> r.ends) && Ordered(log')
  }

  lemma {:induction false} ReceivedLog(s: Session, m: Message, cfg: Config, encode: Payload -> string)
    requires Safe(s, encode) && s.reader.Idle?
    ensures Heard(s.log, Received(s, m, cfg).log, s, m, cfg, encode)
  {
    var r := React(s.authenticated, m, cfg);
    ReactionFacts(s.authenticated, m, cfg);
    ReceivedShape(s, m, cfg);
    LogMore(s.log, Arrived(m, cfg), encode);
    assert Grants(s.log) + [] == Grants(s.log);
    var log := s.log + [Arrived(m, cfg)];
    assert log[|log| - 1] == Arrived(m, cfg);
    if r.called.Some? {
      NotedFacts(log, Called(r.called.value), encode);
    } else if r.granted.Some? {
      NotedFacts(log, Granted(r.granted.value), encode);
    }
  }

  /** What handling a message leaves alone, and how the rest changes. */
  lemma {:induction false} ReceivedShape(s: Session, m: Message, cfg: Config)
    ensures
      var s', r := Received(s, m, cfg), React(s.authenticated, m, cfg);
      && s'.log == Noted(Noted(s.log + [Arrived(m, cfg)], CallOf(r)), GrantOf(r))
      && s'.outbound == s.outbound && s'.written == s.written && s'.writing == s.writing && s'.notes == s.notes
      && s'.authenticated == (s.authenticated || r.granted.Some?)
      && s'.mode == (if r.granted.Some? then r.granted.value else s.mode)
      && s'.reader == (if r.reply.Some? then Replying(r.reply.value, r.ends) else if r.ends then Gone else s.reader)
      && s'.closed == (s.closed || (r.reply.None? && r.ends))
  {}

  lemma {:induction false} ReceiveKeeps(s: Session, m: Message, cfg: Config, encode: Payload -> string)
    requires Safe(s, encode) && s.reader.Idle?
    ensures Safe(Received(s, m, cfg), encode)
  {
    var r, s' := React(s.authenticated, m, cfg), Received(s, m, cfg);
    ReactionFacts(s.authenticated, m, cfg);
    ReceivedShape(s, m, cfg);
    ReceivedLog(s, m, cfg, encode);
    ReceiveAuth(s, r, s'.log);
    ReceiveReplies(s, s'.log, m, cfg, encode);
    assert Stream(s'.log, encode) == Stream(s.log, encode);
  }

  lemma {:induction false} ReceiveAuth(s: Session, r: Reaction, log: seq<Event>)
    requires AuthKept(s.authenticated, s.mode, s.notes, s.log) && Ordered(log)
    requires r.granted.Some? ==> !s.authenticated
    requires Grants(log) == Grants(s.log) + (if r.granted.Some? then [r.granted.value] else [])
    ensures AuthKept(s.authenticated || r.granted.Some?, if r.granted.Some? then r.granted.value else s.mode, s.notes, log)
  {
    assert s.notes != [] ==> s.notes[0].Notice? && s.authenticated;
    assert Grants(s.log) + [] == Grants(s.log);
    if r.granted.Some? { assert [] + [r.granted.value] == [r.granted.value]; }
  }

  lemma {:induction false} ReceiveReplies(s: Session, log: seq<Event>, m: Message, cfg: Config, encode: Payload -> string)
    requires RepliesKept(Idle, s.log) && Heard(s.log, log, s, m, cfg, encode)
    ensures
      var r := React(s.authenticated, m, cfg);
      RepliesKept(if r.reply.Some? then Replying(r.reply.value, r.ends) else if r.ends then Gone else Idle, log)
  {
    ReactionFacts(s.authenticated, m, cfg);
    assert Replies(s.log) + [] == Replies(s.log) && Due(s.log) + [] == Due(s.log);
  }

  // ---- queueing and writing ----

  lemma {:induction false} FlatMore(payloads: seq<Payload>, p: Payload, encode: Payload -> string)
    ensures Flat(payloads + [p], encode) == Flat(payloads, encode) + encode(p)
  {
    assert (payloads + [p])[..|payloads|] == payloads;
  }

  lemma {:induction false} FlatFirst(payloads: seq<Payload>, encode: Payload -> string)
    requires payloads != []
    ensures Flat(payloads, encode) == encode(payloads[0]) + Flat(payloads[1..], encode)
  {
    if |payloads| > 1 {
      FlatFirst(payloads[..|payloads| - 1], encode);
      assert payloads[..|payloads| - 1][1..] == payloads[1..][..|payloads| - 2];
    } else {
      assert payloads[..0] == [] && payloads[1..] == [];
    }
  }

  lemma {:induction false} Longer(written: string, stream: string, more: string)
    requires written <= stream
    ensures written <= stream + more
  {}

  lemma {:induction false} Regrouped(a: string, b: string, c: string)
    ensures a + (b + c) == a + b + c
  {}

  /** Queueing keeps the bytes in order. */
  lemma {:induction false} EnqueueKeepsBytes(s: Session, p: Payload, encode: Payload -> string)
    requires BytesKept(s.outbound, s.written, s.writing, s.log, encode) && |s.outbound| < QUEUE_DEPTH
    ensures BytesKept(s.outbound + [p], s.written, s.writing, s.log + [Queued(p)], encode)
  {
    LogMore(s.log, Queued(p), encode);
    FlatMore(s.outbound, p, encode);
    Longer(s.written, Stream(s.log, encode), encode(p));
    Regrouped(s.written, Flat(s.outbound, encode), encode(p));
  }

  lemma {:induction false} QueueReplyKeeps(s: Session, encode: Payload -> string)
    requires Safe(s, encode) && s.reader.Replying? && |s.outbound| < QUEUE_DEPTH
    ensures Safe(Take(s, QueueReply, encode), encode)
  {
    EnqueueKeepsBytes(s, s.reader.reply, encode);
    QueuedReply(s, encode);
  }

  lemma {:induction false} QueuedReply(s: Session, encode: Payload -> string)
    requires AuthKept(s.authenticated, s.mode, s.notes, s.log) && RepliesKept(s.reader, s.log) && s.reader.Replying?
    ensures AuthKept(s.authenticated, s.mode, s.notes, s.log + [Queued(s.reader.reply)])
    ensures RepliesKept(Idle, s.log + [Queued(s.reader.reply)]) && RepliesKept(Gone, s.log + [Queued(s.reader.reply)])
    ensures Over(s.log + [Queued(s.reader.reply)]) == Over(s.log)
  {
    var log := s.log + [Queued(s.reader.reply)];
    LogMore(s.log, Queued(s.reader.reply), encode);
    assert Grants(log) == Grants(s.log) && Due(log) == Due(s.log);
    assert Replies(log) == Due(log) && Replies(log) + [] == Replies(log);
  }

  lemma {:induction false} QueueNoteKeeps(s: Session, i: nat, encode: Payload -> string)
    requires Safe(s, encode) && i < |s.notes| && |s.outbound| < QUEUE_DEPTH
    ensures Safe(Take(s, QueueNote(i), encode), encode)
  {
    EnqueueKeepsBytes(s, s.notes[i], encode);
    QueuedNote(s, i, encode);
  }

  lemma {:induction false} QueuedNote(s: Session, i: nat, encode: Payload -> string)
    requires AuthKept(s.authenticated, s.mode, s.notes, s.log) && RepliesKept(s.reader, s.log) && i < |s.notes|
    ensures AuthKept(s.authenticated, s.mode, Without(s.notes, i), s.log + [Queued(s.notes[i])])
    ensures RepliesKept(s.reader, s.log + [Queued(s.notes[i])])
  {
    var log := s.log + [Queued(s.notes[i])];
    LogMore(s.log, Queued(s.notes[i]), encode);
    assert Grants(log) == Grants(s.log) && Replies(log) == Replies(s.log) && Due(log) == Due(s.log);
    FewerNotes(s, i, log);
  }

  lemma {:induction false} FewerNotes(s: Session, i: nat, log: seq<Event>)
    requires AuthKept(s.authenticated, s.mode, s.notes, s.log) && i < |s.notes|
    requires Ordered(log) && Grants(log) == Grants(s.log)
    ensures AuthKept(s.authenticated, s.mode, Without(s.notes, i), log)
  {
    assert s.notes[i].Notice? && s.authenticated;
    var left := Without(s.notes, i);
    forall j | 0 <= j < |left| ensures left[j].Notice? && left[j].mode == s.mode {
      assert left[j] == if j < i then s.notes[j] else s.notes[j + 1];
    }
  }

  lemma {:induction false} WriteKeeps(s: Session, bytes: nat, encode: Payload -> string)
    requires BytesKept(s.outbound, s.written, s.writing, s.log, encode) && s.writing && s.outbound != []
    ensures
      var s' := Wrote(s, bytes, encode);
      BytesKept(s'.outbound, s'.written, s'.writing, s'.log, encode)
  {
    var text, rest := encode(s.outbound[0]), Flat(s.outbound[1..], encode);
    FlatFirst(s.outbound, encode);
    if bytes >= |text| {
      Regrouped(s.written, text, rest);
      Longer(s.written + text, s.written + text, rest);
    } else {
      CutShort(s.written, text, bytes, rest);
    }
  }

  lemma {:induction false} CutShort(written: string, text: string, bytes: nat, rest: string)
    requires bytes < |text|
    ensures written + text[..bytes] <= written + (text + rest)
  {
    assert written + (text + rest) == (written + text[..bytes]) + (text[bytes..] + rest);
  }

  // ---- every step ----

  /** Every step keeps a session safe, whoever takes it. */
  lemma {:induction false} StepKeepsSafe(s: Session, step: Step, encode: Payload -> string)
    requires Safe(s, encode)
    ensures Safe(Take(s, step, encode), encode)
  {
    match step {
      case Receive(m, cfg) => if s.reader.Idle? { ReceiveKeeps(s, m, cfg, encode); }
      case QueueReply => if s.reader.Replying? && |s.outbound| < QUEUE_DEPTH { QueueReplyKeeps(s, encode); }
      case QueueNote(i) => if i < |s.notes| && |s.outbound| < QUEUE_DEPTH { QueueNoteKeeps(s, i, encode); }
      case DropNote(i, timedOut) => if i < |s.notes| { FewerNotes(s, i, s.log); }
      case WriteHead(bytes) => if s.writing && s.outbound != [] { WriteKeeps(s, bytes, encode); }
      case _ => QuietStepKeeps(s, step, encode);
    }
  }

  lemma {:induction false} QuietStepKeeps(s: Session, step: Step, encode: Payload -> string)
    requires Safe(s, encode) && (step.DropReply? || step.Leave? || step.Announce? || step.StopWriter? || step.Close?)
    ensures Safe(Take(s, step, encode), encode)
  {
    EndsAnywhere(s);
  }

  lemma {:induction false} EndsAnywhere(s: Session)
    requires RepliesKept(s.reader, s.log)
    ensures RepliesKept(Gone, s.log)
  {
    assert Replies(s.log) <= Replies(s.log) + Held(s.reader);
  }

  /** Every reachable state of a session is safe. */
  lemma {:induction false} RunsAreSafe(steps: seq<Step>, encode: Payload -> string)
    ensures Safe(Run(steps, encode), encode)
  {
    if steps != [] {
      RunsAreSafe(steps[..|steps| - 1], encode);
      StepKeepsSafe(Run(steps[..|steps| - 1], encode), steps[|steps| - 1], encode);
    }
  }

  // ---- what safety says about a history ----

  /** Before any handler call, and before any notice is queued, there is a grant. */
  lemma {:induction false} GrantComesFirst(log: seq<Event>, i: nat)
    requires Ordered(log) && i < |log| && (log[i].Called? || (log[i].Queued? && log[i].payload.Notice?))
    ensures exists j :: 0 <= j < i && log[j].Granted? && (log[i].Queued? ==> log[j].mode == log[i].payload.mode)
  {
    var front := log[..|log| - 1];
    if i == |log| - 1 {
      var j := SomeGrant(front);
      assert log[j] == front[j];
      assert log[i].Queued? ==> Grants(front) == [log[i].payload.mode];
    } else {
      GrantComesFirst(front, i);
      var j :| 0 <= j < i && front[j].Granted? && (front[i].Queued? ==> front[j].mode == front[i].payload.mode);
      assert log[j] == front[j];
    }
  }

  lemma {:induction false} SomeGrant(log: seq<Event>) returns (j: nat)
    requires Grants(log) != []
    ensures j < |log| && log[j].Granted? && log[j].mode == Grants(log)[0]
  {
    var front := log[..|log| - 1];
    if Grants(front) != [] {
      j := SomeGrant(front);
    } else {
      j := |log| - 1;
    }
  }

  /** Two grants in a history are two elements of its grants. */
  lemma {:induction false} GrantsCounted(log: seq<Event>, i: nat, j: nat)
    requires i < j < |log| && log[i].Granted? && log[j].Granted?
    ensures |Grants(log)| >= 2
  {
    var front := log[..|log| - 1];
    if j == |log| - 1 { GrantIn(front, i); } else { GrantsCounted(front, i, j); }
  }

  lemma {:induction false} GrantIn(log: seq<Event>, i: nat)
    requires i < |log| && log[i].Granted?
    ensures |Grants(log)| >= 1
  {
    if i < |log| - 1 { GrantIn(log[..|log| - 1], i); }
  }

  /** A grant or a call stands right behind a message that asks for it. */
  lemma {:induction false} AskedFor(log: seq<Event>, i: nat)
    requires Ordered(log) && i < |log| && (log[i].Called? || log[i].Granted?)
    ensures AsksFor(log[..i], log[i])
  {
    var front := log[..|log| - 1];
    if i < |log| - 1 {
      AskedFor(front, i);
      assert front[..i] == log[..i];
    }
  }

  /** Nothing arrives behind a message with which the session ends. */
  lemma {:induction false} NothingAfterEnd(log: seq<Event>, i: nat, j: nat)
    requires Ordered(log) && i < j < |log| && log[i].Arrived? && log[j].Arrived?
    ensures !EndsWith(Grants(log[..i]) != [], log[i].message, log[i].cfg)
  {
    var front := log[..|log| - 1];
    if j < |log| - 1 { NothingAfterEnd(front, i, j); assert front[..i] == log[..i]; } else { NotOver(front, i); assert front[..i] == log[..i]; }
  }

  lemma {:induction false} NotOver(log: seq<Event>, i: nat)
    requires !Over(log) && i < |log| && log[i].Arrived?
    ensures !EndsWith(Grants(log[..i]) != [], log[i].message, log[i].cfg)
  {
    var front := log[..|log| - 1];
    if i < |log| - 1 { NotOver(front, i); assert front[..i] == log[..i]; }
  }

  /** A grant right behind a message with an accepted nonce; a call right behind a
      message that names the handler. */
  ghost predicate Prompted(log: seq<Event>, i: nat)
    requires i < |log|
  {
    && (log[i].Granted? ==> i > 0 && log[i - 1].Arrived? && Admits(log[i - 1].message, log[i - 1].cfg, log[i].mode))
    && (log[i].Called? ==> i > 0 && log[i - 1].Arrived? && Reaches(log[i - 1].message, log[i - 1].cfg, log[i].name))
  }

  /** In every run: a session is granted only by a message with an accepted nonce,
      and at most once; handlers are called and notices queued only after that, and
      notices in its mode; nothing arrives behind a message that ends the session;
      what is due has been answered, in order, whenever the reader is between
      messages, and every reply is the one that its message deserves; and what is written is the front of what was queued, with at most
      64 payloads in between. */
  lemma {:induction false} SessionSafety(steps: seq<Step>, encode: Payload -> string)
    ensures
      var s := Run(steps, encode);
      && (forall i :: 0 <= i < |s.log| ==> Prompted(s.log, i))
      && (forall i :: 0 <= i < |s.log| && (s.log[i].Called? || (s.log[i].Queued? && s.log[i].payload.Notice?)) ==>
           exists j :: 0 <= j < i && s.log[j].Granted? && (s.log[i].Queued? ==> s.log[j].mode == s.log[i].payload.mode))
      && (forall i, j :: 0 <= i < j < |s.log| ==> !(s.log[i].Granted? && s.log[j].Granted?))
      && (forall i, j :: 0 <= i < j < |s.log| && s.log[i].Arrived? && s.log[j].Arrived? ==>
           !EndsWith(Grants(s.log[..i]) != [], s.log[i].message, s.log[i].cfg))
      && (s.reader.Idle? ==> Replies(s.log) == Due(s.log)) && (s.reader.Gone? ==> s.closed)
      && Replies(s.log) <= Due(s.log) && |Due(s.log)| <= |Replies(s.log)| + 1
      && (forall k :: 0 <= k < |Replies(s.log)| ==> Earned(s.log, Replies(s.log)[k]))
      && s.written <= Stream(s.log, encode) && |s.outbound| <= 64
  {
    var s := Run(steps, encode);
    RunsAreSafe(steps, encode);
    GrantsAndCalls(s.log);
    forall i, j | 0 <= i < j < |s.log| ensures !(s.log[i].Granted? && s.log[j].Granted?) {
      if s.log[i].Granted? && s.log[j].Granted? { GrantsCounted(s.log, i, j); }
    }
    forall i, j | 0 <= i < j < |s.log| && s.log[i].Arrived? && s.log[j].Arrived?
      ensures !EndsWith(Grants(s.log[..i]) != [], s.log[i].message, s.log[i].cfg)
    {
      NothingAfterEnd(s.log, i, j);
    }
    AnsweredSoFar(s);
    DueAsDeserved(s.log);
    EarnedInFront(s.log, Replies(s.log), Due(s.log));
  }

  lemma {:induction false} EarnedInFront(log: seq<Event>, replies: seq<Payload>, due: seq<Payload>)
    requires replies <= due && forall k :: 0 <= k < |due| ==> Earned(log, due[k])
    ensures forall k :: 0 <= k < |replies| ==> Earned(log, replies[k])
  {
    forall k | 0 <= k < |replies| ensures Earned(log, replies[k]) { assert replies[k] == due[k]; }
  }

  lemma {:induction false} GrantsAndCalls(log: seq<Event>)
    requires Ordered(log)
    ensures forall i :: 0 <= i < |log| ==> Prompted(log, i)
    ensures forall i :: 0 <= i < |log| && (log[i].Called? || (log[i].Queued? && log[i].payload.Notice?)) ==>
      exists j :: 0 <= j < i && log[j].Granted? && (log[i].Queued? ==> log[j].mode == log[i].payload.mode)
  {
    forall i | 0 <= i < |log| ensures Prompted(log, i) {
      if log[i].Called? || log[i].Granted? { AskedFor(log, i); }
    }
    forall i | 0 <= i < |log| && (log[i].Called? || (log[i].Queued? && log[i].payload.Notice?))
      ensures exists j :: 0 <= j < i && log[j].Granted? && (log[i].Queued? ==> log[j].mode == log[i].payload.mode)
    {
      GrantComesFirst(log, i);
    }
  }

  /** The reply is the one that some message deserves: it has its id, and is a
      result or the code of what was wrong with it. */
  ghost predicate Earned(log: seq<Event>, reply: Payload) {
    exists i :: 0 <= i < |log| && Deserved(log, i, reply)
  }

  ghost predicate Deserved(log: seq<Event>, i: nat, reply: Payload)
    requires i < |log|
  {
    log[i].Arrived? && Deserves(Grants(log[..i]) != [], log[i].message, log[i].cfg, reply)
  }

  ghost predicate Deserves(authenticated: bool, m: Message, cfg: Config, reply: Payload) {
    && reply.Reply? && Answers(m) == [reply.id]
    && (reply.body == Result <==> !Fails(authenticated, m, cfg))
    && forall code :: reply.body == Failure(code) <==> Wrong(authenticated, m, cfg, code)
  }

  function IdsOf(replies: seq<Payload>): seq<Id> {
    seq(|replies|, i requires 0 <= i < |replies| => if replies[i].Reply? then replies[i].id else None)
  }

  /** The ids of the messages that want an answer, in order. */
  function IdsDue(log: seq<Event>): seq<Id> {
    if log == [] then []
    else IdsDue(log[..|log| - 1]) + (if log[|log| - 1].Arrived? then Answers(log[|log| - 1].message) else [])
  }

  /** The replies due are those that the messages deserve, for each message that
      wants one and in their order. */
  lemma {:induction false} DueAsDeserved(log: seq<Event>)
    ensures forall k :: 0 <= k < |Due(log)| ==> Earned(log, Due(log)[k])
    ensures IdsOf(Due(log)) == IdsDue(log)
  {
    if log != [] {
      var front, e := log[..|log| - 1], log[|log| - 1];
      DueAsDeserved(front);
      assert log == front + [e];
      forall k | 0 <= k < |Due(front)| ensures Earned(log, Due(front)[k]) { EarnedStill(front, e, Due(front)[k]); }
      if e.Arrived? { NewlyDue(front, e); }
    }
  }

  lemma {:induction false} EarnedStill(front: seq<Event>, e: Event, reply: Payload)
    requires Earned(front, reply)
    ensures Earned(front + [e], reply)
  {
    var i :| 0 <= i < |front| && Deserved(front, i, reply);
    assert (front + [e])[..i] == front[..i];
    assert Deserved(front + [e], i, reply);
  }

  lemma {:induction false} NewlyDue(front: seq<Event>, e: Event)
    requires e.Arrived?
    ensures
      var more := ReplyTo(Grants(front) != [], e.message, e.cfg);
      |more| <= 1 && IdsOf(more) == Answers(e.message) && forall k :: 0 <= k < |more| ==> Earned(front + [e], more[k])
  {
    var more := ReplyTo(Grants(front) != [], e.message, e.cfg);
    RepliesExactly(Grants(front) != [], e.message, e.cfg);
    if more != [] {
      assert (front + [e])[..|front|] == front;
      assert Deserved(front + [e], |front|, more[0]);
    }
  }

  lemma {:induction false} AnsweredSoFar(s: Session)
    requires RepliesKept(s.reader, s.log)
    ensures s.reader.Idle? ==> Replies(s.log) == Due(s.log)
    ensures Replies(s.log) <= Due(s.log) && |Due(s.log)| <= |Replies(s.log)| + 1
  {
    assert Replies(s.log) + [] == Replies(s.log);
  }

  /** Once set, authentication and mode stay as they are. */
  lemma {:induction false} AuthenticationStays(s: Session, step: Step, encode: Payload -> string)
    requires Safe(s, encode) && s.authenticated
    ensures Take(s, step, encode).authenticated && Take(s, step, encode).mode == s.mode
  {
    if step.Receive? && s.reader.Idle? {
      ReactionFacts(s.authenticated, step.m, step.cfg);
      ReceivedShape(s, step.m, step.cfg);
    }
  }

  // ---- the server ----

  /** Clients by connection; any of their steps may come next, in any order. */
  datatype ServerStep = Accept(client: nat) | On(client: nat, step: Step)

  function ServerTake(clients: map<nat, Session>, step: ServerStep, encode: Payload -> string): map<nat, Session> {
    match step
    case Accept(client) => if client in clients then clients else clients[client := FRESH]
    case On(client, step) => if client in clients then clients[client := Take(clients[client], step, encode)] else clients
  }

  function ServerRun(steps: seq<ServerStep>, encode: Payload -> string): map<nat, Session> {
    if steps == [] then map[] else ServerTake(ServerRun(steps[..|steps| - 1], encode), steps[|steps| - 1], encode)
  }

  /** Whatever the interleaving, each client has gone through a run of its own. */
  lemma {:induction false} ClientsRunAlone(steps: seq<ServerStep>, client: nat, encode: Payload -> string) returns (own: seq<Step>)
    requires client in ServerRun(steps, encode)
    ensures ServerRun(steps, encode)[client] == Run(own, encode)
  {
    var before, last := ServerRun(steps[..|steps| - 1], encode), steps[|steps| - 1];
    if client in before {
      own := ClientsRunAlone(steps[..|steps| - 1], client, encode);
      if last.On? && last.client == client {
        var more := own + [last.step];
        assert more[..|more| - 1] == own;
        own := more;
      }
    } else {
      own := [];
    }
  }
}
