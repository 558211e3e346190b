/** The server's side of a connection, as the object its goroutines share. Each
    method is one step that nothing comes in between of. */
module IpcServer {
  import opened Options
  import opened Text
  import opened IpcSession
  import opened IpcSafety

  class ClientConn {
    var authenticated: bool
    var streamMode: Mode
    /** The channel of payloads, its capacity QUEUE_DEPTH. */
    var outbound: seq<Payload>
    var written: string
    var closed: bool
    var writing: bool
    var reader: Reader
    var notes: seq<Payload>
    ghost var log: seq<Event>
    /** A payload as bytes. */
    const encode: Payload -> string

    ghost function State(): Session
      reads this
    {
      Session(authenticated, streamMode, outbound, written, closed, writing, reader, notes, log)
    }

    ghost predicate Valid()
      reads this
    {
      Safe(State(), encode)
    }

    constructor (encode: Payload -> string)
      ensures State() == FRESH && this.encode == encode && Valid()
    {
      authenticated, streamMode, outbound, written, closed, writing := false, Json, [], "", false, true;
      reader, notes, log := Idle, [], [];
      this.encode := encode;
      new;
      RunsAreSafe([], encode);
    }

    method SetAuthenticated(mode: Mode)
      modifies this`authenticated, this`streamMode, this`log
      ensures authenticated && streamMode == mode && log == old(log) + [Granted(mode)]
    {
      authenticated, streamMode := true, mode;
      log := log + [Granted(mode)];
    }

    method HandleAuthentication(params: AuthParams, cfg: Config) returns (r: AuthResult)
      modifies this`authenticated, this`streamMode, this`log
      ensures r == Authenticate(params, cfg)
      ensures forall mode :: r == Accepted(mode) <==> Proves(params, cfg, mode)
      ensures r.Rejected? ==> r.code == if WellFormed(params) then -32001 else -32602
      ensures r.Accepted? ==> authenticated && streamMode == r.mode && log == old(log) + [Granted(r.mode)]
      ensures r.Rejected? ==> authenticated == old(authenticated) && streamMode == old(streamMode) && log == old(log)
    {
      if !params.Auth? { return Rejected(INVALID_PARAMS); }
      var mode := StreamMode(params.stream);
      if mode.None? { return Rejected(INVALID_PARAMS); }
      var nonce := TrimSpace(params.nonce);
      if nonce == "" { return Rejected(INVALID_PARAMS); }
      if nonce !in cfg.nonces { return Rejected(UNAUTHORIZED); }
      SetAuthenticated(mode.value);
      r := Accepted(mode.value);
    }

    /** Calls a handler; what it does is not part of this model. */
    method CallHandler(name: string, cfg: Config) returns (body: Body)
      modifies this`log
      ensures log == old(log) + [Called(name)]
      ensures body == if cfg.failure.Some? then Failure(cfg.failure.value) else Result
    {
      log := log + [Called(name)];
      body := if cfg.failure.Some? then Failure(cfg.failure.value) else Result;
    }

    /** Fields and history as a reaction leaves them. */
    twostate predicate Reacted(r: Reaction)
      reads this
    {
      && log == Noted(Noted(old(log), CallOf(r)), GrantOf(r))
      && authenticated == (old(authenticated) || r.granted.Some?)
      && streamMode == (if r.granted.Some? then r.granted.value else old(streamMode))
    }

    method HandleRequest(id: Id, name: string, params: AuthParams, cfg: Config) returns (reply: Payload, ends: bool)
      modifies this`authenticated, this`streamMode, this`log
      ensures
        var r := OnRequest(old(authenticated), id, name, params, cfg);
        Some(reply) == r.reply && ends == r.ends && Reacted(r)
    {
      ends := false;
      if !authenticated {
        if name != AUTHENTICATE { return Reply(id, Failure(UNAUTHORIZED)), true; }
        var result := HandleAuthentication(params, cfg);
        reply := Reply(id, if result.Accepted? then Result else Failure(result.code));
        return;
      }
      if name == AUTHENTICATE { return Reply(id, Failure(INVALID_REQUEST)), false; }
      if name !in cfg.methods { return Reply(id, Failure(METHOD_NOT_FOUND)), false; }
      var body := CallHandler(name, cfg);
      reply := Reply(id, body);
    }

    method HandleNotification(name: string, params: AuthParams, cfg: Config) returns (ends: bool)
      modifies this`authenticated, this`streamMode, this`log
      ensures
        var r := OnNotification(old(authenticated), name, params, cfg);
        ends == r.ends && Reacted(r)
    {
      if !authenticated {
        if name != AUTHENTICATE { return true; }
        var result := HandleAuthentication(params, cfg);
        return result.Rejected?;
      }
      if name == AUTHENTICATE || name !in cfg.methods { return true; }
      var body := CallHandler(name, cfg);
      ends := body.Failure?;
    }

    /** Tells the kinds of message apart. */
    method Dispatch(m: Message, cfg: Config) returns (reply: Option<Payload>, ends: bool)
      modifies this`authenticated, this`streamMode, this`log
      ensures
        var r := React(old(authenticated), m, cfg);
        reply == r.reply && ends == r.ends && Reacted(r)
    {
      reply, ends := None, false;
      match m {
        case Garbage => reply, ends := Some(Reply(None, Failure(PARSE_ERROR))), true;
        case NotObject => reply, ends := Some(Reply(None, Failure(INVALID_REQUEST))), true;
        case Envelope(version, id, name, answer, params) =>
          if version != "2.0" {
            reply := Some(Reply(id, Failure(INVALID_REQUEST)));
          } else if name != "" {
            if id.Some? {
              var p;
              p, ends := HandleRequest(id, name, params, cfg);
              reply := Some(p);
            } else {
              ends := HandleNotification(name, params, cfg);
            }
          } else if !answer {
            if id.Some? { reply := Some(Reply(id, Failure(INVALID_REQUEST))); } else { ends := true; }
          }
      }
    }

    /** Takes a message: its reply waits for a place, or the connection ends. */
    method TakeMessage(m: Message, cfg: Config)
      requires reader.Idle?
      modifies this
      ensures State() == Take(old(State()), Receive(m, cfg), encode)
    {
      ReceivedShape(State(), m, cfg);
      log := log + [Arrived(m, cfg)];
      var reply, ends := Dispatch(m, cfg);
      if reply.Some? {
        reader := Replying(reply.value, ends);
      } else if ends {
        reader, closed := Gone, true;
      }
    }

    /** Handles a message up to the place of its reply in the queue. */
    method HandleRawMessage(m: Message, cfg: Config)
      requires Valid() && reader.Idle?
      modifies this
      ensures State() == Take(old(State()), Receive(m, cfg), encode) && Valid()
    {
      StepKeepsSafe(State(), Receive(m, cfg), encode);
      TakeMessage(m, cfg);
    }

    /** Puts a payload in the channel, when there is room. */
    method QueuePayload(p: Payload)
      requires |outbound| < QUEUE_DEPTH
      modifies this`outbound, this`log
      ensures outbound == old(outbound) + [p] && log == old(log) + [Queued(p)]
    {
      outbound := outbound + [p];
      log := log + [Queued(p)];
    }

    /** The reader's reply gets its place, or the wait for one fails. */
    method QueueReply(accepted: bool)
      requires Valid() && reader.Replying? && (accepted ==> |outbound| < QUEUE_DEPTH)
      modifies this
      ensures State() == Take(old(State()), if accepted then IpcSession.QueueReply else DropReply, encode) && Valid()
      ensures outbound == old(outbound) + (if accepted then [old(reader).reply] else [])
    {
      StepKeepsSafe(State(), if accepted then IpcSession.QueueReply else DropReply, encode);
      var ends := reader.ends;
      if accepted { QueuePayload(reader.reply); }
      if accepted && !ends { reader := Idle; } else { reader, closed := Gone, true; }
    }

    /** A broadcast looks at the session and goes on only if it is authenticated. */
    method BroadcastNotification(name: string)
      requires Valid()
      modifies this`notes
      ensures State() == Take(old(State()), Announce(name), encode) && Valid()
      ensures notes == old(notes) + (if authenticated then [Notice(name, streamMode)] else [])
    {
      StepKeepsSafe(State(), Announce(name), encode);
      if authenticated { notes := notes + [Notice(name, streamMode)]; }
    }

    method QueueNotification(i: nat)
      requires Valid() && i < |notes| && |outbound| < QUEUE_DEPTH
      modifies this
      ensures State() == Take(old(State()), QueueNote(i), encode) && Valid()
      ensures outbound == old(outbound) + [old(notes)[i]] && notes == old(notes)[..i] + old(notes)[i + 1..]
    {
      StepKeepsSafe(State(), QueueNote(i), encode);
      QueuePayload(notes[i]);
      notes := Without(notes, i);
    }

    /** The writer takes the first payload and writes so many of its bytes. */
    method WriteOne(bytes: nat)
      requires Valid() && writing && outbound != []
      modifies this
      ensures State() == Take(old(State()), WriteHead(bytes), encode) && Valid()
      ensures [old(outbound)[0]] + outbound == old(outbound)
      ensures written == old(written) + (if bytes >= |encode(old(outbound)[0])| then encode(old(outbound)[0]) else encode(old(outbound)[0])[..bytes])
    {
      StepKeepsSafe(State(), WriteHead(bytes), encode);
      var text := encode(outbound[0]);
      outbound := outbound[1..];
      if bytes >= |text| {
        written := written + text;
      } else {
        written := written + text[..bytes];
        writing, closed := false, true;
      }
    }
  }
}
