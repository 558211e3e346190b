/** One client of the JSON-RPC server: what its reader does with a message, and
    the bounded queue that replies and broadcasts share. */
module IpcSession {
  import opened Options
  import opened Text

  const QUEUE_DEPTH := 64
  const UNAUTHORIZED := -32001
  const PARSE_ERROR := -32700
  const INVALID_REQUEST := -32600
  const METHOD_NOT_FOUND := -32601
  const INVALID_PARAMS := -32602

  const AUTHENTICATE := "session.authenticate"

  datatype Mode = Json | Sse

  /** A request id as a value; None for an absent id or null. */
  type Id = Option<string>

  datatype AuthParams = NoParams | BadParams | Auth(nonce: string, stream: string)

  /** What arrives: not JSON, not an object, or an envelope. An empty method is
      an absent one; `answer` says there is a result or an error. */
  datatype Message = Garbage | NotObject | Envelope(version: string, id: Id, name: string, answer: bool, params: AuthParams)

  datatype Body = Result | Failure(code: int)

  datatype Payload = Reply(id: Id, body: Body) | Notice(name: string, mode: Mode)

  /** The server as a message finds it: registered methods, accepted nonces, and
      the error code its handler comes back with, if it fails. */
  datatype Config = Config(methods: set<string>, nonces: set<string>, failure: Option<int>)

  // ---- one message ----

  datatype AuthResult = Accepted(mode: Mode) | Rejected(code: int)

  function StreamMode(stream: string): Option<Mode> {
    var word := Lower(TrimSpace(stream));
    if word == "" || word == "json" then Some(Json) else if word == "sse" then Some(Sse) else None
  }

  function Authenticate(params: AuthParams, cfg: Config): AuthResult {
    if !params.Auth? || StreamMode(params.stream).None? || TrimSpace(params.nonce) == "" then Rejected(INVALID_PARAMS)
    else if TrimSpace(params.nonce) !in cfg.nonces then Rejected(UNAUTHORIZED)
    else Accepted(StreamMode(params.stream).value)
  }

  /** What handling a message does: a handler is called, the session is
      authenticated, a reply is due, and the connection ends. */
  datatype Reaction = Reaction(called: Option<string>, granted: Option<Mode>, reply: Option<Payload>, ends: bool)

  const NOTHING := Reaction(None, None, None, false)

  function OnRequest(authenticated: bool, id: Id, name: string, params: AuthParams, cfg: Config): Reaction {
    if !authenticated then
      if name != AUTHENTICATE then Reaction(None, None, Some(Reply(id, Failure(UNAUTHORIZED))), true)
      else
        match Authenticate(params, cfg)
        case Accepted(mode) => Reaction(None, Some(mode), Some(Reply(id, Result)), false)
        case Rejected(code) => NOTHING.(reply := Some(Reply(id, Failure(code))))
    else if name == AUTHENTICATE then NOTHING.(reply := Some(Reply(id, Failure(INVALID_REQUEST))))
    else if name !in cfg.methods then NOTHING.(reply := Some(Reply(id, Failure(METHOD_NOT_FOUND))))
    else Reaction(Some(name), None, Some(Reply(id, if cfg.failure.Some? then Failure(cfg.failure.value) else Result)), false)
  }

  function OnNotification(authenticated: bool, name: string, params: AuthParams, cfg: Config): Reaction {
    if !authenticated then
      if name != AUTHENTICATE then NOTHING.(ends := true)
      else
        match Authenticate(params, cfg)
        case Accepted(mode) => NOTHING.(granted := Some(mode))
        case Rejected(_) => NOTHING.(ends := true)
    else if name == AUTHENTICATE || name !in cfg.methods then NOTHING.(ends := true)
    else Reaction(Some(name), None, None, cfg.failure.Some?)
  }

  function React(authenticated: bool, m: Message, cfg: Config): Reaction {
    match m
    case Garbage => Reaction(None, None, Some(Reply(None, Failure(PARSE_ERROR))), true)
    case NotObject => Reaction(None, None, Some(Reply(None, Failure(INVALID_REQUEST))), true)
    case Envelope(version, id, name, answer, params) =>
      if version != "2.0" then NOTHING.(reply := Some(Reply(id, Failure(INVALID_REQUEST))))
      else if name != "" then
        if id.Some? then OnRequest(authenticated, id, name, params, cfg) else OnNotification(authenticated, name, params, cfg)
      else if answer then NOTHING
      else if id.Some? then NOTHING.(reply := Some(Reply(id, Failure(INVALID_REQUEST))))
      else NOTHING.(ends := true)
  }

  // ---- what a message asks for, said without the code above ----

  /** The words for a stream mode, in any case and with white space around. */
  predicate Names(stream: string, mode: Mode) {
    Lower(TrimSpace(stream)) in (if mode.Json? then {"", "json"} else {"sse"})
  }

  /** Parameters with a nonce and a stream mode. */
  predicate WellFormed(params: AuthParams) {
    params.Auth? && TrimSpace(params.nonce) != "" && (Names(params.stream, Json) || Names(params.stream, Sse))
  }

  /** Parameters with one of the nonces that the server takes, for a stream mode. */
  predicate Proves(params: AuthParams, cfg: Config, mode: Mode) {
    params.Auth? && Names(params.stream, mode) && TrimSpace(params.nonce) != "" && TrimSpace(params.nonce) in cfg.nonces
  }

  /** A request or notification that calls a method by name. */
  predicate Calls(m: Message) {
    m.Envelope? && m.version == "2.0" && m.name != ""
  }

  /** A message that authenticates a session. */
  predicate Admits(m: Message, cfg: Config, mode: Mode) {
    Calls(m) && m.name == "session.authenticate" && Proves(m.params, cfg, mode)
  }

  /** A message that reaches a handler, once the session is authenticated. */
  predicate Reaches(m: Message, cfg: Config, name: string) {
    Calls(m) && m.name == name && name != "session.authenticate" && name in cfg.methods
  }

  /** What goes wrong with a message, as an error code. */
  predicate Wrong(authenticated: bool, m: Message, cfg: Config, code: int) {
    if m.Garbage? then code == -32700
    else if !Calls(m) then code == -32600 && (m.Envelope? && m.version == "2.0" ==> !m.answer)
    else if !authenticated then
      if m.name != "session.authenticate" || WellFormed(m.params)
        then code == -32001 && !Admits(m, cfg, Json) && !Admits(m, cfg, Sse)
        else code == -32602
    else if m.name == "session.authenticate" then code == -32600
    else if m.name !in cfg.methods then code == -32601
    else cfg.failure == Some(code)
  }

  ghost predicate Fails(authenticated: bool, m: Message, cfg: Config) {
    exists code :: Wrong(authenticated, m, cfg, code)
  }

  /** The session ends with a message: text that is no object, a first request
      other than to authenticate, or anything wrong that cannot be answered. */
  ghost predicate EndsWith(authenticated: bool, m: Message, cfg: Config) {
    if !m.Envelope? then true
    else if m.version != "2.0" then false
    else if m.id.Some? then m.name != "" && m.name != "session.authenticate" && !authenticated
    else Fails(authenticated, m, cfg)
  }

  /** The ids a message is answered with, whatever the session has been through:
      a request with its own, a notification with none. */
  function Answers(m: Message): seq<Id> {
    match m
    case Garbage => [None]
    case NotObject => [None]
    case Envelope(version, id, name, answer, params) =>
      if version != "2.0" then [id]
      else if name != "" || !answer then if id.Some? then [id] else []
      else []
  }

  // ---- the session ----

  datatype Event = Arrived(message: Message, cfg: Config) | Granted(mode: Mode) | Called(name: string) | Queued(payload: Payload)

  /** Where the reader is: between messages, with a reply to queue (after which
      it may end), or gone. */
  datatype Reader = Idle | Replying(reply: Payload, ends: bool) | Gone

  /** `notes` are broadcasts that have looked at the session but not queued yet.
      `log` is the history of what happened. */
  datatype Session = Session(authenticated: bool, mode: Mode, outbound: seq<Payload>, written: string, closed: bool, writing: bool,
                             reader: Reader, notes: seq<Payload>, log: seq<Event>)

  const FRESH := Session(false, Json, [], "", false, true, Idle, [], [])

  /** One step of the reader, of a broadcast, of the writer, or of a close. */
  datatype Step =
    | Receive(m: Message, cfg: Config)
    | QueueReply
    | DropReply
    | Leave
    | Announce(name: string)
    | QueueNote(i: nat)
    | DropNote(i: nat, timedOut: bool)
    | WriteHead(bytes: nat)
    | StopWriter
    | Close

  /** A history with one event more, if there is one. */
  function Noted(log: seq<Event>, e: Option<Event>): seq<Event> {
    if e.Some? then log + [e.value] else log
  }

  function CallOf(r: Reaction): Option<Event> {
    if r.called.Some? then Some(Called(r.called.value)) else None
  }

  function GrantOf(r: Reaction): Option<Event> {
    if r.granted.Some? then Some(Granted(r.granted.value)) else None
  }

  /** The reader takes a message: everything up to the reply's place in the queue. */
  function Received(s: Session, m: Message, cfg: Config): Session {
    var r := React(s.authenticated, m, cfg);
    var after := s.(
      log := Noted(Noted(s.log + [Arrived(m, cfg)], CallOf(r)), GrantOf(r)),
      authenticated := s.authenticated || r.granted.Some?,
      mode := if r.granted.Some? then r.granted.value else s.mode);
    if r.reply.Some? then after.(reader := Replying(r.reply.value, r.ends))
    else if r.ends then after.(reader := Gone, closed := true)
    else after
  }

  function Enqueued(s: Session, p: Payload): Session {
    s.(log := s.log + [Queued(p)], outbound := s.outbound + [p])
  }

  function Without<T>(s: seq<T>, i: nat): seq<T>
    requires i < |s|
  {
    s[..i] + s[i + 1..]
  }

  /** A session after a step; a step that cannot be taken changes nothing. */
  function Take(s: Session, step: Step, encode: Payload -> string): Session {
    match step
    case Receive(m, cfg) => if s.reader.Idle? then Received(s, m, cfg) else s
    case QueueReply =>
      if !s.reader.Replying? || |s.outbound| >= QUEUE_DEPTH then s
      else
        var queued := Enqueued(s, s.reader.reply);
        if s.reader.ends then queued.(reader := Gone, closed := true) else queued.(reader := Idle)
    case DropReply => if s.reader.Replying? then s.(reader := Gone, closed := true) else s
    case Leave => if s.reader.Idle? then s.(reader := Gone, closed := true) else s
    case Announce(name) => if s.authenticated then s.(notes := s.notes + [Notice(name, s.mode)]) else s
    case QueueNote(i) =>
      if i >= |s.notes| || |s.outbound| >= QUEUE_DEPTH then s
      else Enqueued(s, s.notes[i]).(notes := Without(s.notes, i))
    case DropNote(i, timedOut) =>
      if i >= |s.notes| then s else s.(notes := Without(s.notes, i), closed := s.closed || timedOut)
    case WriteHead(bytes) => Wrote(s, bytes, encode)
    case StopWriter => s.(writing := false)
    case Close => s.(closed := true)
  }

  /** The writer takes a payload off and writes it, or fails after some bytes. */
  function Wrote(s: Session, bytes: nat, encode: Payload -> string): Session {
    if !s.writing || s.outbound == [] then s
    else
      var text := encode(s.outbound[0]);
      if bytes >= |text| then s.(written := s.written + text, outbound := s.outbound[1..])
      else s.(written := s.written + text[..bytes], outbound := s.outbound[1..], writing := false, closed := true)
  }

  function Run(steps: seq<Step>, encode: Payload -> string): Session {
    if steps == [] then FRESH else Take(Run(steps[..|steps| - 1], encode), steps[|steps| - 1], encode)
  }

  // ---- what the history says ----

  function Grants(log: seq<Event>): seq<Mode> {
    if log == [] then []
    else Grants(log[..|log| - 1]) + (if log[|log| - 1].Granted? then [log[|log| - 1].mode] else [])
  }

  function Replies(log: seq<Event>): seq<Payload> {
    if log == [] then []
    else
      var e := log[|log| - 1];
      Replies(log[..|log| - 1]) + (if e.Queued? && e.payload.Reply? then [e.payload] else [])
  }

  function ReplyTo(authenticated: bool, m: Message, cfg: Config): seq<Payload> {
    var r := React(authenticated, m, cfg).reply;
    if r.Some? then [r.value] else []
  }

  /** The replies to the messages that arrived, in order. */
  function Due(log: seq<Event>): seq<Payload> {
    if log == [] then []
    else
      var before, e := log[..|log| - 1], log[|log| - 1];
      Due(before) + (if e.Arrived? then ReplyTo(Grants(before) != [], e.message, e.cfg) else [])
  }

  /** Whether a message arrived with which the session ends. */
  ghost predicate Over(log: seq<Event>) {
    log != [] &&
    var before, e := log[..|log| - 1], log[|log| - 1];
    Over(before) || (e.Arrived? && EndsWith(Grants(before) != [], e.message, e.cfg))
  }

  /** All bytes queued, in order. */
  function Stream(log: seq<Event>, encode: Payload -> string): string {
    if log == [] then ""
    else Stream(log[..|log| - 1], encode) + (if log[|log| - 1].Queued? then encode(log[|log| - 1].payload) else "")
  }

  function Flat(payloads: seq<Payload>, encode: Payload -> string): string {
    if payloads == [] then "" else Flat(payloads[..|payloads| - 1], encode) + encode(payloads[|payloads| - 1])
  }

  /** The history stops with a message that authenticates the session, or reaches
      the handler. */
  predicate AsksFor(log: seq<Event>, e: Event) {
    && log != [] && log[|log| - 1].Arrived?
    && var last := log[|log| - 1];
       if e.Granted? then Admits(last.message, last.cfg, e.mode) else e.Called? && Reaches(last.message, last.cfg, e.name)
  }

  /** Handlers are called and sessions granted only as a message asks for it;
      handlers and notices come only after the session was granted, and notices
      in the mode that was granted; and nothing arrives once the session is over. */
  ghost predicate Ordered(log: seq<Event>) {
    log == [] ||
    var before, e := log[..|log| - 1], log[|log| - 1];
    && Ordered(before)
    && (e.Called? || e.Granted? ==> AsksFor(before, e))
    && (e.Arrived? ==> !Over(before))
    && (e.Called? ==> Grants(before) != [])
    && (e.Queued? && e.payload.Notice? ==> Grants(before) == [e.payload.mode])
  }

  /** The reply that is being queued. */
  function Held(reader: Reader): seq<Payload> {
    if reader.Replying? && reader.reply.Reply? then [reader.reply] else []
  }

  /** Authenticated is granted, once, and the mode is the one granted. */
  ghost predicate AuthKept(authenticated: bool, mode: Mode, notes: seq<Payload>, log: seq<Event>) {
    && (if authenticated then Grants(log) == [mode] else Grants(log) == [] && mode == Json)
    && Ordered(log)
    && (forall i :: 0 <= i < |notes| ==> authenticated && notes[i].Notice? && notes[i].mode == mode)
  }

  /** What is due has been queued, or is being queued, in order; a reader that
      is gone may have left one reply out. */
  ghost predicate RepliesKept(reader: Reader, log: seq<Event>) {
    && (reader.Replying? ==> reader.reply.Reply?)
    && (if reader.Gone? then Replies(log) <= Due(log) && |Due(log)| <= |Replies(log)| + 1
        else Replies(log) + Held(reader) == Due(log))
  }

  /** The reader goes on unless the session is over; a reader that is gone has
      closed the connection. */
  ghost predicate EndKept(reader: Reader, closed: bool, log: seq<Event>) {
    && (reader.Idle? ==> !Over(log))
    && (reader.Replying? ==> (reader.ends <==> Over(log)))
    && (reader.Gone? ==> closed)
  }

  /** The bytes written are the front of the bytes queued; as long as the writer
      works, the rest is in the queue, which is bounded. */
  ghost predicate BytesKept(outbound: seq<Payload>, written: string, writing: bool, log: seq<Event>, encode: Payload -> string) {
    && |outbound| <= QUEUE_DEPTH
    && written <= Stream(log, encode)
    && (writing ==> Stream(log, encode) == written + Flat(outbound, encode))
  }

  /** What holds in every state that a session can reach. */
  ghost predicate Safe(s: Session, encode: Payload -> string) {
    && AuthKept(s.authenticated, s.mode, s.notes, s.log)
    && RepliesKept(s.reader, s.log)
    && EndKept(s.reader, s.closed, s.log)
    && BytesKept(s.outbound, s.written, s.writing, s.log, encode)
  }
}
