/**
  The bus as a machine of atomic steps. Each connection handler runs the code of
  internal/bus/handler.go and internal/bus/ops.go; what happens under `registryMu` or
  `broadcastMu` is one step, every unlocked counter update, log append and frame write is a
  step of its own, and the steps of all handlers interleave freely. A handler is known by
  its `clientState` object.
*/
module Bus {
  import opened Text
  import opened Naming
  import opened Registry
  import opened Resolve
  import Limiter

  const TEXT_CAP: nat := 10 * 1024 * 1024
  const BROADCAST_TEXT_CAP: nat := 256 * 1024

  // ----- the state ---------------------------------------------------------------

  /** What a handler does next. */
  datatype Pc<R> =
    | Welcoming                                          // registered; welcome not yet written
    | Joining                                            // welcomed; PeerJoinedTotal not yet bumped
    | Refusing(code: Code)                               // agent hello refused; MsgsRejected not yet bumped
    | Serving                                            // waiting for a frame
    | Sending(target: R, text: string)                   // send resolved; not yet logged
    | Charging(targets: set<R>, text: string)            // broadcast snapshot taken
    | Clocked(targets: set<R>, text: string, now: int)   // clock read; quota not yet charged
    | Publishing(targets: set<R>, text: string)          // broadcast admitted; not yet logged
    | Fanning(id: nat, direct: bool)                     // record `id` logged; writes under way
    | Rejecting(code: Code)                              // frame refused; MsgsRejected not yet bumped
    | Departing                                          // dispatch loop left; unregister to come
    | Leaving                                            // own entry removed; PeerLeftTotal not yet bumped
    | Failed                                             // welcome failed: returned without unregister
    | Closed

  datatype Counters = Counters(sent: nat, broadcast: nat, rejected: nat, joined: nat, left: nat)

  /** A record of messages.log; broadcasts leave `to` and `toSid` empty. */
  datatype Rec = Rec(direct: bool, from: string, fromName: string, fromLabel: string,
                     to: string, toSid: string, text: string)

  /** The clients a logged message goes to, and those not yet written to. */
  datatype Fan<R> = Fan(targets: set<R>, todo: set<R>)

  /** One charge of the broadcast limiter, in the order `broadcastMu` serialises them. */
  datatype Charge = Charge(listener: string, at: int, admitted: bool)

  /** Event counts the code does not keep, for stating its ledgers. */
  datatype Tally = Tally(replaced: nat, failed: nat, silent: nat, sendFrames: nat,
                         broadcastFrames: nat, early: nat, refused: nat, panics: nat)

  datatype World<R> = World(
    token: string,
    reg: Reg<R>,
    pc: map<R, Pc<R>>,
    counters: Counters,
    windows: map<string, seq<int>>,
    log: seq<Rec>,
    fan: seq<Fan<R>>,
    writes: multiset<(nat, R)>,
    charges: seq<Charge>,
    tally: Tally)

  function Init<R>(token: string): World<R> {
    World(token, Reg(map[], map[]), map[], Counters(0, 0, 0, 0, 0), map[], [], [],
          multiset{}, [], Tally(0, 0, 0, 0, 0, 0, 0, 0))
  }

  // ----- hello frames --------------------------------------------------------------

  /** The role a hello asks for; none given means an agent. */
  datatype HelloRole = AgentRole | ControlRole | OtherRole

  /** A decoded hello; `labelValid` is the verdict of `validate.Label`, `labelText` normalised. */
  datatype Hello = Hello(sid: string, name: string, labelText: string, labelValid: bool, cwd: string,
                         pid: int, role: HelloRole, token: string, nonce: string, forSession: string)

  /** The checks of `doHello` made before any lock is taken. */
  function Screen(h: Hello, token: string): Option<Code> {
    if h.token != token then Some(Unauthorized)
    else if h.name != "" && !ValidName(h.name) then Some(InvalidName)
    else if !h.labelValid then Some(InvalidLabel)
    else if h.role == OtherRole then Some(InvalidPayload)
    else if h.role == ControlRole && h.forSession == "" then Some(InvalidPayload)
    else None
  }

  /** What a hello must show before any lock is taken. */
  ghost predicate MayEnter(h: Hello, token: string) {
    && h.token == token
    && (h.name == "" || ValidName(h.name))
    && h.labelValid
    && (h.role == AgentRole || (h.role == ControlRole && h.forSession != ""))
  }

  /** The first thing wrong with a hello gives the code it is answered with. */
  lemma FirstFaultGivesCode(h: Hello, token: string)
    ensures h.token != token ==> Screen(h, token) == Some(Unauthorized)
    ensures h.token == token && h.name != "" && !ValidName(h.name) ==> Screen(h, token) == Some(InvalidName)
    ensures h.token == token && (h.name == "" || ValidName(h.name)) && !h.labelValid
      ==> Screen(h, token) == Some(InvalidLabel)
    ensures h.token == token && (h.name == "" || ValidName(h.name)) && h.labelValid
            && (h.role == OtherRole || (h.role == ControlRole && h.forSession == ""))
      ==> Screen(h, token) == Some(InvalidPayload)
    ensures Screen(h, token).None? <==> MayEnter(h, token)
  {
  }

  /** The client object `helloAgent` builds; an empty session id is replaced by a new one. */
  function AgentClient(h: Hello, uuid: string, since: int): Client {
    Client(if h.sid == "" then uuid else h.sid, Agent, h.name, h.labelText, h.cwd, h.pid, h.nonce, "", since)
  }

  // ----- steps -----------------------------------------------------------------------

  /** The steps of a connection's life. */
  datatype SessionStep =
    | HelloIn(hello: Hello, uuid: string, since: int)
    | WelcomeOut(ok: bool)
    | CountJoin
    | RenameIn(name: string)
    | CountRejected
    | Disconnect
    | UnregisterOwn
    | CountLeft

  /** The steps of a message frame. */
  datatype MessageStep<R> =
    | SendIn(to: string, text: string)
    | LogSend
    | BroadcastIn(text: string)
    | ReadClock(now: int)
    | ChargeQuota
    | LogBroadcast
    | WriteTo(target: R)
    | CountMessage

  datatype Action<R> =
    | Session(r: R, s: SessionStep)
    | Message(r: R, m: MessageStep<R>)

  ghost predicate AtPc<R>(w: World<R>, r: R) {
    r in w.pc && r in w.reg.obj
  }

  /** The session steps handler `r` can take; the identifier of a new control is assumed fresh. */
  ghost predicate SessionEnabled<R>(w: World<R>, r: R, s: SessionStep) {
    match s
    case HelloIn(hello, uuid, _) =>
      r !in w.pc && r !in w.reg.obj && (hello.role == ControlRole ==> uuid !in w.reg.registry)
    case WelcomeOut(_) => AtPc(w, r) && w.pc[r].Welcoming?
    case CountJoin => AtPc(w, r) && w.pc[r].Joining?
    case RenameIn(_) => AtPc(w, r) && w.pc[r].Serving?
    case CountRejected => AtPc(w, r) && (w.pc[r].Refusing? || w.pc[r].Rejecting?)
    case Disconnect => AtPc(w, r) && w.pc[r].Serving?
    case UnregisterOwn => AtPc(w, r) && w.pc[r].Departing?
    case CountLeft => AtPc(w, r) && w.pc[r].Leaving?
  }

  ghost predicate MessageEnabled<R>(w: World<R>, r: R, m: MessageStep<R>) {
    AtPc(w, r) &&
    match m
    case SendIn(_, _) => w.pc[r].Serving?
    case LogSend => w.pc[r].Sending?
    case BroadcastIn(_) => w.pc[r].Serving?
    case ReadClock(_) => w.pc[r].Charging?
    case ChargeQuota => w.pc[r].Clocked?
    case LogBroadcast => w.pc[r].Publishing?
    case WriteTo(t) => w.pc[r].Fanning? && w.pc[r].id < |w.fan| && t in w.fan[w.pc[r].id].todo
    case CountMessage => w.pc[r].Fanning? && w.pc[r].id < |w.fan| && w.fan[w.pc[r].id].todo == {}
  }

  ghost predicate Enabled<R>(w: World<R>, a: Action<R>) {
    match a
    case Session(r, s) => SessionEnabled(w, r, s)
    case Message(r, m) => MessageEnabled(w, r, m)
  }

  function MoveTo<R>(w: World<R>, r: R, p: Pc<R>): World<R> {
    w.(pc := w.pc[r := p])
  }

  ghost function HelloStep<R>(w: World<R>, r: R, h: Hello, uuid: string, since: int): World<R>
    requires WellKeyed(w.reg) && r !in w.reg.obj
  {
    if Screen(h, w.token).Some? then w
    else if h.role == AgentRole then
      var c := AgentClient(h, uuid, since);
      var verdict := AgentVerdict(w.reg, c);
      var reclaimed := IsAgentAt(w.reg, c.sid) && !SidInUse(w.reg, c);
      var tally := w.tally.(replaced := w.tally.replaced + if reclaimed then 1 else 0,
                            refused := w.tally.refused + if verdict == Accepted then 0 else 1);
      MoveTo(w.(reg := AgentHello(w.reg, r, c), tally := tally), r,
             if verdict == Accepted then Welcoming else Refusing(verdict.code))
    else if ControlVerdict(w.reg, h.forSession, h.nonce) == Accepted then
      MoveTo(w.(reg := ControlHello(w.reg, r, uuid, h.forSession, h.nonce, h.pid, since)), r, Welcoming)
    else w
  }

  ghost function SendStep<R>(w: World<R>, r: R, to: string, text: string): World<R>
    requires AtPc(w, r)
  {
    var counted := w.(tally := w.tally.(sendFrames := w.tally.sendFrames + 1));
    if |text| > TEXT_CAP then MoveTo(counted, r, Rejecting(TextTooLong))
    else
      match ResolveTarget(w.reg, r, to)
      case Deliver(t) => MoveTo(counted, r, Sending(t, text))
      case Panicked =>
        MoveTo(counted.(tally := counted.tally.(panics := w.tally.panics + 1)), r, Departing)
      case out => MoveTo(counted, r, Rejecting(CodeOf(out).value))
  }

  /** Every registered agent but the sender's own listener. */
  ghost function BroadcastTargets<R>(g: Reg<R>, r: R): set<R>
    requires r in g.obj
  {
    set t | t in Agents(g) && g.obj[t].sid != g.obj[r].FromID()
  }

  /** A broadcast refused before the limiter sees it. */
  ghost predicate TurnedAway<R>(w: World<R>, r: R, text: string)
    requires r in w.reg.obj
  {
    |text| > BROADCAST_TEXT_CAP || !ListenerAlive(w.reg, r)
  }

  ghost function BroadcastStep<R>(w: World<R>, r: R, text: string): World<R>
    requires AtPc(w, r)
  {
    var refused := TurnedAway(w, r, text);
    var counted := w.(tally := w.tally.(broadcastFrames := w.tally.broadcastFrames + 1,
                                        early := w.tally.early + if refused then 1 else 0));
    MoveTo(counted, r, if |text| > BROADCAST_TEXT_CAP then Rejecting(TextTooLong)
                       else if refused then Rejecting(Unauthorized)
                       else Charging(BroadcastTargets(w.reg, r), text))
  }

  function Window<R>(w: World<R>, sid: string): seq<int> {
    if sid in w.windows then w.windows[sid] else []
  }

  ghost function ChargeStep<R>(w: World<R>, r: R): World<R>
    requires AtPc(w, r) && w.pc[r].Clocked?
  {
    var sid, p := w.reg.obj[r].FromID(), w.pc[r];
    var admitted := Limiter.Admits(Window(w, sid), p.now);
    MoveTo(w.(windows := w.windows[sid := Limiter.Charged(Window(w, sid), p.now)],
              charges := w.charges + [Charge(sid, p.now, admitted)]), r,
           if admitted then Publishing(p.targets, p.text) else Rejecting(RateLimited))
  }

  /** Append a record and start writing it to `targets`. */
  ghost function Publish<R>(w: World<R>, r: R, rec: Rec, targets: set<R>): World<R> {
    MoveTo(w.(log := w.log + [rec], fan := w.fan + [Fan(targets, targets)]), r, Fanning(|w.log|, rec.direct))
  }

  ghost function LogSendStep<R>(w: World<R>, r: R): World<R>
    requires AtPc(w, r) && w.pc[r].Sending?
  {
    var me, t := w.reg.obj[r], w.pc[r].target;
    var to := if t in w.reg.obj then w.reg.obj[t] else me;
    Publish(w, r, Rec(true, me.FromID(), me.name, me.labelText, to.name, to.sid, w.pc[r].text), {t})
  }

  ghost function LogBroadcastStep<R>(w: World<R>, r: R): World<R>
    requires AtPc(w, r) && w.pc[r].Publishing?
  {
    var me, p := w.reg.obj[r], w.pc[r];
    Publish(w, r, Rec(false, me.FromID(), me.name, me.labelText, "", "", p.text), p.targets)
  }

  ghost function WriteStep<R>(w: World<R>, r: R, t: R): World<R>
    requires AtPc(w, r) && w.pc[r].Fanning? && w.pc[r].id < |w.fan|
  {
    var id := w.pc[r].id;
    var f := w.fan[id];
    w.(fan := w.fan[id := f.(todo := f.todo - {t})], writes := w.writes + multiset{(id, t)})
  }

  ghost function CountMessageStep<R>(w: World<R>, r: R): World<R>
    requires AtPc(w, r) && w.pc[r].Fanning?
  {
    var c := w.counters;
    MoveTo(w.(counters := if w.pc[r].direct then c.(sent := c.sent + 1) else c.(broadcast := c.broadcast + 1)),
           r, Serving)
  }

  ghost function WelcomeStep<R>(w: World<R>, r: R, ok: bool): World<R>
    requires AtPc(w, r)
  {
    var agent := w.reg.obj[r].role == Agent;
    if !ok then
      MoveTo(w.(tally := w.tally.(failed := w.tally.failed + if agent then 1 else 0)), r, Failed)
    else MoveTo(w, r, if agent then Joining else Serving)
  }

  ghost function UnregisterStep<R>(w: World<R>, r: R): World<R>
    requires WellKeyed(w.reg) && AtPc(w, r)
  {
    var agent, own := w.reg.obj[r].role == Agent, OwnsEntry(w.reg, r);
    MoveTo(w.(reg := Registry.Unregister(w.reg, r),
              tally := w.tally.(silent := w.tally.silent + if agent && !own then 1 else 0)), r,
           if agent && own then Leaving else Closed)
  }

  ghost function CountRejectedStep<R>(w: World<R>, r: R): World<R>
    requires AtPc(w, r)
  {
    MoveTo(w.(counters := w.counters.(rejected := w.counters.rejected + 1)), r,
           if w.pc[r].Refusing? then Closed else Serving)
  }

  ghost function ApplySession<R>(w: World<R>, r: R, s: SessionStep): (v: World<R>)
    requires WellKeyed(w.reg) && SessionEnabled(w, r, s)
    ensures WellKeyed(v.reg)
  {
    match s
    case HelloIn(hello, uuid, since) => HelloStep(w, r, hello, uuid, since)
    case WelcomeOut(ok) => WelcomeStep(w, r, ok)
    case CountJoin => MoveTo(w.(counters := w.counters.(joined := w.counters.joined + 1)), r, Serving)
    case RenameIn(name) => w.(reg := Rename(w.reg, r, name))
    case CountRejected => CountRejectedStep(w, r)
    case Disconnect => MoveTo(w, r, Departing)
    case UnregisterOwn => UnregisterStep(w, r)
    case CountLeft => MoveTo(w.(counters := w.counters.(left := w.counters.left + 1)), r, Closed)
  }

  ghost function ApplyMessage<R>(w: World<R>, r: R, m: MessageStep<R>): (v: World<R>)
    requires MessageEnabled(w, r, m)
  {
    match m
    case SendIn(to, text) => SendStep(w, r, to, text)
    case LogSend => LogSendStep(w, r)
    case BroadcastIn(text) => BroadcastStep(w, r, text)
    case ReadClock(now) => MoveTo(w, r, Clocked(w.pc[r].targets, w.pc[r].text, now))
    case ChargeQuota => ChargeStep(w, r)
    case LogBroadcast => LogBroadcastStep(w, r)
    case WriteTo(t) => WriteStep(w, r, t)
    case CountMessage => CountMessageStep(w, r)
  }

  ghost function Apply<R>(w: World<R>, a: Action<R>): (v: World<R>)
    requires WellKeyed(w.reg) && Enabled(w, a)
    ensures WellKeyed(v.reg)
  {
    match a
    case Session(r, s) => ApplySession(w, r, s)
    case Message(r, m) => MessageKeepsReg(w, r, m); ApplyMessage(w, r, m)
  }

  /** Message steps leave the registry and the membership counters alone. */
  ghost predicate OnlyMessages<R>(w: World<R>, v: World<R>) {
    && v.reg == w.reg && v.token == w.token
    && v.counters.joined == w.counters.joined && v.counters.left == w.counters.left
    && v.tally.replaced == w.tally.replaced && v.tally.failed == w.tally.failed
    && v.tally.silent == w.tally.silent && v.tally.refused == w.tally.refused
  }

  lemma MessageKeepsReg<R>(w: World<R>, r: R, m: MessageStep<R>)
    requires MessageEnabled(w, r, m)
    ensures OnlyMessages(w, ApplyMessage(w, r, m))
  {
  }

  /** Session steps leave the log, its deliveries and the limiter alone. */
  ghost predicate OnlySession<R>(w: World<R>, v: World<R>) {
    && v.log == w.log && v.fan == w.fan && v.writes == w.writes
    && v.windows == w.windows && v.charges == w.charges
    && v.counters.sent == w.counters.sent && v.counters.broadcast == w.counters.broadcast
    && v.tally.sendFrames == w.tally.sendFrames && v.tally.broadcastFrames == w.tally.broadcastFrames
    && v.tally.early == w.tally.early && v.tally.panics == w.tally.panics
  }

  lemma SessionKeepsMessages<R>(w: World<R>, r: R, s: SessionStep)
    requires WellKeyed(w.reg) && SessionEnabled(w, r, s)
    ensures OnlySession(w, ApplySession(w, r, s))
  {
  }

  // ----- runs ------------------------------------------------------------------------

  ghost predicate IsRun<R>(w: World<R>, acts: seq<Action<R>>)
    requires WellKeyed(w.reg)
    decreases |acts|
  {
    acts != [] ==> Enabled(w, acts[0]) && IsRun(Apply(w, acts[0]), acts[1..])
  }

  /** The state a run ends in. */
  ghost function After<R>(w: World<R>, acts: seq<Action<R>>): (v: World<R>)
    requires WellKeyed(w.reg) && IsRun(w, acts)
    ensures WellKeyed(v.reg)
    decreases |acts|
  {
    if acts == [] then w else After(Apply(w, acts[0]), acts[1..])
  }
}
