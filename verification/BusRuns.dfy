/**
  The theorems about whole runs of the bus, over every interleaving of every number of
  connection handlers.
*/
module BusRuns {
  import opened Naming
  import opened Registry
  import opened Resolve
  import opened Bus
  import opened Ledgers
  import opened Deliveries
  import Limiter

  // ----- one invariant, kept by every step ---------------------------------------------------

  ghost predicate MessagesSound<R>(w: World<R>) {
    && FrameLedger(w) && LogLedger(w) && ChargeLedger(w)
    && RecipientsSound(w) && WritesExact(w) && FansOwned(w)
    && QuotaSound(w) && AdmittedAreLogged(w)
  }

  ghost predicate Inv<R>(w: World<R>) {
    Sound(w) && MembershipLedger(w) && JoinsAccountedFor(w) && MessagesSound(w)
  }

  lemma InitInv<R>(token: string)
    ensures Inv<R>(Init(token))
  {
    var w: World<R> := Init(token);
    forall sid ensures QuotaFor(w, sid) && AdmittedAreLoggedFor(w, sid) {
      assert Members(w, PublishersFor(sid)) == {};
    }
    assert forall group :: Members(w, group) == {};
    assert AgentKeys(w.reg) == {};
  }

  lemma SessionKeepsInv<R>(w: World<R>, r: R, s: SessionStep)
    requires Inv(w) && SessionEnabled(w, r, s)
    ensures Inv(ApplySession(w, r, s))
  {
    SessionKeepsSound(w, r, s);
    SessionKeepsMembership(w, r, s);
    SessionKeepsJoins(w, r, s);
    SessionKeepsFrames(w, r, s);
    SessionKeepsLog(w, r, s);
    SessionKeepsCharges(w, r, s);
    SessionKeepsRecipients(w, r, s);
    SessionKeepsDeliveries(w, r, s);
    SessionKeepsMessages(w, r, s);
    QuotaStays(w, ApplySession(w, r, s));
    SessionKeepsAdmitted(w, r, s);
  }

  lemma MessageKeepsInv<R>(w: World<R>, r: R, m: MessageStep<R>)
    requires Inv(w) && MessageEnabled(w, r, m)
    ensures Inv(ApplyMessage(w, r, m))
  {
    MessageKeepsSound(w, r, m);
    MessageKeepsMembership(w, r, m);
    MessageKeepsFrames(w, r, m);
    MessageKeepsLog(w, r, m);
    MessageKeepsCharges(w, r, m);
    MessageKeepsRecipients(w, r, m);
    MessageKeepsExact(w, r, m);
    MessageKeepsOwned(w, r, m);
    MessageKeepsQuota(w, r, m);
    MessageKeepsAdmitted(w, r, m);
  }

  lemma StepKeepsInv<R>(w: World<R>, a: Action<R>)
    requires Inv(w) && Enabled(w, a)
    ensures Inv(Apply(w, a))
  {
    match a
    case Session(r, s) => SessionKeepsInv(w, r, s);
    case Message(r, m) => MessageKeepsInv(w, r, m);
  }

  lemma {:induction false} RunKeepsInv<R>(w: World<R>, acts: seq<Action<R>>)
    requires Inv(w) && IsRun(w, acts)
    ensures Inv(After(w, acts))
    decreases |acts|
  {
    if acts != [] {
      StepKeepsInv(w, acts[0]);
      RunKeepsInv(Apply(w, acts[0]), acts[1..]);
    }
  }

  /** A state some run from the start reaches. */
  ghost predicate Reached<R>(w: World<R>, token: string, acts: seq<Action<R>>) {
    IsRun(Init(token), acts) && w == After(Init(token), acts)
  }

  lemma ReachedInv<R>(w: World<R>, token: string, acts: seq<Action<R>>)
    requires Reached(w, token, acts)
    ensures Inv(w)
  {
    InitInv<R>(token);
    RunKeepsInv(Init(token), acts);
  }

  lemma {:induction false} RunSnoc<R>(w: World<R>, acts: seq<Action<R>>, a: Action<R>)
    requires WellKeyed(w.reg) && IsRun(w, acts) && Enabled(After(w, acts), a)
    ensures IsRun(w, acts + [a]) && After(w, acts + [a]) == Apply(After(w, acts), a)
    decreases |acts|
  {
    var longer := acts + [a];
    if acts == [] {
      assert longer == [a] && longer[1..] == [];
    } else {
      assert longer[0] == acts[0] && longer[1..] == acts[1..] + [a];
      var v := Apply(w, acts[0]);
      RunSnoc(v, acts[1..], a);
    }
  }

  /** A reachable state's successors are reachable. */
  lemma StepReaches<R>(w: World<R>, token: string, acts: seq<Action<R>>, a: Action<R>)
    requires Reached(w, token, acts) && Enabled(w, a)
    ensures Reached(Apply(w, a), token, acts + [a])
  {
    RunSnoc(Init(token), acts, a);
  }

  // ----- the registry --------------------------------------------------------------------------

  /**
    In every reachable state each key is its entry's session id, no two keys share an
    object, agent names are empty or valid, and no two agents share a non-empty name.
  */
  lemma RegistryAlwaysConsistent<R>(w: World<R>, token: string, acts: seq<Action<R>>)
    requires Reached(w, token, acts)
    ensures WellKeyed(w.reg)
    ensures forall j, k | j in w.reg.registry && k in w.reg.registry && w.reg.registry[j] == w.reg.registry[k] :: j == k
    ensures forall k | IsAgentAt(w.reg, k) :: At(w.reg, k).name == "" || ValidName(At(w.reg, k).name)
    ensures forall j, k | IsAgentAt(w.reg, j) && IsAgentAt(w.reg, k)
                          && At(w.reg, j).name == At(w.reg, k).name != "" :: j == k
  {
    ReachedInv(w, token, acts);
    forall j, k | j in w.reg.registry && k in w.reg.registry && w.reg.registry[j] == w.reg.registry[k]
      ensures j == k
    {
      KeysDoNotShareObjects(w.reg, j, k);
    }
  }

  // ----- ledgers ---------------------------------------------------------------------------------

  /**
    The membership ledger. In every reachable state leaves never exceed joins, and when no
    agent's handler is between a registry change and its counter, joins less leaves is the
    connected agents, plus the agent entries replaced, less the agents whose welcome failed.
  */
  lemma MembershipTotals<R>(w: World<R>, token: string, acts: seq<Action<R>>)
    requires Reached(w, token, acts)
    ensures w.counters.left <= w.counters.joined
    ensures Members(w, WelcomingAgents) + Members(w, Joiners) + Members(w, Leavers) == {} ==>
      w.counters.joined - w.counters.left == Connected(w.reg) + w.tally.replaced - w.tally.failed
  {
    ReachedInv(w, token, acts);
  }

  /**
    The message ledger, when no handler is part-way through a frame: every send frame, every
    broadcast frame and every agent hello refused in the registry section is in exactly one
    of MsgsSent, MsgsBroadcast and MsgsRejected, except the sends whose resolution panicked;
    and the first two are the direct and broadcast records of the log.
  */
  lemma MessageTotals<R>(w: World<R>, token: string, acts: seq<Action<R>>)
    requires Reached(w, token, acts)
    requires Members(w, InFlight) == {}
    ensures w.counters.sent + w.counters.broadcast + w.counters.rejected
         == w.tally.sendFrames + w.tally.broadcastFrames + w.tally.refused - w.tally.panics
    ensures w.counters.sent == Directs(w.log)
    ensures w.counters.sent + w.counters.broadcast == |w.log|
  {
    ReachedInv(w, token, acts);
    NobodyFanning(w);
  }

  lemma NobodyFanning<R>(w: World<R>)
    requires Members(w, InFlight) == {}
    ensures Count(w, FanningDirect) == 0 && Count(w, FanningBroadcast) == 0
  {
    assert Members(w, FanningDirect) <= Members(w, InFlight);
    assert Members(w, FanningBroadcast) <= Members(w, InFlight);
  }

  /** Every agent the step brings has a session id of 8 bytes or more. */
  ghost predicate BringsLongSid<R>(a: Action<R>) {
    a.Session? && a.s.HelloIn? && a.s.hello.role == AgentRole
    ==> |AgentClient(a.s.hello, a.s.uuid, a.s.since).sid| >= SHORT_SID
  }

  /** All agents have long session ids, and no send has panicked. */
  ghost predicate LongSids<R>(w: World<R>) {
    && (forall r | r in w.reg.obj && w.reg.obj[r].role == Agent :: |w.reg.obj[r].sid| >= SHORT_SID)
    && w.tally.panics == 0
  }

  lemma SendKeepsLongSids<R>(w: World<R>, r: R, to: string, text: string)
    requires MessageEnabled(w, r, SendIn(to, text)) && LongSids(w)
    ensures SendStep(w, r, to, text).tally.panics == 0
  {
    PanicsExactlyWhen(w.reg, r, to);
  }

  lemma OnlySendsPanic<R>(w: World<R>, r: R, m: MessageStep<R>)
    requires MessageEnabled(w, r, m) && !m.SendIn?
    ensures ApplyMessage(w, r, m).tally.panics == w.tally.panics
  {
  }

  lemma HelloKeepsLongSids<R>(w: World<R>, r: R, h: Hello, uuid: string, since: int)
    requires WellKeyed(w.reg) && SessionEnabled(w, r, HelloIn(h, uuid, since)) && LongSids(w)
    requires h.role == AgentRole ==> |AgentClient(h, uuid, since).sid| >= SHORT_SID
    ensures LongSids(HelloStep(w, r, h, uuid, since))
  {
  }

  lemma SessionKeepsLongSids<R>(w: World<R>, r: R, s: SessionStep)
    requires WellKeyed(w.reg) && SessionEnabled(w, r, s) && LongSids(w) && BringsLongSid(Session(r, s))
    ensures LongSids(ApplySession(w, r, s))
  {
    if s.HelloIn? {
      HelloKeepsLongSids(w, r, s.hello, s.uuid, s.since);
    } else {
      SessionMovesActor(w, r, s);
      SessionKeepsMessages(w, r, s);
    }
  }

  lemma MessageKeepsLongSids<R>(w: World<R>, r: R, m: MessageStep<R>)
    requires MessageEnabled(w, r, m) && LongSids(w)
    ensures LongSids(ApplyMessage(w, r, m))
  {
    MessageKeepsReg(w, r, m);
    if m.SendIn? {
      SendKeepsLongSids(w, r, m.to, m.text);
    } else {
      OnlySendsPanic(w, r, m);
    }
  }

  lemma {:induction false} RunKeepsLongSids<R>(w: World<R>, acts: seq<Action<R>>)
    requires WellKeyed(w.reg) && IsRun(w, acts) && LongSids(w)
    requires forall a | a in acts :: BringsLongSid(a)
    ensures LongSids(After(w, acts))
    decreases |acts|
  {
    if acts != [] {
      match acts[0] {
        case Session(r, s) => SessionKeepsLongSids(w, r, s);
        case Message(r, m) => MessageKeepsLongSids(w, r, m);
      }
      RunKeepsLongSids(Apply(w, acts[0]), acts[1..]);
    }
  }

  /**
    No frame is ever lost to a panic in a run whose agents all come with session ids of 8
    bytes or more: the message ledger then closes without a correction.
  */
  lemma LongSidsNeverPanic<R>(w: World<R>, token: string, acts: seq<Action<R>>)
    requires Reached(w, token, acts) && forall a | a in acts :: BringsLongSid(a)
    ensures w.tally.panics == 0
    ensures Members(w, InFlight) == {} ==>
      w.counters.sent + w.counters.broadcast + w.counters.rejected
      == w.tally.sendFrames + w.tally.broadcastFrames + w.tally.refused
  {
    RunKeepsLongSids(Init(token), acts);
    if Members(w, InFlight) == {} {
      MessageTotals(w, token, acts);
    }
  }

  // ----- deliveries --------------------------------------------------------------------------------

  /**
    Every recipient of every logged message is an agent other than the sender's own listener;
    it is written to at most once, and exactly once when nobody is writing the message out
    any more. Nobody else is ever written to.
  */
  lemma EachRecipientOnce<R>(w: World<R>, token: string, acts: seq<Action<R>>, i: nat)
    requires Reached(w, token, acts) && i < |w.log|
    ensures i < |w.fan|
    ensures forall t | t in w.fan[i].targets ::
      && t in w.reg.obj && w.reg.obj[t].role == Agent && w.reg.obj[t].sid != w.log[i].from
      && w.writes[(i, t)] <= 1
      && (!BeingWritten(w, i) ==> w.writes[(i, t)] == 1)
    ensures forall p | p in w.writes :: p.0 < |w.fan| && p.1 in w.fan[p.0].targets
  {
    ReachedInv(w, token, acts);
    assert Recipients(w.reg, w.fan[i].targets, w.log[i].from);
  }

  lemma ReachedQuota<R>(w: World<R>, token: string, acts: seq<Action<R>>, sid: string)
    requires Reached(w, token, acts)
    ensures QuotaFor(w, sid)
  {
    ReachedInv(w, token, acts);
  }

  // ----- the rate limit ------------------------------------------------------------------------------

  /**
    The 60-per-minute limit over whole runs. If no clock reading charged to a listener lags
    an earlier one by more than d, any interval (x, x + 1 min - d] holds at most 60 admitted
    broadcasts of that listener, its own, its controls' and its reconnects' together.
  */
  lemma AtMostSixtyBroadcasts<R>(w: World<R>, token: string, acts: seq<Action<R>>, sid: string, d: int, x: int)
    requires Reached(w, token, acts)
    requires 0 <= d && Limiter.SkewAtMost(Readings(w.charges, sid), d)
    ensures Limiter.CountIn(AdmittedReadings(w.charges, sid), x, x + 60_000_000_000 - d) <= 60
  {
    ReachedQuota(w, token, acts, sid);
    QuotaBoundsAdmissions(w, sid, d, x);
  }

  lemma QuotaBoundsAdmissions<R>(w: World<R>, sid: string, d: int, x: int)
    requires QuotaFor(w, sid) && 0 <= d && Limiter.SkewAtMost(Readings(w.charges, sid), d)
    ensures Limiter.CountIn(AdmittedReadings(w.charges, sid), x, x + 60_000_000_000 - d) <= 60
  {
    Limiter.AtMostSixtyPerWindow(Readings(w.charges, sid), d, x);
  }

  lemma WindowByHistory(ts: seq<int>, now: int)
    requires Limiter.SkewAtMost(ts + [now], 0)
    ensures Limiter.Admits(Limiter.WindowAfter(ts), now)
        <==> Limiter.CountIn(Limiter.Admitted(ts), now - Limiter.MINUTE, now) < Limiter.BROADCAST_RATE_LIMIT
    ensures Limiter.Sorted(Limiter.WindowAfter(ts)) && |Limiter.WindowAfter(ts)| <= Limiter.BROADCAST_RATE_LIMIT
  {
    Limiter.AdmitsByHistory(ts, now);
    assert forall i | 0 <= i < |ts| :: (ts + [now])[i] == ts[i];
    Limiter.StoredWindowShape(ts);
  }

  lemma QuotaByHistory<R>(w: World<R>, sid: string, now: int)
    requires QuotaFor(w, sid) && Limiter.SkewAtMost(Readings(w.charges, sid) + [now], 0)
    ensures Limiter.Admits(Window(w, sid), now)
        <==> Limiter.CountIn(AdmittedReadings(w.charges, sid), now - Limiter.MINUTE, now) < Limiter.BROADCAST_RATE_LIMIT
    ensures Limiter.Sorted(Window(w, sid)) && |Window(w, sid)| <= Limiter.BROADCAST_RATE_LIMIT
  {
    WindowByHistory(Readings(w.charges, sid), now);
  }

  /** Handler `r`'s charge was decided by its listener's last minute of admitted broadcasts. */
  ghost predicate DecidedByHistory<R>(w: World<R>, v: World<R>, r: R)
    requires AtPc(w, r) && w.pc[r].Clocked? && r in v.pc
  {
    var sid, now := w.reg.obj[r].FromID(), w.pc[r].now;
    && (v.pc[r].Publishing? <==>
          Limiter.CountIn(AdmittedReadings(w.charges, sid), now - Limiter.MINUTE, now) < Limiter.BROADCAST_RATE_LIMIT)
    && Limiter.Sorted(Window(w, sid)) && |Window(w, sid)| <= Limiter.BROADCAST_RATE_LIMIT
  }

  lemma ChargeStepByHistory<R>(w: World<R>, r: R)
    requires AtPc(w, r) && w.pc[r].Clocked? && QuotaFor(w, w.reg.obj[r].FromID())
    requires Limiter.SkewAtMost(Readings(w.charges, w.reg.obj[r].FromID()) + [w.pc[r].now], 0)
    ensures DecidedByHistory(w, ChargeStep(w, r), r)
  {
    QuotaByHistory(w, w.reg.obj[r].FromID(), w.pc[r].now);
  }

  /**
    With a clock that never steps back, a charge is admitted exactly when fewer than 60
    broadcasts of the listener were admitted in the minute before it, and the stored window
    is sorted and holds at most 60 entries.
  */
  lemma ChargeDecidesByHistory<R>(w: World<R>, token: string, acts: seq<Action<R>>, r: R)
    requires Reached(w, token, acts) && MessageEnabled(w, r, ChargeQuota)
    requires Limiter.SkewAtMost(Readings(w.charges, w.reg.obj[r].FromID()) + [w.pc[r].now], 0)
    ensures DecidedByHistory(w, ApplyMessage(w, r, ChargeQuota), r)
  {
    ReachedQuota(w, token, acts, w.reg.obj[r].FromID());
    ChargeStepByHistory(w, r);
  }

  /**
    A broadcast over the text cap, or from a dead listener, never reaches the limiter: over
    every run the charges are exactly the other broadcast frames, bar those of handlers
    still on their way to it.
  */
  lemma RefusedBroadcastChargesNothing<R>(w: World<R>, token: string, acts: seq<Action<R>>)
    requires Reached(w, token, acts)
    ensures |w.charges| == w.tally.broadcastFrames - w.tally.early - Count(w, Chargers)
    ensures forall r, text | MessageEnabled(w, r, BroadcastIn(text)) ::
      CountsEarly(w, ApplyMessage(w, r, BroadcastIn(text)), r, text)
  {
    ReachedInv(w, token, acts);
    assert ChargeLedger(w);
    forall r, text | MessageEnabled(w, r, BroadcastIn(text))
      ensures CountsEarly(w, ApplyMessage(w, r, BroadcastIn(text)), r, text)
    {
      BroadcastCountsEarly(w, r, text);
    }
  }

  /** A broadcast of `r` is counted as early exactly when it is refused before the limiter. */
  ghost predicate CountsEarly<R>(w: World<R>, v: World<R>, r: R, text: string)
    requires r in w.reg.obj && r in v.pc
  {
    if |text| > 256 * 1024 || !ListenerAlive(w.reg, r) then
      && v.tally.early == w.tally.early + 1 && v.windows == w.windows && v.charges == w.charges
      && v.pc[r] == Rejecting(if |text| > 256 * 1024 then TextTooLong else Unauthorized)
    else v.tally.early == w.tally.early && v.pc[r].Charging?
  }

  lemma BroadcastCountsEarly<R>(w: World<R>, r: R, text: string)
    requires MessageEnabled(w, r, BroadcastIn(text))
    ensures r in ApplyMessage(w, r, BroadcastIn(text)).pc
    ensures CountsEarly(w, ApplyMessage(w, r, BroadcastIn(text)), r, text)
  {
  }

  /** The broadcasts the bound counts are the ones in the log: none is published uncharged. */
  lemma LoggedBroadcastsWereAdmitted<R>(w: World<R>, token: string, acts: seq<Action<R>>, sid: string)
    requires Reached(w, token, acts)
    ensures BroadcastsFrom(w.log, sid) <= |AdmittedReadings(w.charges, sid)|
    ensures (forall r | r in w.pc :: !w.pc[r].Publishing?)
        ==> BroadcastsFrom(w.log, sid) == |AdmittedReadings(w.charges, sid)|
  {
    ReachedInv(w, token, acts);
    NoPublishers(w, sid);
    assert AdmittedAreLoggedFor(w, sid);
  }

  lemma NoPublishers<R>(w: World<R>, sid: string)
    ensures (forall r | r in w.pc :: !w.pc[r].Publishing?) ==> Count(w, PublishersFor(sid)) == 0
  {
    if forall r | r in w.pc :: !w.pc[r].Publishing? {
      assert Members(w, PublishersFor(sid)) == {};
    }
  }

  // ----- identity of sessions and objects ---------------------------------------------------------------

  /** Session id `k` is registered in every state of the run. */
  ghost predicate StaysRegistered<R>(w: World<R>, acts: seq<Action<R>>, k: string)
    requires WellKeyed(w.reg) && IsRun(w, acts)
    decreases |acts|
  {
    && k in w.reg.registry
    && (acts != [] ==> StaysRegistered(Apply(w, acts[0]), acts[1..], k))
  }

  lemma HelloIsContinuous<R>(w: World<R>, r: R, h: Hello, uuid: string, since: int)
    requires WellKeyed(w.reg) && SessionEnabled(w, r, HelloIn(h, uuid, since))
    ensures Continuous(w.reg, HelloStep(w, r, h, uuid, since).reg)
  {
    AgentHelloContinuous(w.reg, r, AgentClient(h, uuid, since));
    if h.role == ControlRole {
      ControlHelloContinuous(w.reg, r, uuid, h.forSession, h.nonce, h.pid, since);
    }
  }

  lemma SessionIsContinuous<R>(w: World<R>, r: R, s: SessionStep)
    requires WellKeyed(w.reg) && SessionEnabled(w, r, s)
    ensures Continuous(w.reg, ApplySession(w, r, s).reg)
  {
    match s
    case HelloIn(h, uuid, since) => HelloIsContinuous(w, r, h, uuid, since);
    case RenameIn(name) => RenameContinuous(w.reg, r, name);
    case UnregisterOwn => UnregisterContinuous(w.reg, r);
    case _ => PlainStepKeepsReg(w, r, s);
  }

  lemma StepIsContinuous<R>(w: World<R>, a: Action<R>)
    requires WellKeyed(w.reg) && Enabled(w, a)
    ensures Continuous(w.reg, Apply(w, a).reg)
  {
    match a
    case Session(r, s) => SessionIsContinuous(w, r, s);
    case Message(r, m) => MessageKeepsReg(w, r, m);
  }

  /** While a session id stays registered as an agent, its role and nonce never change. */
  lemma {:induction false} SessionContinuity<R>(w: World<R>, acts: seq<Action<R>>, k: string)
    requires WellKeyed(w.reg) && IsRun(w, acts) && IsAgentAt(w.reg, k) && StaysRegistered(w, acts, k)
    ensures IsAgentAt(After(w, acts).reg, k)
    ensures At(After(w, acts).reg, k).nonce == At(w.reg, k).nonce
    decreases |acts|
  {
    if acts != [] {
      StepIsContinuous(w, acts[0]);
      SessionContinuity(Apply(w, acts[0]), acts[1..], k);
    }
  }

  /** A client object's fields never change, its name aside. */
  lemma {:induction false} ObjectsKeepIdentity<R>(w: World<R>, acts: seq<Action<R>>, r: R)
    requires WellKeyed(w.reg) && IsRun(w, acts) && r in w.reg.obj
    ensures var v := After(w, acts); r in v.reg.obj && v.reg.obj[r] == w.reg.obj[r].(name := v.reg.obj[r].name)
    decreases |acts|
  {
    if acts != [] {
      var a := acts[0];
      match a {
        case Session(x, s) => SessionMovesActor(w, x, s);
        case Message(x, m) => MessageMovesActor(w, x, m);
      }
      ObjectsKeepIdentity(Apply(w, a), acts[1..], r);
    }
  }

  /**
    A control's nonce is its listener's for as long as the listener's session id has stayed
    registered since the control's hello, through any number of replacements.
  */
  lemma ControlMatchesListener<R>(w: World<R>, r: R, h: Hello, uuid: string, since: int, acts: seq<Action<R>>)
    requires WellKeyed(w.reg) && SessionEnabled(w, r, HelloIn(h, uuid, since))
    requires h.role == ControlRole && MayEnter(h, w.token)
    requires ControlVerdict(w.reg, h.forSession, h.nonce) == Accepted
    requires var v := Apply(w, Session(r, HelloIn(h, uuid, since)));
             IsRun(v, acts) && StaysRegistered(v, acts, h.forSession)
    ensures var z := After(Apply(w, Session(r, HelloIn(h, uuid, since))), acts);
            && r in z.reg.obj && z.reg.obj[r].FromID() == h.forSession
            && IsAgentAt(z.reg, h.forSession) && At(z.reg, h.forSession).nonce == z.reg.obj[r].nonce
  {
    var v := Apply(w, Session(r, HelloIn(h, uuid, since)));
    assert IsAgentAt(v.reg, h.forSession) && At(v.reg, h.forSession).nonce == h.nonce;
    SessionContinuity(v, acts, h.forSession);
    ObjectsKeepIdentity(v, acts, r);
  }

  /**
    The condition is needed: a control whose listener is gone counts as alive again as soon
    as anyone registers the session id, whatever the nonce.
  */
  lemma StaleControlRevives<R>(g: Reg<R>, r: R, late: R, c: Client)
    requires WellKeyed(g) && r in g.obj && late !in g.obj
    requires g.obj[r].role == Control && g.obj[r].forSession != "" && c.role == Agent
    requires !ListenerAlive(g, r) && c.sid == g.obj[r].forSession
    ensures ListenerAlive(AgentHello(g, late, c), r) <==> AgentVerdict(g, c) == Accepted
    ensures AgentVerdict(g, c) == Accepted
        <==> c.name == "" || forall k | IsAgentAt(g, k) :: At(g, k).name != c.name
  {
    AcceptedIff(g, c);
  }

  ghost predicate Registered<R>(w: World<R>, r: R) {
    r in w.reg.registry.Values
  }

  /** Every entry of `after` was there before, or is the new object `r`. */
  ghost predicate AddsOnly<R>(before: Reg<R>, after: Reg<R>, r: R) {
    forall k | k in after.registry ::
      || (k in before.registry && after.registry[k] == before.registry[k])
      || (after.registry[k] == r && r !in before.obj)
  }

  lemma HelloAddsOnlyActor<R>(w: World<R>, r: R, h: Hello, uuid: string, since: int)
    requires WellKeyed(w.reg) && SessionEnabled(w, r, HelloIn(h, uuid, since))
    ensures AddsOnly(w.reg, HelloStep(w, r, h, uuid, since).reg, r)
  {
  }

  lemma SessionAddsOnlyActor<R>(w: World<R>, r: R, s: SessionStep)
    requires WellKeyed(w.reg) && SessionEnabled(w, r, s)
    ensures AddsOnly(w.reg, ApplySession(w, r, s).reg, r)
  {
    match s
    case HelloIn(h, uuid, since) => HelloAddsOnlyActor(w, r, h, uuid, since);
    case RenameIn(name) => RenameOnlyListener(w.reg, r, name);
    case UnregisterOwn =>
    case _ => PlainStepKeepsReg(w, r, s);
  }

  lemma StepAdmitsOnlyNewObjects<R>(w: World<R>, a: Action<R>, r: R)
    requires WellKeyed(w.reg) && Enabled(w, a) && r in w.reg.obj && !Registered(w, r)
    ensures r in Apply(w, a).reg.obj && !Registered(Apply(w, a), r)
  {
    match a
    case Session(x, s) =>
      SessionMovesActor(w, x, s);
      SessionAddsOnlyActor(w, x, s);
    case Message(x, m) => MessageKeepsReg(w, x, m);
  }

  /** A client object that lost its entry, or never had one, never gets in again. */
  lemma {:induction false} RemovedNeverReturns<R>(w: World<R>, acts: seq<Action<R>>, r: R)
    requires WellKeyed(w.reg) && IsRun(w, acts) && r in w.reg.obj && !Registered(w, r)
    ensures r in After(w, acts).reg.obj && !Registered(After(w, acts), r)
    decreases |acts|
  {
    if acts != [] {
      StepAdmitsOnlyNewObjects(w, acts[0], r);
      RemovedNeverReturns(Apply(w, acts[0]), acts[1..], r);
    }
  }

  /** `unregister` removes its own entry and no other. */
  lemma UnregisterRemovesOnlyOwn<R>(w: World<R>, r: R)
    requires WellKeyed(w.reg) && SessionEnabled(w, r, UnregisterOwn)
    ensures var v := ApplySession(w, r, UnregisterOwn);
            && !Registered(v, r)
            && (forall k | k in w.reg.registry && w.reg.registry[k] != r ::
                  k in v.reg.registry && v.reg.registry[k] == w.reg.registry[k])
            && (forall k | k in v.reg.registry :: k in w.reg.registry)
            && (v.pc[r].Leaving? <==> w.reg.obj[r].role == Agent && Registered(w, r))
  {
    var v := ApplySession(w, r, UnregisterOwn);
    forall k | k in w.reg.registry && w.reg.registry[k] == r ensures k == w.reg.obj[r].sid {
    }
  }

  /**
    A handler whose entry was taken over does nothing when it finally leaves, however much
    later that is: no entry removed, no peer_left counted or announced.
  */
  lemma ReplacedHandlerLeavesSilently<R>(w: World<R>, acts: seq<Action<R>>, r: R)
    requires WellKeyed(w.reg) && IsRun(w, acts) && r in w.reg.obj && !Registered(w, r)
    requires SessionEnabled(After(w, acts), r, UnregisterOwn)
    ensures var v := After(w, acts);
            var z := ApplySession(v, r, UnregisterOwn);
            z.reg == v.reg && z.counters == v.counters && z.pc[r].Closed?
  {
    RemovedNeverReturns(w, acts, r);
    var v := After(w, acts);
    UnregisterRemovesOnlyOwn(v, r);
    assert OwnsEntry(v.reg, r) ==> Registered(v, r);
  }

  // ----- entries nobody will unregister ----------------------------------------------------------------

  /** The only steps that can take away an entry whose welcome failed. */
  ghost predicate Reclaims<R>(w: World<R>, a: Action<R>, k: string)
    requires WellKeyed(w.reg) && k in w.reg.registry
  {
    && a.Session? && a.s.HelloIn? && a.s.hello.role == AgentRole && MayEnter(a.s.hello, w.token)
    && (if a.s.hello.sid == "" then a.s.uuid else a.s.hello.sid) == k
    && a.s.hello.nonce != "" && a.s.hello.nonce == At(w.reg, k).nonce
  }

  lemma FailedEntryHello<R>(w: World<R>, r: R, h: Hello, uuid: string, since: int, k: string)
    requires WellKeyed(w.reg) && SessionEnabled(w, r, HelloIn(h, uuid, since)) && k in w.reg.registry
    ensures var v := HelloStep(w, r, h, uuid, since);
            (k in v.reg.registry && v.reg.registry[k] == w.reg.registry[k])
            <==> !Reclaims(w, Session(r, HelloIn(h, uuid, since)), k)
  {
  }

  lemma FailedEntrySession<R>(w: World<R>, x: R, s: SessionStep, k: string)
    requires WellKeyed(w.reg) && SessionEnabled(w, x, s) && k in w.reg.registry
    requires w.reg.registry[k] in w.pc && w.pc[w.reg.registry[k]].Failed?
    ensures var v := ApplySession(w, x, s);
            (k in v.reg.registry && v.reg.registry[k] == w.reg.registry[k]) <==> !Reclaims(w, Session(x, s), k)
  {
    match s
    case HelloIn(h, uuid, since) => FailedEntryHello(w, x, h, uuid, since, k);
    case RenameIn(name) => RenameOnlyListener(w.reg, x, name);
    case UnregisterOwn =>
    case _ => PlainStepKeepsReg(w, x, s);
  }

  lemma FailedEntryStep<R>(w: World<R>, a: Action<R>, k: string)
    requires WellKeyed(w.reg) && Enabled(w, a)
    requires k in w.reg.registry && w.reg.registry[k] in w.pc && w.pc[w.reg.registry[k]].Failed?
    ensures var v := Apply(w, a);
            (k in v.reg.registry && v.reg.registry[k] == w.reg.registry[k]) <==> !Reclaims(w, a, k)
    ensures w.reg.registry[k] in Apply(w, a).pc && Apply(w, a).pc[w.reg.registry[k]].Failed?
  {
    match a
    case Session(x, s) =>
      SessionMovesActor(w, x, s);
      FailedEntrySession(w, x, s, k);
    case Message(x, m) =>
      MessageKeepsReg(w, x, m);
      MessageMovesActor(w, x, m);
      MessageStaysInService(w, x, m);
  }

  /**
    An agent that registered with an empty nonce and whose welcome write failed stays in the
    registry for ever: no handler unregisters it and no hello can replace it.
  */
  lemma {:induction false} FailedWelcomeWithoutNonceStays<R>(w: World<R>, acts: seq<Action<R>>, k: string)
    requires WellKeyed(w.reg) && IsRun(w, acts)
    requires k in w.reg.registry && w.reg.registry[k] in w.pc && w.pc[w.reg.registry[k]].Failed?
    requires At(w.reg, k).nonce == ""
    ensures var v := After(w, acts); k in v.reg.registry && v.reg.registry[k] == w.reg.registry[k]
    decreases |acts|
  {
    if acts != [] {
      var v := Apply(w, acts[0]);
      FailedEntryStep(w, acts[0], k);
      StepKeepsObject(w, acts[0], w.reg.registry[k]);
      FailedWelcomeWithoutNonceStays(v, acts[1..], k);
    }
  }

  lemma StepKeepsObject<R>(w: World<R>, a: Action<R>, r: R)
    requires WellKeyed(w.reg) && Enabled(w, a) && r in w.reg.obj
    ensures r in Apply(w, a).reg.obj
    ensures Apply(w, a).reg.obj[r] == w.reg.obj[r].(name := Apply(w, a).reg.obj[r].name)
  {
    match a
    case Session(x, s) => SessionMovesActor(w, x, s);
    case Message(x, m) => MessageMovesActor(w, x, m);
  }

  // ----- convergence of hellos ---------------------------------------------------------------------------

  /**
    A hello refused with a candidate, sent again under that candidate with no registry step
    in between, is welcomed: the candidate passes every check the first hello passed.
  */
  lemma RetryIsWelcomed<R>(w: World<R>, r: R, h: Hello, uuid: string, since: int, r2: R, uuid2: string, since2: int)
    requires Sound(w) && SessionEnabled(w, r, HelloIn(h, uuid, since))
    requires h.role == AgentRole && MayEnter(h, w.token)
    requires AgentVerdict(w.reg, AgentClient(h, uuid, since)).Refused?
    requires AgentVerdict(w.reg, AgentClient(h, uuid, since)).candidate.Some?
    requires var v := ApplySession(w, r, HelloIn(h, uuid, since));
             r2 !in v.pc && r2 !in v.reg.obj && (h.sid == "" ==> uuid2 !in v.reg.registry)
    ensures var v := ApplySession(w, r, HelloIn(h, uuid, since));
            var again := h.(name := AgentVerdict(w.reg, AgentClient(h, uuid, since)).candidate.value);
            && SessionEnabled(v, r2, HelloIn(again, uuid2, since2))
            && r2 in ApplySession(v, r2, HelloIn(again, uuid2, since2)).pc
            && ApplySession(v, r2, HelloIn(again, uuid2, since2)).pc[r2].Welcoming?
  {
    var c := AgentClient(h, uuid, since);
    var again := h.(name := AgentVerdict(w.reg, c).candidate.value);
    NextFreeKeepsValidity(h.name, AgentNames(Vacated(w.reg, c.sid)));
    CandidateIsAccepted(w.reg, r, c, AgentClient(again, uuid2, since2));
  }
}
