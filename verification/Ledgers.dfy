/**
  What every step of the bus keeps: the registry invariants, and exact ledgers for joins,
  frames, log records and deliveries, with the handlers caught between a change and its
  counter appearing as explicit terms.
*/
module Ledgers {
  import opened Registry
  import opened Bus

  // ----- counting handlers -----------------------------------------------------------

  datatype Group =
    | WelcomingAgents | Joiners | Leavers | ActiveAgents | InFlight
    | Chargers | FanningDirect | FanningBroadcast | PublishersFor(listener: string)

  ghost predicate InGroup<R>(group: Group, c: Client, p: Pc<R>) {
    match group
    case WelcomingAgents => p.Welcoming? && c.role == Agent
    case Joiners => p.Joining?
    case Leavers => p.Leaving?
    case ActiveAgents =>
      c.role == Agent && !p.Welcoming? && !p.Joining? && !p.Refusing? && !p.Failed? && !p.Closed?
    case InFlight =>
      p.Refusing? || p.Sending? || p.Charging? || p.Clocked? || p.Publishing? || p.Fanning? || p.Rejecting?
    case Chargers => p.Charging? || p.Clocked?
    case FanningDirect => p.Fanning? && p.direct
    case FanningBroadcast => p.Fanning? && !p.direct
    case PublishersFor(listener) => p.Publishing? && c.FromID() == listener
  }

  ghost function Members<R>(w: World<R>, group: Group): set<R> {
    set r | r in w.pc && r in w.reg.obj && InGroup(group, w.reg.obj[r], w.pc[r])
  }

  ghost function Count<R>(w: World<R>, group: Group): nat {
    |Members(w, group)|
  }

  /** What handler `r` contributes to a group. */
  ghost function Bit<R>(w: World<R>, r: R, group: Group): nat {
    if AtPc(w, r) && InGroup(group, w.reg.obj[r], w.pc[r]) then 1 else 0
  }

  /** Between `w` and `v` only handler `r` moved; other objects changed at most their name. */
  ghost predicate OnlyMoves<R>(w: World<R>, v: World<R>, r: R) {
    && w.pc.Keys <= v.pc.Keys <= w.pc.Keys + {r}
    && w.reg.obj.Keys <= v.reg.obj.Keys <= w.reg.obj.Keys + {r}
    && (forall x | x in w.pc && x != r :: v.pc[x] == w.pc[x])
    && (forall x | x in w.reg.obj :: v.reg.obj[x] == w.reg.obj[x].(name := v.reg.obj[x].name))
  }

  /** The session steps that leave the registry alone. */
  predicate IsPlain(s: SessionStep) {
    !s.HelloIn? && !s.RenameIn? && !s.UnregisterOwn?
  }

  lemma PlainStepKeepsReg<R>(w: World<R>, r: R, s: SessionStep)
    requires WellKeyed(w.reg) && SessionEnabled(w, r, s) && IsPlain(s)
    ensures ApplySession(w, r, s).reg == w.reg && ApplySession(w, r, s).pc == w.pc[r := ApplySession(w, r, s).pc[r]]
  {
  }

  lemma HelloMovesActor<R>(w: World<R>, r: R, h: Hello, uuid: string, since: int)
    requires WellKeyed(w.reg) && SessionEnabled(w, r, HelloIn(h, uuid, since))
    ensures OnlyMoves(w, HelloStep(w, r, h, uuid, since), r)
  {
  }

  lemma RenameMovesActor<R>(w: World<R>, r: R, name: string)
    requires WellKeyed(w.reg) && AtPc(w, r)
    ensures OnlyMoves(w, w.(reg := Rename(w.reg, r, name)), r)
  {
    RenameOnlyListener(w.reg, r, name);
  }

  lemma UnregisterMovesActor<R>(w: World<R>, r: R)
    requires WellKeyed(w.reg) && AtPc(w, r)
    ensures OnlyMoves(w, UnregisterStep(w, r), r)
  {
  }

  lemma SessionMovesActor<R>(w: World<R>, r: R, s: SessionStep)
    requires WellKeyed(w.reg) && SessionEnabled(w, r, s)
    ensures OnlyMoves(w, ApplySession(w, r, s), r)
  {
    match s
    case HelloIn(h, uuid, since) => HelloMovesActor(w, r, h, uuid, since);
    case RenameIn(name) => RenameMovesActor(w, r, name);
    case UnregisterOwn => UnregisterMovesActor(w, r);
    case _ => PlainStepKeepsReg(w, r, s);
  }

  lemma MessageMovesActor<R>(w: World<R>, r: R, m: MessageStep<R>)
    requires MessageEnabled(w, r, m)
    ensures OnlyMoves(w, ApplyMessage(w, r, m), r)
  {
    MessageKeepsReg(w, r, m);
  }

  lemma MoveOneElement<R>(was: set<R>, now: set<R>, r: R)
    requires was - {r} == now - {r}
    ensures |now| == |was| - (if r in was then 1 else 0) + if r in now then 1 else 0
  {
    assert r in was ==> was == (was - {r}) + {r};
    assert r in now ==> now == (now - {r}) + {r};
    assert r !in was ==> was == was - {r};
    assert r !in now ==> now == now - {r};
  }

  lemma StaysInGroup<R>(w: World<R>, v: World<R>, r: R, x: R, group: Group)
    requires OnlyMoves(w, v, r) && x != r
    ensures x in Members(w, group) <==> x in Members(v, group)
  {
    if AtPc(w, x) {
      assert v.reg.obj[x].FromID() == w.reg.obj[x].FromID();
    }
  }

  lemma CountMoves<R>(w: World<R>, v: World<R>, r: R, group: Group)
    requires OnlyMoves(w, v, r)
    ensures Count(v, group) == Count(w, group) - Bit(w, r, group) + Bit(v, r, group)
  {
    var was, now := Members(w, group), Members(v, group);
    forall x | x != r ensures x in was <==> x in now {
      StaysInGroup(w, v, r, x, group);
    }
    assert was - {r} == now - {r};
    MoveOneElement(was, now, r);
  }

  /** Between a frame's arrival and its answer or its last write. */
  ghost predicate MidFrame<R>(p: Pc<R>) {
    p.Sending? || p.Charging? || p.Clocked? || p.Publishing? || p.Fanning?
  }

  lemma SessionOutsideFrames<R>(w: World<R>, r: R, s: SessionStep)
    requires WellKeyed(w.reg) && SessionEnabled(w, r, s)
    ensures r in w.pc ==> !MidFrame(w.pc[r])
    ensures r in ApplySession(w, r, s).pc ==> !MidFrame(ApplySession(w, r, s).pc[r])
  {
  }

  // ----- the registry invariant ---------------------------------------------------------

  /** The places a handler can be while its object is in the registry. */
  ghost predicate MayBeRegistered<R>(p: Pc<R>) {
    !p.Refusing? && !p.Leaving? && !p.Closed?
  }

  ghost predicate OnlyAgentsAt<R>(p: Pc<R>) {
    p.Refusing? || p.Joining? || p.Leaving?
  }

  ghost predicate Sound<R>(w: World<R>) {
    && Consistent(w.reg)
    && w.pc.Keys == w.reg.obj.Keys
    && (forall k | k in w.reg.registry :: MayBeRegistered(w.pc[w.reg.registry[k]]))
    && (forall r | r in w.pc && OnlyAgentsAt(w.pc[r]) :: w.reg.obj[r].role == Agent)
  }

  lemma HelloKeepsSound<R>(w: World<R>, r: R, h: Hello, uuid: string, since: int)
    requires Sound(w) && SessionEnabled(w, r, HelloIn(h, uuid, since))
    ensures Sound(HelloStep(w, r, h, uuid, since))
  {
    if Screen(h, w.token).None? {
      AgentHelloKeeps(w.reg, r, AgentClient(h, uuid, since));
      ControlHelloKeeps(w.reg, r, uuid, h.forSession, h.nonce, h.pid, since);
    }
  }

  lemma RenameKeepsSound<R>(w: World<R>, r: R, name: string)
    requires Sound(w) && r in w.pc
    ensures Sound(w.(reg := Rename(w.reg, r, name)))
  {
    RenameKeeps(w.reg, r, name);
    RenameOnlyListener(w.reg, r, name);
  }

  lemma UnregisterKeepsSound<R>(w: World<R>, r: R)
    requires Sound(w) && r in w.pc && w.pc[r].Departing?
    ensures Sound(UnregisterStep(w, r))
  {
    UnregisterKeeps(w.reg, r);
    var v := UnregisterStep(w, r);
    forall k | k in v.reg.registry ensures k in w.reg.registry && v.reg.registry[k] != r {
      assert w.reg.obj[w.reg.registry[k]].sid == k;
    }
  }

  /** Where a handler is while it serves frames. */
  ghost predicate InService<R>(p: Pc<R>) {
    && !p.Welcoming? && !p.Joining? && !p.Refusing? && !p.Leaving? && !p.Failed? && !p.Closed?
  }

  lemma MessageStaysInService<R>(w: World<R>, r: R, m: MessageStep<R>)
    requires MessageEnabled(w, r, m)
    ensures InService(w.pc[r])
    ensures r in ApplyMessage(w, r, m).pc && InService(ApplyMessage(w, r, m).pc[r])
  {
  }

  /** A step that keeps the registry and leaves its actor where registered objects may be. */
  lemma PlainKeepsSound<R>(w: World<R>, v: World<R>, r: R)
    requires Sound(w) && OnlyMoves(w, v, r) && v.reg == w.reg && r in w.pc
    requires MayBeRegistered(v.pc[r]) || !MayBeRegistered(w.pc[r])
    requires OnlyAgentsAt(v.pc[r]) ==> w.reg.obj[r].role == Agent
    ensures Sound(v)
  {
  }

  lemma SessionKeepsSound<R>(w: World<R>, r: R, s: SessionStep)
    requires Sound(w) && SessionEnabled(w, r, s)
    ensures Sound(ApplySession(w, r, s))
  {
    match s
    case HelloIn(hello, uuid, since) => HelloKeepsSound(w, r, hello, uuid, since);
    case RenameIn(name) => RenameKeepsSound(w, r, name);
    case UnregisterOwn => UnregisterKeepsSound(w, r);
    case _ => PlainStepKeepsSound(w, r, s);
  }

  lemma PlainStepKeepsSound<R>(w: World<R>, r: R, s: SessionStep)
    requires Sound(w) && SessionEnabled(w, r, s) && IsPlain(s)
    ensures Sound(ApplySession(w, r, s))
  {
    SessionMovesActor(w, r, s);
    PlainStepKeepsReg(w, r, s);
    PlainStepPlaces(w, r, s);
    PlainKeepsSound(w, ApplySession(w, r, s), r);
  }

  lemma PlainStepPlaces<R>(w: World<R>, r: R, s: SessionStep)
    requires WellKeyed(w.reg) && SessionEnabled(w, r, s) && IsPlain(s)
    ensures var p := ApplySession(w, r, s).pc[r];
            && r in w.pc && (MayBeRegistered(p) || !MayBeRegistered(w.pc[r]))
            && (OnlyAgentsAt(p) ==> w.reg.obj[r].role == Agent)
  {
  }

  lemma MessageKeepsSound<R>(w: World<R>, r: R, m: MessageStep<R>)
    requires Sound(w) && MessageEnabled(w, r, m)
    ensures Sound(ApplyMessage(w, r, m))
  {
    MessageKeepsReg(w, r, m);
    MessageMovesActor(w, r, m);
    MessageStaysInService(w, r, m);
    PlainKeepsSound(w, ApplyMessage(w, r, m), r);
  }

  // ----- membership -----------------------------------------------------------------------

  ghost function Connected<R>(g: Reg<R>): nat {
    |AgentKeys(g)|
  }

  /** The membership counters against the registry and its replacements. */
  ghost function MembershipBalance<R>(w: World<R>): int {
    w.counters.joined + w.tally.failed - w.counters.left - w.tally.replaced - Connected(w.reg)
  }

  /**
    PeerJoinedTotal - PeerLeftTotal is the number of connected agents, plus the entries
    removed by replacement, less the registrations whose welcome failed, once every handler
    has caught up with its counter.
  */
  ghost predicate MembershipLedger<R>(w: World<R>) {
    MembershipBalance(w) + Count(w, WelcomingAgents) + Count(w, Joiners) == Count(w, Leavers)
  }

  /** Every counted join is still an active agent, has been counted out, or left silently. */
  ghost predicate JoinsAccountedFor<R>(w: World<R>) {
    w.counters.joined == w.counters.left + Count(w, ActiveAgents) + w.tally.silent
  }

  lemma ConnectedAfterHello<R>(g: Reg<R>, r: R, c: Client)
    requires WellKeyed(g) && r !in g.obj && c.role == Agent
    ensures Connected(AgentHello(g, r, c))
         == Connected(g) - (if IsAgentAt(g, c.sid) && !SidInUse(g, c) then 1 else 0)
            + (if AgentVerdict(g, c) == Accepted then 1 else 0)
  {
    var h := AgentHello(g, r, c);
    var before, after := AgentKeys(g), AgentKeys(h);
    if SidInUse(g, c) {
      assert after == before;
    } else {
      forall k | k != c.sid ensures k in after <==> k in before {
      }
      assert after - {c.sid} == before - {c.sid};
      MoveOneElement(before, after, c.sid);
    }
  }

  lemma ConnectedAfterUnregister<R>(g: Reg<R>, r: R)
    requires WellKeyed(g) && r in g.obj
    ensures Connected(Unregister(g, r))
         == Connected(g) - if OwnsEntry(g, r) && g.obj[r].role == Agent then 1 else 0
  {
    var sid := g.obj[r].sid;
    if OwnsEntry(g, r) {
      assert AgentKeys(Unregister(g, r)) == AgentKeys(g) - {sid};
    }
  }

  lemma ConnectedSame<R>(g: Reg<R>, h: Reg<R>)
    requires forall k :: IsAgentAt(g, k) <==> IsAgentAt(h, k)
    ensures Connected(g) == Connected(h)
  {
    assert AgentKeys(g) == AgentKeys(h);
  }

  lemma ConnectedAfterControlHello<R>(g: Reg<R>, r: R, uuid: string, forSession: string, nonce: string, pid: int, since: int)
    requires WellKeyed(g) && r !in g.obj && uuid !in g.registry
    ensures Connected(ControlHello(g, r, uuid, forSession, nonce, pid, since)) == Connected(g)
  {
    ConnectedSame(g, ControlHello(g, r, uuid, forSession, nonce, pid, since));
  }

  lemma ConnectedAfterRename<R>(g: Reg<R>, r: R, name: string)
    requires WellKeyed(g) && r in g.obj
    ensures Connected(Rename(g, r, name)) == Connected(g)
  {
    RenameOnlyListener(g, r, name);
    ConnectedSame(g, Rename(g, r, name));
  }

  ghost function MembershipShare<R>(w: World<R>, r: R): int {
    Bit(w, r, WelcomingAgents) + Bit(w, r, Joiners) - Bit(w, r, Leavers)
  }

  ghost predicate MembershipBalanced<R>(w: World<R>, v: World<R>, r: R) {
    MembershipBalance(v) + MembershipShare(v, r) == MembershipBalance(w) + MembershipShare(w, r)
  }

  lemma MembershipFollows<R>(w: World<R>, v: World<R>, r: R)
    requires OnlyMoves(w, v, r) && MembershipLedger(w)
    requires MembershipBalanced(w, v, r)
    ensures MembershipLedger(v)
  {
    CountMoves(w, v, r, WelcomingAgents);
    CountMoves(w, v, r, Joiners);
    CountMoves(w, v, r, Leavers);
  }

  lemma HelloBalance<R>(w: World<R>, r: R, h: Hello, uuid: string, since: int)
    requires Sound(w) && SessionEnabled(w, r, HelloIn(h, uuid, since))
    ensures MembershipBalanced(w, HelloStep(w, r, h, uuid, since), r)
  {
    if Screen(h, w.token).None? {
      if h.role == ControlRole {
        ConnectedAfterControlHello(w.reg, r, uuid, h.forSession, h.nonce, h.pid, since);
      } else {
        AgentHelloBalance(w, r, h, uuid, since);
      }
    }
  }

  lemma AgentHelloBalance<R>(w: World<R>, r: R, h: Hello, uuid: string, since: int)
    requires WellKeyed(w.reg) && r !in w.reg.obj && Screen(h, w.token).None? && h.role == AgentRole
    ensures MembershipBalanced(w, HelloStep(w, r, h, uuid, since), r)
  {
    ConnectedAfterHello(w.reg, r, AgentClient(h, uuid, since));
  }

  lemma SessionBalance<R>(w: World<R>, r: R, s: SessionStep)
    requires Sound(w) && SessionEnabled(w, r, s)
    ensures MembershipBalanced(w, ApplySession(w, r, s), r)
  {
    match s
    case HelloIn(h, uuid, since) => HelloBalance(w, r, h, uuid, since);
    case RenameIn(name) => RenameBalance(w, r, name);
    case UnregisterOwn => UnregisterBalance(w, r);
    case _ => PlainBalance(w, r, s);
  }

  lemma RenameBalance<R>(w: World<R>, r: R, name: string)
    requires WellKeyed(w.reg) && AtPc(w, r)
    ensures MembershipBalanced(w, w.(reg := Rename(w.reg, r, name)), r)
  {
    ConnectedAfterRename(w.reg, r, name);
    RenameOnlyListener(w.reg, r, name);
  }

  lemma UnregisterBalance<R>(w: World<R>, r: R)
    requires WellKeyed(w.reg) && SessionEnabled(w, r, UnregisterOwn)
    ensures MembershipBalanced(w, UnregisterStep(w, r), r)
  {
    ConnectedAfterUnregister(w.reg, r);
  }

  lemma PlainBalance<R>(w: World<R>, r: R, s: SessionStep)
    requires Sound(w) && SessionEnabled(w, r, s) && IsPlain(s)
    ensures MembershipBalanced(w, ApplySession(w, r, s), r)
  {
    PlainStepKeepsReg(w, r, s);
    if s.WelcomeOut? {
      WelcomeBalance(w, r, s.ok);
    }
  }

  lemma WelcomeBalance<R>(w: World<R>, r: R, ok: bool)
    requires AtPc(w, r) && w.pc[r].Welcoming?
    ensures MembershipBalanced(w, WelcomeStep(w, r, ok), r)
  {
  }

  lemma SessionKeepsMembership<R>(w: World<R>, r: R, s: SessionStep)
    requires Sound(w) && SessionEnabled(w, r, s) && MembershipLedger(w)
    ensures MembershipLedger(ApplySession(w, r, s))
  {
    SessionMovesActor(w, r, s);
    SessionBalance(w, r, s);
    MembershipFollows(w, ApplySession(w, r, s), r);
  }

  ghost function JoinBalance<R>(w: World<R>): int {
    w.counters.joined - w.counters.left - w.tally.silent
  }

  ghost predicate JoinsBalanced<R>(w: World<R>, v: World<R>, r: R) {
    JoinBalance(v) - Bit(v, r, ActiveAgents) == JoinBalance(w) - Bit(w, r, ActiveAgents)
  }

  lemma JoinsFollow<R>(w: World<R>, v: World<R>, r: R)
    requires OnlyMoves(w, v, r) && JoinsAccountedFor(w)
    requires JoinsBalanced(w, v, r)
    ensures JoinsAccountedFor(v)
  {
    CountMoves(w, v, r, ActiveAgents);
  }

  lemma SessionJoinBalance<R>(w: World<R>, r: R, s: SessionStep)
    requires Sound(w) && SessionEnabled(w, r, s)
    ensures JoinsBalanced(w, ApplySession(w, r, s), r)
  {
    match s
    case HelloIn(h, uuid, since) => HelloJoinBalance(w, r, h, uuid, since);
    case RenameIn(name) => RenameJoinBalance(w, r, name);
    case UnregisterOwn => UnregisterJoinBalance(w, r);
    case _ => PlainJoinBalance(w, r, s);
  }

  lemma RenameJoinBalance<R>(w: World<R>, r: R, name: string)
    requires WellKeyed(w.reg) && AtPc(w, r)
    ensures JoinsBalanced(w, w.(reg := Rename(w.reg, r, name)), r)
  {
    RenameOnlyListener(w.reg, r, name);
  }

  lemma PlainJoinBalance<R>(w: World<R>, r: R, s: SessionStep)
    requires Sound(w) && SessionEnabled(w, r, s) && IsPlain(s)
    ensures JoinsBalanced(w, ApplySession(w, r, s), r)
  {
  }

  lemma HelloJoinBalance<R>(w: World<R>, r: R, h: Hello, uuid: string, since: int)
    requires Sound(w) && SessionEnabled(w, r, HelloIn(h, uuid, since))
    ensures JoinsBalanced(w, HelloStep(w, r, h, uuid, since), r)
  {
  }

  lemma UnregisterJoinBalance<R>(w: World<R>, r: R)
    requires Sound(w) && SessionEnabled(w, r, UnregisterOwn)
    ensures JoinsBalanced(w, UnregisterStep(w, r), r)
  {
  }

  lemma SessionKeepsJoins<R>(w: World<R>, r: R, s: SessionStep)
    requires Sound(w) && SessionEnabled(w, r, s) && JoinsAccountedFor(w)
    ensures JoinsAccountedFor(ApplySession(w, r, s))
  {
    SessionMovesActor(w, r, s);
    SessionJoinBalance(w, r, s);
    JoinsFollow(w, ApplySession(w, r, s), r);
  }

  lemma ServiceKeepsMembership<R>(w: World<R>, v: World<R>, r: R)
    requires OnlyMoves(w, v, r) && OnlyMessages(w, v) && AtPc(w, r)
    requires InService(w.pc[r]) && InService(v.pc[r])
    requires MembershipLedger(w) && JoinsAccountedFor(w)
    ensures MembershipLedger(v) && JoinsAccountedFor(v)
  {
    MembershipFollows(w, v, r);
    JoinsFollow(w, v, r);
  }

  /** A message step does not move its handler in or out of the membership groups. */
  lemma MessageKeepsMembership<R>(w: World<R>, r: R, m: MessageStep<R>)
    requires MessageEnabled(w, r, m) && MembershipLedger(w) && JoinsAccountedFor(w)
    ensures MembershipLedger(ApplyMessage(w, r, m)) && JoinsAccountedFor(ApplyMessage(w, r, m))
  {
    MessageKeepsReg(w, r, m);
    MessageMovesActor(w, r, m);
    MessageStaysInService(w, r, m);
    ServiceKeepsMembership(w, ApplyMessage(w, r, m), r);
  }

  // ----- frames and records ------------------------------------------------------------------

  ghost function FrameBalance<R>(w: World<R>): int {
    w.counters.sent + w.counters.broadcast + w.counters.rejected + w.tally.panics
    - w.tally.sendFrames - w.tally.broadcastFrames - w.tally.refused
  }

  /** Every frame and refused hello ends up in one counter, panicked sends aside. */
  ghost predicate FrameLedger<R>(w: World<R>) {
    FrameBalance(w) + Count(w, InFlight) == 0
  }

  function Directs(log: seq<Rec>): nat {
    if log == [] then 0 else Directs(log[..|log| - 1]) + if log[|log| - 1].direct then 1 else 0
  }

  /** MsgsSent and MsgsBroadcast trail the log by the messages still being written out. */
  ghost predicate LogLedger<R>(w: World<R>) {
    && w.counters.sent + Count(w, FanningDirect) == Directs(w.log)
    && w.counters.broadcast + Count(w, FanningBroadcast) + Directs(w.log) == |w.log|
  }

  lemma DirectsSnoc(log: seq<Rec>, rec: Rec)
    ensures Directs(log + [rec]) == Directs(log) + if rec.direct then 1 else 0
  {
    assert (log + [rec])[..|log|] == log;
  }

  ghost predicate FramesBalanced<R>(w: World<R>, v: World<R>, r: R) {
    FrameBalance(v) + Bit(v, r, InFlight) == FrameBalance(w) + Bit(w, r, InFlight)
  }

  lemma FramesFollow<R>(w: World<R>, v: World<R>, r: R)
    requires OnlyMoves(w, v, r) && FrameLedger(w)
    requires FramesBalanced(w, v, r)
    ensures FrameLedger(v)
  {
    CountMoves(w, v, r, InFlight);
  }

  lemma HelloFrameBalance<R>(w: World<R>, r: R, h: Hello, uuid: string, since: int)
    requires WellKeyed(w.reg) && SessionEnabled(w, r, HelloIn(h, uuid, since))
    ensures FramesBalanced(w, HelloStep(w, r, h, uuid, since), r)
  {
  }

  lemma SessionFrameBalance<R>(w: World<R>, r: R, s: SessionStep)
    requires WellKeyed(w.reg) && SessionEnabled(w, r, s)
    ensures FramesBalanced(w, ApplySession(w, r, s), r)
  {
    match s
    case HelloIn(h, uuid, since) => HelloFrameBalance(w, r, h, uuid, since);
    case RenameIn(name) => RenameFrameBalance(w, r, name);
    case UnregisterOwn => UnregisterFrameBalance(w, r);
    case _ => PlainFrameBalance(w, r, s);
  }

  lemma RenameFrameBalance<R>(w: World<R>, r: R, name: string)
    requires WellKeyed(w.reg) && AtPc(w, r)
    ensures FramesBalanced(w, w.(reg := Rename(w.reg, r, name)), r)
  {
    RenameOnlyListener(w.reg, r, name);
  }

  lemma UnregisterFrameBalance<R>(w: World<R>, r: R)
    requires WellKeyed(w.reg) && SessionEnabled(w, r, UnregisterOwn)
    ensures FramesBalanced(w, UnregisterStep(w, r), r)
  {
  }

  lemma PlainFrameBalance<R>(w: World<R>, r: R, s: SessionStep)
    requires WellKeyed(w.reg) && SessionEnabled(w, r, s) && IsPlain(s)
    ensures FramesBalanced(w, ApplySession(w, r, s), r)
  {
  }

  lemma MessageFrameBalance<R>(w: World<R>, r: R, m: MessageStep<R>)
    requires MessageEnabled(w, r, m)
    ensures FramesBalanced(w, ApplyMessage(w, r, m), r)
  {
    match m
    case SendIn(to, text) => SendFrameBalance(w, r, to, text);
    case BroadcastIn(text) => BroadcastFrameBalance(w, r, text);
    case CountMessage => CountMessageFrameBalance(w, r);
    case _ => OthersFrameBalance(w, r, m);
  }

  lemma CountMessageFrameBalance<R>(w: World<R>, r: R)
    requires AtPc(w, r) && w.pc[r].Fanning?
    ensures FramesBalanced(w, CountMessageStep(w, r), r)
  {
  }

  lemma OthersFrameBalance<R>(w: World<R>, r: R, m: MessageStep<R>)
    requires MessageEnabled(w, r, m) && !m.SendIn? && !m.BroadcastIn? && !m.CountMessage?
    ensures FramesBalanced(w, ApplyMessage(w, r, m), r)
  {
  }

  lemma SendFrameBalance<R>(w: World<R>, r: R, to: string, text: string)
    requires AtPc(w, r) && w.pc[r].Serving?
    ensures FramesBalanced(w, SendStep(w, r, to, text), r)
  {
  }

  lemma BroadcastFrameBalance<R>(w: World<R>, r: R, text: string)
    requires AtPc(w, r) && w.pc[r].Serving?
    ensures FramesBalanced(w, BroadcastStep(w, r, text), r)
  {
  }

  lemma SessionKeepsFrames<R>(w: World<R>, r: R, s: SessionStep)
    requires WellKeyed(w.reg) && SessionEnabled(w, r, s) && FrameLedger(w)
    ensures FrameLedger(ApplySession(w, r, s))
  {
    SessionMovesActor(w, r, s);
    SessionFrameBalance(w, r, s);
    FramesFollow(w, ApplySession(w, r, s), r);
  }

  lemma MessageKeepsFrames<R>(w: World<R>, r: R, m: MessageStep<R>)
    requires MessageEnabled(w, r, m) && FrameLedger(w)
    ensures FrameLedger(ApplyMessage(w, r, m))
  {
    MessageMovesActor(w, r, m);
    MessageFrameBalance(w, r, m);
    FramesFollow(w, ApplyMessage(w, r, m), r);
  }

  lemma SessionKeepsLog<R>(w: World<R>, r: R, s: SessionStep)
    requires WellKeyed(w.reg) && SessionEnabled(w, r, s) && LogLedger(w)
    ensures LogLedger(ApplySession(w, r, s))
  {
    SessionMovesActor(w, r, s);
    SessionKeepsMessages(w, r, s);
    SessionOutsideFrames(w, r, s);
    LogUntouched(w, ApplySession(w, r, s), r);
    LogFollows(w, ApplySession(w, r, s), r);
  }

  lemma LogUntouched<R>(w: World<R>, v: World<R>, r: R)
    requires OnlySession(w, v)
    requires r in w.pc ==> !MidFrame(w.pc[r])
    requires r in v.pc ==> !MidFrame(v.pc[r])
    ensures LogBalanced(w, v, r) && ChargesBalanced(w, v, r)
  {
  }

  ghost function DirectBalance<R>(w: World<R>): int {
    w.counters.sent - Directs(w.log)
  }

  ghost function BroadcastBalance<R>(w: World<R>): int {
    w.counters.broadcast + Directs(w.log) - |w.log|
  }

  lemma LogFollows<R>(w: World<R>, v: World<R>, r: R)
    requires OnlyMoves(w, v, r) && LogLedger(w)
    requires LogBalanced(w, v, r)
    ensures LogLedger(v)
  {
    CountMoves(w, v, r, FanningDirect);
    CountMoves(w, v, r, FanningBroadcast);
  }

  /** A step that keeps both balances, its own handler's share included. */
  ghost predicate LogBalanced<R>(w: World<R>, v: World<R>, r: R) {
    && DirectBalance(v) + Bit(v, r, FanningDirect) == DirectBalance(w) + Bit(w, r, FanningDirect)
    && BroadcastBalance(v) + Bit(v, r, FanningBroadcast) == BroadcastBalance(w) + Bit(w, r, FanningBroadcast)
  }

  lemma PublishLogBalance<R>(w: World<R>, r: R, rec: Rec, targets: set<R>)
    requires AtPc(w, r) && !w.pc[r].Fanning?
    ensures LogBalanced(w, Publish(w, r, rec, targets), r)
  {
    DirectsSnoc(w.log, rec);
  }

  lemma LogSendLogBalance<R>(w: World<R>, r: R)
    requires AtPc(w, r) && w.pc[r].Sending?
    ensures LogBalanced(w, LogSendStep(w, r), r)
  {
    PublishLogBalance(w, r, LogSendStep(w, r).log[|w.log|], {w.pc[r].target});
  }

  lemma LogBroadcastLogBalance<R>(w: World<R>, r: R)
    requires AtPc(w, r) && w.pc[r].Publishing?
    ensures LogBalanced(w, LogBroadcastStep(w, r), r)
  {
    PublishLogBalance(w, r, LogBroadcastStep(w, r).log[|w.log|], w.pc[r].targets);
  }

  lemma CountMessageLogBalance<R>(w: World<R>, r: R)
    requires AtPc(w, r) && w.pc[r].Fanning?
    ensures LogBalanced(w, CountMessageStep(w, r), r)
  {
  }

  lemma OnlyPublishingLogs<R>(w: World<R>, r: R, m: MessageStep<R>)
    requires MessageEnabled(w, r, m) && !m.LogSend? && !m.LogBroadcast?
    ensures ApplyMessage(w, r, m).log == w.log
  {
  }

  lemma OthersNeitherLogNorCount<R>(w: World<R>, r: R, m: MessageStep<R>)
    requires MessageEnabled(w, r, m) && !m.LogSend? && !m.LogBroadcast? && !m.CountMessage?
    ensures var v := ApplyMessage(w, r, m);
            && v.log == w.log && v.counters == w.counters && r in v.pc && r in v.reg.obj
            && (v.pc[r] == w.pc[r] || (!w.pc[r].Fanning? && !v.pc[r].Fanning?))
  {
    MessageKeepsReg(w, r, m);
  }

  lemma UntouchedLogBalance<R>(w: World<R>, v: World<R>, r: R)
    requires v.log == w.log && v.counters == w.counters && AtPc(w, r) && AtPc(v, r)
    requires v.pc[r] == w.pc[r] || (!w.pc[r].Fanning? && !v.pc[r].Fanning?)
    ensures LogBalanced(w, v, r)
  {
  }

  lemma OthersLogBalance<R>(w: World<R>, r: R, m: MessageStep<R>)
    requires MessageEnabled(w, r, m) && !m.LogSend? && !m.LogBroadcast? && !m.CountMessage?
    ensures LogBalanced(w, ApplyMessage(w, r, m), r)
  {
    OthersNeitherLogNorCount(w, r, m);
    UntouchedLogBalance(w, ApplyMessage(w, r, m), r);
  }

  lemma MessageLogBalance<R>(w: World<R>, r: R, m: MessageStep<R>)
    requires MessageEnabled(w, r, m)
    ensures LogBalanced(w, ApplyMessage(w, r, m), r)
  {
    match m
    case LogSend => LogSendLogBalance(w, r);
    case LogBroadcast => LogBroadcastLogBalance(w, r);
    case CountMessage => CountMessageLogBalance(w, r);
    case _ => OthersLogBalance(w, r, m);
  }

  lemma MessageKeepsLog<R>(w: World<R>, r: R, m: MessageStep<R>)
    requires MessageEnabled(w, r, m) && LogLedger(w)
    ensures LogLedger(ApplyMessage(w, r, m))
  {
    MessageMovesActor(w, r, m);
    MessageLogBalance(w, r, m);
    LogFollows(w, ApplyMessage(w, r, m), r);
  }

  // ----- broadcasts and charges ----------------------------------------------------------------

  ghost function ChargeBalance<R>(w: World<R>): int {
    w.tally.broadcastFrames - |w.charges| - w.tally.early
  }

  /** Each broadcast frame was turned away early, is on its way to the limiter, or charged it once. */
  ghost predicate ChargeLedger<R>(w: World<R>) {
    ChargeBalance(w) == Count(w, Chargers)
  }

  ghost predicate ChargesBalanced<R>(w: World<R>, v: World<R>, r: R) {
    ChargeBalance(v) - Bit(v, r, Chargers) == ChargeBalance(w) - Bit(w, r, Chargers)
  }

  lemma ChargesFollow<R>(w: World<R>, v: World<R>, r: R)
    requires OnlyMoves(w, v, r) && ChargeLedger(w)
    requires ChargesBalanced(w, v, r)
    ensures ChargeLedger(v)
  {
    CountMoves(w, v, r, Chargers);
  }

  lemma SessionKeepsCharges<R>(w: World<R>, r: R, s: SessionStep)
    requires WellKeyed(w.reg) && SessionEnabled(w, r, s) && ChargeLedger(w)
    ensures ChargeLedger(ApplySession(w, r, s))
  {
    SessionMovesActor(w, r, s);
    SessionKeepsMessages(w, r, s);
    SessionOutsideFrames(w, r, s);
    LogUntouched(w, ApplySession(w, r, s), r);
    ChargesFollow(w, ApplySession(w, r, s), r);
  }

  lemma OthersNeverCharge<R>(w: World<R>, r: R, m: MessageStep<R>)
    requires MessageEnabled(w, r, m) && !m.BroadcastIn? && !m.ReadClock? && !m.ChargeQuota?
    ensures ChargesBalanced(w, ApplyMessage(w, r, m), r)
  {
  }

  lemma MessageChargeBalance<R>(w: World<R>, r: R, m: MessageStep<R>)
    requires MessageEnabled(w, r, m)
    ensures ChargesBalanced(w, ApplyMessage(w, r, m), r)
  {
    if !m.BroadcastIn? && !m.ReadClock? && !m.ChargeQuota? {
      OthersNeverCharge(w, r, m);
    }
  }

  lemma MessageKeepsCharges<R>(w: World<R>, r: R, m: MessageStep<R>)
    requires MessageEnabled(w, r, m) && ChargeLedger(w)
    ensures ChargeLedger(ApplyMessage(w, r, m))
  {
    MessageMovesActor(w, r, m);
    MessageChargeBalance(w, r, m);
    ChargesFollow(w, ApplyMessage(w, r, m), r);
  }
}
