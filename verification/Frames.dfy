/**
  The life of one message frame, from its arrival to its last write, while every other
  handler steps in between: what is logged and who is written to are what the frame and the
  registry said when it was resolved.
*/
module Frames {
  import opened Registry
  import opened Resolve
  import opened Bus
  import opened Ledgers
  import opened Deliveries
  import opened BusRuns

  /** What an accepted frame asks for. */
  datatype Frame<R> = Frame(direct: bool, targets: set<R>, text: string)

  /** The steps that end a frame: it is counted as sent, or as rejected. */
  ghost predicate Ends<R>(a: Action<R>, r: R) {
    a == Message(r, CountMessage) || a == Session(r, CountRejected)
  }

  ghost predicate NotYetEnded<R>(acts: seq<Action<R>>, r: R) {
    forall a | a in acts :: !Ends(a, r)
  }

  /** Record `id` is that of handler `r`'s frame `f`, and is written to just its targets. */
  ghost predicate Records<R>(w: World<R>, r: R, id: nat, f: Frame<R>)
    requires r in w.reg.obj
  {
    && id < |w.log| && id < |w.fan| && w.fan[id].targets == f.targets
    && w.log[id].direct == f.direct && w.log[id].text == f.text
    && w.log[id].from == w.reg.obj[r].FromID() && w.log[id].fromLabel == w.reg.obj[r].labelText
    && (if f.direct then forall t | t in f.targets :: t in w.reg.obj && w.log[id].toSid == w.reg.obj[t].sid
        else w.log[id].to == "" && w.log[id].toSid == "")
  }

  /** The frame the handler is part-way through; a broadcast may yet be refused, by the limiter alone. */
  ghost predicate Carries<R>(p: Pc<R>, f: Frame<R>) {
    match p
    case Sending(t, text) => f == Frame(true, {t}, text)
    case Charging(ts, text) => f == Frame(false, ts, text)
    case Clocked(ts, text, _) => f == Frame(false, ts, text)
    case Publishing(ts, text) => f == Frame(false, ts, text)
    case Rejecting(code) => !f.direct && code == RateLimited
    case Fanning(_, direct) => direct == f.direct
    case _ => false
  }

  /** Handler `r` is part-way through `f`; its record, if logged, is number `since` or later. */
  ghost predicate Underway<R>(w: World<R>, r: R, f: Frame<R>, since: nat) {
    && AtPc(w, r) && Carries(w.pc[r], f) && f.targets <= w.reg.obj.Keys
    && since <= |w.log| == |w.fan|
    && (w.pc[r].Fanning? ==> since <= w.pc[r].id && Records(w, r, w.pc[r].id, f))
  }

  // ----- records stay ------------------------------------------------------------------------

  /** What is logged stays as it is, and so do its recipients. */
  ghost predicate LogKept<R>(w: World<R>, v: World<R>) {
    && |w.fan| == |w.log| && |v.fan| == |v.log| && |w.log| <= |v.log|
    && (forall i | 0 <= i < |w.log| :: v.log[i] == w.log[i] && v.fan[i].targets == w.fan[i].targets)
  }

  lemma StepKeepsLog<R>(w: World<R>, a: Action<R>)
    requires WellKeyed(w.reg) && Enabled(w, a) && |w.fan| == |w.log|
    ensures LogKept(w, Apply(w, a)) && OnlyMoves(w, Apply(w, a), a.r)
  {
    match a
    case Session(r, s) =>
      SessionMovesActor(w, r, s);
      SessionKeepsMessages(w, r, s);
    case Message(r, m) =>
      MessageMovesActor(w, r, m);
      MessageLogsChosen(w, r, m);
  }

  lemma {:induction false} RunKeepsLog<R>(w: World<R>, acts: seq<Action<R>>)
    requires WellKeyed(w.reg) && IsRun(w, acts) && |w.fan| == |w.log|
    ensures LogKept(w, After(w, acts))
    decreases |acts|
  {
    if acts != [] {
      StepKeepsLog(w, acts[0]);
      RunKeepsLog(Apply(w, acts[0]), acts[1..]);
    }
  }

  lemma RecordsKept<R>(w: World<R>, v: World<R>, x: R, r: R, id: nat, f: Frame<R>)
    requires LogKept(w, v) && OnlyMoves(w, v, x) && r in w.reg.obj && Records(w, r, id, f)
    ensures r in v.reg.obj && Records(v, r, id, f)
  {
    assert v.reg.obj[r] == w.reg.obj[r].(name := v.reg.obj[r].name);
    forall t | t in f.targets && t in w.reg.obj ensures v.reg.obj[t].sid == w.reg.obj[t].sid {
      assert v.reg.obj[t] == w.reg.obj[t].(name := v.reg.obj[t].name);
    }
  }

  // ----- a frame under way ---------------------------------------------------------------------

  lemma OthersKeepUnderway<R>(w: World<R>, v: World<R>, x: R, r: R, f: Frame<R>, since: nat)
    requires x != r && LogKept(w, v) && OnlyMoves(w, v, x) && Underway(w, r, f, since)
    ensures Underway(v, r, f, since)
  {
    if w.pc[r].Fanning? {
      RecordsKept(w, v, x, r, w.pc[r].id, f);
    }
  }

  lemma LogSendUnderway<R>(w: World<R>, r: R, f: Frame<R>, since: nat)
    requires Underway(w, r, f, since) && w.pc[r].Sending?
    ensures Underway(LogSendStep(w, r), r, f, since)
  {
  }

  lemma LogBroadcastUnderway<R>(w: World<R>, r: R, f: Frame<R>, since: nat)
    requires Underway(w, r, f, since) && w.pc[r].Publishing?
    ensures Underway(LogBroadcastStep(w, r), r, f, since)
  {
  }

  lemma WriteUnderway<R>(w: World<R>, r: R, t: R, f: Frame<R>, since: nat)
    requires Underway(w, r, f, since) && w.pc[r].Fanning?
    ensures Underway(WriteStep(w, r, t), r, f, since)
  {
  }

  lemma LimiterUnderway<R>(w: World<R>, r: R, m: MessageStep<R>, f: Frame<R>, since: nat)
    requires Underway(w, r, f, since) && MessageEnabled(w, r, m) && (m.ReadClock? || m.ChargeQuota?)
    ensures Underway(ApplyMessage(w, r, m), r, f, since)
  {
  }

  lemma OwnStepKeepsUnderway<R>(w: World<R>, r: R, m: MessageStep<R>, f: Frame<R>, since: nat)
    requires Underway(w, r, f, since) && MessageEnabled(w, r, m) && m != CountMessage
    ensures Underway(ApplyMessage(w, r, m), r, f, since)
  {
    match m
    case LogSend => LogSendUnderway(w, r, f, since);
    case LogBroadcast => LogBroadcastUnderway(w, r, f, since);
    case WriteTo(t) => WriteUnderway(w, r, t, f, since);
    case _ => LimiterUnderway(w, r, m, f, since);
  }

  /** Part-way through a frame a handler takes no session step but the counting of a refusal. */
  lemma OnlyRefusalsInterrupt<R>(w: World<R>, r: R, s: SessionStep, f: Frame<R>, since: nat)
    requires Underway(w, r, f, since) && SessionEnabled(w, r, s)
    ensures s == CountRejected
  {
  }

  lemma StepKeepsUnderway<R>(w: World<R>, a: Action<R>, r: R, f: Frame<R>, since: nat)
    requires WellKeyed(w.reg) && Enabled(w, a) && Underway(w, r, f, since) && !Ends(a, r)
    ensures Underway(Apply(w, a), r, f, since)
  {
    if a.r != r {
      StepKeepsLog(w, a);
      OthersKeepUnderway(w, Apply(w, a), a.r, r, f, since);
    } else {
      match a
      case Session(_, s) => OnlyRefusalsInterrupt(w, r, s, f, since);
      case Message(_, m) => OwnStepKeepsUnderway(w, r, m, f, since);
    }
  }

  /**
    A frame keeps its targets and text from its arrival to its last write, whatever the
    other handlers do: in every later state before it ends its handler is still on it, and
    once its record is logged that record and its recipients are the frame's.
  */
  lemma {:induction false} FrameStaysUnderway<R>(w: World<R>, acts: seq<Action<R>>, r: R, f: Frame<R>, since: nat)
    requires WellKeyed(w.reg) && IsRun(w, acts) && Underway(w, r, f, since) && NotYetEnded(acts, r)
    ensures Underway(After(w, acts), r, f, since)
    decreases |acts|
  {
    if acts != [] {
      assert !Ends(acts[0], r);
      StepKeepsUnderway(w, acts[0], r, f, since);
      FrameStaysUnderway(Apply(w, acts[0]), acts[1..], r, f, since);
    }
  }

  // ----- arrivals ----------------------------------------------------------------------------------

  lemma SendArrives<R>(w: World<R>, r: R, to: string, text: string)
    requires Inv(w) && MessageEnabled(w, r, SendIn(to, text))
    requires |text| <= TEXT_CAP && ResolveTarget(w.reg, r, to).Deliver?
    ensures Underway(SendStep(w, r, to, text), r, Frame(true, {ResolveTarget(w.reg, r, to).target}, text), |w.log|)
  {
    DeliveryIsSound(w.reg, r, to);
  }

  lemma BroadcastArrives<R>(w: World<R>, r: R, text: string)
    requires Inv(w) && MessageEnabled(w, r, BroadcastIn(text))
    requires |text| <= BROADCAST_TEXT_CAP && ListenerAlive(w.reg, r)
    ensures Underway(BroadcastStep(w, r, text), r, Frame(false, BroadcastTargets(w.reg, r), text), |w.log|)
  {
  }

  // ----- from frame to writes --------------------------------------------------------------------------

  /** Record `id` goes to `targets` alone: to each at most once, and once when nobody writes it any more. */
  ghost predicate WrittenOnceTo<R>(w: World<R>, id: nat, targets: set<R>) {
    && (forall p | p in w.writes && p.0 == id :: p.1 in targets)
    && (forall t | t in targets :: w.writes[(id, t)] <= 1)
    && (!BeingWritten(w, id) ==> forall t | t in targets :: w.writes[(id, t)] == 1)
  }

  ghost predicate AllWrittenOnce<R>(w: World<R>) {
    |w.fan| == |w.log| && forall id: nat | id < |w.fan| :: WrittenOnceTo(w, id, w.fan[id].targets)
  }

  lemma InvWritesOnce<R>(w: World<R>)
    requires Inv(w)
    ensures AllWrittenOnce(w)
  {
  }

  /** Step `a` and then the run `acts` lead from `w` to `v`. */
  ghost predicate Leads<R>(w: World<R>, a: Action<R>, acts: seq<Action<R>>, v: World<R>) {
    WellKeyed(w.reg) && Enabled(w, a) && IsRun(Apply(w, a), acts) && v == After(Apply(w, a), acts)
  }

  lemma LeadsKeepsInv<R>(w: World<R>, a: Action<R>, acts: seq<Action<R>>, v: World<R>)
    requires Inv(w) && Leads(w, a, acts, v)
    ensures Inv(v)
  {
    StepKeepsInv(w, a);
    RunKeepsInv(Apply(w, a), acts);
  }

  /** No object loses a field but its name. */
  lemma LeadsKeepsObject<R>(w: World<R>, a: Action<R>, acts: seq<Action<R>>, v: World<R>, x: R)
    requires Leads(w, a, acts, v) && x in w.reg.obj
    ensures x in v.reg.obj && v.reg.obj[x] == w.reg.obj[x].(name := v.reg.obj[x].name)
  {
    StepKeepsObject(w, a, x);
    ObjectsKeepIdentity(Apply(w, a), acts, x);
  }

  lemma LeadsKeepsLog<R>(w: World<R>, a: Action<R>, acts: seq<Action<R>>, v: World<R>)
    requires |w.fan| == |w.log| && Leads(w, a, acts, v)
    ensures LogKept(Apply(w, a), v)
  {
    StepKeepsLog(w, a);
    RunKeepsLog(Apply(w, a), acts);
  }

  ghost predicate Publishes<R>(u: World<R>, v: World<R>, rec: Rec, targets: set<R>) {
    v.log == u.log + [rec] && v.fan == u.fan + [Fan(targets, targets)]
  }

  lemma LoggedForGood<R>(u: World<R>, a: Action<R>, after: seq<Action<R>>, z: World<R>, rec: Rec, targets: set<R>)
    requires AllWrittenOnce(u) && AllWrittenOnce(z) && Leads(u, a, after, z)
    requires Publishes(u, Apply(u, a), rec, targets)
    ensures |u.log| < |z.log| && z.log[|u.log|] == rec && WrittenOnceTo(z, |u.log|, targets)
  {
    LeadsKeepsLog(u, a, after, z);
  }

  lemma SendUnderway<R>(w: World<R>, r: R, to: string, text: string, before: seq<Action<R>>, u: World<R>)
    requires Inv(w) && Leads(w, Message(r, SendIn(to, text)), before, u) && NotYetEnded(before, r)
    requires |text| <= TEXT_CAP && ResolveTarget(w.reg, r, to).Deliver?
    ensures Underway(u, r, Frame(true, {ResolveTarget(w.reg, r, to).target}, text), |w.log|)
    ensures Inv(u)
  {
    LeadsKeepsInv(w, Message(r, SendIn(to, text)), before, u);
    SendArrives(w, r, to, text);
    FrameStaysUnderway(SendStep(w, r, to, text), before, r,
                       Frame(true, {ResolveTarget(w.reg, r, to).target}, text), |w.log|);
  }

  lemma BroadcastUnderway<R>(w: World<R>, r: R, text: string, before: seq<Action<R>>, u: World<R>)
    requires Inv(w) && Leads(w, Message(r, BroadcastIn(text)), before, u) && NotYetEnded(before, r)
    requires |text| <= BROADCAST_TEXT_CAP && ListenerAlive(w.reg, r)
    ensures Underway(u, r, Frame(false, BroadcastTargets(w.reg, r), text), |w.log|)
    ensures Inv(u)
  {
    LeadsKeepsInv(w, Message(r, BroadcastIn(text)), before, u);
    BroadcastArrives(w, r, text);
    FrameStaysUnderway(BroadcastStep(w, r, text), before, r,
                       Frame(false, BroadcastTargets(w.reg, r), text), |w.log|);
  }

  lemma SendLogs<R>(u: World<R>, r: R, t: R, text: string)
    requires AtPc(u, r) && u.pc[r] == Sending(t, text) && t in u.reg.obj
    ensures var me, to := u.reg.obj[r], u.reg.obj[t];
            Publishes(u, LogSendStep(u, r),
                      Rec(true, me.FromID(), me.name, me.labelText, to.name, to.sid, text), {t})
  {
  }

  lemma BroadcastLogs<R>(u: World<R>, r: R, targets: set<R>, text: string)
    requires AtPc(u, r) && u.pc[r] == Publishing(targets, text)
    ensures var me := u.reg.obj[r];
            Publishes(u, LogBroadcastStep(u, r),
                      Rec(false, me.FromID(), me.name, me.labelText, "", "", text), targets)
  {
  }

  /** Where a handler is that still carries the frame but has not logged it, its client's identity intact. */
  ghost predicate Unlogged<R>(u: World<R>, r: R, f: Frame<R>, me: Client) {
    && AtPc(u, r) && u.reg.obj[r] == me.(name := u.reg.obj[r].name)
    && (u.pc[r].Sending? ==> f == Frame(true, {u.pc[r].target}, u.pc[r].text))
    && (u.pc[r].Publishing? ==> f == Frame(false, u.pc[r].targets, u.pc[r].text))
  }

  lemma SendSettles<R>(w: World<R>, r: R, to: string, text: string, before: seq<Action<R>>, u: World<R>, t: R)
    requires Inv(w) && Leads(w, Message(r, SendIn(to, text)), before, u) && NotYetEnded(before, r)
    requires |text| <= TEXT_CAP && ResolveTarget(w.reg, r, to) == Deliver(t)
    ensures AllWrittenOnce(u) && Unlogged(u, r, Frame(true, {t}, text), w.reg.obj[r])
    ensures t in w.reg.obj && t in u.reg.obj && u.reg.obj[t].sid == w.reg.obj[t].sid
  {
    DeliveryIsSound(w.reg, r, to);
    SendUnderway(w, r, to, text, before, u);
    InvWritesOnce(u);
    LeadsKeepsObject(w, Message(r, SendIn(to, text)), before, u, r);
    LeadsKeepsObject(w, Message(r, SendIn(to, text)), before, u, t);
  }

  lemma BroadcastSettles<R>(w: World<R>, r: R, text: string, before: seq<Action<R>>, u: World<R>)
    requires Inv(w) && Leads(w, Message(r, BroadcastIn(text)), before, u) && NotYetEnded(before, r)
    requires |text| <= BROADCAST_TEXT_CAP && ListenerAlive(w.reg, r)
    ensures AllWrittenOnce(u) && Unlogged(u, r, Frame(false, AgentsBut(w.reg, w.reg.obj[r].FromID()), text), w.reg.obj[r])
  {
    BroadcastUnderway(w, r, text, before, u);
    InvWritesOnce(u);
    LeadsKeepsObject(w, Message(r, BroadcastIn(text)), before, u, r);
    TargetsAreOtherAgents(w.reg, r);
  }

  /** Record `id` of `z` is the send of `r`, as resolved in `w` and logged in `u`. */
  ghost predicate SentTo<R>(w: World<R>, u: World<R>, z: World<R>, r: R, t: R, text: string) {
    && AtPc(w, r) && AtPc(u, r) && t in w.reg.obj && t in u.reg.obj && |u.log| < |z.log|
    && z.log[|u.log|] == Rec(true, w.reg.obj[r].FromID(), u.reg.obj[r].name, w.reg.obj[r].labelText,
                             u.reg.obj[t].name, w.reg.obj[t].sid, text)
    && WrittenOnceTo(z, |u.log|, {t})
  }

  ghost predicate BroadcastTo<R>(w: World<R>, u: World<R>, z: World<R>, r: R, targets: set<R>, text: string) {
    && AtPc(w, r) && AtPc(u, r) && |u.log| < |z.log|
    && z.log[|u.log|] == Rec(false, w.reg.obj[r].FromID(), u.reg.obj[r].name, w.reg.obj[r].labelText, "", "", text)
    && WrittenOnceTo(z, |u.log|, targets)
  }

  lemma SettledSendIsLogged<R>(w: World<R>, u: World<R>, r: R, t: R, text: string, after: seq<Action<R>>, z: World<R>)
    requires AtPc(w, r) && t in w.reg.obj && t in u.reg.obj && u.reg.obj[t].sid == w.reg.obj[t].sid
    requires Unlogged(u, r, Frame(true, {t}, text), w.reg.obj[r])
    requires AllWrittenOnce(u) && AllWrittenOnce(z) && Leads(u, Message(r, LogSend), after, z)
    ensures SentTo(w, u, z, r, t, text)
  {
    assert u.pc[r].target in {t};
    SendLogs(u, r, t, text);
    LoggedForGood(u, Message(r, LogSend), after, z, LogSendStep(u, r).log[|u.log|], {t});
  }

  lemma SettledBroadcastIsLogged<R>(w: World<R>, u: World<R>, r: R, targets: set<R>, text: string,
                                    after: seq<Action<R>>, z: World<R>)
    requires AtPc(w, r) && Unlogged(u, r, Frame(false, targets, text), w.reg.obj[r])
    requires AllWrittenOnce(u) && AllWrittenOnce(z) && Leads(u, Message(r, LogBroadcast), after, z)
    ensures BroadcastTo(w, u, z, r, targets, text)
  {
    BroadcastLogs(u, r, targets, text);
    LoggedForGood(u, Message(r, LogBroadcast), after, z, LogBroadcastStep(u, r).log[|u.log|], targets);
  }

  lemma LeadsToWrittenOnce<R>(w: World<R>, a: Action<R>, before: seq<Action<R>>, u: World<R>,
                              b: Action<R>, after: seq<Action<R>>, z: World<R>)
    requires Inv(w) && Leads(w, a, before, u) && Leads(u, b, after, z)
    ensures AllWrittenOnce(z)
  {
    LeadsKeepsInv(w, a, before, u);
    LeadsKeepsInv(u, b, after, z);
    InvWritesOnce(z);
  }

  /**
    A send, over any run. In any reachable state `w` let handler `r` read a send frame that
    resolves to `t`; let anyone step, up to `u`; let `r` log the frame, and anyone step
    again, up to `z`. The record names `t`, its sender and the frame's text, with the names
    both bear in `u`, and it is written to `t` once and to nobody else.
  */
  lemma SendReachesItsTarget<R>(w: World<R>, token: string, past: seq<Action<R>>, r: R, to: string, text: string, t: R,
                                before: seq<Action<R>>, u: World<R>, after: seq<Action<R>>, z: World<R>)
    requires Reached(w, token, past)
    requires Leads(w, Message(r, SendIn(to, text)), before, u) && NotYetEnded(before, r)
    requires Leads(u, Message(r, LogSend), after, z)
    requires |text| <= TEXT_CAP && ResolveTarget(w.reg, r, to) == Deliver(t)
    ensures SentTo(w, u, z, r, t, text)
  {
    assert Inv(w) by {
      ReachedInv(w, token, past);
    }
    LeadsToWrittenOnce(w, Message(r, SendIn(to, text)), before, u, Message(r, LogSend), after, z);
    SendSettles(w, r, to, text, before, u, t);
    SettledSendIsLogged(w, u, r, t, text, after, z);
  }

  /**
    A broadcast, over any run. In any reachable state `w` let handler `r` read a broadcast
    frame within the cap, its listener alive; let anyone step, up to `u`; let `r` log the
    frame, the limiter having admitted it, and anyone step again, up to `z`. The record is
    written once to every agent registered in `w` but the sender's own listener, and to
    nobody else.
  */
  lemma BroadcastReachesEveryOtherAgent<R>(w: World<R>, token: string, past: seq<Action<R>>, r: R, text: string,
                                           before: seq<Action<R>>, u: World<R>, after: seq<Action<R>>, z: World<R>)
    requires Reached(w, token, past)
    requires Leads(w, Message(r, BroadcastIn(text)), before, u) && NotYetEnded(before, r)
    requires Leads(u, Message(r, LogBroadcast), after, z)
    requires |text| <= BROADCAST_TEXT_CAP && ListenerAlive(w.reg, r)
    ensures BroadcastTo(w, u, z, r, AgentsBut(w.reg, w.reg.obj[r].FromID()), text)
  {
    assert Inv(w) by {
      ReachedInv(w, token, past);
    }
    LeadsToWrittenOnce(w, Message(r, BroadcastIn(text)), before, u, Message(r, LogBroadcast), after, z);
    BroadcastSettles(w, r, text, before, u);
    SettledBroadcastIsLogged(w, u, r, AgentsBut(w.reg, w.reg.obj[r].FromID()), text, after, z);
  }

  /** The agents registered under another session id than `sid`, one for each. */
  ghost function AgentsBut<R>(g: Reg<R>, sid: string): set<R> {
    set k | k in g.registry && IsAgentAt(g, k) && k != sid :: g.registry[k]
  }

  lemma TargetsAreOtherAgents<R>(g: Reg<R>, r: R)
    requires WellKeyed(g) && r in g.obj
    ensures BroadcastTargets(g, r) == AgentsBut(g, g.obj[r].FromID())
  {
    forall t | t in BroadcastTargets(g, r) ensures t in AgentsBut(g, g.obj[r].FromID()) {
      var k :| k in g.registry && g.registry[k] == t;
      assert IsAgentAt(g, k);
    }
  }

  // ----- refusals and readings -----------------------------------------------------------------------------

  /**
    How a send frame is received: refused when it is too long, and with the resolution's own
    code when that names no target; carried on to its target otherwise.
  */
  lemma SendOutcome<R>(w: World<R>, r: R, to: string, text: string)
    requires MessageEnabled(w, r, SendIn(to, text))
    ensures var v, out := ApplyMessage(w, r, SendIn(to, text)), ResolveTarget(w.reg, r, to);
            && r in v.pc && v.reg == w.reg && v.log == w.log
            && if |text| > 10 * 1024 * 1024 then v.pc[r] == Rejecting(TextTooLong)
               else match out
                 case Deliver(t) => v.pc[r] == Sending(t, text)
                 case Panicked => v.pc[r] == Departing
                 case _ => CodeOf(out).Some? && v.pc[r] == Rejecting(CodeOf(out).value)
  {
  }

  lemma StepLeavesRefusal<R>(w: World<R>, a: Action<R>, r: R)
    requires WellKeyed(w.reg) && Enabled(w, a) && AtPc(w, r) && w.pc[r].Rejecting? && !Ends(a, r)
    ensures a.r != r && AtPc(Apply(w, a), r) && Apply(w, a).pc[r] == w.pc[r]
  {
    match a
    case Session(x, s) => SessionMovesActor(w, x, s);
    case Message(x, m) => MessageMovesActor(w, x, m);
  }

  /** A refused frame goes nowhere: its handler takes no step but the counting of the refusal. */
  lemma {:induction false} RefusedFrameRests<R>(w: World<R>, acts: seq<Action<R>>, r: R)
    requires WellKeyed(w.reg) && IsRun(w, acts) && AtPc(w, r) && w.pc[r].Rejecting? && NotYetEnded(acts, r)
    ensures AtPc(After(w, acts), r) && After(w, acts).pc[r] == w.pc[r]
    ensures forall a | a in acts :: a.r != r
    decreases |acts|
  {
    if acts != [] {
      assert !Ends(acts[0], r);
      StepLeavesRefusal(w, acts[0], r);
      RefusedFrameRests(Apply(w, acts[0]), acts[1..], r);
    }
  }

  lemma StepLeavesOthersPc<R>(w: World<R>, a: Action<R>, r: R)
    requires WellKeyed(w.reg) && Enabled(w, a) && AtPc(w, r) && a.r != r
    ensures AtPc(Apply(w, a), r) && Apply(w, a).pc[r] == w.pc[r]
    ensures Apply(w, a).reg.obj[r].FromID() == w.reg.obj[r].FromID()
  {
    match a
    case Session(x, s) => SessionMovesActor(w, x, s);
    case Message(x, m) => MessageMovesActor(w, x, m);
  }

  lemma {:induction false} OthersLeavePc<R>(w: World<R>, acts: seq<Action<R>>, r: R)
    requires WellKeyed(w.reg) && IsRun(w, acts) && AtPc(w, r) && forall a | a in acts :: a.r != r
    ensures AtPc(After(w, acts), r) && After(w, acts).pc[r] == w.pc[r]
    ensures After(w, acts).reg.obj[r].FromID() == w.reg.obj[r].FromID()
    decreases |acts|
  {
    if acts != [] {
      StepLeavesOthersPc(w, acts[0], r);
      OthersLeavePc(Apply(w, acts[0]), acts[1..], r);
    }
  }

  /**
    A charge is made at the instant its handler read off the clock, however many others
    charge in between: against its listener, and admitted exactly if the frame goes on.
  */
  lemma ChargedAtItsReading<R>(w: World<R>, r: R, now: int, between: seq<Action<R>>, u: World<R>)
    requires Leads(w, Message(r, ReadClock(now)), between, u) && forall a | a in between :: a.r != r
    ensures MessageEnabled(u, r, ChargeQuota)
    ensures var v := ApplyMessage(u, r, ChargeQuota);
            && r in v.pc && (v.pc[r].Publishing? || v.pc[r] == Rejecting(RateLimited))
            && v.charges == u.charges + [Charge(w.reg.obj[r].FromID(), now, v.pc[r].Publishing?)]
  {
    var s := Apply(w, Message(r, ReadClock(now)));
    OthersLeavePc(s, between, r);
  }

  // ----- progress ------------------------------------------------------------------------------------------

  /** The next steps open to handler `r`, by where it is. */
  ghost predicate CanMove<R>(w: World<R>, r: R)
    requires r in w.pc
  {
    match w.pc[r]
    case Welcoming => forall ok :: SessionEnabled(w, r, WelcomeOut(ok))
    case Joining => SessionEnabled(w, r, CountJoin)
    case Refusing(_) => SessionEnabled(w, r, CountRejected)
    case Rejecting(_) => SessionEnabled(w, r, CountRejected)
    case Serving =>
      && SessionEnabled(w, r, Disconnect)
      && (forall name :: SessionEnabled(w, r, RenameIn(name)))
      && (forall to, text :: MessageEnabled(w, r, SendIn(to, text)))
      && (forall text :: MessageEnabled(w, r, BroadcastIn(text)))
    case Sending(_, _) => MessageEnabled(w, r, LogSend)
    case Charging(_, _) => forall now :: MessageEnabled(w, r, ReadClock(now))
    case Clocked(_, _, _) => MessageEnabled(w, r, ChargeQuota)
    case Publishing(_, _) => MessageEnabled(w, r, LogBroadcast)
    case Fanning(id, _) =>
      id < |w.fan| && if w.fan[id].todo == {} then MessageEnabled(w, r, CountMessage)
                      else forall t | t in w.fan[id].todo :: MessageEnabled(w, r, WriteTo(t))
    case Departing => SessionEnabled(w, r, UnregisterOwn)
    case Leaving => SessionEnabled(w, r, CountLeft)
    case Failed => true
    case Closed => true
  }

  lemma PresentCanMove<R>(w: World<R>, r: R)
    requires AtPc(w, r) && (w.pc[r].Fanning? ==> w.pc[r].id < |w.fan|)
    ensures CanMove(w, r)
  {
  }

  lemma InvIsPresent<R>(w: World<R>, r: R)
    requires Inv(w) && r in w.pc
    ensures AtPc(w, r) && (w.pc[r].Fanning? ==> w.pc[r].id < |w.fan|)
  {
  }

  /**
    No handler is ever stuck: in every reachable state it can take its next step, whatever
    the others do, until it has closed or its welcome has failed; while it serves it can
    take any frame, and a message can be written to whichever recipient is left. A new
    connection's hello can always be read.
  */
  lemma NobodyIsStuck<R>(w: World<R>, token: string, acts: seq<Action<R>>)
    requires Reached(w, token, acts)
    ensures forall r | r in w.pc :: CanMove(w, r)
    ensures forall r: R, h: Hello, uuid: string, since: int | r !in w.pc && h.role != ControlRole ::
      SessionEnabled(w, r, HelloIn(h, uuid, since))
  {
    assert Inv(w) by {
      ReachedInv(w, token, acts);
    }
    forall r | r in w.pc ensures CanMove(w, r) {
      InvIsPresent(w, r);
      PresentCanMove(w, r);
    }
  }
}
