/**
  Deliveries and quotas over whole runs: each logged message is written exactly once to each
  of its recipients, and the stored limiter windows are those of the full charge history.
*/
module Deliveries {
  import opened Registry
  import opened Resolve
  import opened Bus
  import opened Ledgers
  import Limiter

  // ----- recipients ----------------------------------------------------------------------

  /** Agents all, none of them the sender's own listener. */
  ghost predicate Recipients<R>(g: Reg<R>, targets: set<R>, from: string) {
    forall t | t in targets :: t in g.obj && g.obj[t].role == Agent && g.obj[t].sid != from
  }

  /** The recipients a handler has settled on but not yet logged. */
  ghost function Chosen<R>(p: Pc<R>): set<R> {
    match p
    case Sending(t, _) => {t}
    case Charging(ts, _) => ts
    case Clocked(ts, _, _) => ts
    case Publishing(ts, _) => ts
    case _ => {}
  }

  ghost predicate RecipientsSound<R>(w: World<R>) {
    && |w.fan| == |w.log|
    && (forall i | 0 <= i < |w.fan| :: Recipients(w.reg, w.fan[i].targets, w.log[i].from))
    && (forall r | AtPc(w, r) && r in w.pc :: Recipients(w.reg, Chosen(w.pc[r]), w.reg.obj[r].FromID()))
  }

  lemma RecipientsStay<R>(w: World<R>, v: World<R>, r: R, targets: set<R>, from: string)
    requires OnlyMoves(w, v, r) && Recipients(w.reg, targets, from)
    ensures Recipients(v.reg, targets, from)
  {
    forall t | t in targets ensures t in v.reg.obj && v.reg.obj[t].sid == w.reg.obj[t].sid {
      assert v.reg.obj[t] == w.reg.obj[t].(name := v.reg.obj[t].name);
    }
  }

  /** Recipients survive a step whose actor chose sound ones and logged only those. */
  lemma RecipientsFollow<R>(w: World<R>, v: World<R>, r: R)
    requires OnlyMoves(w, v, r) && RecipientsSound(w)
    requires |v.fan| == |v.log| && |w.fan| <= |v.fan|
    requires forall i | 0 <= i < |w.fan| :: v.fan[i].targets == w.fan[i].targets && v.log[i] == w.log[i]
    requires forall i | |w.fan| <= i < |v.fan| :: Recipients(v.reg, v.fan[i].targets, v.log[i].from)
    requires AtPc(v, r) ==> Recipients(v.reg, Chosen(v.pc[r]), v.reg.obj[r].FromID())
    ensures RecipientsSound(v)
  {
    forall i | 0 <= i < |w.fan| ensures Recipients(v.reg, v.fan[i].targets, v.log[i].from) {
      RecipientsStay(w, v, r, w.fan[i].targets, w.log[i].from);
    }
    forall x | AtPc(v, x) && x != r ensures Recipients(v.reg, Chosen(v.pc[x]), v.reg.obj[x].FromID()) {
      assert v.reg.obj[x] == w.reg.obj[x].(name := v.reg.obj[x].name);
      RecipientsStay(w, v, r, Chosen(w.pc[x]), w.reg.obj[x].FromID());
    }
  }

  lemma SessionKeepsRecipients<R>(w: World<R>, r: R, s: SessionStep)
    requires WellKeyed(w.reg) && SessionEnabled(w, r, s) && RecipientsSound(w)
    ensures RecipientsSound(ApplySession(w, r, s))
  {
    SessionMovesActor(w, r, s);
    SessionKeepsMessages(w, r, s);
    SessionOutsideFrames(w, r, s);
    RecipientsFollow(w, ApplySession(w, r, s), r);
  }

  lemma SendChooses<R>(w: World<R>, r: R, to: string, text: string)
    requires Consistent(w.reg) && AtPc(w, r)
    ensures Recipients(w.reg, Chosen(SendStep(w, r, to, text).pc[r]), w.reg.obj[r].FromID())
  {
    if ResolveTarget(w.reg, r, to).Deliver? {
      DeliveryIsSound(w.reg, r, to);
    }
  }

  lemma BroadcastChooses<R>(w: World<R>, r: R, text: string)
    requires AtPc(w, r)
    ensures Recipients(w.reg, Chosen(BroadcastStep(w, r, text).pc[r]), w.reg.obj[r].FromID())
  {
  }

  lemma OthersChooseNobodyNew<R>(w: World<R>, r: R, m: MessageStep<R>)
    requires MessageEnabled(w, r, m) && !m.SendIn? && !m.BroadcastIn?
    ensures var v := ApplyMessage(w, r, m);
            r in v.pc && (Chosen(v.pc[r]) == {} || Chosen(v.pc[r]) == Chosen(w.pc[r]))
  {
  }

  lemma MessageChooses<R>(w: World<R>, r: R, m: MessageStep<R>)
    requires Consistent(w.reg) && MessageEnabled(w, r, m)
    requires Recipients(w.reg, Chosen(w.pc[r]), w.reg.obj[r].FromID())
    ensures var v := ApplyMessage(w, r, m);
            r in v.pc && Recipients(w.reg, Chosen(v.pc[r]), w.reg.obj[r].FromID())
  {
    match m
    case SendIn(to, text) => SendChooses(w, r, to, text);
    case BroadcastIn(text) => BroadcastChooses(w, r, text);
    case _ => OthersChooseNobodyNew(w, r, m);
  }

  lemma MessageLogsChosen<R>(w: World<R>, r: R, m: MessageStep<R>)
    requires MessageEnabled(w, r, m) && |w.fan| == |w.log|
    ensures var v := ApplyMessage(w, r, m);
            && |v.fan| == |v.log| && |w.fan| <= |v.fan| <= |w.fan| + 1
            && (forall i | 0 <= i < |w.fan| :: v.fan[i].targets == w.fan[i].targets && v.log[i] == w.log[i])
            && (|v.fan| > |w.fan| ==>
                  && v.fan[|w.fan|] == Fan(Chosen(w.pc[r]), Chosen(w.pc[r]))
                  && v.log[|w.fan|].from == w.reg.obj[r].FromID()
                  && v.pc[r].Fanning? && v.pc[r].id == |w.fan|)
  {
    if !m.WriteTo? && !m.LogSend? && !m.LogBroadcast? {
      OtherStepsWriteNothing(w, r, m);
      OnlyPublishingLogs(w, r, m);
    }
  }

  lemma MessageKeepsRecipients<R>(w: World<R>, r: R, m: MessageStep<R>)
    requires Consistent(w.reg) && MessageEnabled(w, r, m) && RecipientsSound(w)
    ensures RecipientsSound(ApplyMessage(w, r, m))
  {
    MessageMovesActor(w, r, m);
    MessageKeepsReg(w, r, m);
    assert Recipients(w.reg, Chosen(w.pc[r]), w.reg.obj[r].FromID());
    MessageChooses(w, r, m);
    MessageLogsChosen(w, r, m);
    RecipientsFollow(w, ApplyMessage(w, r, m), r);
  }

  // ----- exactly once ----------------------------------------------------------------------

  /** Some handler is still writing record `i` out. */
  ghost predicate BeingWritten<R>(w: World<R>, i: nat) {
    exists r | r in w.pc :: w.pc[r].Fanning? && w.pc[r].id == i
  }

  ghost predicate WritesExact<R>(w: World<R>) {
    && (forall i | 0 <= i < |w.fan| :: w.fan[i].todo <= w.fan[i].targets)
    && (forall i, t | 0 <= i < |w.fan| && t in w.fan[i].targets ::
          w.writes[(i, t)] == if t in w.fan[i].todo then 0 else 1)
    && (forall p | p in w.writes :: p.0 < |w.fan| && p.1 in w.fan[p.0].targets)
  }

  ghost predicate FansOwned<R>(w: World<R>) {
    && (forall r | r in w.pc && w.pc[r].Fanning? :: w.pc[r].id < |w.fan|)
    && (forall i: nat | i < |w.fan| && w.fan[i].todo != {} :: BeingWritten(w, i))
  }

  lemma OwnersStay<R>(w: World<R>, v: World<R>, r: R, i: nat)
    requires OnlyMoves(w, v, r) && BeingWritten(w, i)
    requires r in w.pc && w.pc[r].Fanning? && w.pc[r].id == i ==> v.pc[r] == w.pc[r]
    ensures BeingWritten(v, i)
  {
    var x :| x in w.pc && w.pc[x].Fanning? && w.pc[x].id == i;
    assert v.pc[x] == w.pc[x];
  }

  lemma SessionKeepsDeliveries<R>(w: World<R>, r: R, s: SessionStep)
    requires WellKeyed(w.reg) && SessionEnabled(w, r, s) && WritesExact(w) && FansOwned(w)
    ensures WritesExact(ApplySession(w, r, s)) && FansOwned(ApplySession(w, r, s))
  {
    var v := ApplySession(w, r, s);
    SessionMovesActor(w, r, s);
    SessionKeepsMessages(w, r, s);
    SessionOutsideFrames(w, r, s);
    OwnedFollow(w, v, r);
  }

  lemma OwnedFollow<R>(w: World<R>, v: World<R>, r: R)
    requires OnlyMoves(w, v, r) && FansOwned(w) && |v.fan| >= |w.fan|
    requires forall i | 0 <= i < |w.fan| :: v.fan[i].todo <= w.fan[i].todo
    requires forall i: nat | |w.fan| <= i < |v.fan| && v.fan[i].todo != {} :: BeingWritten(v, i)
    requires r in v.pc && v.pc[r].Fanning? ==> v.pc[r].id < |v.fan|
    requires AtPc(w, r) && w.pc[r].Fanning? && w.pc[r].id < |v.fan| && v.fan[w.pc[r].id].todo != {} ==> v.pc[r] == w.pc[r]
    requires r in w.pc ==> AtPc(w, r)
    ensures FansOwned(v)
  {
    forall i: nat | i < |w.fan| && v.fan[i].todo != {} ensures BeingWritten(v, i) {
      OwnersStay(w, v, r, i);
    }
  }

  lemma MessageKeepsOwned<R>(w: World<R>, r: R, m: MessageStep<R>)
    requires MessageEnabled(w, r, m) && |w.fan| == |w.log| && FansOwned(w)
    ensures FansOwned(ApplyMessage(w, r, m))
  {
    var v := ApplyMessage(w, r, m);
    MessageMovesActor(w, r, m);
    MessageLogsChosen(w, r, m);
    MessageShrinksTodo(w, r, m);
    OwnedFollow(w, v, r);
  }

  /** What is still to be written only shrinks, and its writer stays with it. */
  ghost predicate Shrinks<R>(w: World<R>, v: World<R>, r: R) {
    && AtPc(w, r) && AtPc(v, r) && |v.fan| >= |w.fan|
    && (forall i | 0 <= i < |w.fan| :: v.fan[i].todo <= w.fan[i].todo)
    && (w.pc[r].Fanning? ==>
          w.pc[r].id < |w.fan| && (v.fan[w.pc[r].id].todo != {} ==> v.pc[r] == w.pc[r]))
    && (v.pc[r].Fanning? ==> v.pc[r].id < |v.fan|)
  }

  lemma WriteShrinks<R>(w: World<R>, r: R, t: R)
    requires MessageEnabled(w, r, WriteTo(t))
    ensures Shrinks(w, WriteStep(w, r, t), r)
  {
  }

  lemma PublishShrinks<R>(w: World<R>, r: R, rec: Rec, targets: set<R>)
    requires AtPc(w, r) && !w.pc[r].Fanning? && |w.fan| == |w.log|
    ensures Shrinks(w, Publish(w, r, rec, targets), r)
  {
  }

  lemma CountMessageShrinks<R>(w: World<R>, r: R)
    requires MessageEnabled(w, r, CountMessage)
    ensures Shrinks(w, CountMessageStep(w, r), r)
  {
  }

  lemma OthersDoNotFan<R>(w: World<R>, r: R, m: MessageStep<R>)
    requires MessageEnabled(w, r, m) && !m.WriteTo? && !m.LogSend? && !m.LogBroadcast? && !m.CountMessage?
    ensures var v := ApplyMessage(w, r, m);
            AtPc(v, r) && v.fan == w.fan && !w.pc[r].Fanning? && !v.pc[r].Fanning?
  {
    MessageKeepsReg(w, r, m);
  }

  lemma MessageShrinksTodo<R>(w: World<R>, r: R, m: MessageStep<R>)
    requires MessageEnabled(w, r, m) && |w.fan| == |w.log|
    ensures Shrinks(w, ApplyMessage(w, r, m), r)
  {
    match m
    case WriteTo(t) => WriteShrinks(w, r, t);
    case LogSend => PublishShrinks(w, r, LogSendStep(w, r).log[|w.log|], Chosen(w.pc[r]));
    case LogBroadcast => PublishShrinks(w, r, LogBroadcastStep(w, r).log[|w.log|], Chosen(w.pc[r]));
    case CountMessage => CountMessageShrinks(w, r);
    case _ => OthersDoNotFan(w, r, m);
  }

  lemma WriteKeepsExact<R>(w: World<R>, r: R, t: R)
    requires MessageEnabled(w, r, WriteTo(t)) && WritesExact(w)
    ensures WritesExact(WriteStep(w, r, t))
  {
  }

  lemma PublishKeepsExact<R>(w: World<R>, v: World<R>, f: Fan<R>)
    requires WritesExact(w) && v.writes == w.writes && v.fan == w.fan + [f] && f.todo == f.targets
    ensures WritesExact(v)
  {
  }

  lemma MessageKeepsExact<R>(w: World<R>, r: R, m: MessageStep<R>)
    requires MessageEnabled(w, r, m) && |w.fan| == |w.log| && WritesExact(w)
    ensures WritesExact(ApplyMessage(w, r, m))
  {
    match m
    case WriteTo(t) => WriteKeepsExact(w, r, t);
    case LogSend => PublishKeepsExact(w, LogSendStep(w, r), Fan(Chosen(w.pc[r]), Chosen(w.pc[r])));
    case LogBroadcast => PublishKeepsExact(w, LogBroadcastStep(w, r), Fan(Chosen(w.pc[r]), Chosen(w.pc[r])));
    case _ => OtherStepsWriteNothing(w, r, m);
  }

  lemma OtherStepsWriteNothing<R>(w: World<R>, r: R, m: MessageStep<R>)
    requires MessageEnabled(w, r, m) && !m.WriteTo? && !m.LogSend? && !m.LogBroadcast?
    ensures ApplyMessage(w, r, m).fan == w.fan && ApplyMessage(w, r, m).writes == w.writes
  {
  }

  // ----- quotas ------------------------------------------------------------------------------

  /** The clock readings charged to one listener, in order. */
  function Readings(charges: seq<Charge>, sid: string): seq<int> {
    if charges == [] then []
    else
      var rest, c := Readings(charges[..|charges| - 1], sid), charges[|charges| - 1];
      if c.listener == sid then rest + [c.at] else rest
  }

  /** Those of them that were admitted. */
  function AdmittedReadings(charges: seq<Charge>, sid: string): seq<int> {
    if charges == [] then []
    else
      var rest, c := AdmittedReadings(charges[..|charges| - 1], sid), charges[|charges| - 1];
      if c.listener == sid && c.admitted then rest + [c.at] else rest
  }

  lemma ReadingsSnoc(charges: seq<Charge>, c: Charge, sid: string)
    ensures Readings(charges + [c], sid)
         == if c.listener == sid then Readings(charges, sid) + [c.at] else Readings(charges, sid)
    ensures AdmittedReadings(charges + [c], sid)
         == if c.listener == sid && c.admitted then AdmittedReadings(charges, sid) + [c.at]
            else AdmittedReadings(charges, sid)
  {
    assert (charges + [c])[..|charges|] == charges;
  }

  /** The stored windows, and the verdicts given, are those of the charge history. */
  ghost predicate QuotaFor<R>(w: World<R>, sid: string) {
    && Window(w, sid) == Limiter.WindowAfter(Readings(w.charges, sid))
    && AdmittedReadings(w.charges, sid) == Limiter.Admitted(Readings(w.charges, sid))
  }

  ghost predicate QuotaSound<R>(w: World<R>) {
    forall sid :: QuotaFor(w, sid)
  }

  lemma ChargeKeepsQuota<R>(w: World<R>, r: R)
    requires AtPc(w, r) && w.pc[r].Clocked? && QuotaSound(w)
    ensures QuotaSound(ChargeStep(w, r))
  {
    var v, me, now := ChargeStep(w, r), w.reg.obj[r].FromID(), w.pc[r].now;
    forall sid ensures QuotaFor(v, sid) {
      assert QuotaFor(w, sid);
      ReadingsSnoc(w.charges, v.charges[|w.charges|], sid);
      Limiter.AdmittedSnoc(Readings(w.charges, sid), now);
    }
  }

  lemma QuotaStays<R>(w: World<R>, v: World<R>)
    requires QuotaSound(w) && v.windows == w.windows && v.charges == w.charges
    ensures QuotaSound(v)
  {
    forall sid ensures QuotaFor(v, sid) {
      assert QuotaFor(w, sid);
    }
  }

  lemma OnlyChargesTouchQuota<R>(w: World<R>, r: R, m: MessageStep<R>)
    requires MessageEnabled(w, r, m) && !m.ChargeQuota?
    ensures ApplyMessage(w, r, m).windows == w.windows && ApplyMessage(w, r, m).charges == w.charges
  {
  }

  lemma MessageKeepsQuota<R>(w: World<R>, r: R, m: MessageStep<R>)
    requires MessageEnabled(w, r, m) && QuotaSound(w)
    ensures QuotaSound(ApplyMessage(w, r, m))
  {
    if m.ChargeQuota? {
      ChargeKeepsQuota(w, r);
    } else {
      OnlyChargesTouchQuota(w, r, m);
      QuotaStays(w, ApplyMessage(w, r, m));
    }
  }

  // ----- admitted broadcasts are the logged ones -----------------------------------------------

  function BroadcastsFrom(log: seq<Rec>, sid: string): nat {
    if log == [] then 0
    else
      BroadcastsFrom(log[..|log| - 1], sid)
      + if !log[|log| - 1].direct && log[|log| - 1].from == sid then 1 else 0
  }

  /** Every admitted charge of a listener is logged as its broadcast, or about to be. */
  ghost predicate AdmittedAreLoggedFor<R>(w: World<R>, sid: string) {
    |AdmittedReadings(w.charges, sid)| == BroadcastsFrom(w.log, sid) + Count(w, PublishersFor(sid))
  }

  ghost predicate AdmittedAreLogged<R>(w: World<R>) {
    forall sid :: AdmittedAreLoggedFor(w, sid)
  }

  ghost function PublishBalance<R>(w: World<R>, sid: string): int {
    |AdmittedReadings(w.charges, sid)| - BroadcastsFrom(w.log, sid)
  }

  ghost predicate PublishBalanced<R>(w: World<R>, v: World<R>, r: R, sid: string) {
    PublishBalance(v, sid) - Bit(v, r, PublishersFor(sid)) == PublishBalance(w, sid) - Bit(w, r, PublishersFor(sid))
  }

  lemma AdmittedFollow<R>(w: World<R>, v: World<R>, r: R)
    requires OnlyMoves(w, v, r) && AdmittedAreLogged(w)
    requires forall sid :: PublishBalanced(w, v, r, sid)
    ensures AdmittedAreLogged(v)
  {
    forall sid ensures AdmittedAreLoggedFor(v, sid) {
      assert AdmittedAreLoggedFor(w, sid);
      CountMoves(w, v, r, PublishersFor(sid));
      assert PublishBalanced(w, v, r, sid);
    }
  }

  lemma SessionPublishesNothing<R>(w: World<R>, v: World<R>, r: R, sid: string)
    requires OnlySession(w, v)
    requires r in w.pc ==> !MidFrame(w.pc[r])
    requires r in v.pc ==> !MidFrame(v.pc[r])
    ensures PublishBalanced(w, v, r, sid)
  {
  }

  lemma SessionKeepsAdmitted<R>(w: World<R>, r: R, s: SessionStep)
    requires WellKeyed(w.reg) && SessionEnabled(w, r, s) && AdmittedAreLogged(w)
    ensures AdmittedAreLogged(ApplySession(w, r, s))
  {
    SessionMovesActor(w, r, s);
    SessionKeepsMessages(w, r, s);
    SessionOutsideFrames(w, r, s);
    var v := ApplySession(w, r, s);
    forall sid ensures PublishBalanced(w, v, r, sid) {
      SessionPublishesNothing(w, v, r, sid);
    }
    AdmittedFollow(w, v, r);
  }

  lemma PublishBalanceMoves<R>(w: World<R>, r: R, m: MessageStep<R>, sid: string)
    requires MessageEnabled(w, r, m)
    ensures PublishBalanced(w, ApplyMessage(w, r, m), r, sid)
  {
    match m
    case ChargeQuota => ChargePublishBalance(w, r, sid);
    case LogSend => LogSendBalance(w, r, sid);
    case LogBroadcast => LogBroadcastBalance(w, r, sid);
    case _ =>
      OnlyPublishingLogs(w, r, m);
      OnlyChargesTouchQuota(w, r, m);
      OthersDoNotPublish(w, r, m);
  }

  lemma OthersDoNotPublish<R>(w: World<R>, r: R, m: MessageStep<R>)
    requires MessageEnabled(w, r, m) && !m.ChargeQuota? && !m.LogBroadcast?
    ensures var v := ApplyMessage(w, r, m);
            !w.pc[r].Publishing? && r in v.pc && !v.pc[r].Publishing?
  {
  }

  lemma ChargePublishBalance<R>(w: World<R>, r: R, sid: string)
    requires AtPc(w, r) && w.pc[r].Clocked?
    ensures PublishBalanced(w, ChargeStep(w, r), r, sid)
  {
    ReadingsSnoc(w.charges, ChargeStep(w, r).charges[|w.charges|], sid);
  }

  lemma LogSendBalance<R>(w: World<R>, r: R, sid: string)
    requires AtPc(w, r) && w.pc[r].Sending?
    ensures PublishBalanced(w, LogSendStep(w, r), r, sid)
  {
    BroadcastsSnoc(w.log, LogSendStep(w, r).log[|w.log|], sid);
  }

  lemma LogBroadcastBalance<R>(w: World<R>, r: R, sid: string)
    requires AtPc(w, r) && w.pc[r].Publishing?
    ensures PublishBalanced(w, LogBroadcastStep(w, r), r, sid)
  {
    BroadcastsSnoc(w.log, LogBroadcastStep(w, r).log[|w.log|], sid);
  }

  lemma BroadcastsSnoc(log: seq<Rec>, rec: Rec, sid: string)
    ensures BroadcastsFrom(log + [rec], sid)
         == BroadcastsFrom(log, sid) + if !rec.direct && rec.from == sid then 1 else 0
  {
    assert (log + [rec])[..|log|] == log;
  }

  lemma MessageKeepsAdmitted<R>(w: World<R>, r: R, m: MessageStep<R>)
    requires MessageEnabled(w, r, m) && AdmittedAreLogged(w)
    ensures AdmittedAreLogged(ApplyMessage(w, r, m))
  {
    MessageMovesActor(w, r, m);
    var v := ApplyMessage(w, r, m);
    forall sid ensures PublishBalanced(w, v, r, sid) {
      PublishBalanceMoves(w, r, m, sid);
    }
    AdmittedFollow(w, v, r);
  }
}
