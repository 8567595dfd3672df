/**
  What a connection's own frames do to it and to the registry: which hellos get in and how
  the others are answered, where every client object comes from, what a control has of its
  listener, and renames; step by step and over whole runs.
*/
module Sessions {
  import opened Text
  import opened Naming
  import opened Registry
  import Resolve
  import opened Bus
  import opened Ledgers
  import opened BusRuns
  import opened Frames

  // ----- the checks before the lock ------------------------------------------------------

  /** A hello with a bad token, name, label or role, or a control that names no session, changes nothing. */
  lemma TurnedAwayAtTheDoor<R>(w: World<R>, r: R, h: Hello, uuid: string, since: int)
    requires WellKeyed(w.reg) && SessionEnabled(w, r, HelloIn(h, uuid, since))
    requires !MayEnter(h, w.token)
    ensures ApplySession(w, r, HelloIn(h, uuid, since)) == w
  {
    FirstFaultGivesCode(h, w.token);
  }

  // ----- agents --------------------------------------------------------------------------------

  function SidOf(h: Hello, uuid: string): string {
    if h.sid == "" then uuid else h.sid
  }

  /** The client object of an agent has the hello's own fields. */
  function AgentOf(h: Hello, uuid: string, since: int): (c: Client)
    ensures c.sid == SidOf(h, uuid) && c.role == Agent && c.name == h.name && c.labelText == h.labelText
    ensures c.cwd == h.cwd && c.pid == h.pid && c.nonce == h.nonce && c.forSession == "" && c.since == since
  {
    AgentClient(h, uuid, since)
  }

  /** The session id is registered, and the hello does not prove to come from its owner. */
  ghost predicate InUse<R>(g: Reg<R>, sid: string, nonce: string)
    requires WellKeyed(g)
  {
    sid in g.registry && (nonce == "" || nonce != At(g, sid).nonce)
  }

  /**
    An agent hello that passes the checks is welcomed, registered under its session id, or
    refused: `unauthorized` when the session id is in use, else `name_taken` when another
    agent bears its name.
  */
  lemma AgentHelloOutcome<R>(w: World<R>, r: R, h: Hello, uuid: string, since: int)
    requires WellKeyed(w.reg) && SessionEnabled(w, r, HelloIn(h, uuid, since))
    requires MayEnter(h, w.token) && h.role == AgentRole
    ensures var v, sid := ApplySession(w, r, HelloIn(h, uuid, since)), SidOf(h, uuid);
            && v.reg.obj == w.reg.obj[r := AgentOf(h, uuid, since)] && r in v.pc
            && if InUse(w.reg, sid, h.nonce) then
                 v.pc[r] == Refusing(Unauthorized) && v.reg.registry == w.reg.registry
               else if h.name != "" && h.name in NamesBut(w.reg, sid) then
                 v.pc[r] == Refusing(NameTaken) && v.reg.registry == w.reg.registry - {sid}
               else v.pc[r] == Welcoming && v.reg.registry == w.reg.registry[sid := r]
  {
    FirstFaultGivesCode(h, w.token);
    VerdictByCases(w.reg, AgentClient(h, uuid, since));
  }

  lemma VerdictByCases<R>(g: Reg<R>, c: Client)
    requires WellKeyed(g)
    ensures if InUse(g, c.sid, c.nonce) then AgentVerdict(g, c) == Refused(Unauthorized, None)
            else if c.name != "" && c.name in NamesBut(g, c.sid) then
              AgentVerdict(g, c).Refused? && AgentVerdict(g, c).code == NameTaken
            else AgentVerdict(g, c) == Accepted
  {
    AgentRefusals(g, c);
    AcceptedIff(g, c);
    if c.name !in NamesBut(g, c.sid) {
      forall k | IsAgentAt(g, k) && k != c.sid ensures At(g, k).name != c.name {
        assert At(g, k).name in NamesBut(g, c.sid);
      }
    }
  }

  // ----- controls ---------------------------------------------------------------------------------

  /** The hello names a registered agent and carries its nonce. */
  ghost predicate ProvesListener<R>(g: Reg<R>, h: Hello)
    requires WellKeyed(g)
  {
    IsAgentAt(g, h.forSession) && h.nonce != "" && h.nonce == At(g, h.forSession).nonce
  }

  /** The client object of a control: its listener's name, label and directory, the hello's own pid and nonce. */
  ghost predicate IsControlOf(c: Client, listener: Client, h: Hello, uuid: string, since: int) {
    && c.sid == uuid && c.role == Control && c.forSession == h.forSession
    && c.name == listener.name && c.labelText == listener.labelText && c.cwd == listener.cwd
    && c.pid == h.pid && c.nonce == h.nonce && c.since == since
  }

  /** A control hello that passes the checks is welcomed if it proves its listener, and changes nothing otherwise. */
  lemma ControlHelloOutcome<R>(w: World<R>, r: R, h: Hello, uuid: string, since: int)
    requires WellKeyed(w.reg) && SessionEnabled(w, r, HelloIn(h, uuid, since))
    requires MayEnter(h, w.token) && h.role == ControlRole
    ensures var v := ApplySession(w, r, HelloIn(h, uuid, since));
            if ProvesListener(w.reg, h) then
              && r in v.pc && v.pc[r] == Welcoming && v.reg.registry == w.reg.registry[uuid := r]
              && v.reg.obj.Keys == w.reg.obj.Keys + {r}
              && (forall x | x in w.reg.obj :: v.reg.obj[x] == w.reg.obj[x])
              && IsControlOf(v.reg.obj[r], At(w.reg, h.forSession), h, uuid, since)
            else v == w
  {
    FirstFaultGivesCode(h, w.token);
    ControlAcceptedIff(w.reg, h.forSession, h.nonce);
    if ProvesListener(w.reg, h) {
      ControlInherits(w.reg, r, uuid, h.forSession, h.nonce, h.pid, since);
    }
  }

  // ----- where clients come from -----------------------------------------------------------------------

  /** The fields a client object has from the hello that created it; a control's label and directory aside. */
  ghost predicate CameFrom(c: Client, h: Hello, uuid: string, since: int) {
    && c.pid == h.pid && c.nonce == h.nonce && c.since == since
    && (h.role == AgentRole ==>
          c.role == Agent && c.sid == SidOf(h, uuid) && c.labelText == h.labelText && c.cwd == h.cwd && c.forSession == "")
    && (h.role == ControlRole ==> c.role == Control && c.sid == uuid && c.forSession == h.forSession)
  }

  /** Step `a` is the hello, fit to enter, that created client `c` of handler `r`. */
  ghost predicate Created<R>(a: Action<R>, r: R, c: Client, token: string) {
    a.Session? && a.r == r && a.s.HelloIn? && MayEnter(a.s.hello, token)
    && CameFrom(c, a.s.hello, a.s.uuid, a.s.since)
  }

  lemma HelloCreates<R>(w: World<R>, r: R, h: Hello, uuid: string, since: int)
    requires WellKeyed(w.reg) && SessionEnabled(w, r, HelloIn(h, uuid, since))
    ensures var v := ApplySession(w, r, HelloIn(h, uuid, since));
            r in v.reg.obj ==> MayEnter(h, w.token) && CameFrom(v.reg.obj[r], h, uuid, since)
  {
    if !MayEnter(h, w.token) {
      TurnedAwayAtTheDoor(w, r, h, uuid, since);
    } else if h.role == AgentRole {
      AgentHelloOutcome(w, r, h, uuid, since);
    } else {
      ControlHelloOutcome(w, r, h, uuid, since);
    }
  }

  lemma OtherSessionStepsCreateNone<R>(w: World<R>, r: R, s: SessionStep)
    requires WellKeyed(w.reg) && SessionEnabled(w, r, s) && !s.HelloIn?
    ensures ApplySession(w, r, s).reg.obj.Keys == w.reg.obj.Keys
  {
    SessionMovesActor(w, r, s);
  }

  lemma StepCreates<R>(w: World<R>, a: Action<R>, r: R)
    requires WellKeyed(w.reg) && Enabled(w, a) && r !in w.reg.obj && r in Apply(w, a).reg.obj
    ensures Created(a, r, Apply(w, a).reg.obj[r], w.token)
  {
    match a
    case Session(x, s) =>
      SessionMovesActor(w, x, s);
      if s.HelloIn? {
        HelloCreates(w, x, s.hello, s.uuid, s.since);
      } else {
        OtherSessionStepsCreateNone(w, x, s);
      }
    case Message(x, m) => MessageKeepsReg(w, x, m);
  }

  lemma SessionKeepsToken<R>(w: World<R>, r: R, s: SessionStep)
    requires WellKeyed(w.reg) && SessionEnabled(w, r, s)
    ensures ApplySession(w, r, s).token == w.token
  {
  }

  lemma StepKeepsToken<R>(w: World<R>, a: Action<R>)
    requires WellKeyed(w.reg) && Enabled(w, a)
    ensures Apply(w, a).token == w.token
  {
    match a
    case Session(r, s) => SessionKeepsToken(w, r, s);
    case Message(r, m) => MessageKeepsReg(w, r, m);
  }

  lemma {:induction false} RunCreates<R>(w: World<R>, acts: seq<Action<R>>, r: R)
    requires WellKeyed(w.reg) && IsRun(w, acts) && r !in w.reg.obj && r in After(w, acts).reg.obj
    ensures exists a | a in acts :: Created(a, r, After(w, acts).reg.obj[r], w.token)
    decreases |acts|
  {
    assert acts != [];
    var v, rest := Apply(w, acts[0]), acts[1..];
    if r in v.reg.obj {
      StepCreates(w, acts[0], r);
      ObjectsKeepIdentity(v, rest, r);
      assert acts[0] in acts;
    } else {
      StepKeepsToken(w, acts[0]);
      RunCreates(v, rest, r);
      var a :| a in rest && Created(a, r, After(v, rest).reg.obj[r], v.token);
      assert a in acts;
    }
  }

  /**
    Nobody gets in without the token: in every run every client object was created by its
    own handler's hello, which bore the server's token and passed every other check, and
    whose session id, nonce, pid, label and directory it still has.
  */
  lemma EveryClientSaidHello<R>(w: World<R>, token: string, acts: seq<Action<R>>, r: R)
    requires Reached(w, token, acts) && r in w.reg.obj
    ensures exists a | a in acts :: Created(a, r, w.reg.obj[r], token)
  {
    RunCreates(Init(token), acts, r);
  }

  /**
    Whom a handler acts for, and until when. An agent acts for itself as long as it runs,
    replaced or not; a control acts for the session it named, as long as anyone is registered
    under that session id.
  */
  lemma WhoMayAct<R>(w: World<R>, token: string, acts: seq<Action<R>>, r: R)
    requires Reached(w, token, acts) && r in w.reg.obj
    ensures w.reg.obj[r].role == Agent ==> ListenerAlive(w.reg, r) && w.reg.obj[r].FromID() == w.reg.obj[r].sid
    ensures w.reg.obj[r].role == Control ==>
      && w.reg.obj[r].FromID() == w.reg.obj[r].forSession != ""
      && (ListenerAlive(w.reg, r) <==> w.reg.obj[r].forSession in w.reg.registry)
  {
    EveryClientSaidHello(w, token, acts, r);
  }

  // ----- what a control keeps of its listener ---------------------------------------------------------------

  /**
    However long a control lives, it has the label and directory its listener had at the
    control's hello; they are still the listener's as long as that was not replaced.
  */
  lemma ControlKeepsLabel<R>(w: World<R>, r: R, h: Hello, uuid: string, since: int, acts: seq<Action<R>>, x: World<R>)
    requires Leads(w, Session(r, HelloIn(h, uuid, since)), acts, x)
    requires MayEnter(h, w.token) && h.role == ControlRole && ProvesListener(w.reg, h)
    ensures var listener, k := At(w.reg, h.forSession), h.forSession;
            && r in x.reg.obj && x.reg.obj[r].FromID() == k && x.reg.obj[r].nonce == listener.nonce
            && x.reg.obj[r].labelText == listener.labelText && x.reg.obj[r].cwd == listener.cwd
            && (k in x.reg.registry && x.reg.registry[k] == w.reg.registry[k] ==>
                  At(x.reg, k).labelText == x.reg.obj[r].labelText && At(x.reg, k).cwd == x.reg.obj[r].cwd)
  {
    var a, l := Session(r, HelloIn(h, uuid, since)), w.reg.registry[h.forSession];
    ControlHelloOutcome(w, r, h, uuid, since);
    ObjectsKeepIdentity(Apply(w, a), acts, r);
    LeadsKeepsObject(w, a, acts, x, l);
  }

  /**
    A record sent by a control is its listener's: it bears the session id the control named
    and the label the listener had at the control's hello.
  */
  lemma ControlSendsAsListener<R>(w: World<R>, token: string, past: seq<Action<R>>, r: R, h: Hello, uuid: string,
                                  since: int, mid: seq<Action<R>>, x: World<R>, to: string, text: string, t: R,
                                  before: seq<Action<R>>, u: World<R>, after: seq<Action<R>>, z: World<R>)
    requires Reached(w, token, past)
    requires Leads(w, Session(r, HelloIn(h, uuid, since)), mid, x)
    requires MayEnter(h, w.token) && h.role == ControlRole && ProvesListener(w.reg, h)
    requires Leads(x, Message(r, SendIn(to, text)), before, u) && NotYetEnded(before, r)
    requires Leads(u, Message(r, LogSend), after, z)
    requires |text| <= TEXT_CAP && Resolve.ResolveTarget(x.reg, r, to) == Resolve.Deliver(t)
    ensures |u.log| < |z.log| && z.log[|u.log|].direct && z.log[|u.log|].text == text
    ensures z.log[|u.log|].from == h.forSession
    ensures z.log[|u.log|].fromLabel == At(w.reg, h.forSession).labelText
  {
    ControlKeepsLabel(w, r, h, uuid, since, mid, x);
    var past2 := LeadsReaches(w, token, past, Session(r, HelloIn(h, uuid, since)), mid, x);
    SendReachesItsTarget(x, token, past2, r, to, text, t, before, u, after, z);
  }

  lemma {:induction false} RunReaches<R>(w: World<R>, token: string, past: seq<Action<R>>, acts: seq<Action<R>>)
    returns (longer: seq<Action<R>>)
    requires Reached(w, token, past) && WellKeyed(w.reg) && IsRun(w, acts)
    ensures Reached(After(w, acts), token, longer)
    decreases |acts|
  {
    longer := past;
    if acts != [] {
      StepReaches(w, token, past, acts[0]);
      longer := RunReaches(Apply(w, acts[0]), token, past + [acts[0]], acts[1..]);
    }
  }

  lemma LeadsReaches<R>(w: World<R>, token: string, past: seq<Action<R>>, a: Action<R>, acts: seq<Action<R>>, x: World<R>)
    returns (longer: seq<Action<R>>)
    requires Reached(w, token, past) && Leads(w, a, acts, x)
    ensures Reached(x, token, longer)
  {
    StepReaches(w, token, past, a);
    longer := RunReaches(Apply(w, a), token, past + [a], acts);
  }

  // ----- renames -------------------------------------------------------------------------------------------

  /** The name may be borne by the listener of `r`: registered, and the name empty or its own to take. */
  ghost predicate MayBear<R>(g: Reg<R>, r: R, name: string)
    requires WellKeyed(g) && r in g.obj
  {
    && (name == "" || ValidName(name)) && IsAgentAt(g, g.obj[r].FromID())
    && (name == "" || forall k | IsAgentAt(g, k) && k != g.obj[r].FromID() :: At(g, k).name != name)
  }

  /**
    A rename step gives the requester and its listener the name, and leaves everything else
    alone, when the listener may bear it; otherwise it changes nothing at all.
  */
  lemma RenameOutcome<R>(w: World<R>, r: R, name: string)
    requires WellKeyed(w.reg) && SessionEnabled(w, r, RenameIn(name))
    ensures var v, sid := ApplySession(w, r, RenameIn(name)), w.reg.obj[r].FromID();
            if MayBear(w.reg, r, name) then
              && v.reg.registry == w.reg.registry && v.reg.obj.Keys == w.reg.obj.Keys && v == w.(reg := v.reg)
              && forall x | x in w.reg.obj ::
                   v.reg.obj[x] == if x == r || x == w.reg.registry[sid] then w.reg.obj[x].(name := name) else w.reg.obj[x]
            else v == w
  {
    RenameAcceptedIff(w.reg, r, name);
  }

  // ----- the way through a connection ------------------------------------------------------------------------

  /**
    Where the other steps of a connection lead: a welcomed agent is counted and serves, a
    control serves at once, a failed welcome ends it; a refused hello ends it and a refused
    frame does not; one that disconnects unregisters, and is counted out only if it still
    had its entry.
  */
  lemma StepsLeadOn<R>(w: World<R>, r: R, s: SessionStep)
    requires WellKeyed(w.reg) && SessionEnabled(w, r, s) && !s.HelloIn? && !s.RenameIn?
    ensures var v, agent := ApplySession(w, r, s), w.reg.obj[r].role == Agent;
            && r in v.pc && (!s.UnregisterOwn? ==> v.reg == w.reg)
            && match s
               case WelcomeOut(ok) => v.pc[r] == (if !ok then Failed else if agent then Joining else Serving)
               case CountJoin => v.pc[r] == Serving && v.counters.joined == w.counters.joined + 1
               case CountRejected =>
                 && v.pc[r] == (if w.pc[r].Refusing? then Closed else Serving)
                 && v.counters.rejected == w.counters.rejected + 1
               case Disconnect => v.pc[r] == Departing
               case UnregisterOwn => v.pc[r] == (if agent && Registered(w, r) then Leaving else Closed)
               case CountLeft => v.pc[r] == Closed && v.counters.left == w.counters.left + 1
               case _ => true
  {
    if s.UnregisterOwn? {
      UnregisterRemovesOnlyOwn(w, r);
    }
  }
}
