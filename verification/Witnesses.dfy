/**
  Runs of the bus that show its surprising outcomes do happen: for each, the steps of a run
  from the start, with handlers numbered in the order of their connections.
*/
module Witnesses {
  import Naming
  import opened Registry
  import opened Resolve
  import opened Bus
  import opened BusRuns

  type Conn = nat

  const TOKEN := "token"

  /** An agent's hello frame that passes every check made before the lock. */
  function AgentHelloFrame(sid: string, name: string, nonce: string): Hello {
    Hello(sid, name, "", true, "", 0, AgentRole, TOKEN, nonce, "")
  }

  function ControlHelloFrame(forSession: string, nonce: string): Hello {
    Hello("", "", "", true, "", 0, ControlRole, TOKEN, nonce, forSession)
  }

  function AgentNamed(sid: string, name: string, nonce: string): Client {
    Client(sid, Agent, name, "", "", 0, nonce, "", 0)
  }

  /** An agent with a free session id, and a free name or none, gets in. */
  lemma Joins(w: World<Conn>, past: seq<Action<Conn>>, r: Conn, sid: string, name: string, nonce: string)
    returns (v: World<Conn>, acts: seq<Action<Conn>>)
    requires Reached(w, TOKEN, past) && w.token == TOKEN && r !in w.pc && r !in w.reg.obj
    requires sid != "" && sid !in w.reg.registry && (name == "" || Naming.ValidName(name))
    requires WellKeyed(w.reg) && (name != "" ==> forall k | IsAgentAt(w.reg, k) :: At(w.reg, k).name != name)
    ensures Reached(v, TOKEN, acts) && WellKeyed(v.reg)
    ensures v.reg == Reg(w.reg.registry[sid := r], w.reg.obj[r := AgentNamed(sid, name, nonce)])
    ensures v.pc == w.pc[r := Welcoming] && v.token == w.token && v.tally == w.tally
  {
    var a := Session(r, HelloIn(AgentHelloFrame(sid, name, nonce), "", 0));
    AcceptedIff(w.reg, AgentNamed(sid, name, nonce));
    StepReaches(w, TOKEN, past, a);
    v, acts := Apply(w, a), past + [a];
  }

  /** Any enabled step may come next. */
  lemma Takes(w: World<Conn>, past: seq<Action<Conn>>, a: Action<Conn>) returns (v: World<Conn>, acts: seq<Action<Conn>>)
    requires Reached(w, TOKEN, past) && Enabled(w, a)
    ensures v == Apply(w, a) && Reached(v, TOKEN, acts)
  {
    StepReaches(w, TOKEN, past, a);
    v, acts := Apply(w, a), past + [a];
  }

  lemma Begins() returns (w: World<Conn>, acts: seq<Action<Conn>>)
    ensures w == Init(TOKEN) && acts == [] && Reached(w, TOKEN, acts)
  {
    w, acts := Init(TOKEN), [];
  }

  /** The agent's welcome is written and its join counted: it serves frames. */
  lemma Settles(w: World<Conn>, past: seq<Action<Conn>>, r: Conn) returns (v: World<Conn>, acts: seq<Action<Conn>>)
    requires Reached(w, TOKEN, past) && AtPc(w, r) && w.pc[r].Welcoming? && w.reg.obj[r].role == Agent
    ensures Reached(v, TOKEN, acts) && v.reg == w.reg && v.tally == w.tally && v.token == w.token
    ensures v.pc == w.pc[r := Serving]
  {
    v, acts := Takes(w, past, Session(r, WelcomeOut(true)));
    v, acts := Takes(v, acts, Session(r, CountJoin));
  }

  /** Two agents whose session ids are shorter than 8 bytes and share 4: a send to these panics. */
  lemma ShortSidsPanic() returns (w: World<Conn>, acts: seq<Action<Conn>>)
    ensures Reached(w, TOKEN, acts) && w.tally.panics == 1
  {
    w, acts := Begins();
    w, acts := Joins(w, acts, 0, "abcd1", "", "");
    w, acts := Joins(w, acts, 1, "abcd2", "", "");
    w, acts := Settles(w, acts, 0);
    SharedPrefixPanics(w.reg);
    w, acts := Takes(w, acts, Message(0, SendIn("abcd", "")));
  }

  lemma SharedPrefixPanics(g: Reg<Conn>)
    requires g.registry == map["abcd1" := 0, "abcd2" := 1]
    requires g.obj == map[0 := AgentNamed("abcd1", "", ""), 1 := AgentNamed("abcd2", "", "")]
    ensures ResolveTarget(g, 0, "abcd") == Panicked
  {
    var agents := Agents(g);
    assert g.registry["abcd1"] == 0 && g.registry["abcd2"] == 1;
    assert "abcd1"[..4] == "abcd" && "abcd2"[..4] == "abcd";
    assert {0, 1} <= BySidPrefix(agents, "abcd");
    assert BySidPrefix(agents, "abcd") == {0, 1};
    PanicsExactlyWhen(g, 0, "abcd");
  }

  /** An agent without a nonce whose welcome cannot be written is left in the registry. */
  lemma WelcomeFails() returns (w: World<Conn>, acts: seq<Action<Conn>>)
    ensures Reached(w, TOKEN, acts) && "a" in w.reg.registry && w.reg.registry["a"] in w.pc
    ensures w.pc[w.reg.registry["a"]].Failed? && At(w.reg, "a").nonce == ""
  {
    w, acts := Begins();
    w, acts := Joins(w, acts, 0, "a", "", "");
    w, acts := Takes(w, acts, Session(0, WelcomeOut(false)));
  }

  /** A caller that reclaims its session id under a taken name loses its entry and is refused. */
  lemma NameTakenDropsOwnEntry() returns (w: World<Conn>, acts: seq<Action<Conn>>, a: Action<Conn>)
    ensures Reached(w, TOKEN, acts) && Enabled(w, a) && a.Session? && a.s.HelloIn?
    ensures var c := AgentClient(a.s.hello, a.s.uuid, a.s.since);
            && IsAgentAt(w.reg, c.sid) && At(w.reg, c.sid).nonce == c.nonce
            && AgentVerdict(w.reg, c).Refused? && AgentVerdict(w.reg, c).code == NameTaken
            && c.sid !in Apply(w, a).reg.registry && a.r !in Apply(w, a).reg.registry.Values
  {
    w, acts := Begins();
    w, acts := Joins(w, acts, 0, "a", "x", "n");
    w, acts := Joins(w, acts, 1, "b", "y", "");
    a := Session(2, HelloIn(AgentHelloFrame("a", "y", "n"), "", 0));
    TakenNameIsRefused(w.reg, 2);
  }

  lemma TakenNameIsRefused(g: Reg<Conn>, r: Conn)
    requires WellKeyed(g) && r !in g.obj && IsAgentAt(g, "a") && IsAgentAt(g, "b")
    requires At(g, "a").nonce == "n" && At(g, "b").name == "y"
    ensures var c := AgentNamed("a", "y", "n");
            && AgentVerdict(g, c).Refused? && AgentVerdict(g, c).code == NameTaken
            && "a" !in AgentHello(g, r, c).registry && r !in AgentHello(g, r, c).registry.Values
  {
    AcceptedIff(g, AgentNamed("a", "y", "n"));
    RefusedHelloEffect(g, r, AgentNamed("a", "y", "n"));
  }

  /** A control hello that proves its listener's nonce gets in. */
  lemma ControlJoins(w: World<Conn>, past: seq<Action<Conn>>, r: Conn, uuid: string, k: string, nonce: string)
    returns (v: World<Conn>, acts: seq<Action<Conn>>)
    requires Reached(w, TOKEN, past) && w.token == TOKEN && r !in w.pc && r !in w.reg.obj
    requires WellKeyed(w.reg) && IsAgentAt(w.reg, k) && nonce != "" && At(w.reg, k).nonce == nonce
    requires k != "" && uuid !in w.reg.registry
    ensures Reached(v, TOKEN, acts) && WellKeyed(v.reg) && v.token == TOKEN && v.pc == w.pc[r := Serving]
    ensures v.reg == Reg(w.reg.registry[uuid := r], w.reg.obj[r := ControlClient(w.reg, uuid, k, nonce, 0, 0)])
  {
    v, acts := Takes(w, past, Session(r, HelloIn(ControlHelloFrame(k, nonce), uuid, 0)));
    v, acts := Takes(v, acts, Session(r, WelcomeOut(true)));
  }

  /** A serving agent that owns its entry goes. */
  lemma Quits(w: World<Conn>, past: seq<Action<Conn>>, r: Conn) returns (v: World<Conn>, acts: seq<Action<Conn>>)
    requires Reached(w, TOKEN, past) && WellKeyed(w.reg) && AtPc(w, r) && w.pc[r].Serving?
    requires OwnsEntry(w.reg, r) && w.reg.obj[r].role == Agent
    ensures Reached(v, TOKEN, acts) && WellKeyed(v.reg) && v.token == w.token && v.pc == w.pc[r := Leaving]
    ensures v.reg == Reg(w.reg.registry - {w.reg.obj[r].sid}, w.reg.obj)
  {
    v, acts := Takes(w, past, Session(r, Disconnect));
    v, acts := Takes(v, acts, Session(r, UnregisterOwn));
  }

  /** A listener with nonce "m" and its control, then the listener leaves. */
  lemma ListenerLeaves() returns (w: World<Conn>, acts: seq<Action<Conn>>)
    ensures Reached(w, TOKEN, acts) && WellKeyed(w.reg) && w.token == TOKEN
    ensures AtPc(w, 1) && w.pc[1].Serving? && 2 !in w.pc && 2 !in w.reg.obj
    ensures w.reg.obj[1].role == Control && w.reg.obj[1].forSession == "a" && w.reg.obj[1].nonce == "m"
    ensures w.reg.registry == map["u" := 1]
  {
    w, acts := Begins();
    w, acts := Joins(w, acts, 0, "a", "", "m");
    w, acts := Settles(w, acts, 0);
    w, acts := ControlJoins(w, acts, 1, "u", "a", "m");
    w, acts := Quits(w, acts, 0);
  }

  /** A control admitted with nonce "m" ends up alive over an agent with nonce "n". */
  lemma ControlOutlivesListener() returns (w: World<Conn>, acts: seq<Action<Conn>>)
    ensures Reached(w, TOKEN, acts) && AtPc(w, 1) && w.pc[1].Serving? && w.reg.obj[1].role == Control
    ensures w.reg.obj[1].FromID() == "a" && w.reg.obj[1].nonce == "m"
    ensures ListenerAlive(w.reg, 1) && IsAgentAt(w.reg, "a") && At(w.reg, "a").nonce == "n"
  {
    w, acts := ListenerLeaves();
    w, acts := Joins(w, acts, 2, "a", "", "n");
  }
}
