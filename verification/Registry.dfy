/**
  The registry of connected clients and its locked sections (internal/bus/handler.go and
  internal/bus/ops.go), as functions on values. `R` is the type of object identities: the
  sections compare and replace clients by identity, as the code compares pointers, so a
  client that lost its registry entry still exists and keeps its fields.
*/
module Registry {
  import opened Text
  import opened Naming

  datatype Role = Agent | Control

  datatype Code =
    | InvalidName | InvalidLabel | InvalidPayload | NameTaken | UnknownPeer
    | Ambiguous | TextTooLong | Unauthorized | RateLimited

  /** `clientState`: only `name` is ever assigned after construction. */
  datatype Client = Client(sid: string, role: Role, name: string, labelText: string, cwd: string,
                           pid: int, nonce: string, forSession: string, since: int)
  {
    /** A control acts on behalf of its listener. */
    function FromID(): string {
      if role == Control && forSession != "" then forSession else sid
    }
  }

  /** The map guarded by `registryMu`, and every client object ever created. */
  datatype Reg<R> = Reg(registry: map<string, R>, obj: map<R, Client>)

  /** Every key is the session id of the object stored under it. */
  ghost predicate WellKeyed<R>(g: Reg<R>) {
    forall k | k in g.registry :: g.registry[k] in g.obj && g.obj[g.registry[k]].sid == k
  }

  ghost predicate IsAgentAt<R>(g: Reg<R>, k: string) {
    k in g.registry && g.registry[k] in g.obj && g.obj[g.registry[k]].role == Agent
  }

  ghost function At<R>(g: Reg<R>, k: string): Client
    requires WellKeyed(g) && k in g.registry
  {
    g.obj[g.registry[k]]
  }

  ghost function AgentKeys<R>(g: Reg<R>): set<string> {
    set k | k in g.registry && IsAgentAt(g, k)
  }

  ghost predicate NamesValid<R>(g: Reg<R>)
    requires WellKeyed(g)
  {
    forall k | IsAgentAt(g, k) :: At(g, k).name == "" || ValidName(At(g, k).name)
  }

  ghost predicate NamesUnique<R>(g: Reg<R>)
    requires WellKeyed(g)
  {
    forall j, k | IsAgentAt(g, j) && IsAgentAt(g, k) && j != k ::
      At(g, j).name == "" || At(g, j).name != At(g, k).name
  }

  /** What every locked section keeps. */
  ghost predicate Consistent<R>(g: Reg<R>) {
    WellKeyed(g) && NamesValid(g) && NamesUnique(g)
  }

  /** No two keys share one object. */
  lemma KeysDoNotShareObjects<R>(g: Reg<R>, j: string, k: string)
    requires WellKeyed(g) && j in g.registry && k in g.registry && g.registry[j] == g.registry[k]
    ensures j == k
  {
    assert g.obj[g.registry[j]].sid == j;
  }

  // ----- hello -----------------------------------------------------------------

  datatype Verdict = Accepted | Refused(code: Code, candidate: Option<string>)

  /** The session id is registered and the hello does not prove continuity. */
  ghost predicate SidInUse<R>(g: Reg<R>, c: Client)
    requires WellKeyed(g)
  {
    c.sid in g.registry && (c.nonce == "" || c.nonce != At(g, c.sid).nonce)
  }

  /** The registry once the hello's own earlier entry, if any, is deleted. */
  ghost function Vacated<R>(g: Reg<R>, sid: string): (v: Reg<R>)
    requires WellKeyed(g)
    ensures WellKeyed(v)
  {
    Reg(g.registry - {sid}, g.obj)
  }

  ghost function AgentNames<R>(g: Reg<R>): set<string>
    requires WellKeyed(g)
  {
    set k | k in g.registry && IsAgentAt(g, k) :: At(g, k).name
  }

  ghost function AgentVerdict<R>(g: Reg<R>, c: Client): Verdict
    requires WellKeyed(g)
  {
    if SidInUse(g, c) then Refused(Unauthorized, None)
    else
      var taken := AgentNames(Vacated(g, c.sid));
      if c.name != "" && c.name in taken then
        var next := NextFree(c.name, taken);
        Refused(NameTaken, if next == "" then None else Some(next))
      else Accepted
  }

  /** The locked section of `helloAgent`, for the new object `r` with fields `c`. */
  ghost function AgentHello<R>(g: Reg<R>, r: R, c: Client): (h: Reg<R>)
    requires WellKeyed(g) && r !in g.obj
    ensures WellKeyed(h)
  {
    var obj := g.obj[r := c];
    match AgentVerdict(g, c)
    case Accepted => Reg(g.registry[c.sid := r], obj)
    case Refused(code, _) => Reg(if code == NameTaken then g.registry - {c.sid} else g.registry, obj)
  }

  ghost function ControlVerdict<R>(g: Reg<R>, forSession: string, nonce: string): Verdict
    requires WellKeyed(g)
  {
    if !IsAgentAt(g, forSession) then Refused(UnknownPeer, None)
    else if nonce == "" || nonce != At(g, forSession).nonce then Refused(Unauthorized, None)
    else Accepted
  }

  /** The object an accepted control hello builds, under the fresh session id `uuid`. */
  ghost function ControlClient<R>(g: Reg<R>, uuid: string, forSession: string, nonce: string, pid: int, since: int): Client
    requires WellKeyed(g) && forSession in g.registry
  {
    var listener := At(g, forSession);
    Client(uuid, Control, listener.name, listener.labelText, listener.cwd, pid, nonce, forSession, since)
  }

  /** The locked section of `helloControl`; the insertion does not look at what it overwrites. */
  ghost function ControlHello<R>(g: Reg<R>, r: R, uuid: string, forSession: string, nonce: string, pid: int, since: int): (h: Reg<R>)
    requires WellKeyed(g) && r !in g.obj
    ensures WellKeyed(h)
  {
    match ControlVerdict(g, forSession, nonce)
    case Accepted =>
      Reg(g.registry[uuid := r], g.obj[r := ControlClient(g, uuid, forSession, nonce, pid, since)])
    case Refused(_, _) => g
  }

  // ----- rename, unregister ------------------------------------------------------

  ghost function RenameVerdict<R>(g: Reg<R>, r: R, name: string): Verdict
    requires WellKeyed(g) && r in g.obj
  {
    var sid := g.obj[r].FromID();
    if name != "" && !ValidName(name) then Refused(InvalidName, None)
    else if !IsAgentAt(g, sid) then Refused(UnknownPeer, None)
    else if name != "" && name in AgentNames(Vacated(g, sid)) then Refused(NameTaken, None)
    else Accepted
  }

  /** `handleRename`: the listener's object is renamed in place, and the requester's with it. */
  ghost function Rename<R>(g: Reg<R>, r: R, name: string): (h: Reg<R>)
    requires WellKeyed(g) && r in g.obj
    ensures WellKeyed(h)
  {
    if RenameVerdict(g, r, name) == Accepted then
      var target := g.registry[g.obj[r].FromID()];
      var obj := g.obj[target := g.obj[target].(name := name)];
      Reg(g.registry, obj[r := obj[r].(name := name)])
    else g
  }

  /** Whether the entry under `r`'s session id is `r` itself. */
  ghost predicate OwnsEntry<R>(g: Reg<R>, r: R)
    requires r in g.obj
  {
    g.obj[r].sid in g.registry && g.registry[g.obj[r].sid] == r
  }

  /** The locked section of `unregister`. */
  ghost function Unregister<R>(g: Reg<R>, r: R): (h: Reg<R>)
    requires WellKeyed(g) && r in g.obj
    ensures WellKeyed(h)
  {
    if OwnsEntry(g, r) then Reg(g.registry - {g.obj[r].sid}, g.obj) else g
  }

  /** `listenerAliveLocked`: presence of the key, nothing more. */
  ghost predicate ListenerAlive<R>(g: Reg<R>, r: R)
    requires r in g.obj
  {
    g.obj[r].role == Agent || (g.obj[r].forSession != "" && g.obj[r].forSession in g.registry)
  }

  /** The registered agents, by object. */
  ghost function Agents<R>(g: Reg<R>): (a: map<R, Client>)
    ensures forall r | r in a :: r in g.obj && a[r] == g.obj[r] && a[r].role == Agent
  {
    map r | r in g.registry.Values && r in g.obj && g.obj[r].role == Agent :: g.obj[r]
  }

  // ----- the sections keep the registry consistent --------------------------------

  lemma VacatedAgents<R>(g: Reg<R>, sid: string)
    requires WellKeyed(g)
    ensures forall k :: IsAgentAt(Vacated(g, sid), k) <==> IsAgentAt(g, k) && k != sid
    ensures forall k | k in Vacated(g, sid).registry :: At(Vacated(g, sid), k) == At(g, k)
  {
  }

  lemma AgentHelloKeeps<R>(g: Reg<R>, r: R, c: Client)
    requires Consistent(g) && r !in g.obj && c.role == Agent && (c.name == "" || ValidName(c.name))
    ensures Consistent(AgentHello(g, r, c))
  {
    var h := AgentHello(g, r, c);
    forall k | k in h.registry && h.registry[k] != r ensures k in g.registry && At(h, k) == At(g, k) {
    }
    if AgentVerdict(g, c) == Accepted && c.name != "" {
      VacatedAgents(g, c.sid);
      forall k | IsAgentAt(h, k) && k != c.sid ensures At(h, k).name != c.name {
        assert At(Vacated(g, c.sid), k).name in AgentNames(Vacated(g, c.sid));
      }
    }
  }

  lemma ControlHelloKeeps<R>(g: Reg<R>, r: R, uuid: string, forSession: string, nonce: string, pid: int, since: int)
    requires Consistent(g) && r !in g.obj
    ensures Consistent(ControlHello(g, r, uuid, forSession, nonce, pid, since))
  {
    var h := ControlHello(g, r, uuid, forSession, nonce, pid, since);
    forall k | IsAgentAt(h, k) ensures IsAgentAt(g, k) && At(h, k) == At(g, k) {
    }
  }

  lemma UnregisterKeeps<R>(g: Reg<R>, r: R)
    requires Consistent(g) && r in g.obj
    ensures Consistent(Unregister(g, r))
  {
    var h := Unregister(g, r);
    forall k | IsAgentAt(h, k) ensures IsAgentAt(g, k) && At(h, k) == At(g, k) {
    }
  }

  /** Apart from names, a rename changes nothing; it changes no agent's name but the listener's. */
  lemma RenameOnlyListener<R>(g: Reg<R>, r: R, name: string)
    requires WellKeyed(g) && r in g.obj
    ensures Rename(g, r, name).registry == g.registry
    ensures Rename(g, r, name).obj.Keys == g.obj.Keys
    ensures forall x | x in g.obj :: Rename(g, r, name).obj[x] == g.obj[x].(name := Rename(g, r, name).obj[x].name)
    ensures RenameVerdict(g, r, name) != Accepted ==> Rename(g, r, name) == g
    ensures RenameVerdict(g, r, name) == Accepted ==>
      && g.obj[r].FromID() in g.registry
      && At(Rename(g, r, name), g.obj[r].FromID()).name == name
      && Rename(g, r, name).obj[r].name == name
      && forall k | IsAgentAt(g, k) && k != g.obj[r].FromID() :: At(Rename(g, r, name), k) == At(g, k)
  {
    if RenameVerdict(g, r, name) == Accepted {
      forall k | IsAgentAt(g, k) && k != g.obj[r].FromID()
        ensures At(Rename(g, r, name), k) == At(g, k)
      {
        assert g.obj[g.registry[k]].sid == k;
      }
    }
  }

  lemma RenameKeeps<R>(g: Reg<R>, r: R, name: string)
    requires Consistent(g) && r in g.obj
    ensures Consistent(Rename(g, r, name))
  {
    RenameOnlyListener(g, r, name);
    if RenameVerdict(g, r, name) == Accepted {
      var h, sid := Rename(g, r, name), g.obj[r].FromID();
      VacatedAgents(g, sid);
      forall k | IsAgentAt(h, k) && k != sid
        ensures IsAgentAt(g, k) && At(h, k) == At(g, k) && (name == "" || At(h, k).name != name)
      {
        assert At(Vacated(g, sid), k).name in AgentNames(Vacated(g, sid));
      }
    }
  }

  // ----- what a hello may and may not do --------------------------------------------

  /**
    A refused agent hello adds no entry and touches no other session id. It leaves the
    registry as it was exactly when the session id is free or not reclaimed with its nonce;
    a caller that proves continuity and is then refused its name loses its own entry.
  */
  lemma RefusedHelloEffect<R>(g: Reg<R>, r: R, c: Client)
    requires WellKeyed(g) && r !in g.obj && AgentVerdict(g, c).Refused?
    ensures r !in AgentHello(g, r, c).registry.Values
    ensures forall k | k != c.sid ::
      (k in AgentHello(g, r, c).registry <==> k in g.registry)
      && (k in g.registry ==> AgentHello(g, r, c).registry[k] == g.registry[k])
    ensures AgentHello(g, r, c).registry == g.registry
        <==> c.sid !in g.registry || c.nonce == "" || c.nonce != At(g, c.sid).nonce
  {
  }

  /**
    The candidate a refused hello is handed works: repeated with it, and no registry step in
    between, the hello is accepted. The session id may be the same or any unused one.
  */
  lemma CandidateIsAccepted<R>(g: Reg<R>, r: R, c: Client, again: Client)
    requires WellKeyed(g) && r !in g.obj
    requires AgentVerdict(g, c).Refused? && AgentVerdict(g, c).candidate.Some?
    requires again.name == AgentVerdict(g, c).candidate.value
    requires again.sid == c.sid || again.sid !in AgentHello(g, r, c).registry
    ensures AgentVerdict(AgentHello(g, r, c), again) == Accepted
  {
    var h := AgentHello(g, r, c);
    var taken := AgentNames(Vacated(g, c.sid));
    NextFreeIsLeast(c.name, taken);
    VacatedAgents(g, c.sid);
    VacatedAgents(h, again.sid);
    assert c.sid !in h.registry;
    forall k | IsAgentAt(Vacated(h, again.sid), k)
      ensures At(Vacated(h, again.sid), k).name in taken
    {
      assert IsAgentAt(Vacated(g, c.sid), k);
    }
  }

  /** Reconnecting as the same agent, with its nonce and current name, is never refused. */
  lemma NoCollisionWithSelf<R>(g: Reg<R>, c: Client)
    requires Consistent(g) && IsAgentAt(g, c.sid)
    requires c.nonce != "" && c.nonce == At(g, c.sid).nonce && c.name == At(g, c.sid).name
    ensures AgentVerdict(g, c) == Accepted
  {
    VacatedAgents(g, c.sid);
  }

  /**
    When exactly an agent hello gets in: its session id is free or reclaimed with a non-empty
    matching nonce, and no other registered agent bears its name.
  */
  lemma AcceptedIff<R>(g: Reg<R>, c: Client)
    requires WellKeyed(g)
    ensures AgentVerdict(g, c) == Accepted <==>
      && (c.sid in g.registry ==> c.nonce != "" && c.nonce == At(g, c.sid).nonce)
      && (c.name != "" ==> forall k | IsAgentAt(g, k) && k != c.sid :: At(g, k).name != c.name)
  {
    VacatedAgents(g, c.sid);
    var v := Vacated(g, c.sid);
    if forall k | IsAgentAt(g, k) && k != c.sid :: At(g, k).name != c.name {
      assert c.name !in AgentNames(v);
    } else {
      var k :| IsAgentAt(g, k) && k != c.sid && At(g, k).name == c.name;
      assert IsAgentAt(v, k) && At(v, k).name in AgentNames(v);
    }
  }

  /** The names borne by the agents registered under other session ids. */
  ghost function NamesBut<R>(g: Reg<R>, sid: string): set<string>
    requires WellKeyed(g)
  {
    set k | k in g.registry && IsAgentAt(g, k) && k != sid :: At(g, k).name
  }

  lemma NamesButAreTaken<R>(g: Reg<R>, sid: string)
    requires WellKeyed(g)
    ensures NamesBut(g, sid) == AgentNames(Vacated(g, sid))
  {
    VacatedAgents(g, sid);
    var v := Vacated(g, sid);
    forall k | IsAgentAt(v, k) ensures At(v, k).name in NamesBut(g, sid) {
      assert IsAgentAt(g, k) && k != sid;
    }
    forall k | IsAgentAt(g, k) && k != sid ensures At(g, k).name in AgentNames(v) {
      assert IsAgentAt(v, k);
    }
  }

  /**
    How an agent hello is refused: `unauthorized` when its session id is in use and not
    reclaimed; else `name_taken` when another agent bears its name, with the least free
    numbered name as the candidate, or none when every one that fits is taken.
  */
  lemma AgentRefusals<R>(g: Reg<R>, c: Client)
    requires WellKeyed(g)
    ensures c.sid in g.registry && (c.nonce == "" || c.nonce != At(g, c.sid).nonce)
      ==> AgentVerdict(g, c) == Refused(Unauthorized, None)
    ensures !(c.sid in g.registry && (c.nonce == "" || c.nonce != At(g, c.sid).nonce))
            && c.name != "" && c.name in NamesBut(g, c.sid)
      ==> && AgentVerdict(g, c).Refused? && AgentVerdict(g, c).code == NameTaken
          && match AgentVerdict(g, c).candidate
             case Some(next) => IsLeastFree(c.name, NamesBut(g, c.sid), 2, next)
             case None => Exhausted(c.name, NamesBut(g, c.sid), 2)
  {
    NamesButAreTaken(g, c.sid);
    if c.name != "" && c.name in NamesBut(g, c.sid) {
      NextFreeIsLeast(c.name, NamesBut(g, c.sid));
    }
  }

  /**
    When exactly a control hello gets in, and how it is refused otherwise: the session it
    names must be a registered agent, then its nonce must be that agent's and not empty.
  */
  lemma ControlAcceptedIff<R>(g: Reg<R>, forSession: string, nonce: string)
    requires WellKeyed(g)
    ensures ControlVerdict(g, forSession, nonce) == Accepted
        <==> IsAgentAt(g, forSession) && nonce != "" && nonce == At(g, forSession).nonce
    ensures !IsAgentAt(g, forSession) ==> ControlVerdict(g, forSession, nonce) == Refused(UnknownPeer, None)
    ensures IsAgentAt(g, forSession) && (nonce == "" || nonce != At(g, forSession).nonce)
      ==> ControlVerdict(g, forSession, nonce) == Refused(Unauthorized, None)
  {
  }

  /** What an admitted control takes over from its listener, and what it does not. */
  lemma ControlInherits<R>(g: Reg<R>, r: R, uuid: string, forSession: string, nonce: string, pid: int, since: int)
    requires WellKeyed(g) && r !in g.obj && IsAgentAt(g, forSession)
    requires nonce != "" && nonce == At(g, forSession).nonce
    ensures var h := ControlHello(g, r, uuid, forSession, nonce, pid, since);
            && h.registry == g.registry[uuid := r] && h.obj.Keys == g.obj.Keys + {r}
            && (forall x | x in g.obj :: h.obj[x] == g.obj[x])
            && h.obj[r].name == At(g, forSession).name
            && h.obj[r].labelText == At(g, forSession).labelText && h.obj[r].cwd == At(g, forSession).cwd
            && h.obj[r].sid == uuid && h.obj[r].role == Control && h.obj[r].forSession == forSession
            && h.obj[r].nonce == nonce && h.obj[r].pid == pid && h.obj[r].since == since
  {
  }

  /**
    When exactly a rename gets in, for an agent or for a control on its listener's behalf:
    the name is empty or valid, the listener is registered, and no other agent bears the
    name. The listener, and the requester with it, then bear it. The first condition that
    fails gives the code.
  */
  lemma RenameAcceptedIff<R>(g: Reg<R>, r: R, name: string)
    requires WellKeyed(g) && r in g.obj
    ensures var sid := g.obj[r].FromID();
            && (RenameVerdict(g, r, name) == Accepted <==>
                  && (name == "" || ValidName(name)) && IsAgentAt(g, sid)
                  && (name == "" || forall k | IsAgentAt(g, k) && k != sid :: At(g, k).name != name))
            && (RenameVerdict(g, r, name) == Accepted ==>
                  At(Rename(g, r, name), sid).name == name && Rename(g, r, name).obj[r].name == name)
    ensures name != "" && !ValidName(name) ==> RenameVerdict(g, r, name) == Refused(InvalidName, None)
    ensures (name == "" || ValidName(name)) && !IsAgentAt(g, g.obj[r].FromID())
      ==> RenameVerdict(g, r, name) == Refused(UnknownPeer, None)
    ensures name != "" && ValidName(name) && IsAgentAt(g, g.obj[r].FromID())
            && (exists k | IsAgentAt(g, k) && k != g.obj[r].FromID() :: At(g, k).name == name)
      ==> RenameVerdict(g, r, name) == Refused(NameTaken, None)
  {
    var sid := g.obj[r].FromID();
    NamesButAreTaken(g, sid);
    if RenameVerdict(g, r, name) == Accepted {
      RenameOnlyListener(g, r, name);
    }
    forall k | IsAgentAt(g, k) && k != sid ensures At(g, k).name in NamesBut(g, sid) {
    }
  }

  // ----- session continuity, section by section ---------------------------------------

  /**
    `before` and `after` agree on every session id registered as an agent in both: same
    role, same nonce.
  */
  ghost predicate Continuous<R>(before: Reg<R>, after: Reg<R>)
    requires WellKeyed(before) && WellKeyed(after)
  {
    forall k | IsAgentAt(before, k) && k in after.registry ::
      IsAgentAt(after, k) && At(after, k).nonce == At(before, k).nonce
  }

  lemma AgentHelloContinuous<R>(g: Reg<R>, r: R, c: Client)
    requires WellKeyed(g) && r !in g.obj && c.role == Agent
    ensures Continuous(g, AgentHello(g, r, c))
  {
  }

  lemma ControlHelloContinuous<R>(g: Reg<R>, r: R, uuid: string, forSession: string, nonce: string, pid: int, since: int)
    requires WellKeyed(g) && r !in g.obj && uuid !in g.registry
    ensures Continuous(g, ControlHello(g, r, uuid, forSession, nonce, pid, since))
  {
  }

  lemma UnregisterContinuous<R>(g: Reg<R>, r: R)
    requires WellKeyed(g) && r in g.obj
    ensures Continuous(g, Unregister(g, r))
  {
  }

  lemma RenameContinuous<R>(g: Reg<R>, r: R, name: string)
    requires WellKeyed(g) && r in g.obj
    ensures Continuous(g, Rename(g, r, name))
  {
    RenameOnlyListener(g, r, name);
  }
}
