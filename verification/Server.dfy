/**
  The server's locked sections as the code runs them, on client objects and an updatable
  map. Each method is tied to the corresponding function on registry values; loops over the
  map take its keys in any order.
*/
module Server {
  import opened Text
  import opened Naming
  import opened Registry
  import opened Resolve
  import Bus
  import Ledgers

  class ClientState {
    const sessionID: string
    const role: Role
    var name: string
    const labelText: string
    const cwd: string
    const pid: int
    const nonce: string
    const forSession: string
    const since: int

    constructor (c: Client)
      ensures Fields() == c
    {
      sessionID, role, name, labelText, cwd := c.sid, c.role, c.name, c.labelText, c.cwd;
      pid, nonce, forSession, since := c.pid, c.nonce, c.forSession, c.since;
    }

    function Fields(): Client
      reads this
    {
      Client(sessionID, role, name, labelText, cwd, pid, nonce, forSession, since)
    }

    /** `fromID`. */
    function FromID(): (id: string)
      reads this
      ensures id == Fields().FromID()
    {
      if role == Control && forSession != "" then forSession else sessionID
    }
  }

  ghost function ViewOf(registry: map<string, ClientState>, all: set<ClientState>): Reg<ClientState>
    reads all
  {
    Reg(registry, map c | c in all :: c.Fields())
  }

  class Server {
    var registry: map<string, ClientState>
    var peersLeft: nat
    ghost var all: set<ClientState>  // every client object ever handed to the server

    ghost predicate Valid()
      reads this, all
    {
      registry.Values <= all && WellKeyed(View())
    }

    ghost function View(): Reg<ClientState>
      reads this, all
    {
      ViewOf(registry, all)
    }

    constructor ()
      ensures Valid() && View() == Reg(map[], map[]) && peersLeft == 0
    {
      registry, peersLeft, all := map[], 0, {};
    }

    /** The loop over the registry that notes the names in use. */
    method NamesInUse(name: string) returns (taken: set<string>, nameInUse: bool)
      requires Valid()
      ensures taken == AgentNames(View())
      ensures nameInUse <==> name in taken
    {
      taken, nameInUse := {}, false;
      var keys := registry.Keys;
      while keys != {}
        invariant keys <= registry.Keys
        invariant taken == set k | k in registry.Keys - keys && IsAgentAt(View(), k) :: At(View(), k).name
        invariant nameInUse <==> name in taken
        decreases keys
      {
        var k :| k in keys;
        var c := registry[k];
        assert IsAgentAt(View(), k) <==> c.role == Agent;
        ghost var seen := registry.Keys - keys;
        keys := keys - {k};
        assert registry.Keys - keys == seen + {k};
        if c.role == Agent {
          assert At(View(), k).name == c.name;
          taken := taken + {c.name};
          if c.name == name {
            nameInUse := true;
          }
        }
      }
    }

    /** First half of `helloAgent`'s section: an entry under the session id must be reclaimed. */
    method ReclaimSid(state: ClientState) returns (ok: bool)
      requires Valid() && state !in all
      modifies this
      ensures Valid() && all == old(all)
      ensures ok <==> !SidInUse(old(View()), state.Fields())
      ensures View() == if ok then Vacated(old(View()), state.sessionID) else old(View())
    {
      ghost var before := View();
      if state.sessionID in registry {
        var existing := registry[state.sessionID];
        assert existing.Fields() == At(before, state.sessionID);
        if state.nonce == "" || state.nonce != existing.nonce {
          return false;
        }
        registry := registry - {state.sessionID};
      }
      assert registry == before.registry - {state.sessionID};
      return true;
    }

    /** A client object the server has seen; proof only. */
    ghost method Note(state: ClientState)
      requires Valid() && state !in all
      modifies this`all
      ensures Valid() && all == old(all) + {state}
      ensures View() == Reg(registry, old(View()).obj[state := state.Fields()])
    {
      ghost var before := View();
      all := all + {state};
      assert View().obj == before.obj[state := state.Fields()];
    }

    /** Second half: insert the object unless another agent bears its name. */
    method ClaimName(state: ClientState) returns (verdict: Verdict)
      requires Valid() && state !in all && state.sessionID !in registry
      modifies this
      ensures Valid() && all == old(all) + {state}
      ensures var taken := AgentNames(old(View()));
              verdict == if state.name != "" && state.name in taken
                         then Refused(NameTaken, if NextFree(state.name, taken) == "" then None
                                                 else Some(NextFree(state.name, taken)))
                         else Accepted
      ensures View() == Reg(if verdict == Accepted then old(registry)[state.sessionID := state] else old(registry),
                            old(View()).obj[state := state.Fields()])
    {
      if state.name != "" {
        var taken, nameInUse := NamesInUse(state.name);
        if nameInUse {
          var next := NextAvailableName(state.name, taken);
          Note(state);
          return Refused(NameTaken, if next == "" then None else Some(next));
        }
      }
      Note(state);
      registry := registry[state.sessionID := state];
      return Accepted;
    }

    /** The locked section of `helloAgent`. */
    method HelloAgent(state: ClientState) returns (verdict: Verdict)
      requires Valid() && state !in all && state.role == Agent
      modifies this
      ensures Valid() && all == old(all) + {state}
      ensures verdict == AgentVerdict(old(View()), state.Fields())
      ensures View() == AgentHello(old(View()), state, state.Fields())
    {
      ghost var before := View();
      var ok := ReclaimSid(state);
      if !ok {
        Note(state);
        return Refused(Unauthorized, None);
      }
      verdict := ClaimName(state);
      assert (before.registry - {state.sessionID})[state.sessionID := state] == before.registry[state.sessionID := state];
    }

    /** The locked section of `helloControl`, with the fresh identifier it draws. */
    method HelloControl(uuid: string, forSession: string, nonce: string, pid: int, since: int)
      returns (verdict: Verdict, state: ClientState?)
      requires Valid()
      modifies this
      ensures Valid() && verdict == ControlVerdict(old(View()), forSession, nonce)
      ensures verdict != Accepted ==> state == null && View() == old(View())
      ensures verdict == Accepted ==>
        && state != null && fresh(state)
        && View() == ControlHello(old(View()), state, uuid, forSession, nonce, pid, since)
    {
      ghost var before := View();
      if forSession !in registry || registry[forSession].role != Agent {
        return Refused(UnknownPeer, None), null;
      }
      var listener := registry[forSession];
      assert listener.Fields() == At(before, forSession);
      if nonce == "" || nonce != listener.nonce {
        return Refused(Unauthorized, None), null;
      }
      var c := Client(uuid, Control, listener.name, listener.labelText, listener.cwd, pid, nonce, forSession, since);
      state := new ClientState(c);
      registry := registry[uuid := state];
      all := all + {state};
      assert View().obj == before.obj[state := c];
      return Accepted, state;
    }

    /** The loop of `handleRename` looking for another agent of that name. */
    method NameHeldByOther(name: string, sid: string) returns (held: bool)
      requires Valid()
      ensures held <==> name in AgentNames(Vacated(View(), sid))
    {
      held := false;
      var keys := registry.Keys;
      while keys != {}
        invariant keys <= registry.Keys
        invariant !held
        invariant forall k | k in registry.Keys - keys && IsAgentAt(View(), k) && k != sid :: At(View(), k).name != name
        decreases keys
      {
        var k :| k in keys;
        var c := registry[k];
        assert At(View(), k) == c.Fields();
        if c.sessionID != sid && c.role == Agent && c.name == name {
          assert IsAgentAt(Vacated(View(), sid), k) && At(Vacated(View(), sid), k).name == name;
          return true;
        }
        keys := keys - {k};
      }
      VacatedAgents(View(), sid);
      forall k | IsAgentAt(Vacated(View(), sid), k) ensures At(Vacated(View(), sid), k).name != name {
        assert k in registry.Keys - keys;
      }
    }

    /** The assignments of `handleRename`: the target's name, and the requester's if it is another object. */
    method SetNames(state: ClientState, target: ClientState, name: string)
      requires Valid() && state in all && target in all
      modifies state`name, target`name
      ensures Valid()
      ensures var obj := old(View()).obj;
              var renamed: map<ClientState, Client> := obj[target := obj[target].(name := name)];
              View() == Reg(registry, renamed[state := renamed[state].(name := name)])
    {
      ghost var before := View();
      target.name := name;
      if state != target {
        state.name := name;
      }
      ghost var renamed: map<ClientState, Client> := before.obj[target := before.obj[target].(name := name)];
      assert View().obj == renamed[state := renamed[state].(name := name)];
    }

    /** `handleRename`, up to the release of the lock. */
    method HandleRename(state: ClientState, name: string) returns (verdict: Verdict)
      requires Valid() && state in all
      modifies all
      ensures Valid() && registry == old(registry)
      ensures verdict == RenameVerdict(old(View()), state, name)
      ensures View() == Rename(old(View()), state, name)
    {
      ghost var before := View();
      if name != "" && !ValidName(name) {
        return Refused(InvalidName, None);
      }
      var targetSID := state.FromID();
      assert targetSID == before.obj[state].FromID();
      if targetSID !in registry || registry[targetSID].role != Agent {
        return Refused(UnknownPeer, None);
      }
      var target := registry[targetSID];
      assert target in all && before.obj[target] == target.Fields();
      if name != "" {
        var held := NameHeldByOther(name, targetSID);
        if held {
          return Refused(NameTaken, None);
        }
      }
      SetNames(state, target, name);
      return Accepted;
    }

    /** `unregister`: compare by identity, delete, and count the leave after the lock. */
    method UnregisterClient(state: ClientState) returns (announced: bool)
      requires Valid() && state in all
      modifies this
      ensures Valid() && all == old(all) && View() == Unregister(old(View()), state)
      ensures announced <==> old(OwnsEntry(View(), state)) && state.role == Agent
      ensures peersLeft == old(peersLeft) + if announced then 1 else 0
    {
      announced := false;
      assert View().obj[state].sid == state.sessionID;
      if state.sessionID in registry && registry[state.sessionID] == state {
        registry := registry - {state.sessionID};
        announced := state.role == Agent;
      }
      if announced {
        peersLeft := peersLeft + 1;
      }
    }

    /** `listenerAliveLocked`. */
    method ListenerAliveLocked(state: ClientState) returns (alive: bool)
      requires Valid() && state in all
      ensures alive <==> ListenerAlive(View(), state)
    {
      assert View().obj[state] == state.Fields();
      if state.role != Control {
        return true;
      }
      if state.forSession == "" {
        return false;
      }
      return state.forSession in registry;
    }

    /** The loop that copies the registered agents into a slice. */
    method CollectAgents() returns (agents: seq<ClientState>)
      requires Valid()
      ensures Enumerates(agents, Agents(View()).Keys)
    {
      agents := [];
      var keys := registry.Keys;
      while keys != {}
        invariant keys <= registry.Keys
        invariant forall i, j | 0 <= i < j < |agents| :: agents[i] != agents[j]
        invariant forall c | c in agents :: c in Agents(View()) && c.sessionID in registry.Keys - keys
        invariant forall k | k in registry.Keys - keys && registry[k].role == Agent :: registry[k] in agents
        decreases keys
      {
        var k :| k in keys;
        var c := registry[k];
        assert At(View(), k) == c.Fields() && c.sessionID == k;
        keys := keys - {k};
        if c.role == Agent {
          agents := agents + [c];
        }
      }
      forall c | c in Agents(View()) ensures c in agents {
        var k :| k in registry && registry[k] == c;
      }
    }

    /** `Stats`: the number of connected agents. */
    method CountConnected() returns (connected: nat)
      requires Valid()
      ensures connected == Ledgers.Connected(View())
    {
      connected := 0;
      var keys := registry.Keys;
      ghost var counted: set<string> := {};
      while keys != {}
        invariant keys <= registry.Keys
        invariant counted == (set k | k in registry.Keys - keys && IsAgentAt(View(), k))
        invariant connected == |counted|
        decreases keys
      {
        var k :| k in keys;
        assert IsAgentAt(View(), k) <==> registry[k].role == Agent;
        keys := keys - {k};
        if registry[k].role == Agent {
          connected := connected + 1;
          counted := counted + {k};
        }
      }
      assert counted == AgentKeys(View());
    }

    /** `RegistrySnapshot` and `handleList`: every agent's fields, each once, no control's. */
    method ListAgents() returns (infos: seq<Client>)
      requires Valid()
      ensures forall i, j | 0 <= i < j < |infos| :: infos[i].sid != infos[j].sid
      ensures forall info | info in infos :: IsAgentAt(View(), info.sid) && At(View(), info.sid) == info
      ensures forall k | IsAgentAt(View(), k) :: At(View(), k) in infos
    {
      var agents := CollectAgents();
      infos := [];
      for i := 0 to |agents|
        invariant |infos| == i
        invariant forall j | 0 <= j < i :: agents[j] in Agents(View()) && infos[j] == agents[j].Fields()
      {
        assert agents[i] in Agents(View());
        infos := infos + [agents[i].Fields()];
      }
      forall k | IsAgentAt(View(), k) ensures At(View(), k) in infos {
        assert registry[k] in Agents(View());
        var j :| 0 <= j < |agents| && agents[j] == registry[k];
        assert infos[j] == At(View(), k);
      }
    }

    /** The snapshot of `handleBroadcast`: liveness, and all agents but the sender's listener. */
    method BroadcastSnapshot(state: ClientState) returns (alive: bool, targets: seq<ClientState>)
      requires Valid() && state in all
      ensures alive <==> ListenerAlive(View(), state)
      ensures alive ==> Enumerates(targets, Bus.BroadcastTargets(View(), state))
      ensures !alive ==> targets == []
    {
      var fromID := state.FromID();
      alive := ListenerAliveLocked(state);
      targets := [];
      if alive {
        var agents := CollectAgents();
        for i := 0 to |agents|
          invariant forall a, b | 0 <= a < b < |targets| :: targets[a] != targets[b]
          invariant forall t | t in targets :: t in agents[..i] && t.sessionID != fromID
          invariant forall j | 0 <= j < i && agents[j].sessionID != fromID :: agents[j] in targets
        {
          if agents[i].sessionID != fromID {
            targets := targets + [agents[i]];
          }
        }
        assert agents[..|agents|] == agents;
        assert View().obj[state] == state.Fields();
        forall t | t in Bus.BroadcastTargets(View(), state) ensures t in targets {
          var j :| 0 <= j < |agents| && agents[j] == t;
        }
      }
    }

    // ----- resolution ------------------------------------------------------------

    /** The first agent of the slice with that session id, if any. */
    method FindBySid(agents: seq<ClientState>, target: string) returns (found: ClientState?)
      requires Valid() && Enumerates(agents, Agents(View()).Keys)
      ensures found == null ==> BySid(Agents(View()), target) == {}
      ensures found != null ==> found in BySid(Agents(View()), target)
    {
      for i := 0 to |agents|
        invariant forall j | 0 <= j < i :: agents[j].sessionID != target
      {
        assert agents[i] in Agents(View());
        if agents[i].sessionID == target {
          return agents[i];
        }
      }
      return null;
    }

    /** The first agent of the slice with that non-empty name, if any. */
    method FindByName(agents: seq<ClientState>, target: string) returns (found: ClientState?)
      requires Valid() && Enumerates(agents, Agents(View()).Keys)
      ensures found == null ==> ByName(Agents(View()), target) == {}
      ensures found != null ==> found in ByName(Agents(View()), target)
    {
      for i := 0 to |agents|
        invariant forall j | 0 <= j < i :: agents[j].name == "" || agents[j].name != target
      {
        assert agents[i] in Agents(View());
        if agents[i].name != "" && agents[i].name == target {
          return agents[i];
        }
      }
      return null;
    }

    /** All agents of the slice whose name starts with the non-empty target. */
    method PrefixNamed(agents: seq<ClientState>, target: string) returns (prefix: seq<ClientState>)
      requires Valid() && Enumerates(agents, Agents(View()).Keys)
      ensures Enumerates(prefix, ByNamePrefix(Agents(View()), target))
    {
      prefix := [];
      if target == "" {
        return;
      }
      for i := 0 to |agents|
        invariant forall a, b | 0 <= a < b < |prefix| :: prefix[a] != prefix[b]
        invariant forall p | p in prefix :: p in agents[..i] && p in ByNamePrefix(Agents(View()), target)
        invariant forall j | 0 <= j < i && agents[j] in ByNamePrefix(Agents(View()), target) :: agents[j] in prefix
      {
        assert agents[i] in Agents(View()) && Agents(View())[agents[i]] == agents[i].Fields();
        assert agents[i] !in agents[..i];
        if agents[i].name != "" && HasPrefix(agents[i].name, target) {
          prefix := prefix + [agents[i]];
        }
      }
    }

    /** All agents of the slice whose session id starts with the target, 4 bytes at least. */
    method PrefixSids(agents: seq<ClientState>, target: string) returns (prefix: seq<ClientState>)
      requires Valid() && Enumerates(agents, Agents(View()).Keys)
      ensures Enumerates(prefix, BySidPrefix(Agents(View()), target))
    {
      prefix := [];
      if |target| < MIN_SID_PREFIX {
        return;
      }
      for i := 0 to |agents|
        invariant forall a, b | 0 <= a < b < |prefix| :: prefix[a] != prefix[b]
        invariant forall p | p in prefix :: p in agents[..i] && p in BySidPrefix(Agents(View()), target)
        invariant forall j | 0 <= j < i && agents[j] in BySidPrefix(Agents(View()), target) :: agents[j] in prefix
      {
        assert agents[i] in Agents(View()) && Agents(View())[agents[i]] == agents[i].Fields();
        assert agents[i] !in agents[..i];
        if HasPrefix(agents[i].sessionID, target) {
          prefix := prefix + [agents[i]];
        }
      }
    }

    /** The names of an ambiguous name prefix. */
    method NamesOf(prefix: seq<ClientState>) returns (names: seq<string>)
      ensures |names| == |prefix| && forall i | 0 <= i < |names| :: names[i] == prefix[i].name
    {
      names := [];
      for i := 0 to |prefix|
        invariant |names| == i && forall j | 0 <= j < i :: names[j] == prefix[j].name
      {
        names := names + [prefix[i].name];
      }
    }

    /** The session ids of an ambiguous prefix, cut to 8 bytes; false where the slicing panics. */
    method ShortSids(prefix: seq<ClientState>) returns (ok: bool, short: seq<string>)
      ensures ok <==> forall c | c in prefix :: |c.sessionID| >= SHORT_SID
      ensures ok ==> |short| == |prefix| && forall i | 0 <= i < |short| :: short[i] == prefix[i].sessionID[..SHORT_SID]
    {
      short := [];
      for i := 0 to |prefix|
        invariant |short| == i
        invariant forall j | 0 <= j < i :: |prefix[j].sessionID| >= SHORT_SID && short[j] == prefix[j].sessionID[..SHORT_SID]
      {
        if |prefix[i].sessionID| < SHORT_SID {
          return false, short;
        }
        short := short + [prefix[i].sessionID[..SHORT_SID]];
      }
      return true, short;
    }

    /** An ambiguous match lists the agents' names, or the first 8 bytes of their session ids. */
    static ghost predicate Shows(out: Outcome<ClientState>, matches: seq<string>, order: seq<ClientState>)
      reads order
    {
      out.AmbiguousMatch? ==>
        && Enumerates(order, out.who) && |matches| == |order|
        && forall i | 0 <= i < |matches| ::
             if out.byName then matches[i] == order[i].name
             else |order[i].sessionID| >= 8 && matches[i] == order[i].sessionID[..8]
    }

    static ghost function Shown(byName: bool, c: ClientState): string
      reads c
    {
      if byName then c.name else if |c.sessionID| >= 8 then c.sessionID[..8] else ""
    }

    /** Two runs with the same outcome list the same matches, as multisets. */
    static lemma MatchesAgree(out: Outcome<ClientState>, m1: seq<string>, o1: seq<ClientState>,
                              m2: seq<string>, o2: seq<ClientState>)
      requires out.AmbiguousMatch? && Shows(out, m1, o1) && Shows(out, m2, o2)
      ensures multiset(m1) == multiset(m2)
    {
      var f := map c | c in out.who :: Shown(out.byName, c);
      ListingsAgree(o1, o2, out.who, f);
      assert m1 == Mapped(o1, f) && m2 == Mapped(o2, f);
    }

    /** Several agents share the name prefix: list them. */
    method AmbiguousNames(prefix: seq<ClientState>, ghost matching: set<ClientState>)
      returns (out: Outcome<ClientState>, code: Option<Code>, matches: seq<string>)
      requires Enumerates(prefix, matching)
      ensures out == AmbiguousMatch(true, matching)
      ensures code == CodeOf(out) && Shows(out, matches, prefix)
    {
      var names := NamesOf(prefix);
      assert (set c | c in prefix) == matching;
      return AmbiguousMatch(true, set c | c in prefix), Some(Ambiguous), names;
    }

    /** Several agents share the session id prefix: list them, unless the slicing panics. */
    method AmbiguousSids(prefix: seq<ClientState>, ghost matching: set<ClientState>)
      returns (out: Outcome<ClientState>, code: Option<Code>, matches: seq<string>)
      requires Enumerates(prefix, matching)
      ensures out == if exists c | c in matching :: |c.sessionID| < SHORT_SID then Panicked
                     else AmbiguousMatch(false, matching)
      ensures code == CodeOf(out) && Shows(out, matches, prefix)
    {
      var ok, short := ShortSids(prefix);
      if !ok {
        return Panicked, None, [];
      }
      assert (set c | c in prefix) == matching;
      return AmbiguousMatch(false, set c | c in prefix), Some(Ambiguous), short;
    }

    /** Step 4 of `resolveSendTarget`. */
    method ResolveBySidPrefix(agents: seq<ClientState>, fromID: string, target: string)
      returns (out: Outcome<ClientState>, code: Option<Code>, matches: seq<string>, ghost order: seq<ClientState>)
      requires Valid() && Enumerates(agents, Agents(View()).Keys)
      ensures out == BySidPrefixStep(Agents(View()), fromID, target) && code == CodeOf(out)
      ensures Shows(out, matches, order)
    {
      matches := [];
      var prefix := PrefixSids(agents, target);
      order := prefix;
      ghost var agentsNow := Agents(View());
      ghost var matching := BySidPrefix(agentsNow, target);
      EnumerationSize(prefix, matching);
      if |prefix| == 1 {
        OneMatch(agentsNow, matching, prefix[0], fromID);
        out, code := SelfOr(prefix[0], fromID);
        return;
      }
      if |prefix| > 1 {
        out, code, matches := AmbiguousSids(prefix, matching);
        return;
      }
      return Refuse(NoMatch), Some(UnknownPeer), matches, order;
    }

    /** Step 3, and step 4 when nothing matches. */
    method ResolveByPrefix(agents: seq<ClientState>, fromID: string, target: string)
      returns (out: Outcome<ClientState>, code: Option<Code>, matches: seq<string>, ghost order: seq<ClientState>)
      requires Valid() && Enumerates(agents, Agents(View()).Keys)
      ensures out == ByPrefixSteps(Agents(View()), fromID, target) && code == CodeOf(out)
      ensures Shows(out, matches, order)
    {
      matches := [];
      var prefix := PrefixNamed(agents, target);
      order := prefix;
      ghost var agentsNow := Agents(View());
      ghost var matching := ByNamePrefix(agentsNow, target);
      EnumerationSize(prefix, matching);
      if |prefix| == 1 {
        OneMatch(agentsNow, matching, prefix[0], fromID);
        out, code := SelfOr(prefix[0], fromID);
        return;
      }
      if |prefix| > 1 {
        out, code, matches := AmbiguousNames(prefix, matching);
        return;
      }
      out, code, matches, order := ResolveBySidPrefix(agents, fromID, target);
    }

    /** Steps 1 and 2: an agent with that very session id or name, if there is one. */
    method ResolveExact(agents: seq<ClientState>, fromID: string, target: string)
      returns (found: bool, out: Outcome<ClientState>, code: Option<Code>)
      requires Valid() && Consistent(View()) && Enumerates(agents, Agents(View()).Keys)
      ensures found <==> BySid(Agents(View()), target) != {} || ByName(Agents(View()), target) != {}
      ensures found ==> out == ResolveAmong(Agents(View()), fromID, target) && code == CodeOf(out)
    {
      ghost var agentsNow := Agents(View());
      ExactMatchesAreUnique(View(), target);
      var bySid := FindBySid(agents, target);
      if bySid != null {
        ToOneIs(agentsNow, BySid(agentsNow, target), bySid, fromID);
        out, code := SelfOr(bySid, fromID);
        return true, out, code;
      }
      var byName := FindByName(agents, target);
      if byName != null {
        ToOneIs(agentsNow, ByName(agentsNow, target), byName, fromID);
        out, code := SelfOr(byName, fromID);
        return true, out, code;
      }
      return false, Refuse(NoMatch), None;
    }

    /** The four steps of `resolveSendTarget`, over the collected agents. */
    method ResolveOver(agents: seq<ClientState>, fromID: string, target: string)
      returns (out: Outcome<ClientState>, code: Option<Code>, matches: seq<string>, ghost order: seq<ClientState>)
      requires Valid() && Consistent(View()) && Enumerates(agents, Agents(View()).Keys)
      ensures out == ResolveAmong(Agents(View()), fromID, target) && code == CodeOf(out)
      ensures Shows(out, matches, order)
    {
      matches, order := [], [];
      var found;
      found, out, code := ResolveExact(agents, fromID, target);
      if found {
        return;
      }
      out, code, matches, order := ResolveByPrefix(agents, fromID, target);
    }

    /**
      `resolveSendTarget`. Whatever order the map is iterated in, the outcome is the one the
      declarative resolution names, the sender is answered with its error code, and the
      listed matches are the texts of the matching agents, each once, in the ghost `order`
      of this run.
    */
    method ResolveSendTarget(state: ClientState, target: string)
      returns (out: Outcome<ClientState>, code: Option<Code>, matches: seq<string>, ghost order: seq<ClientState>)
      requires Valid() && Consistent(View()) && state in all
      ensures out == ResolveTarget(View(), state, target)
      ensures code == CodeOf(out)
      ensures Shows(out, matches, order)
    {
      var fromID := state.FromID();
      assert View().obj[state] == state.Fields();
      var alive := ListenerAliveLocked(state);
      if !alive {
        return Refuse(ListenerGone), Some(Unauthorized), [], [];
      }
      var agents := CollectAgents();
      out, code, matches, order := ResolveOver(agents, fromID, target);
    }

    /** A single match: the sender's own listener is refused. */
    method SelfOr(c: ClientState, fromID: string) returns (out: Outcome<ClientState>, code: Option<Code>)
      ensures out == (if c.sessionID == fromID then Refuse(Self) else Deliver(c)) && code == CodeOf(out)
    {
      if c.sessionID == fromID {
        return Refuse(Self), Some(UnknownPeer);
      }
      return Deliver(c), None;
    }
  }
}
