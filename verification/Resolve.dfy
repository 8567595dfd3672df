/**
  Target resolution (internal/bus/ops.go, `resolveSendTarget`), stated on the set of
  registered agents: no iteration order appears anywhere in it.
*/
module Resolve {
  import opened Text
  import opened Registry

  datatype Refusal = ListenerGone | Self | NoMatch

  /** `Ambiguous` carries the matching agents; `Panicked` is `sessionID[:8]` out of range. */
  datatype Outcome<R> =
    | Deliver(target: R)
    | Refuse(why: Refusal)
    | AmbiguousMatch(byName: bool, who: set<R>)
    | Panicked

  /** The error code a sender is answered with. */
  function CodeOf<R>(out: Outcome<R>): Option<Code> {
    match out
    case Refuse(ListenerGone) => Some(Unauthorized)
    case Refuse(Self) => Some(UnknownPeer)
    case Refuse(NoMatch) => Some(UnknownPeer)
    case AmbiguousMatch(_, _) => Some(Ambiguous)
    case Deliver(_) => None
    case Panicked => None
  }

  const SHORT_SID := 8
  const MIN_SID_PREFIX := 4

  ghost function BySid<R>(agents: map<R, Client>, target: string): set<R> {
    set r | r in agents && agents[r].sid == target
  }

  ghost function ByName<R>(agents: map<R, Client>, target: string): set<R> {
    set r | r in agents && agents[r].name != "" && agents[r].name == target
  }

  ghost function ByNamePrefix<R>(agents: map<R, Client>, target: string): set<R> {
    set r | r in agents && target != "" && agents[r].name != "" && HasPrefix(agents[r].name, target)
  }

  ghost function BySidPrefix<R>(agents: map<R, Client>, target: string): set<R> {
    set r | r in agents && |target| >= MIN_SID_PREFIX && HasPrefix(agents[r].sid, target)
  }

  ghost function Only<R>(s: set<R>): (r: R)
    requires s != {}
    ensures r in s
  {
    var r :| r in s; r
  }

  /** A single match is delivered to, unless it is the sender's own listener. */
  ghost function ToOne<R>(agents: map<R, Client>, s: set<R>, from: string): Outcome<R>
    requires s != {} && s <= agents.Keys
  {
    if agents[Only(s)].sid == from then Refuse(Self) else Deliver(Only(s))
  }

  /** The last step: a session id prefix that one agent has. */
  ghost function BySidPrefixStep<R>(agents: map<R, Client>, from: string, target: string): Outcome<R> {
    var matching := BySidPrefix(agents, target);
    if |matching| == 1 then ToOne(agents, matching, from)
    else if |matching| > 1 then
      if exists r | r in matching :: |agents[r].sid| < SHORT_SID then Panicked
      else AmbiguousMatch(false, matching)
    else Refuse(NoMatch)
  }

  /** Before it: a name prefix that one agent has. */
  ghost function ByPrefixSteps<R>(agents: map<R, Client>, from: string, target: string): Outcome<R> {
    var matching := ByNamePrefix(agents, target);
    if |matching| == 1 then ToOne(agents, matching, from)
    else if |matching| > 1 then AmbiguousMatch(true, matching)
    else BySidPrefixStep(agents, from, target)
  }

  /** Exact session id, then exact name, then unique name prefix, then unique sid prefix. */
  ghost function ResolveAmong<R>(agents: map<R, Client>, from: string, target: string): Outcome<R> {
    if BySid(agents, target) != {} then ToOne(agents, BySid(agents, target), from)
    else if ByName(agents, target) != {} then ToOne(agents, ByName(agents, target), from)
    else ByPrefixSteps(agents, from, target)
  }

  ghost function ResolveTarget<R>(g: Reg<R>, r: R, target: string): Outcome<R>
    requires r in g.obj
  {
    if !ListenerAlive(g, r) then Refuse(ListenerGone)
    else ResolveAmong(Agents(g), g.obj[r].FromID(), target)
  }

  // ----- what resolution promises -------------------------------------------------

  lemma SingletonOnly<R>(s: set<R>, r: R)
    requires |s| <= 1 && r in s
    ensures s == {r} && Only(s) == r
  {
    assert |s - {r}| == 0;
  }

  lemma ToOneIs<R>(agents: map<R, Client>, s: set<R>, r: R, from: string)
    requires s <= agents.Keys && r in s && forall x | x in s :: x == r
    ensures ToOne(agents, s, from) == if agents[r].sid == from then Refuse(Self) else Deliver(r)
  {
  }

  lemma OneMatch<R>(agents: map<R, Client>, s: set<R>, r: R, from: string)
    requires s <= agents.Keys && |s| == 1 && r in s
    ensures ToOne(agents, s, from) == if agents[r].sid == from then Refuse(Self) else Deliver(r)
  {
    SingletonOnly(s, r);
  }

  /** In a consistent registry an exact session id or name belongs to one agent. */
  lemma ExactMatchesAreUnique<R>(g: Reg<R>, target: string)
    requires Consistent(g)
    ensures forall a, b | a in BySid(Agents(g), target) && b in BySid(Agents(g), target) :: a == b
    ensures forall a, b | a in ByName(Agents(g), target) && b in ByName(Agents(g), target) :: a == b
  {
    forall a | a in Agents(g) ensures IsAgentAt(g, g.obj[a].sid) && g.registry[g.obj[a].sid] == a {
      var k :| k in g.registry && g.registry[k] == a;
    }
  }

  /**
    Every delivery goes to a registered agent, never to a control and never to the sender's
    own listener, and the target text names it: by session id or name exactly, or by a
    prefix of its name or of its session id (4 bytes at least) that no other agent shares.
  */
  lemma DeliveryIsSound<R>(g: Reg<R>, r: R, target: string)
    requires Consistent(g) && r in g.obj && ResolveTarget(g, r, target).Deliver?
    ensures var t := ResolveTarget(g, r, target).target;
            && t in g.registry.Values && t in g.obj && g.obj[t].role == Agent
            && g.obj[t].sid != g.obj[r].FromID()
            && ListenerAlive(g, r)
            && (|| BySid(Agents(g), target) == {t}
                || ByName(Agents(g), target) == {t}
                || ByNamePrefix(Agents(g), target) == {t}
                || BySidPrefix(Agents(g), target) == {t})
  {
    var agents := Agents(g);
    ExactMatchesAreUnique(g, target);
    if BySid(agents, target) == {} && ByName(agents, target) == {} {
      if |ByNamePrefix(agents, target)| == 1 {
        SingletonOnly(ByNamePrefix(agents, target), Only(ByNamePrefix(agents, target)));
      } else {
        SingletonOnly(BySidPrefix(agents, target), Only(BySidPrefix(agents, target)));
      }
    }
  }

  /** An agent other than the sender's listener is always reachable by its session id. */
  lemma ReachableBySid<R>(g: Reg<R>, r: R, k: string)
    requires Consistent(g) && r in g.obj && ListenerAlive(g, r)
    requires IsAgentAt(g, k) && k != g.obj[r].FromID()
    ensures ResolveTarget(g, r, k) == Deliver(g.registry[k])
  {
    var t := g.registry[k];
    ExactMatchesAreUnique(g, k);
    assert t in BySid(Agents(g), k);
  }

  /** A name reaches its one bearer unless some agent's session id is that very text. */
  lemma ReachableByName<R>(g: Reg<R>, r: R, k: string)
    requires Consistent(g) && r in g.obj && ListenerAlive(g, r)
    requires IsAgentAt(g, k) && k != g.obj[r].FromID() && At(g, k).name != ""
    ensures ResolveTarget(g, r, At(g, k).name) == Deliver(g.registry[k])
        <==> BySid(Agents(g), At(g, k).name) <= {g.registry[k]}
  {
    var t, name := g.registry[k], At(g, k).name;
    ExactMatchesAreUnique(g, name);
    assert t in ByName(Agents(g), name);
  }

  /**
    The slice expression `sessionID[:8]` fails exactly when an otherwise unmatched target of
    4 bytes or more is a prefix of several session ids, one of them shorter than 8.
  */
  lemma PanicsExactlyWhen<R>(g: Reg<R>, r: R, target: string)
    requires r in g.obj
    ensures ResolveTarget(g, r, target) == Panicked <==>
      && ListenerAlive(g, r)
      && BySid(Agents(g), target) == {} && ByName(Agents(g), target) == {}
      && ByNamePrefix(Agents(g), target) == {}
      && |BySidPrefix(Agents(g), target)| > 1
      && exists t | t in BySidPrefix(Agents(g), target) :: |g.obj[t].sid| < SHORT_SID
    ensures (forall t | t in Agents(g) :: |g.obj[t].sid| >= SHORT_SID) ==> ResolveTarget(g, r, target) != Panicked
  {
  }

  // ----- every case of resolution, on the session ids of the registered agents ----------

  /** The agent registered as `k` has that very text as its session id, or as its name. */
  ghost predicate IsExactly<R>(g: Reg<R>, k: string, target: string)
    requires WellKeyed(g)
  {
    IsAgentAt(g, k) && (k == target || (target != "" && At(g, k).name == target))
  }

  /** Its name starts with the non-empty text. */
  ghost predicate NameStarts<R>(g: Reg<R>, k: string, target: string)
    requires WellKeyed(g)
  {
    IsAgentAt(g, k) && target != "" && At(g, k).name != "" && target <= At(g, k).name
  }

  /** Its session id starts with the text, of 4 bytes or more. */
  ghost predicate SidStarts<R>(g: Reg<R>, k: string, target: string) {
    IsAgentAt(g, k) && |target| >= 4 && target <= k
  }

  ghost predicate NoneExactly<R>(g: Reg<R>, target: string)
    requires WellKeyed(g)
  {
    forall k | IsAgentAt(g, k) :: !IsExactly(g, k, target)
  }

  ghost predicate NoNameStarts<R>(g: Reg<R>, target: string)
    requires WellKeyed(g)
  {
    forall k | IsAgentAt(g, k) :: !NameStarts(g, k, target)
  }

  ghost predicate NoSidStarts<R>(g: Reg<R>, target: string) {
    forall k | IsAgentAt(g, k) :: !SidStarts(g, k, target)
  }

  ghost function WhoseNameStarts<R>(g: Reg<R>, target: string): set<R>
    requires WellKeyed(g)
  {
    set k | k in g.registry && NameStarts(g, k, target) :: g.registry[k]
  }

  ghost function WhoseSidStarts<R>(g: Reg<R>, target: string): set<R> {
    set k | k in g.registry && SidStarts(g, k, target) :: g.registry[k]
  }

  lemma AgentsByKey<R>(g: Reg<R>, t: R)
    requires WellKeyed(g) && t in Agents(g)
    ensures IsAgentAt(g, g.obj[t].sid) && g.registry[g.obj[t].sid] == t && At(g, g.obj[t].sid) == Agents(g)[t]
  {
    var k :| k in g.registry && g.registry[k] == t;
  }

  lemma NamePrefixesByKey<R>(g: Reg<R>, target: string)
    requires WellKeyed(g)
    ensures ByNamePrefix(Agents(g), target) == WhoseNameStarts(g, target)
  {
    forall t | t in ByNamePrefix(Agents(g), target) ensures t in WhoseNameStarts(g, target) {
      AgentsByKey(g, t);
      assert NameStarts(g, g.obj[t].sid, target);
    }
  }

  lemma SidPrefixesByKey<R>(g: Reg<R>, target: string)
    requires WellKeyed(g)
    ensures BySidPrefix(Agents(g), target) == WhoseSidStarts(g, target)
  {
    forall t | t in BySidPrefix(Agents(g), target) ensures t in WhoseSidStarts(g, target) {
      AgentsByKey(g, t);
      assert SidStarts(g, g.obj[t].sid, target);
    }
  }

  lemma NoExactSets<R>(g: Reg<R>, target: string)
    requires WellKeyed(g)
    ensures NoneExactly(g, target) <==> BySid(Agents(g), target) == {} && ByName(Agents(g), target) == {}
  {
    if NoneExactly(g, target) {
      forall t | t in Agents(g) ensures t !in BySid(Agents(g), target) && t !in ByName(Agents(g), target) {
        AgentsByKey(g, t);
        assert !IsExactly(g, g.obj[t].sid, target);
      }
    } else {
      var k :| IsAgentAt(g, k) && IsExactly(g, k, target);
      assert g.registry[k] in BySid(Agents(g), target) || g.registry[k] in ByName(Agents(g), target);
    }
  }

  lemma AloneIsSingleton<R>(s: set<R>, r: R)
    requires r in s && forall x | x in s :: x == r
    ensures s == {r} && |s| == 1
  {
  }

  lemma TwoAreMany<R>(s: set<R>, x: R, y: R)
    requires x in s && y in s && x != y
    ensures |s| > 1
  {
    if |s| <= 1 {
      SingletonOnly(s, x);
    }
  }

  /** What a sender gets for the one agent its text names. */
  ghost predicate GoesTo<R>(g: Reg<R>, r: R, target: string, k: string)
    requires r in g.obj && k in g.registry
  {
    var out := ResolveTarget(g, r, target);
    if k == g.obj[r].FromID() then out == Refuse(Self) && CodeOf(out) == Some(UnknownPeer)
    else out == Deliver(g.registry[k]) && CodeOf(out) == None
  }

  /** An agent is reached by its session id, and by its name if that is no agent's session id. */
  lemma ExactMatchIsReached<R>(g: Reg<R>, r: R, k: string, target: string)
    requires Consistent(g) && r in g.obj && ListenerAlive(g, r) && IsExactly(g, k, target)
    requires k == target || !IsAgentAt(g, target)
    ensures GoesTo(g, r, target, k)
  {
    var t := g.registry[k];
    ExactMatchesAreUnique(g, target);
    if k == target {
      assert t in BySid(Agents(g), target);
    } else {
      forall x | x in Agents(g) ensures x !in BySid(Agents(g), target) {
        AgentsByKey(g, x);
      }
      assert t in ByName(Agents(g), target);
    }
  }

  /** Failing that, the one agent whose name starts with the text is reached. */
  lemma UniqueNamePrefixIsReached<R>(g: Reg<R>, r: R, k: string, target: string)
    requires Consistent(g) && r in g.obj && ListenerAlive(g, r)
    requires NoneExactly(g, target)
    requires NameStarts(g, k, target) && forall j | IsAgentAt(g, j) && NameStarts(g, j, target) :: j == k
    ensures GoesTo(g, r, target, k)
  {
    NoExactSets(g, target);
    NamePrefixesByKey(g, target);
    AloneIsSingleton(WhoseNameStarts(g, target), g.registry[k]);
  }

  /** Failing that, the one agent whose session id starts with it. */
  lemma UniqueSidPrefixIsReached<R>(g: Reg<R>, r: R, k: string, target: string)
    requires Consistent(g) && r in g.obj && ListenerAlive(g, r)
    requires NoneExactly(g, target) && NoNameStarts(g, target)
    requires SidStarts(g, k, target) && forall j | IsAgentAt(g, j) && SidStarts(g, j, target) :: j == k
    ensures GoesTo(g, r, target, k)
  {
    NoExactSets(g, target);
    NamePrefixesByKey(g, target);
    assert WhoseNameStarts(g, target) == {};
    SidPrefixesByKey(g, target);
    AloneIsSingleton(WhoseSidStarts(g, target), g.registry[k]);
  }

  /** A name prefix that several agents share is answered with exactly these. */
  lemma SharedNamePrefixIsAmbiguous<R>(g: Reg<R>, r: R, j: string, k: string, target: string)
    requires Consistent(g) && r in g.obj && ListenerAlive(g, r) && NoneExactly(g, target)
    requires j != k && NameStarts(g, j, target) && NameStarts(g, k, target)
    ensures ResolveTarget(g, r, target) == AmbiguousMatch(true, WhoseNameStarts(g, target))
    ensures CodeOf(ResolveTarget(g, r, target)) == Some(Ambiguous)
  {
    NoExactSets(g, target);
    NamePrefixesByKey(g, target);
    if g.registry[j] == g.registry[k] {
      KeysDoNotShareObjects(g, j, k);
    }
    TwoAreMany(WhoseNameStarts(g, target), g.registry[j], g.registry[k]);
  }

  /** So is a shared session id prefix, unless an agent with a session id below 8 bytes is among them. */
  lemma SharedSidPrefixIsAmbiguous<R>(g: Reg<R>, r: R, j: string, k: string, target: string)
    requires Consistent(g) && r in g.obj && ListenerAlive(g, r)
    requires NoneExactly(g, target) && NoNameStarts(g, target)
    requires j != k && SidStarts(g, j, target) && SidStarts(g, k, target)
    ensures var out := ResolveTarget(g, r, target);
            if exists i | IsAgentAt(g, i) && SidStarts(g, i, target) :: |i| < 8 then out == Panicked
            else out == AmbiguousMatch(false, WhoseSidStarts(g, target)) && CodeOf(out) == Some(Ambiguous)
  {
    NoExactSets(g, target);
    NamePrefixesByKey(g, target);
    assert WhoseNameStarts(g, target) == {};
    SidPrefixesByKey(g, target);
    if g.registry[j] == g.registry[k] {
      KeysDoNotShareObjects(g, j, k);
    }
    TwoAreMany(WhoseSidStarts(g, target), g.registry[j], g.registry[k]);
    ShortAmong(g, target);
  }

  lemma ShortAmong<R>(g: Reg<R>, target: string)
    requires WellKeyed(g)
    ensures (exists t | t in WhoseSidStarts(g, target) :: |Agents(g)[t].sid| < 8)
       <==> exists i | IsAgentAt(g, i) && SidStarts(g, i, target) :: |i| < 8
  {
    forall i | IsAgentAt(g, i) && SidStarts(g, i, target)
      ensures g.registry[i] in WhoseSidStarts(g, target) && Agents(g)[g.registry[i]].sid == i
    {
    }
  }

  /** No agent matches by any rule. */
  ghost predicate NobodyMatches<R>(g: Reg<R>, target: string)
    requires WellKeyed(g)
  {
    NoneExactly(g, target) && NoNameStarts(g, target) && NoSidStarts(g, target)
  }

  lemma NobodyMatchesIsNoMatch<R>(g: Reg<R>, r: R, target: string)
    requires Consistent(g) && r in g.obj && ListenerAlive(g, r) && NobodyMatches(g, target)
    ensures ResolveTarget(g, r, target) == Refuse(NoMatch)
  {
    NoExactSets(g, target);
    NamePrefixesByKey(g, target);
    SidPrefixesByKey(g, target);
    assert WhoseNameStarts(g, target) == {} && WhoseSidStarts(g, target) == {};
  }

  /** The sender is told that nobody matches exactly when no agent matches by any rule. */
  lemma NoMatchExactlyWhen<R>(g: Reg<R>, r: R, target: string)
    requires Consistent(g) && r in g.obj
    ensures ResolveTarget(g, r, target) == Refuse(NoMatch) <==> ListenerAlive(g, r) && NobodyMatches(g, target)
    ensures ResolveTarget(g, r, target) == Refuse(ListenerGone) <==> !ListenerAlive(g, r)
    ensures CodeOf<R>(Refuse(NoMatch)) == Some(UnknownPeer) && CodeOf<R>(Refuse(ListenerGone)) == Some(Unauthorized)
  {
    if ListenerAlive(g, r) {
      if NobodyMatches(g, target) {
        NobodyMatchesIsNoMatch(g, r, target);
      } else {
        SomebodyMatches(g, r, target);
      }
    }
  }

  lemma SomebodyMatches<R>(g: Reg<R>, r: R, target: string)
    requires Consistent(g) && r in g.obj && ListenerAlive(g, r) && !NobodyMatches(g, target)
    ensures ResolveTarget(g, r, target) != Refuse(NoMatch)
  {
    if !NoneExactly(g, target) {
      var k :| IsAgentAt(g, k) && IsExactly(g, k, target);
      ExactMatchIsReached(g, r, if IsAgentAt(g, target) then target else k, target);
    } else if !NoNameStarts(g, target) {
      var k :| IsAgentAt(g, k) && NameStarts(g, k, target);
      if j :| IsAgentAt(g, j) && NameStarts(g, j, target) && j != k {
        SharedNamePrefixIsAmbiguous(g, r, j, k, target);
      } else {
        UniqueNamePrefixIsReached(g, r, k, target);
      }
    } else {
      var k :| IsAgentAt(g, k) && SidStarts(g, k, target);
      if j :| IsAgentAt(g, j) && SidStarts(g, j, target) && j != k {
        SharedSidPrefixIsAmbiguous(g, r, j, k, target);
      } else {
        UniqueSidPrefixIsReached(g, r, k, target);
      }
    }
  }

  // ----- listings, in any order -------------------------------------------------------

  /** `order` lists the elements of `s`, each once. */
  ghost predicate Enumerates<R>(order: seq<R>, s: set<R>) {
    && (forall i, j | 0 <= i < j < |order| :: order[i] != order[j])
    && (forall r | r in order :: r in s) && (forall r | r in s :: r in order)
  }

  ghost function Mapped<R>(order: seq<R>, f: map<R, string>): (m: seq<string>)
    requires forall r | r in order :: r in f
    ensures |m| == |order| && forall i | 0 <= i < |m| :: m[i] == f[order[i]]
  {
    if order == [] then [] else Mapped(order[..|order| - 1], f) + [f[order[|order| - 1]]]
  }

  lemma {:induction false} EnumerationSize<R>(order: seq<R>, s: set<R>)
    requires Enumerates(order, s)
    ensures |order| == |s|
  {
    if order == [] {
      assert s == {};
    } else {
      var k := |order| - 1;
      var p, last := order[..k], order[k];
      assert order == p + [last];
      forall r | r in s - {last} ensures r in p {
        assert r in order;
      }
      EnumerationSize(p, s - {last});
    }
  }

  function Without<T>(s: seq<T>, i: nat): (less: seq<T>)
    requires i < |s|
    ensures |less| == |s| - 1
    ensures forall j | 0 <= j < |less| :: less[j] == s[if j < i then j else j + 1]
  {
    s[..i] + s[i + 1..]
  }

  lemma RemoveAt<R>(order: seq<R>, s: set<R>, i: nat)
    requires Enumerates(order, s) && i < |order|
    ensures Enumerates(Without(order, i), s - {order[i]})
  {
    var less := Without(order, i);
    forall r | r in s - {order[i]} ensures r in less {
      var j :| 0 <= j < |order| && order[j] == r;
      assert less[if j < i then j else j - 1] == r;
    }
  }

  lemma MultisetRemoveAt<T>(m: seq<T>, i: nat)
    requires i < |m|
    ensures multiset(m) == multiset(Without(m, i)) + multiset{m[i]}
  {
    assert m == m[..i] + [m[i]] + m[i + 1..];
  }

  lemma MappedWithout<R>(order: seq<R>, i: nat, f: map<R, string>)
    requires i < |order| && forall r | r in order :: r in f
    ensures forall r | r in Without(order, i) :: r in f
    ensures Mapped(Without(order, i), f) == Without(Mapped(order, f), i)
  {
    var less := Without(order, i);
    forall r | r in less ensures r in f {
      var j :| 0 <= j < |less| && less[j] == r;
      assert order[if j < i then j else j + 1] == r;
    }
  }

  lemma MappedRemoveAt<R>(order: seq<R>, i: nat, f: map<R, string>)
    requires i < |order| && forall r | r in order :: r in f
    ensures forall r | r in Without(order, i) :: r in f
    ensures multiset(Mapped(order, f)) == multiset(Mapped(Without(order, i), f)) + multiset{f[order[i]]}
  {
    MappedWithout(order, i, f);
    MultisetRemoveAt(Mapped(order, f), i);
  }

  /** Whatever the order of iteration, the listed texts are the same multiset. */
  lemma {:induction false} ListingsAgree<R>(a: seq<R>, b: seq<R>, s: set<R>, f: map<R, string>)
    requires Enumerates(a, s) && Enumerates(b, s) && forall r | r in s :: r in f
    ensures multiset(Mapped(a, f)) == multiset(Mapped(b, f))
    decreases |a|
  {
    EnumerationSize(a, s);
    EnumerationSize(b, s);
    if a != [] {
      assert a[0] in s && a[0] in b;
      var j :| 0 <= j < |b| && b[j] == a[0];
      RemoveAt(a, s, 0);
      RemoveAt(b, s, j);
      MappedRemoveAt(a, 0, f);
      MappedRemoveAt(b, j, f);
      ListingsAgree(Without(a, 0), Without(b, j), s - {a[0]}, f);
    }
  }

  // ----- why name uniqueness is needed --------------------------------------------------

  /** The exact-name loop over one order of iteration: the first bearer wins. */
  ghost function FirstNamed<R>(order: seq<R>, agents: map<R, Client>, target: string): Option<R> {
    if order == [] then None
    else if order[0] in agents && agents[order[0]].name == target then Some(order[0])
    else FirstNamed(order[1..], agents, target)
  }

  lemma {:induction false} FirstNamedIsBearer<R>(order: seq<R>, agents: map<R, Client>, target: string)
    requires target != ""
    ensures FirstNamed(order, agents, target).None? ==> forall r | r in order :: r !in ByName(agents, target)
    ensures FirstNamed(order, agents, target).Some? ==> FirstNamed(order, agents, target).value in ByName(agents, target)
  {
    if order != [] {
      FirstNamedIsBearer(order[1..], agents, target);
    }
  }

  lemma EnumerationOf<R>(s: set<R>) returns (order: seq<R>)
    ensures Enumerates(order, s)
  {
    order := [];
    var left := s;
    while left != {}
      invariant left <= s && Enumerates(order, s - left)
      decreases left
    {
      var r :| r in left;
      order, left := order + [r], left - {r};
    }
    assert s - left == s;
  }

  /** While names are unique every order of iteration finds the same bearer. */
  lemma UniqueNameIsOrderFree<R>(agents: map<R, Client>, a: seq<R>, b: seq<R>, target: string)
    requires target != "" && Enumerates(a, agents.Keys) && Enumerates(b, agents.Keys)
    requires forall x, y | x in ByName(agents, target) && y in ByName(agents, target) :: x == y
    ensures FirstNamed(a, agents, target) == FirstNamed(b, agents, target)
  {
    FirstNamedIsBearer(a, agents, target);
    FirstNamedIsBearer(b, agents, target);
    forall r | r in ByName(agents, target) ensures r in a && r in b {
    }
  }

  /** Were a name shared, two orders of iteration would find different agents. */
  lemma SharedNameDependsOnOrder<R>(agents: map<R, Client>, x: R, y: R, target: string) returns (a: seq<R>, b: seq<R>)
    requires target != "" && x != y && x in ByName(agents, target) && y in ByName(agents, target)
    ensures Enumerates(a, agents.Keys) && Enumerates(b, agents.Keys)
    ensures FirstNamed(a, agents, target) == Some(x) && FirstNamed(b, agents, target) == Some(y)
  {
    var others := EnumerationOf(agents.Keys - {x});
    a := [x] + others;
    others := EnumerationOf(agents.Keys - {y});
    b := [y] + others;
  }
}
