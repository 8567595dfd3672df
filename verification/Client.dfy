/**
  The long-lived monitor's reconnect loop (internal/client/client.go, `Run` and
  `handleHelloError`), driven by any sequence of attempt results, and its exchange with the
  server over taken names.
*/
module Client {
  import Registry

  const BACKOFF_MIN: nat := 250_000_000
  const BACKOFF_MAX: nat := 4_000_000_000
  const DEFAULT_COLLISION_RETRIES := 3

  /**
    How one `connectAndServe` ended: the server answered the hello with an error frame, or
    anything else failed or dropped; `cancelled` tells whether the run was cancelled by then.
  */
  datatype Attempt = HelloError(code: Registry.Code, candidates: seq<string>) | Dropped(cancelled: bool)

  datatype Signal = NameTakenRetry | StopClient | Other

  datatype Ending = GaveUp | Stopped | Cancelled | StillRunning

  predicate IsCollision(a: Attempt) {
    a.HelloError? && a.code == Registry.NameTaken && a.candidates != []
  }

  /** An attempt after which the loop goes on, the collision count aside. */
  predicate GoesOn(a: Attempt) {
    IsCollision(a) || (a.Dropped? && !a.cancelled)
  }

  function Collisions(attempts: seq<Attempt>): nat {
    if attempts == [] then 0
    else Collisions(attempts[..|attempts| - 1]) + if IsCollision(attempts[|attempts| - 1]) then 1 else 0
  }

  /** The name in use once the candidates of all collisions were adopted. */
  function Adopted(attempts: seq<Attempt>, name: string): string {
    if attempts == [] then name
    else if IsCollision(attempts[|attempts| - 1]) then attempts[|attempts| - 1].candidates[0]
    else Adopted(attempts[..|attempts| - 1], name)
  }

  function Drops(attempts: seq<Attempt>): nat {
    if attempts == [] then 0
    else Drops(attempts[..|attempts| - 1]) + if attempts[|attempts| - 1] == Dropped(false) then 1 else 0
  }

  function Pow2(k: nat): (p: nat)
    ensures p > 0
  {
    if k == 0 then 1 else 2 * Pow2(k - 1)
  }

  /** Exponential backoff with a ceiling; nothing in the loop ever resets it. */
  function BackoffAfter(drops: nat): nat {
    if BACKOFF_MIN * Pow2(drops) > BACKOFF_MAX then BACKOFF_MAX else BACKOFF_MIN * Pow2(drops)
  }

  lemma BackoffDoubles(drops: nat)
    ensures BackoffAfter(drops + 1) == if 2 * BackoffAfter(drops) > BACKOFF_MAX then BACKOFF_MAX else 2 * BackoffAfter(drops)
  {
    assert BACKOFF_MIN * Pow2(drops + 1) == 2 * (BACKOFF_MIN * Pow2(drops));
  }

  /** The collision that ends a run: the comparison comes after the increment. */
  function Limit(maxCollisions: int): nat {
    if maxCollisions >= 1 then maxCollisions else 1
  }

  class Monitor {
    const maxCollisions: int
    var name: string
    var collisions: nat
    var backoff: nat

    /** `New`, as far as the loop is concerned: zero retries mean the default. */
    constructor (name: string, retries: int)
      ensures this.name == name && collisions == 0 && backoff == BACKOFF_MIN
      ensures maxCollisions == if retries == 0 then 3 else retries
    {
      this.name := name;
      this.maxCollisions := if retries == 0 then DEFAULT_COLLISION_RETRIES else retries;
      this.collisions := 0;
      this.backoff := BACKOFF_MIN;
    }

    /** `handleHelloError`. */
    method HandleHelloError(code: Registry.Code, candidates: seq<string>) returns (signal: Signal)
      modifies this`name
      ensures signal == NameTakenRetry || signal == StopClient
      ensures signal == NameTakenRetry <==> code == Registry.NameTaken && candidates != []
      ensures name == if signal == NameTakenRetry then candidates[0] else old(name)
    {
      if code == Registry.NameTaken && |candidates| > 0 {
        name := candidates[0];
        return NameTakenRetry;
      }
      return StopClient;
    }

    /**
      The loop of `Run` over the attempts as they come. It handles at most `Limit` collisions
      in all, however drops are mixed in, giving up exactly at the last; the name it uses is
      always the latest candidate; and no attempt is made after one that ends the run.
    */
    method Run(attempts: seq<Attempt>) returns (ending: Ending, used: nat)
      requires collisions == 0 && backoff == BACKOFF_MIN
      modifies this
      ensures used <= |attempts|
      ensures name == Adopted(attempts[..used], old(name))
      ensures collisions == Collisions(attempts[..used])
      ensures backoff == BackoffAfter(Drops(attempts[..used]))
      ensures maxCollisions >= 1 ==> collisions <= maxCollisions && (ending == GaveUp <==> collisions == maxCollisions)
      ensures maxCollisions < 1 ==> collisions <= 1 && (ending == GaveUp <==> collisions == 1)
      ensures ending == StillRunning ==> used == |attempts|
      ensures ending == Stopped ==>
        used > 0 && attempts[used - 1].HelloError? && !IsCollision(attempts[used - 1])
      ensures ending == Cancelled ==> used > 0 && attempts[used - 1] == Dropped(true)
      ensures ending == GaveUp ==> used > 0 && IsCollision(attempts[used - 1])
      ensures forall i | 0 <= i < used - 1 :: GoesOn(attempts[i])
    {
      used := 0;
      while used < |attempts|
        invariant used <= |attempts|
        invariant name == Adopted(attempts[..used], old(name))
        invariant collisions == Collisions(attempts[..used]) < Limit(maxCollisions)
        invariant backoff == BackoffAfter(Drops(attempts[..used]))
        invariant forall i | 0 <= i < used :: GoesOn(attempts[i])
      {
        var a := attempts[used];
        assert attempts[..used + 1][..used] == attempts[..used];
        used := used + 1;
        var signal := Other;
        if a.HelloError? {
          signal := HandleHelloError(a.code, a.candidates);
        }
        if signal == StopClient {
          return Stopped, used;
        }
        if signal == NameTakenRetry {
          collisions := collisions + 1;
          if collisions >= maxCollisions {
            return GaveUp, used;
          }
        } else {
          if a.cancelled {
            return Cancelled, used;
          }
          BackoffDoubles(Drops(attempts[..used - 1]));
          backoff := backoff * 2;
          if backoff > BACKOFF_MAX {
            backoff := BACKOFF_MAX;
          }
        }
      }
      return StillRunning, used;
    }
  }

  /**
    Client and server converge on a name. When the server refuses a hello and suggests a
    candidate, the client adopts it, and the next hello, with no registry step in between, is
    accepted; the client gets to send it exactly when it may handle two collisions or more.
  */
  lemma TakenNameConverges<T>(g: Registry.Reg<T>, r: T, c: Registry.Client, maxCollisions: int)
    requires Registry.WellKeyed(g) && r !in g.obj
    requires Registry.AgentVerdict(g, c).Refused? && Registry.AgentVerdict(g, c).candidate.Some?
    ensures var reply := HelloError(Registry.AgentVerdict(g, c).code, [Registry.AgentVerdict(g, c).candidate.value]);
            && IsCollision(reply)
            && (Collisions([reply]) < Limit(maxCollisions) <==> maxCollisions >= 2)
            && Registry.AgentVerdict(Registry.AgentHello(g, r, c), c.(name := Adopted([reply], c.name))) == Registry.Accepted
  {
    var reply := HelloError(Registry.AgentVerdict(g, c).code, [Registry.AgentVerdict(g, c).candidate.value]);
    assert Adopted([reply], c.name) == reply.candidates[0];
    assert [reply][..0] == [];
    Registry.CandidateIsAccepted(g, r, c, c.(name := reply.candidates[0]));
  }

  /** The delays: a quarter of a second, doubled after each drop, up to four seconds. */
  lemma BackoffDelays(drops: nat)
    ensures BackoffAfter(drops) == if drops == 0 then 250_000_000 else if drops == 1 then 500_000_000
                                   else if drops == 2 then 1_000_000_000 else if drops == 3 then 2_000_000_000
                                   else 4_000_000_000
  {
    Pow2AtFour(drops);
    assert Pow2(0) == 1 && Pow2(1) == 2 && Pow2(2) == 4 && Pow2(3) == 8;
  }

  /** The delay never shrinks, never exceeds four seconds, and gets there after four drops. */
  lemma {:induction false} BackoffGrowsToCeiling(j: nat, k: nat)
    requires j <= k
    ensures BACKOFF_MIN <= BackoffAfter(j) <= BackoffAfter(k) <= BACKOFF_MAX
    ensures k >= 4 ==> BackoffAfter(k) == BACKOFF_MAX
    decreases k - j
  {
    if j < k {
      BackoffGrowsToCeiling(j, k - 1);
      BackoffDoubles(k - 1);
    }
    Pow2AtFour(k);
    Pow2AtLeastOne(j);
  }

  lemma Pow2AtLeastOne(k: nat)
    ensures BACKOFF_MIN * Pow2(k) >= BACKOFF_MIN
  {
  }

  lemma {:induction false} Pow2AtFour(k: nat)
    ensures k >= 4 ==> Pow2(k) >= 16
    ensures k < 4 ==> Pow2(k) <= 8
  {
    if k > 0 {
      Pow2AtFour(k - 1);
    }
    assert Pow2(4) == 16 && Pow2(3) == 8;
  }
}
