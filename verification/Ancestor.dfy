/**
  The walk up the process tree to the Claude Code ancestor (internal/procutil/cc_ancestor.go).
  The parent table is any finite map, cycles included; a pid outside it cannot be fetched.
*/
module Ancestor {
  import opened Text

  datatype ProcInfo = ProcInfo(cmdline: seq<string>, ppid: int)

  type Table = map<int, ProcInfo>

  /** `filepath.Base`: the last element of a path, trailing slashes aside. */
  function Base(path: string): string {
    if path == "" then "."
    else if path[|path| - 1] == '/' then
      if |path| == 1 then "/" else Base(path[..|path| - 1])
    else LastElement(path)
  }

  function LastElement(path: string): string {
    if path == "" || path[|path| - 1] == '/' then ""
    else LastElement(path[..|path| - 1]) + [path[|path| - 1]]
  }

  /** `isCCProcess`, on a command line already lower-cased. */
  predicate IsCCProcess(cmd: seq<string>) {
    cmd != [] &&
    var exe := Base(cmd[0]);
    || exe == "claude" || HasPrefix(exe, "claude-")
    || Contains(cmd[0], "/claude/versions/") || Contains(cmd[0], "/.local/share/claude/")
    || ((exe == "node" || exe == "node.exe") &&
        var rest := JoinWords(cmd[1..]);
        Contains(rest, "/claude") || Contains(rest, "claude-code") || Contains(rest, "/.claude/"))
  }

  lemma {:induction false} LastElementOf(dir: string, name: string)
    requires '/' !in name
    ensures LastElement(dir + "/" + name) == name && LastElement(name) == name
  {
    var path := dir + "/" + name;
    if name != "" {
      var p := name[..|name| - 1];
      LastElementOf(dir, p);
      assert name == p + [name[|name| - 1]];
      assert path[..|path| - 1] == dir + "/" + p;
      assert path[|path| - 1] == name[|name| - 1] && name[|name| - 1] in name;
    }
  }

  /** The base of a path is what follows its last slash, or all of it. */
  lemma BaseOf(dir: string, name: string)
    requires name != "" && '/' !in name
    ensures Base(dir + "/" + name) == name && Base(name) == name
  {
    LastElementOf(dir, name);
    var path := dir + "/" + name;
    assert path[|path| - 1] == name[|name| - 1] && name[|name| - 1] in name;
  }

  /** What makes program `exe`, started as `path` with these arguments, a Claude Code process. */
  ghost predicate LooksLikeClaude(exe: string, path: string, args: seq<string>) {
    || exe == "claude" || "claude-" <= exe
    || Occurs(path, "/claude/versions/") || Occurs(path, "/.local/share/claude/")
    || ((exe == "node" || exe == "node.exe") &&
        (Occurs(JoinWords(args), "/claude") || Occurs(JoinWords(args), "claude-code")
         || Occurs(JoinWords(args), "/.claude/")))
  }

  /**
    The check on command lines. Nothing matches without a command; a program is judged by
    the name after its last slash, wherever it lives, by its path, and by its arguments if
    it is node. So every path that ends in "/claude" matches.
  */
  lemma ClaudeProcessIff(dir: string, exe: string, args: seq<string>)
    requires exe != "" && '/' !in exe
    ensures !IsCCProcess([])
    ensures IsCCProcess([dir + "/" + exe] + args) <==> LooksLikeClaude(exe, dir + "/" + exe, args)
    ensures IsCCProcess([exe] + args) <==> LooksLikeClaude(exe, exe, args)
    ensures IsCCProcess([dir + "/claude"] + args)
  {
    BaseOf(dir, exe);
    JudgedByName(dir + "/" + exe, exe, args);
    JudgedByName(exe, exe, args);
    BaseOf(dir, "claude");
    assert dir + "/claude" == dir + "/" + "claude";
  }

  lemma JudgedByName(path: string, exe: string, args: seq<string>)
    requires Base(path) == exe
    ensures IsCCProcess([path] + args) <==> LooksLikeClaude(exe, path, args)
  {
    var rest := JoinWords(args);
    assert ([path] + args)[1..] == args;
    ContainsIff(path, "/claude/versions/");
    ContainsIff(path, "/.local/share/claude/");
    ContainsIff(rest, "/claude");
    ContainsIff(rest, "claude-code");
    ContainsIff(rest, "/.claude/");
  }

  /** `chain` goes from `start` up the table, each pid the parent of the one before. */
  ghost predicate Climbs(table: Table, start: int, chain: seq<int>) {
    && chain != [] && chain[0] == start
    && forall i | 0 <= i < |chain| - 1 :: chain[i] in table && chain[i + 1] == table[chain[i]].ppid
  }

  /** A pid the walk passes through: above 1, fetchable and not a match. */
  ghost predicate Passed(table: Table, pid: int) {
    pid > 1 && pid in table && !IsCCProcess(table[pid].cmdline)
  }

  /** Why a walk that found nothing stopped at `pid`, having seen the pids in `before`. */
  ghost predicate DeadEnd(table: Table, pid: int, before: seq<int>) {
    pid <= 1 || pid !in table || pid in before
  }

  /** The k-th ancestor of `start`, while the table knows it. */
  ghost function Up(table: Table, start: int, k: nat): Option<int> {
    if k == 0 then Some(start)
    else
      match Up(table, start, k - 1)
      case None => None
      case Some(p) => if p in table then Some(table[p].ppid) else None
  }

  lemma {:induction false} ClimbIsUp(table: Table, start: int, chain: seq<int>, i: nat)
    requires Climbs(table, start, chain) && i < |chain|
    ensures Up(table, start, i) == Some(chain[i])
  {
    if i > 0 {
      ClimbIsUp(table, start, chain, i - 1);
      var j := i - 1;
      assert chain[j + 1] == table[chain[j]].ppid;
    }
  }

  ghost predicate MatchAt(table: Table, start: int, k: nat) {
    match Up(table, start, k)
    case None => false
    case Some(p) => p in table && IsCCProcess(table[p].cmdline)
  }

  /** A climb never reaches past its own stop: what the table repeats, it repeats for ever. */
  lemma {:induction false} RepeatsForEver(table: Table, start: int, i: nat, j: nat, k: nat)
    requires i < j && Up(table, start, i) == Up(table, start, j)
    ensures exists m: nat {:trigger Up(table, start, m)} :: m < j && Up(table, start, k) == Up(table, start, m)
    decreases k
  {
    if k >= j {
      UpStep(table, start, i, j, k - j);
      RepeatsForEver(table, start, i, j, i + (k - j));
    }
  }

  lemma {:induction false} UpStep(table: Table, start: int, i: nat, j: nat, d: nat)
    requires Up(table, start, i) == Up(table, start, j)
    ensures Up(table, start, i + d) == Up(table, start, j + d)
  {
    if d > 0 {
      UpStep(table, start, i, j, d - 1);
    }
  }

  /** Once the table does not know an ancestor, it knows none further up. */
  lemma {:induction false} GoneForEver(table: Table, start: int, k: nat, m: nat)
    requires k <= m
    requires Up(table, start, k).None? || Up(table, start, k).value !in table
    ensures !MatchAt(table, start, m)
  {
    if k < m {
      GoneForEver(table, start, k, m - 1);
      assert Up(table, start, m - 1).None? || Up(table, start, m - 1).value !in table by {
        UpGone(table, start, k, m - 1);
      }
      UpGone(table, start, k, m);
    }
  }

  lemma {:induction false} UpGone(table: Table, start: int, k: nat, m: nat)
    requires k <= m
    requires Up(table, start, k).None? || Up(table, start, k).value !in table
    ensures Up(table, start, m).None? || Up(table, start, m).value !in table
    ensures k < m ==> Up(table, start, m).None?
  {
    if k < m {
      UpGone(table, start, k, m - 1);
    }
  }

  /** The first `k` ancestors are all above 1: the walk can get that far. */
  ghost predicate AllAboveOne(table: Table, start: int, k: nat) {
    forall i: nat | i <= k :: Up(table, start, i).Some? ==> Up(table, start, i).value > 1
  }

  lemma NoMatchPastDeadEnd(table: Table, start: int, chain: seq<int>, k: nat)
    requires Climbs(table, start, chain)
    requires forall i | 0 <= i < |chain| - 1 :: Passed(table, chain[i])
    requires DeadEnd(table, chain[|chain| - 1], chain[..|chain| - 1])
    ensures !(MatchAt(table, start, k) && AllAboveOne(table, start, k))
  {
    var last := |chain| - 1;
    ClimbIsUp(table, start, chain, last);
    if k < last {
      ClimbIsUp(table, start, chain, k);
    } else if chain[last] !in table {
      GoneForEver(table, start, last, k);
    } else if chain[last] > 1 {
      var i :| 0 <= i < last && chain[i] == chain[last];
      ClimbIsUp(table, start, chain, i);
      RepeatsForEver(table, start, i, last, k);
      var m: nat :| m < last && Up(table, start, k) == Up(table, start, m);
      ClimbIsUp(table, start, chain, m);
    }
  }

  /** `found` is the first match of the climb, met before any pid <= 1. */
  ghost predicate NearestMatch(table: Table, start: int, found: int) {
    exists k: nat {:trigger Up(table, start, k)} ::
      && Up(table, start, k) == Some(found)
      && MatchAt(table, start, k) && AllAboveOne(table, start, k)
      && forall j: nat | j < k :: !MatchAt(table, start, j)
  }

  /** No match is met before a pid <= 1, at any distance, in a cycle or not. */
  ghost predicate NoMatch(table: Table, start: int) {
    forall k: nat :: !(MatchAt(table, start, k) && AllAboveOne(table, start, k))
  }

  lemma ChainEndsInMatch(table: Table, start: int, chain: seq<int>)
    requires Climbs(table, start, chain)
    requires forall i | 0 <= i < |chain| - 1 :: Passed(table, chain[i])
    requires var p := chain[|chain| - 1]; p > 1 && p in table && IsCCProcess(table[p].cmdline)
    ensures NearestMatch(table, start, chain[|chain| - 1])
  {
    var last := |chain| - 1;
    forall i: nat | i <= last ensures Up(table, start, i) == Some(chain[i]) {
      ClimbIsUp(table, start, chain, i);
    }
    assert Up(table, start, last) == Some(chain[last]);
  }

  /**
    `findCCAncestorPid`, against the whole, possibly endless climb: the nearest match met
    before a pid <= 1, and -1 exactly when there is none.
  */
  method FindCCAncestorPid(table: Table, start: int) returns (found: int)
    ensures found > 1 ==> NearestMatch(table, start, found)
    ensures found <= 1 ==> found == -1 && NoMatch(table, start)
  {
    var pid := start;
    var seen: set<int> := {};
    ghost var chain := [start];
    while pid > 1 && pid !in seen
      invariant Climbs(table, start, chain) && chain[|chain| - 1] == pid
      invariant forall p :: p in seen <==> p in chain[..|chain| - 1]
      invariant forall i | 0 <= i < |chain| - 1 :: Passed(table, chain[i])
      invariant seen <= table.Keys
      decreases table.Keys - seen
    {
      seen := seen + {pid};
      if pid !in table {
        NothingFound(table, start, chain);
        return -1;
      }
      var info := table[pid];
      if IsCCProcess(info.cmdline) {
        ChainEndsInMatch(table, start, chain);
        return pid;
      }
      assert chain == chain[..|chain| - 1] + [pid];
      assert (chain + [info.ppid])[..|chain|] == chain;
      chain := chain + [info.ppid];
      pid := info.ppid;
    }
    NothingFound(table, start, chain);
    return -1;
  }

  lemma NothingFound(table: Table, start: int, chain: seq<int>)
    requires Climbs(table, start, chain)
    requires forall i | 0 <= i < |chain| - 1 :: Passed(table, chain[i])
    requires DeadEnd(table, chain[|chain| - 1], chain[..|chain| - 1])
    ensures NoMatch(table, start)
  {
    forall k: nat ensures !(MatchAt(table, start, k) && AllAboveOne(table, start, k)) {
      NoMatchPastDeadEnd(table, start, chain, k);
    }
  }
}
