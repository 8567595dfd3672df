/**
  One monitor per Claude Code session: the per-ppid lock (internal/flock/flock.go), the state
  file it guards (internal/client/state.go) and the order in which `Run` takes and drops them
  (internal/client/client.go), over every interleaving of monitors and helpers, any of which
  may crash between two system calls.
*/
module Monitors {
  import opened Text

  /** The record of a state file; `listenerPid` is the monitor that wrote it. */
  datatype SessionState = SessionState(sid: string, nonce: string, name: string, listenerPid: int)

  /** What a file holds: one complete record, or less than that. */
  datatype Content = Partial | Whole(st: SessionState)

  /** The operations of `WriteSessionState` after it created its temporary file; failures lead to the removal. */
  datatype Stage = ToChmod | ToWrite | ToSync | ToClose | ToRename | ToRemove

  /** Where a monitor is in `Run`: its deferred calls delete the state file, then close the lock. */
  datatype Phase =
    | Starting
    | Holding
    | Writing(tmp: nat, st: SessionState, next: Stage)
    | Deleted
    | Gone
    | Crashed

  /** The files of one ppid, and its monitors by pid. */
  datatype Host = Host(holder: Option<int>, file: Option<Content>, temps: map<nat, Content>, phase: map<int, Phase>)

  /** The session id and nonce a monitor draws when it starts. */
  datatype Creds = Creds(sid: string, nonce: string)

  datatype Step =
    | Start(m: int)
    | Acquire(m: int)
    | Create(m: int, tmp: nat, st: SessionState)
    | Operate(m: int, ok: bool)
    | Delete(m: int)
    | Close(m: int)
    | Crash(m: int)
    | Helper(sid: string, nonce: string)

  predicate InPhase(h: Host, m: int, p: Phase) {
    m in h.phase && h.phase[m] == p
  }

  predicate IsWriting(h: Host, m: int) {
    m in h.phase && h.phase[m].Writing?
  }

  /** `os.CreateTemp` picks a name no file has. */
  predicate CanStep(h: Host, s: Step) {
    match s
    case Start(m) => m !in h.phase
    case Acquire(m) => InPhase(h, m, Starting)
    case Create(m, tmp, _) => InPhase(h, m, Holding) && tmp !in h.temps
    case Operate(m, _) => IsWriting(h, m)
    case Delete(m) => InPhase(h, m, Holding)
    case Close(m) => InPhase(h, m, Deleted)
    case Crash(m) => m in h.phase && !h.phase[m].Gone? && !h.phase[m].Crashed?
    case Helper(_, _) => true
  }

  function SetPhase(h: Host, m: int, p: Phase): Host {
    h.(phase := h.phase[m := p])
  }

  /** Whether `UnlinkIfMatches` takes the file for the one its caller read; a record it cannot parse stays. */
  predicate SameSession(file: Content, sid: string, nonce: string) {
    file.Whole? && file.st.sid == sid && file.st.nonce == nonce
  }

  function Unlinked(file: Option<Content>, sid: string, nonce: string): Option<Content> {
    if file.Some? && SameSession(file.value, sid, nonce) then None else file
  }

  function StageAfter(at: Stage, ok: bool): Stage {
    if !ok then ToRemove
    else match at
      case ToChmod => ToWrite
      case ToWrite => ToSync
      case ToSync => ToClose
      case _ => ToRename
  }

  /** One operation of a write under way; a rename or removal that fails leaves the temporary file. */
  function Operated(h: Host, m: int, ok: bool): Host
    requires IsWriting(h, m)
  {
    var p := h.phase[m];
    var without := h.temps - {p.tmp};
    match p.next
    case ToRename =>
      if ok && p.tmp in h.temps then SetPhase(h.(file := Some(h.temps[p.tmp]), temps := without), m, Holding)
      else SetPhase(h, m, Holding)
    case ToRemove => SetPhase(if ok then h.(temps := without) else h, m, Holding)
    case _ =>
      SetPhase(if ok && p.next.ToWrite? then h.(temps := h.temps[p.tmp := Whole(p.st)]) else h,
               m, Writing(p.tmp, p.st, StageAfter(p.next, ok)))
  }

  /** One step; a crash makes the kernel drop the lock and leaves the files. */
  function Next(h: Host, s: Step): Host
    requires CanStep(h, s)
  {
    match s
    case Start(m) => SetPhase(h, m, Starting)
    case Acquire(m) =>
      if h.holder == None then SetPhase(h.(holder := Some(m)), m, Holding) else SetPhase(h, m, Gone)
    case Create(m, tmp, st) => SetPhase(h.(temps := h.temps[tmp := Partial]), m, Writing(tmp, st, ToChmod))
    case Operate(m, ok) => Operated(h, m, ok)
    case Delete(m) => SetPhase(h.(file := None), m, Deleted)
    case Close(m) => SetPhase(h.(holder := None), m, Gone)
    case Crash(m) => SetPhase(h.(holder := if h.holder == Some(m) then None else h.holder), m, Crashed)
    case Helper(sid, nonce) => h.(file := Unlinked(h.file, sid, nonce))
  }

  /** A monitor writes its own pid, session id and nonce. */
  predicate Honest(s: Step, creds: int -> Creds) {
    s.Create? ==> s.st.listenerPid == s.m && creds(s.m) == Creds(s.st.sid, s.st.nonce)
  }

  ghost predicate IsRun(h: Host, steps: seq<Step>)
    decreases |steps|
  {
    steps != [] ==> CanStep(h, steps[0]) && IsRun(Next(h, steps[0]), steps[1..])
  }

  ghost function After(h: Host, steps: seq<Step>): Host
    requires IsRun(h, steps)
    decreases |steps|
  {
    if steps == [] then h else After(Next(h, steps[0]), steps[1..])
  }

  /** A run of the monitors of one ppid, none of which writes another's credentials. */
  ghost predicate Reached(h: Host, steps: seq<Step>, creds: int -> Creds) {
    IsRun(INIT, steps) && h == After(INIT, steps) && forall s | s in steps :: Honest(s, creds)
  }

  const INIT := Host(None, None, map[], map[])

  // ----- the calls, on the files ----------------------------------------------------------------

  /** What the operations of one `WriteSessionState` come to. */
  datatype Outcomes = Outcomes(chmod: bool, write: bool, sync: bool, close: bool, rename: bool, remove: bool)

  lemma {:induction false} RunSnoc(h: Host, steps: seq<Step>, s: Step)
    requires IsRun(h, steps) && CanStep(After(h, steps), s)
    ensures IsRun(h, steps + [s]) && After(h, steps + [s]) == Next(After(h, steps), s)
    decreases |steps|
  {
    var longer := steps + [s];
    if steps == [] {
      assert longer == [s] && longer[1..] == [];
    } else {
      assert longer[0] == steps[0] && longer[1..] == steps[1..] + [s];
      RunSnoc(Next(h, steps[0]), steps[1..], s);
    }
  }

  /** Monitor `m` alone takes the host from `h` to `v`. */
  ghost predicate OwnRun(h: Host, v: Host, m: int) {
    exists steps: seq<Step> :: IsRun(h, steps) && After(h, steps) == v && forall s | s in steps :: !s.Helper? && s.m == m
  }

  lemma OwnStart(h: Host, m: int, s: Step)
    requires CanStep(h, s) && !s.Helper? && s.m == m
    ensures OwnRun(h, Next(h, s), m)
  {
    RunSnoc(h, [], s);
    assert [] + [s] == [s];
  }

  lemma OwnStep(h: Host, v: Host, m: int, ok: bool)
    requires OwnRun(h, v, m) && IsWriting(v, m)
    ensures OwnRun(h, Next(v, Operate(m, ok)), m)
  {
    var steps: seq<Step> :| IsRun(h, steps) && After(h, steps) == v && forall s | s in steps :: !s.Helper? && s.m == m;
    RunSnoc(h, steps, Operate(m, ok));
  }

  /** The clients directory of one ppid: lock holder, state file, temporary files. */
  class ClientsDir {
    var holder: Option<int>
    var file: Option<Content>
    var temps: map<nat, Content>
    ghost var phase: map<int, Phase>

    ghost function View(): Host
      reads this
    {
      Host(holder, file, temps, phase)
    }

    constructor ()
      ensures View() == INIT
    {
      holder, file, temps, phase := None, None, map[], map[];
    }

    /** `flock.Acquire`: exclusive, non-blocking; the lock file itself is never unlinked. */
    method Acquire(m: int) returns (ok: bool)
      requires CanStep(View(), Step.Acquire(m))
      modifies this
      ensures View() == Next(old(View()), Step.Acquire(m))
      ensures ok <==> old(holder) == None
      ensures holder == (if ok then Some(m) else old(holder)) && InPhase(View(), m, if ok then Holding else Gone)
      ensures file == old(file) && temps == old(temps)
    {
      if holder.Some? {
        phase := phase[m := Gone];
        return false;
      }
      holder, phase := Some(m), phase[m := Holding];
      return true;
    }

    /** `os.CreateTemp`. */
    method CreateTemp(m: int, tmp: nat, st: SessionState)
      requires CanStep(View(), Create(m, tmp, st))
      modifies this
      ensures View() == Next(old(View()), Create(m, tmp, st))
    {
      temps, phase := temps[tmp := Partial], phase[m := Writing(tmp, st, ToChmod)];
    }

    /** The write to the temporary file. */
    method Put(m: int, tmp: nat, st: SessionState, ok: bool)
      requires InPhase(View(), m, Writing(tmp, st, ToWrite))
      modifies this
      ensures View() == Next(old(View()), Operate(m, ok))
    {
      if ok {
        temps := temps[tmp := Whole(st)];
      }
      phase := phase[m := Writing(tmp, st, StageAfter(ToWrite, ok))];
    }

    /** Chmod, sync and close change no content. */
    method Touch(m: int, ghost at: Stage, ok: bool)
      requires IsWriting(View(), m) && phase[m].next == at && (at.ToChmod? || at.ToSync? || at.ToClose?)
      modifies this
      ensures View() == Next(old(View()), Operate(m, ok))
    {
      phase := phase[m := Writing(phase[m].tmp, phase[m].st, StageAfter(at, ok))];
    }

    /** `os.Rename` over the state file. */
    method Rename(m: int, tmp: nat, ok: bool)
      requires IsWriting(View(), m) && phase[m].next == ToRename && phase[m].tmp == tmp && tmp in temps
      modifies this
      ensures View() == Next(old(View()), Operate(m, ok))
    {
      if ok {
        file := Some(temps[tmp]);
        temps := temps - {tmp};
      }
      phase := phase[m := Holding];
    }

    /** `os.Remove` of the temporary file, its error ignored. */
    method Remove(m: int, tmp: nat, ok: bool)
      requires IsWriting(View(), m) && phase[m].next == ToRemove && phase[m].tmp == tmp
      modifies this
      ensures View() == Next(old(View()), Operate(m, ok))
    {
      if ok {
        temps := temps - {tmp};
      }
      phase := phase[m := Holding];
    }

    /** The first operations of `WriteSessionState`, up to the write. */
    method CreateAndWrite(m: int, tmp: nat, st: SessionState, o: Outcomes) returns (ok: bool)
      requires CanStep(View(), Create(m, tmp, st))
      modifies this
      ensures OwnRun(old(View()), View(), m)
      ensures ok <==> o.chmod && o.write
      ensures InPhase(View(), m, Writing(tmp, st, if ok then ToSync else ToRemove))
      ensures file == old(file) && tmp in temps && temps - {tmp} == old(temps) && (ok ==> temps[tmp] == Whole(st))
    {
      ghost var h := View();
      CreateTemp(m, tmp, st);
      ghost var v := View();
      OwnStart(h, m, Create(m, tmp, st));
      Touch(m, ToChmod, o.chmod);
      OwnStep(h, v, m, o.chmod);
      if !o.chmod {
        return false;
      }
      v := View();
      Put(m, tmp, st, o.write);
      OwnStep(h, v, m, o.write);
      return o.write;
    }

    /** The rest of them, up to the close. */
    method SyncAndClose(m: int, tmp: nat, st: SessionState, o: Outcomes, ghost h: Host) returns (ok: bool)
      requires InPhase(View(), m, Writing(tmp, st, ToSync)) && OwnRun(h, View(), m)
      modifies this
      ensures OwnRun(h, View(), m)
      ensures ok <==> o.sync && o.close
      ensures InPhase(View(), m, Writing(tmp, st, if ok then ToRename else ToRemove))
      ensures file == old(file) && temps == old(temps)
    {
      ghost var v := View();
      Touch(m, ToSync, o.sync);
      OwnStep(h, v, m, o.sync);
      if !o.sync {
        return false;
      }
      v := View();
      Touch(m, ToClose, o.close);
      OwnStep(h, v, m, o.close);
      return o.close;
    }

    /**
      `WriteSessionState` through the unused name `tmp`, any operation failing. It is a run of
      the monitor's own steps; at its end the state file is the new record if everything went
      well and what it was otherwise, and the temporary file is left only by a failed rename
      or a failed removal.
    */
    method WriteSessionState(m: int, tmp: nat, st: SessionState, o: Outcomes) returns (ok: bool)
      requires CanStep(View(), Create(m, tmp, st))
      modifies this
      ensures OwnRun(old(View()), View(), m) && InPhase(View(), m, Holding)
      ensures ok <==> o.chmod && o.write && o.sync && o.close && o.rename
      ensures file == (if ok then Some(Whole(st)) else old(file)) && temps - {tmp} == old(temps)
      ensures tmp in temps <==> if o.chmod && o.write && o.sync && o.close then !o.rename else !o.remove
    {
      ghost var h := View();
      ok := CreateAndWrite(m, tmp, st, o);
      if ok {
        ok := SyncAndClose(m, tmp, st, o, h);
      }
      ghost var v := View();
      if !ok {
        Remove(m, tmp, o.remove);
        OwnStep(h, v, m, o.remove);
        return false;
      }
      Rename(m, tmp, o.rename);
      OwnStep(h, v, m, o.rename);
      return o.rename;
    }

    /** `DeleteSessionState`, as `Run` defers it: missing is no error. */
    method DeleteSessionState(m: int)
      requires CanStep(View(), Delete(m))
      modifies this
      ensures View() == Next(old(View()), Delete(m))
    {
      file, phase := None, phase[m := Deleted];
    }

    /** Closing the lock's file descriptor. */
    method CloseLock(m: int)
      requires CanStep(View(), Close(m))
      modifies this
      ensures View() == Next(old(View()), Close(m))
    {
      holder, phase := None, phase[m := Gone];
    }

    /** `UnlinkIfMatches`, taken as one step: the file goes exactly if it is a record of that session. */
    method UnlinkIfMatches(sid: string, nonce: string)
      modifies this
      ensures View() == Next(old(View()), Helper(sid, nonce))
      ensures file == None <==>
        || old(file) == None
        || (old(file).value.Whole? && old(file).value.st.sid == sid && old(file).value.st.nonce == nonce)
      ensures file != None ==> file == old(file)
      ensures holder == old(holder) && temps == old(temps) && phase == old(phase)
    {
      if file.None? {
        return;
      }
      var current := file.value;
      if current.Partial? {
        return;
      }
      if current.st.sid == sid && current.st.nonce == nonce {
        file := None;
      }
    }
  }

  // ----- the lock and the files, in every interleaving --------------------------------------------

  /** Between acquiring the lock and closing it. */
  predicate HasLock(h: Host, m: int) {
    InPhase(h, m, Holding) || IsWriting(h, m) || InPhase(h, m, Deleted)
  }

  ghost predicate LockSound(h: Host) {
    forall m :: HasLock(h, m) <==> h.holder == Some(m)
  }

  predicate MayOwnFile(h: Host, m: int) {
    InPhase(h, m, Holding) || IsWriting(h, m) || InPhase(h, m, Crashed)
  }

  /** The file is a whole record, the holder's own or a crashed monitor's, and none once the holder deleted it. */
  ghost predicate FileSound(h: Host, creds: int -> Creds) {
    h.file.Some? ==>
      && h.file.value.Whole? && MayOwnFile(h, h.file.value.st.listenerPid)
      && creds(h.file.value.st.listenerPid) == Creds(h.file.value.st.sid, h.file.value.st.nonce)
      && forall m :: !InPhase(h, m, Deleted)
  }

  /** A writer's temporary file exists, and holds its record once the write is done. */
  ghost predicate WriteSound(h: Host, m: int, creds: int -> Creds)
    requires IsWriting(h, m)
  {
    var p := h.phase[m];
    && p.st.listenerPid == m && creds(m) == Creds(p.st.sid, p.st.nonce)
    && p.tmp in h.temps
    && (p.next.ToSync? || p.next.ToClose? || p.next.ToRename? ==> h.temps[p.tmp] == Whole(p.st))
  }

  ghost predicate Inv(h: Host, creds: int -> Creds) {
    LockSound(h) && FileSound(h, creds) && forall m | IsWriting(h, m) :: WriteSound(h, m, creds)
  }

  lemma OnlyHolderMoves(h: Host, m: int, x: int)
    requires LockSound(h) && HasLock(h, m) && HasLock(h, x)
    ensures m == x
  {
  }

  lemma StepKeepsLock(h: Host, s: Step)
    requires LockSound(h) && CanStep(h, s)
    ensures LockSound(Next(h, s))
  {
    var g := Next(h, s);
    forall m ensures HasLock(g, m) <==> g.holder == Some(m) {
      assert HasLock(h, m) <==> h.holder == Some(m);
      if !s.Helper? {
        assert HasLock(h, s.m) <==> h.holder == Some(s.m);
      }
    }
  }

  lemma OperateKeepsFile(h: Host, m: int, ok: bool, creds: int -> Creds)
    requires Inv(h, creds) && IsWriting(h, m)
    ensures FileSound(Operated(h, m, ok), creds)
  {
    assert WriteSound(h, m, creds);
    var g := Operated(h, m, ok);
    forall x ensures !InPhase(g, x, Deleted) {
      if InPhase(h, x, Deleted) {
        OnlyHolderMoves(h, x, m);
      }
    }
  }

  lemma StepKeepsFile(h: Host, s: Step, creds: int -> Creds)
    requires Inv(h, creds) && CanStep(h, s)
    ensures FileSound(Next(h, s), creds)
  {
    if s.Operate? {
      OperateKeepsFile(h, s.m, s.ok, creds);
    } else {
      assert forall m :: InPhase(Next(h, s), m, Deleted) ==> InPhase(h, m, Deleted) || s == Delete(m);
    }
  }

  lemma StepKeepsWrites(h: Host, s: Step, creds: int -> Creds)
    requires Inv(h, creds) && CanStep(h, s) && Honest(s, creds)
    ensures forall m | IsWriting(Next(h, s), m) :: WriteSound(Next(h, s), m, creds)
  {
    var g := Next(h, s);
    forall m | IsWriting(g, m) ensures WriteSound(g, m, creds) {
      if IsWriting(h, m) {
        assert WriteSound(h, m, creds);
        if !s.Helper? && HasLock(h, s.m) {
          OnlyHolderMoves(h, m, s.m);
        }
      }
    }
  }

  lemma StepKeepsInv(h: Host, s: Step, creds: int -> Creds)
    requires Inv(h, creds) && CanStep(h, s) && Honest(s, creds)
    ensures Inv(Next(h, s), creds)
  {
    StepKeepsLock(h, s);
    StepKeepsFile(h, s, creds);
    StepKeepsWrites(h, s, creds);
  }

  lemma {:induction false} RunKeepsInv(h: Host, steps: seq<Step>, creds: int -> Creds)
    requires Inv(h, creds) && IsRun(h, steps) && forall s | s in steps :: Honest(s, creds)
    ensures Inv(After(h, steps), creds)
    decreases |steps|
  {
    if steps != [] {
      StepKeepsInv(h, steps[0], creds);
      RunKeepsInv(Next(h, steps[0]), steps[1..], creds);
    }
  }

  lemma ReachedInv(h: Host, steps: seq<Step>, creds: int -> Creds)
    requires Reached(h, steps, creds)
    ensures Inv(h, creds)
  {
    RunKeepsInv(INIT, steps, creds);
  }

  /** In every interleaving at most one monitor is between acquire and close. */
  lemma MutualExclusion(h: Host, steps: seq<Step>, creds: int -> Creds, m1: int, m2: int)
    requires Reached(h, steps, creds) && HasLock(h, m1) && HasLock(h, m2)
    ensures m1 == m2
  {
    ReachedInv(h, steps, creds);
  }

  /** A monitor can always go on, fail at whatever it is doing, or crash, until it is gone. */
  lemma MonitorsCanMove(h: Host, m: int)
    ensures m !in h.phase ==> CanStep(h, Start(m))
    ensures m in h.phase ==>
      match h.phase[m]
      case Starting => CanStep(h, Acquire(m)) && CanStep(h, Crash(m))
      case Holding =>
        && CanStep(h, Delete(m)) && CanStep(h, Crash(m))
        && forall tmp, st | tmp !in h.temps :: CanStep(h, Create(m, tmp, st))
      case Writing(_, _, _) => CanStep(h, Operate(m, true)) && CanStep(h, Operate(m, false)) && CanStep(h, Crash(m))
      case Deleted => CanStep(h, Close(m)) && CanStep(h, Crash(m))
      case Gone => true
      case Crashed => true
    ensures forall sid, nonce :: CanStep(h, Helper(sid, nonce))
  {
  }

  /** A monitor that tries gets the lock exactly if no other is between acquire and close. */
  lemma AcquiresExactlyIfFree(h: Host, steps: seq<Step>, creds: int -> Creds, m: int)
    requires Reached(h, steps, creds) && CanStep(h, Acquire(m))
    ensures HasLock(Next(h, Acquire(m)), m) <==> forall x :: !HasLock(h, x)
    ensures !HasLock(Next(h, Acquire(m)), m) ==> InPhase(Next(h, Acquire(m)), m, Gone)
  {
    ReachedInv(h, steps, creds);
    if h.holder.Some? {
      assert HasLock(h, h.holder.value);
    } else {
      forall x ensures !HasLock(h, x) {
        assert HasLock(h, x) <==> h.holder == Some(x);
      }
    }
  }

  /**
    Readers see the previous record or the new one. In every reachable state, crashes in the
    middle of a write included, the state file is absent or one whole record; and a step
    leaves it alone, removes it, or puts there the record a writer set out to write.
  */
  lemma ReadersSeeWholeRecords(h: Host, steps: seq<Step>, creds: int -> Creds, s: Step)
    requires Reached(h, steps, creds) && CanStep(h, s)
    ensures h.file.Some? ==>
      h.file.value.Whole? && creds(h.file.value.st.listenerPid) == Creds(h.file.value.st.sid, h.file.value.st.nonce)
    ensures Next(h, s).file == h.file || Next(h, s).file == None
      || (s.Operate? && s.ok && h.phase[s.m].next == ToRename && Next(h, s).file == Some(Whole(h.phase[s.m].st)))
    ensures s.Operate? && s.ok && h.phase[s.m].next == ToRename ==> Next(h, s).file == Some(Whole(h.phase[s.m].st))
  {
    ReachedInv(h, steps, creds);
    if s.Operate? {
      assert WriteSound(h, s.m, creds);
    }
  }

  // ----- temporary files ----------------------------------------------------------------------------

  /** The temporary file a monitor is at work on. */
  predicate WorksOn(h: Host, m: int, tmp: nat) {
    IsWriting(h, m) && h.phase[m].tmp == tmp
  }

  ghost predicate InHand(h: Host, tmp: nat) {
    exists m :: WorksOn(h, m, tmp)
  }

  /** A step after which nobody will remove `tmp`: a failed rename or removal, or a crash in the middle of a write. */
  predicate Abandons(h: Host, s: Step, tmp: nat) {
    && (s.Crash? || (s.Operate? && !s.ok)) && WorksOn(h, s.m, tmp)
    && (s.Operate? ==> h.phase[s.m].next.ToRename? || h.phase[s.m].next.ToRemove?)
  }

  ghost predicate Abandoned(h: Host, steps: seq<Step>, tmp: nat)
    requires IsRun(h, steps)
    decreases |steps|
  {
    steps != [] && (Abandons(h, steps[0], tmp) || Abandoned(Next(h, steps[0]), steps[1..], tmp))
  }

  /** In the directory, and nobody's any more. */
  ghost predicate Orphan(h: Host, tmp: nat) {
    tmp in h.temps && !InHand(h, tmp)
  }

  lemma OnlyOneWorks(h: Host, m: int, x: int)
    requires LockSound(h) && IsWriting(h, m) && IsWriting(h, x)
    ensures m == x
  {
    OnlyHolderMoves(h, m, x);
  }

  lemma OtherStepsOrphanNone(h: Host, s: Step, tmp: nat)
    requires CanStep(h, s) && !s.Operate? && !s.Crash?
    ensures Orphan(Next(h, s), tmp) <==> Orphan(h, tmp)
  {
    var g := Next(h, s);
    forall m | WorksOn(h, m, tmp) ensures WorksOn(g, m, tmp) {
    }
    forall m | WorksOn(g, m, tmp) ensures WorksOn(h, m, tmp) || s == Create(m, tmp, g.phase[m].st) {
    }
    if s.Create? {
      assert WorksOn(g, s.m, s.tmp);
    }
  }

  /** The writer alone works on its file, so a step of its own settles who works on what. */
  lemma WriterStepOrphans(h: Host, s: Step, creds: int -> Creds, tmp: nat)
    requires Inv(h, creds) && CanStep(h, s) && (s.Operate? || s.Crash?) && IsWriting(h, s.m)
    ensures Orphan(Next(h, s), tmp) <==> Orphan(h, tmp) || Abandons(h, s, tmp)
  {
    var g := Next(h, s);
    assert WriteSound(h, s.m, creds);
    forall m ensures WorksOn(h, m, tmp) <==> m == s.m && h.phase[m].tmp == tmp {
      if IsWriting(h, m) {
        OnlyOneWorks(h, m, s.m);
      }
    }
    forall m ensures WorksOn(g, m, tmp) <==> m == s.m && IsWriting(g, m) && h.phase[m].tmp == tmp {
      if IsWriting(h, m) {
        OnlyOneWorks(h, m, s.m);
      }
    }
    assert InHand(h, tmp) <==> WorksOn(h, s.m, tmp);
    assert InHand(g, tmp) <==> WorksOn(g, s.m, tmp);
  }

  lemma IdleCrashOrphansNone(h: Host, m: int, tmp: nat)
    requires CanStep(h, Crash(m)) && !IsWriting(h, m)
    ensures Orphan(Next(h, Crash(m)), tmp) <==> Orphan(h, tmp)
  {
    var g := Next(h, Crash(m));
    forall x ensures WorksOn(g, x, tmp) <==> WorksOn(h, x, tmp) {
    }
  }

  lemma StepOrphans(h: Host, s: Step, creds: int -> Creds, tmp: nat)
    requires Inv(h, creds) && CanStep(h, s)
    ensures Orphan(Next(h, s), tmp) <==> Orphan(h, tmp) || Abandons(h, s, tmp)
  {
    if !s.Operate? && !s.Crash? {
      OtherStepsOrphanNone(h, s, tmp);
    } else if IsWriting(h, s.m) {
      WriterStepOrphans(h, s, creds, tmp);
    } else {
      IdleCrashOrphansNone(h, s.m, tmp);
    }
  }

  lemma {:induction false} RunOrphans(h: Host, steps: seq<Step>, creds: int -> Creds, tmp: nat)
    requires Inv(h, creds) && IsRun(h, steps) && forall s | s in steps :: Honest(s, creds)
    ensures Orphan(After(h, steps), tmp) <==> Orphan(h, tmp) || Abandoned(h, steps, tmp)
    decreases |steps|
  {
    if steps != [] {
      StepOrphans(h, steps[0], creds, tmp);
      StepKeepsInv(h, steps[0], creds);
      RunOrphans(Next(h, steps[0]), steps[1..], creds, tmp);
    }
  }

  /**
    Exactly which temporary files there are: those being written, and those left behind by a
    rename or removal that failed or by a crash in the middle of a write.
  */
  lemma TempsAreInHandOrAbandoned(h: Host, steps: seq<Step>, creds: int -> Creds, tmp: nat)
    requires Reached(h, steps, creds)
    ensures tmp in h.temps <==> InHand(h, tmp) || Abandoned(INIT, steps, tmp)
  {
    ReachedInv(h, steps, creds);
    RunOrphans(INIT, steps, creds, tmp);
    forall m | WorksOn(h, m, tmp) ensures tmp in h.temps {
      assert WriteSound(h, m, creds);
    }
  }

  // ----- deletion ----------------------------------------------------------------------------------

  /**
    A monitor's deferred delete removes nothing but its own record or one a crashed monitor
    left, and when it closes the lock no record of its own is left behind.
  */
  lemma DeleteRemovesOwnOrCrashed(h: Host, steps: seq<Step>, creds: int -> Creds, m: int)
    requires Reached(h, steps, creds)
    ensures CanStep(h, Delete(m)) && h.file.Some? ==>
      h.file.value.Whole? && (h.file.value.st.listenerPid == m || InPhase(h, h.file.value.st.listenerPid, Crashed))
    ensures CanStep(h, Close(m)) ==> h.file == None
    ensures InPhase(h, m, Gone) && h.file.Some? ==> h.file.value.Whole? && h.file.value.st.listenerPid != m
  {
    ReachedInv(h, steps, creds);
    if CanStep(h, Delete(m)) && h.file.Some? && HasLock(h, h.file.value.st.listenerPid) {
      OnlyHolderMoves(h, m, h.file.value.st.listenerPid);
    }
  }

  /** No step of anyone else touches a live monitor's record, but a helper naming its very session. */
  ghost predicate LeavesAlone(s: Step, m: int, creds: int -> Creds) {
    && (s.Helper? ==> Creds(s.sid, s.nonce) != creds(m))
    && (!s.Helper? ==> s.m != m)
  }

  lemma StepLeavesRecord(h: Host, s: Step, creds: int -> Creds, m: int)
    requires Inv(h, creds) && CanStep(h, s) && LeavesAlone(s, m, creds)
    requires HasLock(h, m) && h.file.Some? && h.file.value.Whole? && h.file.value.st.listenerPid == m
    ensures Next(h, s).file == h.file && HasLock(Next(h, s), m)
  {
    if !s.Helper? && HasLock(h, s.m) {
      OnlyHolderMoves(h, m, s.m);
    }
  }

  lemma {:induction false} LiveRecordStays(h: Host, steps: seq<Step>, creds: int -> Creds, m: int)
    requires Inv(h, creds) && IsRun(h, steps)
    requires HasLock(h, m) && h.file.Some? && h.file.value.Whole? && h.file.value.st.listenerPid == m
    requires forall s | s in steps :: Honest(s, creds) && LeavesAlone(s, m, creds)
    ensures After(h, steps).file == h.file && HasLock(After(h, steps), m)
    decreases |steps|
  {
    if steps != [] {
      StepLeavesRecord(h, steps[0], creds, m);
      StepKeepsInv(h, steps[0], creds);
      LiveRecordStays(Next(h, steps[0]), steps[1..], creds, m);
    }
  }

  /**
    A helper takes away the record of the session it names, whichever monitor left it there,
    and touches nothing else: in every reachable state the file is gone after its step
    exactly if it was missing or a record with that session id and nonce.
  */
  lemma HelperRemovesItsSession(h: Host, steps: seq<Step>, creds: int -> Creds, sid: string, nonce: string)
    requires Reached(h, steps, creds)
    ensures var g := Next(h, Helper(sid, nonce));
            && g.holder == h.holder && g.temps == h.temps && g.phase == h.phase
            && (h.file.Some? ==> h.file.value.Whole?)
            && (g.file == None <==> h.file == None || (h.file.value.st.sid == sid && h.file.value.st.nonce == nonce))
            && (g.file != None ==> g.file == h.file)
  {
    ReachedInv(h, steps, creds);
  }

  /** A helper acting on one monitor's session never removes the record of another. */
  lemma HelperSparesOtherSessions(h: Host, steps: seq<Step>, creds: int -> Creds, stale: int)
    requires Reached(h, steps, creds) && forall a, b | creds(a) == creds(b) :: a == b
    ensures h.file.Some? && h.file.value.Whole? && h.file.value.st.listenerPid != stale
      ==> Next(h, Helper(creds(stale).sid, creds(stale).nonce)).file == h.file
  {
    ReachedInv(h, steps, creds);
  }
}
