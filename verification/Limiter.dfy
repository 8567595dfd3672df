/**
  The sliding-window broadcast limiter (internal/bus/server.go, `consumeBroadcastQuota`).
  Times are nanoseconds. The stored window is pruned in place; the theorems compare it with
  the full, never pruned list of admitted broadcasts of one listener.
*/
module Limiter {

  const MINUTE := 60_000_000_000
  const BROADCAST_RATE_LIMIT := 60

  /** The entries of `w` after time `x`, in order. */
  function After(w: seq<int>, x: int): (r: seq<int>) {
    if w == [] then []
    else
      var rest := After(w[..|w| - 1], x);
      if w[|w| - 1] > x then rest + [w[|w| - 1]] else rest
  }

  function Pruned(w: seq<int>, now: int): seq<int> {
    After(w, now - MINUTE)
  }

  /** Whether a charge at `now` against the stored window `w` is admitted. */
  predicate Admits(w: seq<int>, now: int) {
    |Pruned(w, now)| < BROADCAST_RATE_LIMIT
  }

  /** The window stored after a charge at `now`. */
  function Charged(w: seq<int>, now: int): seq<int> {
    if Admits(w, now) then Pruned(w, now) + [now] else Pruned(w, now)
  }

  /** The window stored for a listener after charges at the clock readings `ts`. */
  function WindowAfter(ts: seq<int>): seq<int> {
    if ts == [] then [] else Charged(WindowAfter(ts[..|ts| - 1]), ts[|ts| - 1])
  }

  /** The readings among `ts` that were admitted: the full history, never pruned. */
  function Admitted(ts: seq<int>): seq<int> {
    if ts == [] then []
    else
      var past, now := ts[..|ts| - 1], ts[|ts| - 1];
      if Admits(WindowAfter(past), now) then Admitted(past) + [now] else Admitted(past)
  }

  /** No reading lags an earlier one by more than `d`. */
  ghost predicate SkewAtMost(ts: seq<int>, d: int) {
    forall i, j | 0 <= i < j < |ts| :: ts[i] <= ts[j] + d
  }

  /** How many entries of `w` lie in the half-open interval (lo, hi]. */
  function CountIn(w: seq<int>, lo: int, hi: int): (n: nat)
    ensures n <= |w|
  {
    if w == [] then 0
    else CountIn(w[..|w| - 1], lo, hi) + if lo < w[|w| - 1] <= hi then 1 else 0
  }

  // ----- pruning against the full history ----------------------------------

  lemma AfterSnoc(w: seq<int>, t: int, x: int)
    ensures After(w + [t], x) == if t > x then After(w, x) + [t] else After(w, x)
  {
    assert (w + [t])[..|w|] == w;
  }

  lemma AdmittedSnoc(ts: seq<int>, now: int)
    ensures Admitted(ts + [now])
         == if Admits(WindowAfter(ts), now) then Admitted(ts) + [now] else Admitted(ts)
    ensures WindowAfter(ts + [now]) == Charged(WindowAfter(ts), now)
  {
    assert (ts + [now])[..|ts|] == ts;
  }

  lemma {:induction false} AfterAfter(w: seq<int>, x: int, y: int)
    requires x <= y
    ensures After(After(w, x), y) == After(w, y)
  {
    if w != [] {
      var p, t := w[..|w| - 1], w[|w| - 1];
      AfterAfter(p, x, y);
      if t > x {
        AfterSnoc(After(p, x), t, y);
      }
    }
  }

  lemma {:induction false} AfterShrinks(w: seq<int>, x: int, y: int)
    requires x <= y
    ensures |After(w, y)| <= |After(w, x)| <= |w|
  {
    if w != [] {
      AfterShrinks(w[..|w| - 1], x, y);
    }
  }

  lemma ChargeTracks(w: seq<int>, h: seq<int>, now: int, x: int)
    requires now - MINUTE <= x && After(w, x) == After(h, x)
    ensures After(Charged(w, now), x) == After(if Admits(w, now) then h + [now] else h, x)
  {
    AfterAfter(w, now - MINUTE, x);
    AfterSnoc(Pruned(w, now), now, x);
    AfterSnoc(h, now, x);
  }

  /**
    Past any instant that every pruning so far left alone, the stored window and the full
    history agree: no entry that can still matter was ever dropped.
  */
  lemma {:induction false} WindowTracksHistory(ts: seq<int>, x: int)
    requires forall i | 0 <= i < |ts| :: ts[i] - MINUTE <= x
    ensures After(WindowAfter(ts), x) == After(Admitted(ts), x)
  {
    if ts != [] {
      var past, now := ts[..|ts| - 1], ts[|ts| - 1];
      WindowTracksHistory(past, x);
      ChargeTracks(WindowAfter(past), Admitted(past), now, x);
    }
  }

  lemma {:induction false} CountInAtMostAfter(w: seq<int>, lo: int, hi: int)
    ensures CountIn(w, lo, hi) <= |After(w, lo)|
  {
    if w != [] {
      CountInAtMostAfter(w[..|w| - 1], lo, hi);
    }
  }

  lemma CountInSnoc(w: seq<int>, t: int, lo: int, hi: int)
    ensures CountIn(w + [t], lo, hi) == CountIn(w, lo, hi) + if lo < t <= hi then 1 else 0
  {
    assert (w + [t])[..|w|] == w;
  }

  /** An admitted charge found fewer than 60 entries in any interval it can close. */
  lemma RoomBeforeAdmission(w: seq<int>, h: seq<int>, now: int, d: int, x: int)
    requires Admits(w, now) && After(w, x) == After(h, x)
    requires 0 <= d && now <= x + MINUTE - d
    ensures CountIn(h, x, x + MINUTE - d) < BROADCAST_RATE_LIMIT
  {
    AfterShrinks(w, now - MINUTE, x);
    CountInAtMostAfter(h, x, x + MINUTE - d);
  }

  /**
    The bound the limiter exists for. If no clock reading lags an earlier one by more than
    d, every interval of length one minute - d holds at most 60 admitted broadcasts; with
    d = 0, every interval (x, x + 1 min].
  */
  lemma {:induction false} AtMostSixtyPerWindow(ts: seq<int>, d: int, x: int)
    requires 0 <= d && SkewAtMost(ts, d)
    ensures CountIn(Admitted(ts), x, x + MINUTE - d) <= BROADCAST_RATE_LIMIT
  {
    if ts != [] {
      var past, now := ts[..|ts| - 1], ts[|ts| - 1];
      AtMostSixtyPerWindow(past, d, x);
      CountInSnoc(Admitted(past), now, x, x + MINUTE - d);
      if Admits(WindowAfter(past), now) && x < now <= x + MINUTE - d {
        WindowTracksHistory(past, x);
        RoomBeforeAdmission(WindowAfter(past), Admitted(past), now, d, x);
      }
    }
  }

  lemma {:induction false} AdmittedWithin(ts: seq<int>, lo: int, hi: int)
    requires forall i | 0 <= i < |ts| :: ts[i] <= hi
    ensures CountIn(Admitted(ts), lo, hi) == |After(Admitted(ts), lo)|
  {
    if ts != [] {
      var past, now := ts[..|ts| - 1], ts[|ts| - 1];
      assert forall i | 0 <= i < |past| :: past[i] == ts[i];
      AdmittedWithin(past, lo, hi);
      CountInSnoc(Admitted(past), now, lo, hi);
      AfterSnoc(Admitted(past), now, lo);
    }
  }

  /**
    With a clock that never steps back the pruned window decides as the full history would:
    a broadcast at `now` is admitted exactly when fewer than 60 were admitted in
    (now - 1 min, now].
  */
  lemma AdmitsByHistory(ts: seq<int>, now: int)
    requires SkewAtMost(ts + [now], 0)
    ensures Admits(WindowAfter(ts), now)
        <==> CountIn(Admitted(ts), now - MINUTE, now) < BROADCAST_RATE_LIMIT
  {
    NoneAfter(ts, now);
    WindowTracksHistory(ts, now - MINUTE);
    AdmittedWithin(ts, now - MINUTE, now);
  }

  lemma NoneAfter(ts: seq<int>, now: int)
    requires SkewAtMost(ts + [now], 0)
    ensures forall i | 0 <= i < |ts| :: ts[i] <= now
  {
    var all := ts + [now];
    forall i | 0 <= i < |ts| ensures ts[i] <= now {
      assert all[i] == ts[i] && all[|ts|] == now;
    }
  }

  ghost predicate Sorted(w: seq<int>) {
    forall i, j | 0 <= i < j < |w| :: w[i] <= w[j]
  }

  lemma {:induction false} AfterKeepsBounds(w: seq<int>, x: int, hi: int)
    requires forall i | 0 <= i < |w| :: w[i] <= hi
    ensures forall i | 0 <= i < |After(w, x)| :: After(w, x)[i] <= hi
    ensures Sorted(w) ==> Sorted(After(w, x))
  {
    if w != [] {
      var p := w[..|w| - 1];
      AfterKeepsBounds(p, x, hi);
      if Sorted(w) {
        AfterKeepsBounds(p, x, w[|w| - 1]);
      }
    }
  }

  /** The stored window never holds more than 60 entries, and stays sorted with the clock. */
  lemma {:induction false} StoredWindowShape(ts: seq<int>)
    ensures |WindowAfter(ts)| <= BROADCAST_RATE_LIMIT
    ensures SkewAtMost(ts, 0) ==> Sorted(WindowAfter(ts))
    ensures ts != [] && SkewAtMost(ts, 0)
        ==> forall i | 0 <= i < |WindowAfter(ts)| :: WindowAfter(ts)[i] <= ts[|ts| - 1]
  {
    if ts != [] {
      var past, now := ts[..|ts| - 1], ts[|ts| - 1];
      StoredWindowShape(past);
      if SkewAtMost(ts, 0) {
        assert forall i | 0 <= i < |past| :: past[i] == ts[i];
        ChargeKeepsOrder(WindowAfter(past), now);
      }
      ChargeKeepsSize(WindowAfter(past), now);
    }
  }

  lemma ChargeKeepsSize(w: seq<int>, now: int)
    requires |w| <= BROADCAST_RATE_LIMIT
    ensures |Charged(w, now)| <= BROADCAST_RATE_LIMIT
  {
    AfterShrinks(w, now - MINUTE, now - MINUTE);
  }

  lemma ChargeKeepsOrder(w: seq<int>, now: int)
    requires Sorted(w) && forall i | 0 <= i < |w| :: w[i] <= now
    ensures Sorted(Charged(w, now))
    ensures forall i | 0 <= i < |Charged(w, now)| :: Charged(w, now)[i] <= now
  {
    AfterKeepsBounds(w, now - MINUTE, now);
  }

  lemma {:induction false} AfterWhole(w: seq<int>, x: int)
    requires |After(w, x)| >= |w|
    ensures After(w, x) == w
  {
    if w != [] {
      AfterShrinks(w[..|w| - 1], x, x);
      AfterWhole(w[..|w| - 1], x);
    }
  }

  /** A refusal finds the stored window full of live entries, so its pruning drops none. */
  lemma RefusalKeepsWindow(ts: seq<int>, refused: int)
    requires !Admits(WindowAfter(ts), refused)
    ensures WindowAfter(ts + [refused]) == WindowAfter(ts)
    ensures Admitted(ts + [refused]) == Admitted(ts)
  {
    StoredWindowShape(ts);
    AfterWhole(WindowAfter(ts), refused - MINUTE);
    AdmittedSnoc(ts, refused);
  }

  /**
    A refused charge changes no later verdict, whatever the clock does: the windows and the
    admissions that follow are as if it had never happened.
  */
  lemma {:induction false} RefusalLeavesNoTrace(ts: seq<int>, refused: int, us: seq<int>)
    requires !Admits(WindowAfter(ts), refused)
    ensures Admitted(ts + [refused] + us) == Admitted(ts + us)
    ensures WindowAfter(ts + [refused] + us) == WindowAfter(ts + us)
  {
    var withIt, without := ts + [refused], ts;
    if us == [] {
      assert withIt + us == withIt && without + us == without;
      RefusalKeepsWindow(ts, refused);
    } else {
      var u, now := us[..|us| - 1], us[|us| - 1];
      assert withIt + us == (withIt + u) + [now] && without + us == (without + u) + [now];
      RefusalLeavesNoTrace(ts, refused, u);
      AdmittedSnoc(withIt + u, now);
      AdmittedSnoc(without + u, now);
    }
  }

  // ----- the code, over slices ---------------------------------------------

  /** A Go slice starting at the head of its backing array. */
  datatype Slice = Slice(arr: array<int>, len: nat)

  class BroadcastWindows {
    var windows: map<string, Slice>

    ghost predicate Valid()
      reads this
    {
      && (forall k | k in windows :: windows[k].len <= windows[k].arr.Length)
      && (forall j, k | j in windows && k in windows && j != k :: windows[j].arr != windows[k].arr)
    }

    ghost function Arrays(): set<array<int>>
      reads this
    {
      set k | k in windows :: windows[k].arr
    }

    ghost function Window(sid: string): seq<int>
      reads this, Arrays()
      requires Valid()
    {
      if sid in windows then windows[sid].arr[..windows[sid].len] else []
    }

    constructor ()
      ensures Valid() && windows == map[]
    {
      windows := map[];
    }

    /** The loop over `keep := w[:0]`: the survivors are written over the slice being read. */
    static method Prune(arr: array<int>, len: nat, cutoff: int) returns (keep: nat)
      requires len <= arr.Length
      modifies arr
      ensures keep <= len && arr[..keep] == After(old(arr[..len]), cutoff)
    {
      ghost var was := arr[..len];
      keep := 0;
      for i := 0 to len
        invariant keep <= i
        invariant arr[..keep] == After(was[..i], cutoff)
        invariant forall j | i <= j < len :: arr[j] == was[j]
      {
        assert was[..i + 1][..i] == was[..i];
        if arr[i] > cutoff {
          arr[keep] := arr[i];
          keep := keep + 1;
        }
      }
      assert was[..len] == was;
    }

    /** Go's append of one element to the slice holding the first `len` cells of `arr`. */
    static method Append(arr: array<int>, len: nat, t: int) returns (s: Slice)
      requires len <= arr.Length
      modifies arr
      ensures s.len == len + 1 <= s.arr.Length
      ensures s.arr[..s.len] == old(arr[..len]) + [t]
      ensures s.arr == arr || fresh(s.arr)
    {
      if len < arr.Length {
        arr[len] := t;
        return Slice(arr, len + 1);
      }
      var grown: nat :| len < grown;
      var bigger := new int[grown];
      forall i | 0 <= i < len {
        bigger[i] := arr[i];
      }
      bigger[len] := t;
      return Slice(bigger, len + 1);
    }

    /** The assignment back into the map, of a slice no other listener shares. */
    method Store(sid: string, s: Slice)
      requires Valid() && s.len <= s.arr.Length
      requires forall k | k in windows && k != sid :: windows[k].arr != s.arr
      modifies this
      ensures Valid() && windows == old(windows)[sid := s]
      ensures Window(sid) == s.arr[..s.len]
      ensures forall k | k != sid :: Window(k) == old(Window(k))
    {
      windows := windows[sid := s];
    }

    /**
      `consumeBroadcastQuota`, given its clock reading: prune the slice in place, then
      append in place or, when the backing array is full, into a larger one.
    */
    method Consume(sid: string, now: int) returns (admitted: bool)
      requires Valid()
      modifies this, if sid in windows then {windows[sid].arr} else {}
      ensures Valid()
      ensures admitted <==> Admits(old(Window(sid)), now)
      ensures Window(sid) == Charged(old(Window(sid)), now)
      ensures windows.Keys == old(windows.Keys) + {sid}
      ensures forall k | k != sid :: Window(k) == old(Window(k))
      ensures forall a | a in Arrays() :: a in old(Arrays()) || fresh(a)
    {
      var w: Slice;
      if sid in windows {
        w := windows[sid];
      } else {
        var none := new int[0];
        w := Slice(none, 0);
      }
      var keep := Prune(w.arr, w.len, now - MINUTE);
      if keep >= BROADCAST_RATE_LIMIT {
        Store(sid, Slice(w.arr, keep));
        return false;
      }
      var longer := Append(w.arr, keep, now);
      Store(sid, longer);
      return true;
    }
  }
}
