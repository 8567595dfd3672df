/**
  The message log: a live file and its numbered backups (internal/logfile/rotate.go), fed
  by `logMessage` (internal/bus/ops.go). A directory maps 0 to the live file `path` and
  k >= 1 to `path.k`; contents are bytes. The reference is the history of all lines ever
  logged, cut into chunks.
*/
module LogFile {

  type Dir = map<nat, string>

  const LOG_MAX_BYTES: nat := 50 * 1024 * 1024
  const LOG_BACKUPS: nat := 5

  /** The bytes of a list of lines, each ended by a newline. */
  function Bytes(lines: seq<string>): string {
    if lines == [] then "" else Bytes(lines[..|lines| - 1]) + lines[|lines| - 1] + "\n"
  }

  lemma BytesSnoc(lines: seq<string>, line: string)
    ensures Bytes(lines + [line]) == Bytes(lines) + line + "\n"
  {
    assert (lines + [line])[..|lines|] == lines;
  }

  lemma ConcatAssoc(a: string, b: string, c: string, d: string)
    ensures (a + b) + c + d == a + (b + c + d)
  {
  }

  lemma {:induction false} BytesConcat(a: seq<string>, b: seq<string>)
    ensures Bytes(a + b) == Bytes(a) + Bytes(b)
  {
    if b == [] {
      assert a + b == a;
    } else {
      var p, line := b[..|b| - 1], b[|b| - 1];
      BytesConcat(a, p);
      assert a + b == (a + p) + [line];
      BytesSnoc(a + p, line);
      assert Bytes(b) == Bytes(p) + line + "\n";
      ConcatAssoc(Bytes(a), Bytes(p), line, "\n");
    }
  }

  // ----- rotation ------------------------------------------------------------

  /** The number whose content ends up at k > 0 when every file moves one number up. */
  function Source(k: nat, backups: nat): nat {
    if 1 <= k <= backups then k - 1 else k
  }

  /** Every file moves one number up; the oldest backup is dropped. */
  ghost function Shift(files: Dir, backups: nat): Dir {
    map k: nat | k in files.Keys + (set j | j in files :: j + 1) && k > 0 && Source(k, backups) in files
      :: files[Source(k, backups)]
  }

  lemma ShiftAt(files: Dir, backups: nat, k: nat)
    ensures k in Shift(files, backups) <==> k > 0 && Source(k, backups) in files
    ensures k in Shift(files, backups) ==> Shift(files, backups)[k] == files[Source(k, backups)]
  {
    if k > 0 && k - 1 in files {
      assert (k - 1) + 1 in (set j | j in files :: j + 1);
    }
  }

  /** What `Rotate` leaves: nothing changes while the live file is missing or not over the cap. */
  ghost function Rotated(files: Dir, maxBytes: nat, backups: nat): Dir {
    if 0 !in files || |files[0]| <= maxBytes || backups == 0 then files else Shift(files, backups)
  }

  function Appended(files: Dir, line: string): Dir {
    files[0 := (if 0 in files then files[0] else "") + line + "\n"]
  }

  ghost function Logged(files: Dir, line: string, maxBytes: nat, backups: nat): Dir {
    Appended(Rotated(files, maxBytes, backups), line)
  }

  class LogDir {
    var files: Dir

    constructor ()
      ensures files == map[]
    {
      files := map[];
    }

    /** `os.Remove`, its error ignored. */
    method Remove(k: nat)
      modifies this
      ensures files == old(files) - {k}
    {
      files := files - {k};
    }

    /** `os.Rename`, its error ignored: a missing source changes nothing. */
    method Rename(from: nat, to: nat)
      requires from != to
      modifies this
      ensures files == if from in old(files)
                       then old(files)[to := old(files)[from]] - {from}
                       else old(files)
    {
      if from in files {
        files := files[to := files[from]] - {from};
      }
    }

    /** `Rotate`: the downward loop, renaming path.(i-1) to path.i. */
    method Rotate(maxBytes: nat, backups: nat)
      modifies this
      ensures files == Rotated(old(files), maxBytes, backups)
    {
      if 0 !in files || |files[0]| <= maxBytes {
        return;
      }
      ghost var was := files;
      var i := backups;
      while i >= 1
        invariant 0 <= i <= backups
        invariant i == backups ==> files == was
        invariant i < backups ==> ShiftedAbove(was, files, i, backups)
      {
        if i == backups {
          Remove(i);
          ShiftedNothing(was, files, backups);
        }
        ghost var before := files;
        Rename(i - 1, i);
        ShiftedOneMore(was, before, files, i, backups);
        i := i - 1;
      }
      if backups > 0 {
        ShiftedAboveZero(was, files, backups);
      }
    }

    /** `AppendJSONL`: one more line at the end of the live file, created when missing. */
    method AppendJSONL(line: string)
      modifies this
      ensures files == Appended(old(files), line)
    {
      var held := if 0 in files then files[0] else "";
      files := files[0 := held + line + "\n"];
    }

    /** `logMessage`. */
    method LogMessage(line: string, maxBytes: nat, backups: nat)
      modifies this
      ensures files == Logged(old(files), line, maxBytes, backups)
    {
      Rotate(maxBytes, backups);
      AppendJSONL(line);
    }
  }

  /** Rotation half done: names above i are final, i itself is vacant, lower ones untouched. */
  ghost predicate ShiftedAbove(was: Dir, now: Dir, i: nat, backups: nat) {
    && i !in now
    && (forall k: nat | k < i :: (k in now <==> k in was) && (k in was ==> now[k] == was[k]))
    && (forall k: nat | i < k <= backups :: (k in now <==> k - 1 in was) && (k in now ==> now[k] == was[k - 1]))
    && (forall k: nat | k > backups :: (k in now <==> k in was) && (k in was ==> now[k] == was[k]))
  }

  lemma ShiftedNothing(was: Dir, now: Dir, backups: nat)
    requires now == was - {backups}
    ensures ShiftedAbove(was, now, backups, backups)
  {
  }

  lemma ShiftedOneMore(was: Dir, before: Dir, now: Dir, i: nat, backups: nat)
    requires 1 <= i <= backups && ShiftedAbove(was, before, i, backups)
    requires now == if i - 1 in before then before[i := before[i - 1]] - {i - 1} else before
    ensures ShiftedAbove(was, now, i - 1, backups)
  {
  }

  lemma ShiftedAboveZero(was: Dir, now: Dir, backups: nat)
    requires backups > 0 && ShiftedAbove(was, now, 0, backups)
    ensures now == Shift(was, backups)
  {
    forall k: nat
      ensures k in now <==> k in Shift(was, backups)
      ensures k in now ==> now[k] == Shift(was, backups)[k]
    {
      ShiftAt(was, backups, k);
    }
  }

  // ----- the history, cut into chunks ------------------------------------------

  /** The chunks once one more line is logged. */
  function Extended(c: seq<seq<string>>, line: string, maxBytes: nat): seq<seq<string>> {
    if c == [] then [[line]]
    else if |Bytes(c[0])| > maxBytes then [[line]] + c
    else [c[0] + [line]] + c[1..]
  }

  /** The whole history in chunks, newest first: a chunk is closed once it exceeds the cap. */
  function Chunks(lines: seq<string>, maxBytes: nat): seq<seq<string>> {
    if lines == [] then []
    else
      Extended(Chunks(lines[..|lines| - 1], maxBytes), lines[|lines| - 1], maxBytes)
  }

  /** The directory holding the newest `backups + 1` chunks and nothing else. */
  ghost predicate Holds(files: Dir, chunks: seq<seq<string>>, backups: nat) {
    && (forall k: nat :: k in files <==> k < |chunks| && k <= backups)
    && (forall k: nat | k in files && k < |chunks| :: files[k] == Bytes(chunks[k]))
  }

  ghost function LogRun(lines: seq<string>, maxBytes: nat, backups: nat): Dir {
    if lines == [] then map[]
    else Logged(LogRun(lines[..|lines| - 1], maxBytes, backups), lines[|lines| - 1], maxBytes, backups)
  }

  lemma ShiftHolds(files: Dir, c: seq<seq<string>>, backups: nat)
    requires backups >= 1 && Holds(files, c, backups)
    ensures forall k: nat :: k in Shift(files, backups) <==> 0 < k <= |c| && k <= backups
    ensures forall k: nat | 0 < k <= |c| && k <= backups :: Shift(files, backups)[k] == Bytes(c[k - 1])
  {
    forall k: nat
      ensures k in Shift(files, backups) <==> 0 < k <= |c| && k <= backups
      ensures 0 < k <= |c| && k <= backups ==> Shift(files, backups)[k] == Bytes(c[k - 1])
    {
      ShiftAt(files, backups, k);
    }
  }

  lemma AppendedHolds(files: Dir, c: seq<seq<string>>, line: string, backups: nat)
    requires Holds(files, c, backups) && c != []
    ensures Holds(Appended(files, line), [c[0] + [line]] + c[1..], backups)
  {
    BytesSnoc(c[0], line);
  }

  lemma StartedHolds(files: Dir, c: seq<seq<string>>, line: string, backups: nat)
    requires 0 !in files
    requires forall k: nat | k > 0 :: k in files <==> k <= |c| && k <= backups
    requires forall k: nat | k in files && 0 < k <= |c| :: files[k] == Bytes(c[k - 1])
    ensures Holds(Appended(files, line), [[line]] + c, backups)
  {
    assert [line][..0] == [];
    assert Bytes([line]) == line + "\n";
  }

  lemma LoggedHolds(files: Dir, c: seq<seq<string>>, line: string, maxBytes: nat, backups: nat)
    requires backups >= 1 && Holds(files, c, backups)
    ensures Holds(Logged(files, line, maxBytes, backups), Extended(c, line, maxBytes), backups)
  {
    if c == [] {
      StartedHolds(files, c, line, backups);
      assert [[line]] + c == [[line]];
    } else if |Bytes(c[0])| > maxBytes {
      ShiftHolds(files, c, backups);
      StartedHolds(Shift(files, backups), c, line, backups);
    } else {
      AppendedHolds(files, c, line, backups);
    }
  }

  /** After any sequence of logged lines the directory holds the newest chunks of the history. */
  lemma {:induction false} LogRunHoldsChunks(lines: seq<string>, maxBytes: nat, backups: nat)
    requires backups >= 1
    ensures Holds(LogRun(lines, maxBytes, backups), Chunks(lines, maxBytes), backups)
  {
    if lines != [] {
      var p := lines[..|lines| - 1];
      LogRunHoldsChunks(p, maxBytes, backups);
      LoggedHolds(LogRun(p, maxBytes, backups), Chunks(p, maxBytes), lines[|lines| - 1], maxBytes, backups);
    }
  }

  /** Chunks put back in order, oldest first. */
  function Flatten(chunks: seq<seq<string>>): seq<string> {
    if chunks == [] then [] else Flatten(chunks[1..]) + chunks[0]
  }

  lemma {:induction false} ChunksPartition(lines: seq<string>, maxBytes: nat)
    ensures Flatten(Chunks(lines, maxBytes)) == lines
    ensures lines != [] ==> Chunks(lines, maxBytes) != []
  {
    if lines != [] {
      var p, line := lines[..|lines| - 1], lines[|lines| - 1];
      ChunksPartition(p, maxBytes);
      var c := Chunks(p, maxBytes);
      assert lines == p + [line];
      if c != [] && |Bytes(c[0])| <= maxBytes {
        var d := [c[0] + [line]] + c[1..];
        assert d[1..] == c[1..];
        assert Flatten(c[1..]) + (c[0] + [line]) == (Flatten(c[1..]) + c[0]) + [line];
      } else if c != [] {
        assert ([[line]] + c)[1..] == c;
      }
    }
  }

  /** A chunk was within the cap before its last line. */
  ghost predicate WithinCapButLast(chunk: seq<string>, maxBytes: nat) {
    chunk != [] && |Bytes(chunk[..|chunk| - 1])| <= maxBytes
  }

  ghost predicate WellCut(chunks: seq<seq<string>>, maxBytes: nat) {
    && (forall k | 0 <= k < |chunks| :: WithinCapButLast(chunks[k], maxBytes))
    && (forall k | 1 <= k < |chunks| :: |Bytes(chunks[k])| > maxBytes)
  }

  lemma ExtendedWellCut(c: seq<seq<string>>, line: string, maxBytes: nat)
    requires WellCut(c, maxBytes)
    ensures WellCut(Extended(c, line, maxBytes), maxBytes)
  {
    if c == [] {
      OneLineWithinCap(line, maxBytes);
    } else if |Bytes(c[0])| > maxBytes {
      NewChunkWellCut(c, line, maxBytes);
    } else {
      GrownChunkWellCut(c, line, maxBytes);
    }
  }

  lemma NewChunkWellCut(c: seq<seq<string>>, line: string, maxBytes: nat)
    requires WellCut(c, maxBytes) && (c != [] ==> |Bytes(c[0])| > maxBytes)
    ensures WellCut([[line]] + c, maxBytes)
  {
    OneLineWithinCap(line, maxBytes);
    NewHeadWellCut([line], c, maxBytes);
  }

  lemma OneLineWithinCap(line: string, maxBytes: nat)
    ensures WithinCapButLast([line], maxBytes)
    ensures WellCut([[line]], maxBytes)
  {
    assert [line][..0] == [];
  }

  lemma GrownChunkWellCut(c: seq<seq<string>>, line: string, maxBytes: nat)
    requires WellCut(c, maxBytes) && c != [] && |Bytes(c[0])| <= maxBytes
    ensures WellCut([c[0] + [line]] + c[1..], maxBytes)
  {
    ExtendedChunk(c[0], line, maxBytes);
    NewHeadWellCut(c[0] + [line], c[1..], maxBytes);
  }

  lemma NewHeadWellCut(head: seq<string>, rest: seq<seq<string>>, maxBytes: nat)
    requires WithinCapButLast(head, maxBytes)
    requires forall k | 0 <= k < |rest| :: WithinCapButLast(rest[k], maxBytes) && |Bytes(rest[k])| > maxBytes
    ensures WellCut([head] + rest, maxBytes)
  {
  }

  lemma ExtendedChunk(chunk: seq<string>, line: string, maxBytes: nat)
    requires |Bytes(chunk)| <= maxBytes
    ensures WithinCapButLast(chunk + [line], maxBytes)
  {
    assert (chunk + [line])[..|chunk|] == chunk;
  }

  lemma {:induction false} ChunksWellCut(lines: seq<string>, maxBytes: nat)
    ensures WellCut(Chunks(lines, maxBytes), maxBytes)
  {
    if lines != [] {
      var p := lines[..|lines| - 1];
      ChunksWellCut(p, maxBytes);
      ExtendedWellCut(Chunks(p, maxBytes), lines[|lines| - 1], maxBytes);
    }
  }

  // ----- what the directory holds, read back -----------------------------------

  /** path.k ++ ... ++ path.1 ++ path, missing files reading as empty. */
  ghost function ReadBack(files: Dir, k: nat): string {
    (if k in files then files[k] else "") + if k == 0 then "" else ReadBack(files, k - 1)
  }

  lemma {:induction false} ReadBackChunks(files: Dir, c: seq<seq<string>>, backups: nat, k: nat)
    requires Holds(files, c, backups) && k < |c| && k <= backups
    ensures ReadBack(files, k) == Bytes(Flatten(c[..k + 1]))
  {
    assert c[..k + 1] == c[..k] + [c[k]];
    FlattenSnoc(c[..k], c[k]);
    BytesConcat(c[k], Flatten(c[..k]));
    if k > 0 {
      ReadBackChunks(files, c, backups, k - 1);
    }
  }

  /** Numbers no file has contribute nothing. */
  lemma {:induction false} ReadBackSkips(files: Dir, j: nat, k: nat)
    requires j <= k && forall i: nat | j < i <= k :: i !in files
    ensures ReadBack(files, k) == ReadBack(files, j)
    decreases k
  {
    if j < k {
      ReadBackSkips(files, j, k - 1);
    }
  }

  lemma ReadBackAll(files: Dir, c: seq<seq<string>>, backups: nat)
    requires Holds(files, c, backups) && |c| <= backups + 1
    ensures ReadBack(files, backups) == Bytes(Flatten(c))
  {
    if c == [] {
      ReadBackSkips(files, 0, backups);
    } else {
      var oldest := |c| - 1;
      ReadBackSkips(files, oldest, backups);
      ReadBackChunks(files, c, backups, oldest);
      assert c[..oldest + 1] == c;
    }
  }

  lemma {:induction false} FlattenSnoc(chunks: seq<seq<string>>, oldest: seq<string>)
    ensures Flatten(chunks + [oldest]) == oldest + Flatten(chunks)
  {
    if chunks == [] {
      assert ([] + [oldest])[1..] == [];
      assert chunks + [oldest] == [oldest];
    } else {
      var all := chunks + [oldest];
      assert all[1..] == chunks[1..] + [oldest];
      FlattenSnoc(chunks[1..], oldest);
      assert (oldest + Flatten(chunks[1..])) + chunks[0] == oldest + (Flatten(chunks[1..]) + chunks[0]);
    }
  }

  lemma {:induction false} FlattenSplit(chunks: seq<seq<string>>, k: nat)
    requires k <= |chunks|
    ensures Flatten(chunks) == Flatten(chunks[k..]) + Flatten(chunks[..k])
    decreases |chunks| - k
  {
    if k == |chunks| {
      assert chunks[..k] == chunks;
    } else {
      FlattenSplit(chunks, k + 1);
      assert chunks[k..][1..] == chunks[k + 1..];
      assert chunks[..k + 1] == chunks[..k] + [chunks[k]];
      FlattenSnoc(chunks[..k], chunks[k]);
      assert Flatten(chunks[k + 1..]) + (chunks[k] + Flatten(chunks[..k]))
          == (Flatten(chunks[k + 1..]) + chunks[k]) + Flatten(chunks[..k]);
    }
  }

  lemma DroppedSuffix(c: seq<seq<string>>, k: nat)
    requires k <= |c|
    ensures |Flatten(c[k..])| <= |Flatten(c)|
    ensures Flatten(c)[|Flatten(c[k..])|..] == Flatten(c[..k])
  {
    FlattenSplit(c, k);
  }

  /**
    The log is a window on the history. After any sequence of lines, logged from an empty
    directory, the files read oldest to newest are the last lines of the history, in order,
    none twice; `dropped` counts the missing ones. Nothing is dropped before every backup
    slot is full, and then more than backups * maxBytes bytes remain.
  */
  lemma LogIsSuffixOfHistory(lines: seq<string>, maxBytes: nat, backups: nat) returns (dropped: nat)
    requires backups >= 1
    ensures dropped <= |lines|
    ensures ReadBack(LogRun(lines, maxBytes, backups), backups) == Bytes(lines[dropped..])
    ensures dropped > 0 ==>
      && (forall k: nat :: k in LogRun(lines, maxBytes, backups) <==> k <= backups)
      && |Bytes(lines[dropped..])| > backups * maxBytes
  {
    var files, c := LogRun(lines, maxBytes, backups), Chunks(lines, maxBytes);
    LogRunHoldsChunks(lines, maxBytes, backups);
    ChunksPartition(lines, maxBytes);
    if backups < |c| {
      dropped := |Flatten(c[backups + 1..])|;
      DroppedSuffix(c, backups + 1);
      ReadBackChunks(files, c, backups, backups);
      FullLogIsLarge(lines, maxBytes, backups);
    } else {
      dropped := 0;
      ReadBackAll(files, c, backups);
      assert lines[0..] == lines;
    }
  }

  lemma FullLogIsLarge(lines: seq<string>, maxBytes: nat, backups: nat)
    requires backups < |Chunks(lines, maxBytes)|
    ensures |Bytes(Flatten(Chunks(lines, maxBytes)[..backups + 1]))| > backups * maxBytes
  {
    ChunksWellCut(lines, maxBytes);
    BackupsOutweigh(Chunks(lines, maxBytes), maxBytes, backups + 1);
  }

  /**
    Every backup exceeds the cap; the live file exists once anything was logged and is at
    most the cap plus its last line and newline.
  */
  lemma LogFileSizes(lines: seq<string>, maxBytes: nat, backups: nat)
    requires backups >= 1
    ensures forall k: nat | k in LogRun(lines, maxBytes, backups) ::
      k <= backups && (k > 0 ==> |LogRun(lines, maxBytes, backups)[k]| > maxBytes)
    ensures 0 in LogRun(lines, maxBytes, backups) <==> lines != []
    ensures lines != [] ==>
      |LogRun(lines, maxBytes, backups)[0]| <= maxBytes + |lines[|lines| - 1]| + 1
  {
    var c := Chunks(lines, maxBytes);
    LogRunHoldsChunks(lines, maxBytes, backups);
    ChunksPartition(lines, maxBytes);
    ChunksWellCut(lines, maxBytes);
    if lines != [] {
      LiveChunkEnd(lines, maxBytes);
      var newest := c[0];
      assert WithinCapButLast(newest, maxBytes);
      assert newest == newest[..|newest| - 1] + [newest[|newest| - 1]];
      BytesSnoc(newest[..|newest| - 1], newest[|newest| - 1]);
    }
  }

  lemma LiveChunkEnd(lines: seq<string>, maxBytes: nat)
    requires lines != []
    ensures Chunks(lines, maxBytes) != [] && Chunks(lines, maxBytes)[0] != []
    ensures Chunks(lines, maxBytes)[0][|Chunks(lines, maxBytes)[0]| - 1] == lines[|lines| - 1]
  {
  }

  lemma {:induction false} BackupsOutweigh(c: seq<seq<string>>, maxBytes: nat, k: nat)
    requires WellCut(c, maxBytes) && 1 <= k <= |c|
    ensures |Bytes(Flatten(c[..k]))| > (k - 1) * maxBytes
  {
    assert c[..k] == c[..k - 1] + [c[k - 1]];
    FlattenSnoc(c[..k - 1], c[k - 1]);
    BytesConcat(c[k - 1], Flatten(c[..k - 1]));
    if k > 1 {
      BackupsOutweigh(c, maxBytes, k - 1);
      assert (k - 1) * maxBytes == (k - 2) * maxBytes + maxBytes;
    } else {
      var oldest := c[0];
      assert WithinCapButLast(oldest, maxBytes);
      BytesSnoc(oldest[..|oldest| - 1], oldest[|oldest| - 1]);
    }
  }

  /**
    The server's own settings. Nothing is lost while the history is within 250 MiB, and what
    is kept afterwards is always more than that.
  */
  lemma ServerLogKeepsNewest(lines: seq<string>) returns (dropped: nat)
    ensures dropped <= |lines|
    ensures ReadBack(LogRun(lines, LOG_MAX_BYTES, LOG_BACKUPS), LOG_BACKUPS) == Bytes(lines[dropped..])
    ensures |Bytes(lines)| <= 250 * 1024 * 1024 ==> dropped == 0
    ensures dropped > 0 ==> |Bytes(lines[dropped..])| > 250 * 1024 * 1024
  {
    dropped := LogIsSuffixOfHistory(lines, LOG_MAX_BYTES, LOG_BACKUPS);
    assert lines == lines[..dropped] + lines[dropped..];
    BytesConcat(lines[..dropped], lines[dropped..]);
  }
}
