/**
  Reading the message log back (internal/inspect/messages.go, `TailJSONL`): the scanner's
  lines, the well-formed records among them, and the ring buffer that keeps the last n.
*/
module Tail {
  import opened Text
  import opened LogFile

  function FirstNewline(s: string): (i: nat)
    ensures i <= |s|
    ensures forall j | 0 <= j < i :: s[j] != '\n'
    ensures i < |s| ==> s[i] == '\n'
  {
    if s == "" || s[0] == '\n' then 0 else 1 + FirstNewline(s[1..])
  }

  function DropCR(line: string): string {
    if line != "" && line[|line| - 1] == '\r' then line[..|line| - 1] else line
  }

  /** The text up to the first newline, and what follows it; a final line may lack a newline. */
  function FirstLine(s: string): string {
    s[..FirstNewline(s)]
  }

  function RestOf(s: string): (rest: string)
    ensures s != "" ==> |rest| < |s|
  {
    if FirstNewline(s) == |s| then "" else s[FirstNewline(s) + 1..]
  }

  /** The tokens of `bufio.ScanLines`. */
  function ScanLines(s: string): seq<string>
    decreases |s|
  {
    if s == "" then [] else [DropCR(FirstLine(s))] + ScanLines(RestOf(s))
  }

  const MAX_LINE: nat := 16 * 1024 * 1024

  /** No line fills the scanner's buffer of `max` bytes: the scan comes to the end of the file. */
  predicate LinesFit(s: string, max: nat)
    decreases |s|
  {
    s != "" ==> |FirstLine(s)| < max && LinesFit(RestOf(s), max)
  }

  /** The tokens the scanner gives out before it stops: at the end, or at a line that is too long. */
  function Tokens(s: string, max: nat): seq<string>
    decreases |s|
  {
    if s == "" || |FirstLine(s)| >= max then [] else [DropCR(FirstLine(s))] + Tokens(RestOf(s), max)
  }

  lemma {:induction false} TokensOfFittingLines(s: string, max: nat)
    requires LinesFit(s, max)
    ensures Tokens(s, max) == ScanLines(s)
    decreases |s|
  {
    if s != "" {
      TokensOfFittingLines(RestOf(s), max);
    }
  }

  /** A line the scanner gives back as written. JSON text is one: it ends in a brace. */
  ghost predicate Scannable(line: string) {
    '\n' !in line && (line != "" ==> line[|line| - 1] != '\r')
  }

  lemma SplitFirstLine(line: string, rest: string)
    requires Scannable(line)
    ensures var s := line + "\n" + rest; s != "" && FirstLine(s) == line && RestOf(s) == rest
  {
    var s := line + "\n" + rest;
    assert forall j | 0 <= j < |line| :: s[j] == line[j] && line[j] in line;
    assert s[|line|] == '\n';
    assert FirstNewline(s) == |line|;
  }

  lemma BytesCons(line: string, rest: seq<string>)
    ensures Bytes([line] + rest) == line + "\n" + Bytes(rest)
  {
    BytesConcat([line], rest);
    BytesSnoc([], line);
    assert [line] == [] + [line];
  }

  /** What was written line by line is scanned back line by line. */
  lemma {:induction false} ScanWrittenLines(lines: seq<string>)
    requires forall line | line in lines :: Scannable(line)
    ensures ScanLines(Bytes(lines)) == lines
  {
    if lines != [] {
      ScanWrittenLines(lines[1..]);
      BytesCons(lines[0], lines[1..]);
      assert lines == [lines[0]] + lines[1..];
      SplitFirstLine(lines[0], Bytes(lines[1..]));
    }
  }

  /** The scan comes to its end exactly when every line written is shorter than the buffer. */
  lemma {:induction false} WrittenLinesFit(lines: seq<string>, max: nat)
    requires forall line | line in lines :: Scannable(line)
    ensures LinesFit(Bytes(lines), max) <==> forall line | line in lines :: |line| < max
  {
    if lines != [] {
      WrittenLinesFit(lines[1..], max);
      BytesCons(lines[0], lines[1..]);
      assert lines == [lines[0]] + lines[1..];
      SplitFirstLine(lines[0], Bytes(lines[1..]));
    }
  }

  /** A carriage return before the newline is not part of the line; a last line needs no newline. */
  lemma ScanOtherEnds(line: string, rest: string)
    requires Scannable(line)
    ensures ScanLines(line + "\r" + "\n" + rest) == [line] + ScanLines(rest)
    ensures line != "" ==> ScanLines(line) == [line]
  {
    var s := line + "\r" + "\n" + rest;
    assert forall j | 0 <= j < |line| :: s[j] == line[j] && line[j] in line && line[j] != '\n';
    assert s[|line|] == '\r' && s[|line| + 1] == '\n';
    assert FirstNewline(s) == |line| + 1;
    assert FirstLine(s) == line + "\r" && RestOf(s) == rest;
    assert DropCR(line + "\r") == line;
    if line != "" {
      assert FirstNewline(line) == |line| by {
        assert forall j | 0 <= j < |line| :: line[j] in line;
      }
      assert FirstLine(line) == line && RestOf(line) == "";
    }
  }

  /** The records of the well-formed lines, in order. */
  function Records<T>(lines: seq<string>, parse: string -> Option<T>): seq<T> {
    if lines == [] then []
    else
      var r := Records(lines[..|lines| - 1], parse);
      match parse(lines[|lines| - 1])
      case Some(m) => r + [m]
      case None => r
  }

  function LastN<T>(s: seq<T>, n: nat): seq<T> {
    if |s| <= n then s else s[|s| - n..]
  }

  /** The ring cell of record `k`: its number modulo the capacity, counted up. */
  function Slot(k: nat, n: nat): (cell: nat)
    requires n > 0
    ensures cell < n
  {
    if k == 0 then 0
    else
      var cell := Slot(k - 1, n);
      if cell + 1 == n then 0 else cell + 1
  }

  lemma {:induction false} SlotAdds(p: nat, i: nat, n: nat)
    requires i <= n && n > 0
    ensures Slot(p + i, n) == if Slot(p, n) + i < n then Slot(p, n) + i else Slot(p, n) + i - n
  {
    if i > 0 {
      SlotAdds(p, i - 1, n);
    }
  }

  lemma SmallMod(a: nat, n: nat)
    requires a < 2 * n
    ensures a % n == if a < n then a else a - n
  {
  }

  /** The ring holds the newest records, each in its cell. */
  ghost predicate RingHolds<T>(ring: seq<T>, recs: seq<T>) {
    |ring| > 0 &&
    forall p | 0 <= p < |recs| && p >= |recs| - |ring| :: ring[Slot(p, |ring|)] == recs[p]
  }

  /** `idx` is the next cell to fill, `filled` the number of cells in use. */
  ghost predicate RingAt<T>(ring: seq<T>, idx: nat, filled: nat, recs: seq<T>) {
    && RingHolds(ring, recs) && idx == Slot(|recs|, |ring|)
    && filled == if |recs| < |ring| then |recs| else |ring|
  }

  lemma RingStore<T>(ring: seq<T>, recs: seq<T>, m: T)
    requires RingHolds(ring, recs)
    ensures RingHolds(ring[Slot(|recs|, |ring|) := m], recs + [m])
  {
    var n := |ring|;
    var after, more := ring[Slot(|recs|, n) := m], recs + [m];
    forall p | 0 <= p < |more| && p >= |more| - n ensures after[Slot(p, n)] == more[p] {
      SlotAdds(p, |recs| - p, n);
    }
  }

  /** The log file as `TailJSONL` finds it. */
  datatype Opening = Missing | Unopenable | Opened(bytes: string, readFails: bool)

  /** The last n well-formed records, or an error: the file cannot be read, or a line is too long. */
  function LastRecords<T>(file: Opening, n: int, parse: string -> Option<T>): Option<seq<T>> {
    if n <= 0 || file.Missing? then Some([])
    else if file.Unopenable? || file.readFails || !LinesFit(file.bytes, MAX_LINE) then None
    else Some(LastN(Records(ScanLines(file.bytes), parse), n))
  }

  lemma RecordsSnoc<T>(lines: seq<string>, line: string, parse: string -> Option<T>)
    ensures Records(lines + [line], parse) == match parse(line)
                                              case Some(m) => Records(lines, parse) + [m]
                                              case None => Records(lines, parse)
  {
    assert (lines + [line])[..|lines|] == lines;
  }

  /** `TailJSONL`. */
  method TailJSONL<T(0)>(file: Opening, n: int, parse: string -> Option<T>) returns (out: Option<seq<T>>)
    ensures out == LastRecords(file, n, parse)
  {
    if n <= 0 || file.Missing? {
      return Some([]);
    }
    if file.Unopenable? {
      return None;
    }
    var tokens := Tokens(file.bytes, MAX_LINE);
    var last := RingOver(tokens, n, parse);
    if file.readFails || !LinesFit(file.bytes, MAX_LINE) {
      return None;
    }
    LastOfTokens(file, n, parse);
    return Some(last);
  }

  /** The ring buffer over the scanner's tokens. */
  method RingOver<T(0)>(tokens: seq<string>, n: int, parse: string -> Option<T>) returns (last: seq<T>)
    requires n > 0
    ensures last == LastN(Records(tokens, parse), n)
  {
    var ring := new T[n];
    var idx, filled := 0, 0;
    ghost var recs: seq<T> := [];
    for j := 0 to |tokens|
      invariant recs == Records(tokens[..j], parse)
      invariant RingAt(ring[..], idx, filled, recs)
    {
      assert tokens[..j + 1] == tokens[..j] + [tokens[j]];
      RecordsSnoc(tokens[..j], tokens[j], parse);
      match parse(tokens[j])
      case None =>
      case Some(m) =>
        idx, filled := Keep(ring, idx, filled, m, recs);
        recs := recs + [m];
    }
    assert tokens[..|tokens|] == tokens;
    last := ReadOut(ring, idx, filled, recs);
  }

  lemma LastOfTokens<T>(file: Opening, n: int, parse: string -> Option<T>)
    requires file.Opened? && !file.readFails && n > 0 && LinesFit(file.bytes, MAX_LINE)
    ensures LastRecords(file, n, parse) == Some(LastN(Records(Tokens(file.bytes, MAX_LINE), parse), n))
  {
    TokensOfFittingLines(file.bytes, MAX_LINE);
  }

  /** One more record in the ring. */
  method Keep<T>(ring: array<T>, idx: nat, filled: nat, m: T, ghost recs: seq<T>) returns (idx': nat, filled': nat)
    requires RingAt(ring[..], idx, filled, recs)
    modifies ring
    ensures RingAt(ring[..], idx', filled', recs + [m])
  {
    var n := ring.Length;
    RingStore(ring[..], recs, m);
    ring[idx] := m;
    SmallMod(idx + 1, n);
    idx' := (idx + 1) % n;
    filled' := if filled < n then filled + 1 else filled;
  }

  lemma CellOf<T>(ring: seq<T>, recs: seq<T>, oldest: nat, i: nat, start: nat)
    requires RingHolds(ring, recs) && start == Slot(oldest, |ring|)
    requires oldest + i < |recs| <= oldest + |ring|
    ensures (start + i) % |ring| < |ring| && ring[(start + i) % |ring|] == recs[oldest + i]
  {
    SlotAdds(oldest, i, |ring|);
    SmallMod(start + i, |ring|);
  }

  /** The second loop: `filled` cells starting at the oldest one. */
  method ReadOut<T>(ring: array<T>, idx: nat, filled: nat, ghost recs: seq<T>) returns (out: seq<T>)
    requires RingAt(ring[..], idx, filled, recs)
    ensures out == LastN(recs, ring.Length)
  {
    var n := ring.Length;
    var start := idx - filled;
    if start < 0 {
      start := start + n;
    }
    ghost var oldest := |recs| - filled;
    SlotAdds(oldest, filled, n);
    out := [];
    for i := 0 to filled
      invariant out == recs[oldest..oldest + i]
    {
      CellOf(ring[..], recs, oldest, i, start);
      out := out + [ring[(start + i) % n]];
    }
    assert recs[oldest..|recs|] == recs[oldest..];
  }

  lemma {:induction false} RecordsOfWritten<T>(recs: seq<T>, enc: T -> string, parse: string -> Option<T>)
    requires forall r | r in recs :: parse(enc(r)) == Some(r)
    ensures Records(Encoded(recs, enc), parse) == recs
  {
    if recs != [] {
      RecordsOfWritten(recs[..|recs| - 1], enc, parse);
    }
  }

  function Encoded<T>(recs: seq<T>, enc: T -> string): (lines: seq<string>)
    ensures |lines| == |recs|
    ensures forall i | 0 <= i < |recs| :: lines[i] == enc(recs[i])
  {
    if recs == [] then [] else Encoded(recs[..|recs| - 1], enc) + [enc(recs[|recs| - 1])]
  }

  lemma {:induction false} EncodedSlice<T>(recs: seq<T>, enc: T -> string, k: nat)
    requires k <= |recs|
    ensures Encoded(recs, enc)[k..] == Encoded(recs[k..], enc)
  {
  }

  lemma LiveFileRecords<T>(recs: seq<T>, enc: T -> string, parse: string -> Option<T>)
    requires forall r | r in recs :: parse(enc(r)) == Some(r) && Scannable(enc(r))
    ensures Records(ScanLines(Bytes(Encoded(recs, enc))), parse) == recs
  {
    EncodedScannable(recs, enc);
    ScanWrittenLines(Encoded(recs, enc));
    RecordsOfWritten(recs, enc, parse);
  }

  lemma LiveFileFits<T>(recs: seq<T>, enc: T -> string)
    requires forall r | r in recs :: Scannable(enc(r))
    ensures LinesFit(Bytes(Encoded(recs, enc)), MAX_LINE) <==> forall r | r in recs :: |enc(r)| < MAX_LINE
  {
    EncodedScannable(recs, enc);
    WrittenLinesFit(Encoded(recs, enc), MAX_LINE);
    EncodedFit(recs, enc, MAX_LINE);
  }

  lemma EncodedFit<T>(recs: seq<T>, enc: T -> string, max: nat)
    ensures (forall line | line in Encoded(recs, enc) :: |line| < max) <==> forall r | r in recs :: |enc(r)| < max
  {
    var lines := Encoded(recs, enc);
    forall r | r in recs ensures enc(r) in lines {
      var i :| 0 <= i < |recs| && recs[i] == r;
      assert lines[i] == enc(r);
    }
    forall line | line in lines ensures exists r | r in recs :: enc(r) == line {
      var i :| 0 <= i < |lines| && lines[i] == line;
      assert recs[i] in recs && enc(recs[i]) == line;
    }
  }

  lemma LastOfLast<T>(s: seq<T>, m: nat, n: nat)
    ensures LastN(LastN(s, m), n) == LastN(s, if n < m then n else m)
  {
  }

  lemma LiveFileTail<T>(recs: seq<T>, enc: T -> string, parse: string -> Option<T>, n: int)
    requires n > 0 && forall r | r in recs :: parse(enc(r)) == Some(r) && Scannable(enc(r))
    ensures LastRecords(Opened(Bytes(Encoded(recs, enc)), false), n, parse)
         == if forall r | r in recs :: |enc(r)| < MAX_LINE then Some(LastN(recs, n)) else None
  {
    LiveFileRecords(recs, enc, parse);
    LiveFileFits(recs, enc);
  }

  lemma LastNIsSlice<T>(s: seq<T>, n: nat)
    requires n <= |s|
    ensures LastN(s, n) == s[|s| - n..]
    ensures forall x | x in LastN(s, n) :: x in s
  {
  }

  lemma NewestRecords<T>(recs: seq<T>, enc: T -> string, chunk: seq<string>)
    requires |chunk| <= |recs| && chunk == Encoded(recs, enc)[|recs| - |chunk|..]
    ensures chunk == Encoded(recs[|recs| - |chunk|..], enc)
  {
    EncodedSlice(recs, enc, |recs| - |chunk|);
  }

  /** A history within the cap is never rotated. */
  lemma {:induction false} SmallHistoryIsOneChunk(lines: seq<string>, maxBytes: nat)
    requires lines != [] && |Bytes(lines)| <= maxBytes
    ensures Chunks(lines, maxBytes) == [lines]
  {
    var p, line := lines[..|lines| - 1], lines[|lines| - 1];
    assert lines == p + [line];
    if p != [] {
      BytesSnoc(p, line);
      SmallHistoryIsOneChunk(p, maxBytes);
    }
  }

  /** The last n of the newest `live` records, or an error if one of these is a line of 16 MB or more. */
  ghost function TailOf<T>(recs: seq<T>, enc: T -> string, live: nat, n: nat): Option<seq<T>> {
    if forall r | r in LastN(recs, live) :: |enc(r)| < MAX_LINE
    then Some(LastN(recs, if n < live then n else live)) else None
  }

  /**
    The whole pipeline. Log any records, then read the live file back. `live` is the number
    of records logged since the last rotation: those of the newest chunk, and the whole
    history while it is within the cap. The answer is the last n of these, unless one of them
    is a line of 16 MB or more: then it is an error. Encoding must be a JSON round trip.
  */
  lemma TailOfLogIsTailOfHistory<T>(recs: seq<T>, enc: T -> string, parse: string -> Option<T>,
                                    maxBytes: nat, backups: nat, n: nat) returns (live: nat)
    requires backups >= 1 && recs != [] && n > 0
    requires forall r | r in recs :: parse(enc(r)) == Some(r) && Scannable(enc(r))
    ensures 0 < live <= |recs| && 0 in LogRun(Encoded(recs, enc), maxBytes, backups)
    ensures Chunks(Encoded(recs, enc), maxBytes) != [] && live == |Chunks(Encoded(recs, enc), maxBytes)[0]|
    ensures |Bytes(Encoded(recs, enc))| <= maxBytes ==> live == |recs|
    ensures LastRecords(Opened(LogRun(Encoded(recs, enc), maxBytes, backups)[0], false), n, parse)
         == TailOf(recs, enc, live, n)
  {
    var chunk := LiveChunk(Encoded(recs, enc), maxBytes, backups);
    live := |chunk|;
    LiveChunkTail(recs, enc, parse, chunk, n);
  }

  /** The live file is the newest chunk, the last lines of the history. */
  lemma LiveChunk(lines: seq<string>, maxBytes: nat, backups: nat) returns (chunk: seq<string>)
    requires backups >= 1 && lines != []
    ensures Chunks(lines, maxBytes) != [] && chunk == Chunks(lines, maxBytes)[0]
    ensures 0 in LogRun(lines, maxBytes, backups) && LogRun(lines, maxBytes, backups)[0] == Bytes(chunk)
    ensures 0 < |chunk| <= |lines| && chunk == lines[|lines| - |chunk|..]
    ensures |Bytes(lines)| <= maxBytes ==> |chunk| == |lines|
  {
    var c := Chunks(lines, maxBytes);
    LogRunHoldsChunks(lines, maxBytes, backups);
    ChunksPartition(lines, maxBytes);
    LiveChunkEnd(lines, maxBytes);
    NewestChunkIsTail(c, lines);
    chunk := c[0];
    if |Bytes(lines)| <= maxBytes {
      SmallHistoryIsOneChunk(lines, maxBytes);
    }
  }

  lemma LiveChunkTail<T>(recs: seq<T>, enc: T -> string, parse: string -> Option<T>, chunk: seq<string>, n: int)
    requires n > 0 && |chunk| <= |recs| && chunk == Encoded(recs, enc)[|recs| - |chunk|..]
    requires forall r | r in recs :: parse(enc(r)) == Some(r) && Scannable(enc(r))
    ensures LastRecords(Opened(Bytes(chunk), false), n, parse) == TailOf(recs, enc, |chunk|, n)
  {
    NewestRecords(recs, enc, chunk);
    LastNIsSlice(recs, |chunk|);
    LiveFileTail(recs[|recs| - |chunk|..], enc, parse, n);
    LastOfLast(recs, |chunk|, n);
  }

  lemma NewestChunkIsTail(c: seq<seq<string>>, lines: seq<string>)
    requires c != [] && Flatten(c) == lines
    ensures |c[0]| <= |lines| && lines[|lines| - |c[0]|..] == c[0]
  {
  }

  lemma EncodedScannable<T>(recs: seq<T>, enc: T -> string)
    requires forall r | r in recs :: Scannable(enc(r))
    ensures forall line | line in Encoded(recs, enc) :: Scannable(line)
  {
    forall line | line in Encoded(recs, enc) ensures Scannable(line) {
      var i :| 0 <= i < |recs| && Encoded(recs, enc)[i] == line;
      assert recs[i] in recs;
    }
  }

  /** A file that starts with a line of 16 MB cannot be read, whatever follows. */
  lemma LongLineIsAnError<T>(after: string, n: int, parse: string -> Option<T>)
    requires n > 0
    ensures LastRecords(Opened(LongLine() + "\n" + after, false), n, parse) == None
  {
    SplitFirstLine(LongLine(), after);
  }

  ghost function LongLine(): (line: string)
    ensures |line| == MAX_LINE && Scannable(line)
  {
    seq(MAX_LINE, _ => 'x')
  }
}
