/**
  Endpoint identity records: how (host, port) becomes a file name (internal/paths/paths.go)
  and when a published identity verifies (internal/auth/identity.go).
*/
module Paths {
  import opened Text

  const DEFAULT_HOST := "127.0.0.1"

  /** The empty host stands for the default one. */
  function Norm(host: string): string {
    if host == "" then DEFAULT_HOST else host
  }

  /**
    `url.PathEscape` over any set `keep` of bytes left alone: every other byte becomes a
    percent sign and its two-digit code `hex`.
  */
  function PathEscape(s: string, keep: char -> bool, hex: char -> string): string {
    if s == "" then ""
    else (if keep(s[0]) then [s[0]] else "%" + hex(s[0])) + PathEscape(s[1..], keep, hex)
  }

  /** The facts about the escape table that matter: '%' is never kept, codes are distinct pairs. */
  ghost predicate EscapeTable(keep: char -> bool, hex: char -> string) {
    && !keep('%')
    && (forall c :: |hex(c)| == 2)
    && (forall c, d | hex(c) == hex(d) :: c == d)
  }

  lemma {:induction false} PathEscapeInjective(a: string, b: string, keep: char -> bool, hex: char -> string)
    requires EscapeTable(keep, hex)
    requires PathEscape(a, keep, hex) == PathEscape(b, keep, hex)
    ensures a == b
  {
    if a != "" && b != "" {
      var ea, eb := PathEscape(a, keep, hex), PathEscape(b, keep, hex);
      assert ea[0] == (if keep(a[0]) then a[0] else '%');
      assert eb[0] == (if keep(b[0]) then b[0] else '%');
      if keep(a[0]) {
        assert ea[1..] == PathEscape(a[1..], keep, hex);
        assert eb[1..] == PathEscape(b[1..], keep, hex);
      } else {
        assert ea[1..3] == hex(a[0]) && ea[3..] == PathEscape(a[1..], keep, hex);
        assert eb[1..3] == hex(b[0]) && eb[3..] == PathEscape(b[1..], keep, hex);
      }
      PathEscapeInjective(a[1..], b[1..], keep, hex);
    }
  }

  /** `identityStem`. */
  function IdentityStem(port: int, host: string, keep: char -> bool, hex: char -> string): string {
    if host == "" || host == DEFAULT_HOST then "server." + Itoa(port)
    else "server." + PathEscape(host, keep, hex) + "." + Itoa(port)
  }

  function PidfileName(port: int, host: string, keep: char -> bool, hex: char -> string): string {
    IdentityStem(port, host, keep, hex) + ".pid"
  }

  function MetafileName(port: int, host: string, keep: char -> bool, hex: char -> string): string {
    IdentityStem(port, host, keep, hex) + ".pid.meta"
  }

  /** The file names of the default endpoint, and of a host whose bytes need no escape. */
  lemma FileNames(port: nat, host: string, keep: char -> bool, hex: char -> string)
    requires forall i | 0 <= i < |host| :: keep(host[i])
    ensures PidfileName(port, "", keep, hex) == "server." + Decimal(port) + ".pid"
    ensures MetafileName(port, "", keep, hex) == "server." + Decimal(port) + ".pid.meta"
    ensures host != "" && host != "127.0.0.1" ==>
      PidfileName(port, host, keep, hex) == "server." + host + "." + Decimal(port) + ".pid"
  {
    KeptIsUnescaped(host, keep, hex);
  }

  lemma {:induction false} KeptIsUnescaped(s: string, keep: char -> bool, hex: char -> string)
    requires forall i | 0 <= i < |s| :: keep(s[i])
    ensures PathEscape(s, keep, hex) == s
  {
    if s != "" {
      KeptIsUnescaped(s[1..], keep, hex);
    }
  }

  lemma ItoaHasNoDot(n: int)
    ensures '.' !in Itoa(n)
  {
    assert forall i | 0 <= i < |Itoa(n)| :: Itoa(n)[i] == '-' || IsDigit(Itoa(n)[i]);
  }

  /** Splitting at the last dot: two texts with dot-free tails agree only part by part. */
  lemma SplitAtLastDot(a: string, x: string, b: string, y: string)
    requires a + "." + x == b + "." + y && '.' !in x && '.' !in y
    ensures a == b && x == y
  {
    var s := a + "." + x;
    assert s[|a|] == '.' && s[|b|] == '.';
    assert |a| == |b|;
    assert s[..|a|] == a && s[..|b|] == b;
    assert s[|a| + 1..] == x && s[|b| + 1..] == y;
  }

  /** The stem up to the port's dot. */
  function StemHead(host: string, keep: char -> bool, hex: char -> string): string {
    if host == "" || host == DEFAULT_HOST then "server"
    else "server." + PathEscape(host, keep, hex)
  }

  /** File names of endpoints collide only for the same port and, up to the default, the same host. */
  lemma StemInjective(port1: int, host1: string, port2: int, host2: string, keep: char -> bool, hex: char -> string)
    requires EscapeTable(keep, hex)
    ensures IdentityStem(port1, host1, keep, hex) == IdentityStem(port2, host2, keep, hex)
        <==> port1 == port2 && Norm(host1) == Norm(host2)
  {
    StemIsHeadAndPort(port1, host1, keep, hex);
    StemIsHeadAndPort(port2, host2, keep, hex);
    if IdentityStem(port1, host1, keep, hex) == IdentityStem(port2, host2, keep, hex) {
      HeadAndPortInjective(StemHead(host1, keep, hex), port1, StemHead(host2, keep, hex), port2);
      HeadInjective(host1, host2, keep, hex);
    }
  }

  lemma StemIsHeadAndPort(port: int, host: string, keep: char -> bool, hex: char -> string)
    ensures IdentityStem(port, host, keep, hex) == StemHead(host, keep, hex) + "." + Itoa(port)
  {
    if host == "" || host == DEFAULT_HOST {
      assert "server." == "server" + ".";
    }
  }

  lemma HeadAndPortInjective(head1: string, port1: int, head2: string, port2: int)
    requires head1 + "." + Itoa(port1) == head2 + "." + Itoa(port2)
    ensures head1 == head2 && port1 == port2
  {
    ItoaHasNoDot(port1);
    ItoaHasNoDot(port2);
    SplitAtLastDot(head1, Itoa(port1), head2, Itoa(port2));
    ItoaRoundTrip(port1);
    ItoaRoundTrip(port2);
  }

  lemma HeadInjective(host1: string, host2: string, keep: char -> bool, hex: char -> string)
    requires EscapeTable(keep, hex)
    requires StemHead(host1, keep, hex) == StemHead(host2, keep, hex)
    ensures Norm(host1) == Norm(host2)
  {
    var e1, e2 := PathEscape(host1, keep, hex), PathEscape(host2, keep, hex);
    if StemHead(host1, keep, hex) != "server" && StemHead(host2, keep, hex) != "server" {
      assert StemHead(host1, keep, hex)[7..] == e1 && StemHead(host2, keep, hex)[7..] == e2;
      PathEscapeInjective(host1, host2, keep, hex);
    }
  }

  lemma AppendInjective(a: string, b: string, tail: string)
    requires a + tail == b + tail
    ensures a == b
  {
    assert (a + tail)[..|a|] == a && (b + tail)[..|b|] == b;
  }

  /** A pidfile is never another endpoint's metadata file. */
  lemma PidAndMetaDisjoint(port1: int, host1: string, port2: int, host2: string, keep: char -> bool, hex: char -> string)
    ensures PidfileName(port1, host1, keep, hex) != MetafileName(port2, host2, keep, hex)
  {
    var p, m := PidfileName(port1, host1, keep, hex), MetafileName(port2, host2, keep, hex);
    assert p[|p| - 1] == 'd' && m[|m| - 1] == 'a';
  }

  lemma NamesInjective(port1: int, host1: string, port2: int, host2: string, keep: char -> bool, hex: char -> string)
    requires EscapeTable(keep, hex)
    ensures PidfileName(port1, host1, keep, hex) == PidfileName(port2, host2, keep, hex)
        <==> port1 == port2 && Norm(host1) == Norm(host2)
    ensures MetafileName(port1, host1, keep, hex) == MetafileName(port2, host2, keep, hex)
        <==> port1 == port2 && Norm(host1) == Norm(host2)
  {
    var s1, s2 := IdentityStem(port1, host1, keep, hex), IdentityStem(port2, host2, keep, hex);
    StemInjective(port1, host1, port2, host2, keep, hex);
    if s1 + ".pid" == s2 + ".pid" {
      AppendInjective(s1, s2, ".pid");
    }
    if s1 + ".pid.meta" == s2 + ".pid.meta" {
      AppendInjective(s1, s2, ".pid.meta");
    }
  }
}

module Identity {
  import opened Text
  import opened Paths

  /** `identityMeta`, as the JSON metadata file records it. */
  datatype Meta = Meta(pid: int, host: string, port: int)

  /** A file of the data directory: raw text (the pidfile) or encoded metadata. */
  datatype File = Raw(text: string) | Encoded(meta: Meta)

  type Dir = map<string, File>

  /** The processes of the machine: which pids are alive, and command lines where they can be fetched. */
  datatype Processes = Processes(alive: set<int>, cmdline: map<int, seq<string>>)

  /** `strings.TrimSpace` on the text of a pidfile. */
  function TrimSpace(s: string): string {
    if s != "" && IsSpace(s[0]) then TrimSpace(s[1..])
    else if s != "" && IsSpace(s[|s| - 1]) then TrimSpace(s[..|s| - 1])
    else s
  }

  predicate IsSpace(c: char) {
    c == ' ' || c == '\t' || c == '\n' || c == '\r'
  }

  /** The command-line check, trusting the metadata when the command line cannot be fetched. */
  predicate LooksLikeServer(procs: Processes, pid: int) {
    pid !in procs.cmdline || Contains(JoinWords(procs.cmdline[pid]), "team server")
  }

  /** The check asks for the text "team server" somewhere in the command line, if there is one to ask. */
  lemma LooksLikeServerIff(procs: Processes, pid: int)
    ensures LooksLikeServer(procs, pid)
        <==> pid !in procs.cmdline || Occurs(JoinWords(procs.cmdline[pid]), "team server")
  {
    if pid in procs.cmdline {
      ContainsIff(JoinWords(procs.cmdline[pid]), "team server");
    }
  }

  /** A program named team, at any path, given the argument server, passes it. */
  lemma TeamServerPasses(procs: Processes, pid: int, i: nat, dir: string)
    requires pid in procs.cmdline && i + 1 < |procs.cmdline[pid]|
    requires procs.cmdline[pid][i] == dir + "team" && procs.cmdline[pid][i + 1] == "server"
    ensures LooksLikeServer(procs, pid)
  {
    var words, pair := procs.cmdline[pid], dir + "team" + " " + "server";
    JoinKeepsNeighbours(words, i);
    assert pair[|dir|..|dir| + 11] == "team server";
    assert OccursAt(pair, "team server", |dir|);
    var at :| OccursAt(JoinWords(words), pair, at);
    OccursWithin(JoinWords(words), pair, "team server", at, |dir|);
    LooksLikeServerIff(procs, pid);
  }

  class DataDir {
    var files: Dir
    const keep: char -> bool
    const hex: char -> string

    constructor (keep: char -> bool, hex: char -> string)
      ensures files == map[] && this.keep == keep && this.hex == hex
    {
      files := map[];
      this.keep := keep;
      this.hex := hex;
    }

    /** `WriteServerIdentity`, stopping at the first operation that fails. */
    method WriteServerIdentity(pid: int, host: string, port: int, fault: Fault) returns (ok: bool)
      modifies this
      ensures files == Written(old(files), Write(pid, host, port, fault), keep, hex)
      ensures ok <==> fault.NoFault?
    {
      var pidPath := PidfileName(port, host, keep, hex);
      var metaPath := MetafileName(port, host, keep, hex);
      if fault.PidUntouched? {
        return false;
      }
      if fault.PidTorn? {
        files := files[pidPath := Raw(Cut(Itoa(pid), fault.kept))];
        return false;
      }
      files := files[pidPath := Raw(Itoa(pid))];
      var hostNorm := host;
      if hostNorm == "" {
        hostNorm := DEFAULT_HOST;
      }
      if fault.MetaUntouched? {
        return false;
      }
      if fault.MetaTorn? {
        files := files[metaPath := Raw("")];
        return false;
      }
      files := files[metaPath := Encoded(Meta(pid, hostNorm, port))];
      return true;
    }

    /** `verifyServerIdentity`. */
    method VerifyServerIdentity(host: string, port: int, procs: Processes) returns (ok: bool)
      ensures ok <==> Verifies(files, host, port, procs, keep, hex)
    {
      var pidPath := PidfileName(port, host, keep, hex);
      var metaPath := MetafileName(port, host, keep, hex);
      if pidPath !in files || !files[pidPath].Raw? {
        return false;
      }
      var parsed := Atoi(TrimSpace(files[pidPath].text));
      if parsed.None? || parsed.value <= 0 {
        return false;
      }
      var pid := parsed.value;
      if pid !in procs.alive {
        return false;
      }
      if metaPath !in files || !files[metaPath].Encoded? {
        return false;
      }
      var meta := files[metaPath].meta;
      if meta.pid != pid || meta.port != port {
        return false;
      }
      var wantHost := host;
      if wantHost == "" {
        wantHost := DEFAULT_HOST;
      }
      if meta.host != wantHost {
        return false;
      }
      ok := LooksLikeServer(procs, pid);
    }
  }

  predicate Verifies(files: Dir, host: string, port: int, procs: Processes, keep: char -> bool, hex: char -> string) {
    var pidPath, metaPath := PidfileName(port, host, keep, hex), MetafileName(port, host, keep, hex);
    && pidPath in files && files[pidPath].Raw?
    && metaPath in files && files[metaPath].Encoded?
    && var pid := Atoi(TrimSpace(files[pidPath].text));
    && pid.Some? && pid.value > 0 && pid.value in procs.alive
    && files[metaPath].meta == Meta(pid.value, Norm(host), port)
    && LooksLikeServer(procs, pid.value)
  }

  // ----- sequences of writes ---------------------------------------------------

  /**
    Where a write goes wrong: a file cannot be opened and stays as it was (the same for the
    mode of the pidfile and the metadata), or is cut short, a cut metadata file being no JSON.
  */
  datatype Fault = NoFault | PidUntouched | PidTorn(kept: nat) | MetaUntouched | MetaTorn

  datatype Write = Write(pid: int, host: string, port: int, fault: Fault)

  function Cut(s: string, kept: nat): string {
    if kept < |s| then s[..kept] else s
  }

  /** What a write leaves in its pidfile and its metadata file, if it gets to touch them. */
  function PidLeft(w: Write): Option<File> {
    match w.fault
    case PidUntouched => None
    case PidTorn(kept) => Some(Raw(Cut(Itoa(w.pid), kept)))
    case _ => Some(Raw(Itoa(w.pid)))
  }

  function MetaLeft(w: Write): Option<File> {
    match w.fault
    case NoFault => Some(Encoded(Meta(w.pid, Norm(w.host), w.port)))
    case MetaTorn => Some(Raw(""))
    case _ => None
  }

  function Stored(files: Dir, path: string, left: Option<File>): Dir {
    if left.Some? then files[path := left.value] else files
  }

  function Written(files: Dir, w: Write, keep: char -> bool, hex: char -> string): Dir {
    Stored(Stored(files, PidfileName(w.port, w.host, keep, hex), PidLeft(w)),
           MetafileName(w.port, w.host, keep, hex), MetaLeft(w))
  }

  function WrittenAll(writes: seq<Write>, keep: char -> bool, hex: char -> string): Dir {
    if writes == [] then map[]
    else Written(WrittenAll(writes[..|writes| - 1], keep, hex), writes[|writes| - 1], keep, hex)
  }

  predicate IsTo(w: Write, host: string, port: int) {
    w.port == port && Norm(w.host) == Norm(host)
  }

  /** What the endpoint's own writes last left in its pidfile. */
  function LastPidfile(writes: seq<Write>, host: string, port: int): Option<File> {
    if writes == [] then None
    else
      var w := writes[|writes| - 1];
      if IsTo(w, host, port) && PidLeft(w).Some? then PidLeft(w)
      else LastPidfile(writes[..|writes| - 1], host, port)
  }

  /** What they last left in its metadata file. */
  function LastMetafile(writes: seq<Write>, host: string, port: int): Option<File> {
    if writes == [] then None
    else
      var w := writes[|writes| - 1];
      if IsTo(w, host, port) && MetaLeft(w).Some? then MetaLeft(w)
      else LastMetafile(writes[..|writes| - 1], host, port)
  }

  /** The last write to the endpoint, if there was one. */
  function LastWrite(writes: seq<Write>, host: string, port: int): Option<Write> {
    if writes == [] then None
    else if IsTo(writes[|writes| - 1], host, port) then Some(writes[|writes| - 1])
    else LastWrite(writes[..|writes| - 1], host, port)
  }

  function Lookup(files: Dir, path: string): Option<File> {
    if path in files then Some(files[path]) else None
  }

  /** The two files of an endpoint always show what its own writes left, whatever other endpoints wrote. */
  lemma {:induction false} FilesShowLastWrite(writes: seq<Write>, host: string, port: int,
                                              keep: char -> bool, hex: char -> string)
    requires EscapeTable(keep, hex)
    ensures Lookup(WrittenAll(writes, keep, hex), PidfileName(port, host, keep, hex)) == LastPidfile(writes, host, port)
    ensures Lookup(WrittenAll(writes, keep, hex), MetafileName(port, host, keep, hex)) == LastMetafile(writes, host, port)
  {
    if writes != [] {
      var w := writes[|writes| - 1];
      FilesShowLastWrite(writes[..|writes| - 1], host, port, keep, hex);
      NamesInjective(w.port, w.host, port, host, keep, hex);
      PidAndMetaDisjoint(w.port, w.host, port, host, keep, hex);
      PidAndMetaDisjoint(port, host, w.port, w.host, keep, hex);
    }
  }

  lemma {:induction false} LastWriteLeft(writes: seq<Write>, host: string, port: int)
    ensures LastWrite(writes, host, port).None? ==> LastPidfile(writes, host, port).None?
    ensures LastWrite(writes, host, port).Some? && LastWrite(writes, host, port).value.fault.NoFault? ==>
      var w := LastWrite(writes, host, port).value;
      LastPidfile(writes, host, port) == Some(Raw(Itoa(w.pid)))
      && LastMetafile(writes, host, port) == Some(Encoded(Meta(w.pid, Norm(host), port)))
  {
    if writes != [] {
      LastWriteLeft(writes[..|writes| - 1], host, port);
    }
  }

  lemma TrimItoa(n: int)
    ensures TrimSpace(Itoa(n)) == Itoa(n)
  {
    var s := Itoa(n);
    assert forall i | 0 <= i < |s| :: s[i] == '-' || IsDigit(s[i]);
    assert !IsSpace(s[0]) && !IsSpace(s[|s| - 1]);
  }

  /** The pid names a live process whose command line mentions "team server" or cannot be fetched. */
  predicate IsServing(procs: Processes, pid: int) {
    pid > 0 && pid in procs.alive && LooksLikeServer(procs, pid)
  }

  /**
    After any sequence of identity writes, failed ones included, an endpoint (an empty host
    meaning 127.0.0.1) verifies exactly when the pidfile and the metadata its own writes last
    left name the same pid, of a live server. If its last write succeeded, that is that
    write's pid; if it never had one, it does not verify.
  */
  lemma VerifiesLastWrite(writes: seq<Write>, host: string, port: int, procs: Processes,
                          keep: char -> bool, hex: char -> string)
    requires EscapeTable(keep, hex)
    ensures Verifies(WrittenAll(writes, keep, hex), host, port, procs, keep, hex) <==>
      exists pid | IsServing(procs, pid) ::
        && LastPidfile(writes, host, port).Some? && LastMetafile(writes, host, port).Some?
        && LastPidfile(writes, host, port).value.Raw?
        && Atoi(TrimSpace(LastPidfile(writes, host, port).value.text)) == Some(pid)
        && LastMetafile(writes, host, port).value == Encoded(Meta(pid, Norm(host), port))
    ensures match LastWrite(writes, host, port)
            case None => !Verifies(WrittenAll(writes, keep, hex), host, port, procs, keep, hex)
            case Some(w) => w.fault.NoFault? ==>
              (Verifies(WrittenAll(writes, keep, hex), host, port, procs, keep, hex) <==> IsServing(procs, w.pid))
  {
    FilesShowLastWrite(writes, host, port, keep, hex);
    LastWriteLeft(writes, host, port);
    match LastWrite(writes, host, port)
    case None =>
    case Some(w) =>
      TrimItoa(w.pid);
      ItoaRoundTrip(w.pid);
  }

  /** Pidfile and metadata name the same pid, and the metadata this very endpoint. */
  ghost predicate NamesServer(files: Dir, host: string, port: int, pid: int, keep: char -> bool, hex: char -> string) {
    var pidPath, metaPath := PidfileName(port, host, keep, hex), MetafileName(port, host, keep, hex);
    && pidPath in files && files[pidPath].Raw? && Atoi(TrimSpace(files[pidPath].text)) == Some(pid)
    && metaPath in files && files[metaPath].Encoded?
    && files[metaPath].meta.pid == pid && files[metaPath].meta.port == port
    && files[metaPath].meta.host == if host == "" then "127.0.0.1" else host
  }

  /**
    Whatever the files hold, tampered with or not, an endpoint verifies exactly when they
    name one positive pid and this very endpoint, and that process is alive and has
    "team server" in its command line, or none that can be fetched.
  */
  lemma VerifiesIff(files: Dir, host: string, port: int, procs: Processes, keep: char -> bool, hex: char -> string)
    ensures Verifies(files, host, port, procs, keep, hex) <==>
      exists pid | pid > 0 && pid in procs.alive :: NamesServer(files, host, port, pid, keep, hex)
        && (pid !in procs.cmdline || Occurs(JoinWords(procs.cmdline[pid]), "team server"))
  {
    forall pid | pid in procs.alive
      ensures LooksLikeServer(procs, pid)
          <==> pid !in procs.cmdline || Occurs(JoinWords(procs.cmdline[pid]), "team server")
    {
      LooksLikeServerIff(procs, pid);
    }
    if Verifies(files, host, port, procs, keep, hex) {
      var pid := Atoi(TrimSpace(files[PidfileName(port, host, keep, hex)].text)).value;
      assert NamesServer(files, host, port, pid, keep, hex);
    }
  }

  /**
    What a failed last write does to its endpoint. If the metadata could not be replaced the
    endpoint verifies only by metadata that already names the new pid; if it was cut short,
    not at all; if not even the pidfile was touched, as it did before.
  */
  lemma FailedWriteVerifies(writes: seq<Write>, w: Write, procs: Processes, keep: char -> bool, hex: char -> string)
    requires EscapeTable(keep, hex)
    ensures w.fault.MetaUntouched? ==>
      (Verifies(WrittenAll(writes + [w], keep, hex), w.host, w.port, procs, keep, hex) <==>
        IsServing(procs, w.pid)
        && LastMetafile(writes, w.host, w.port) == Some(Encoded(Meta(w.pid, Norm(w.host), w.port))))
    ensures w.fault.MetaTorn? ==>
      !Verifies(WrittenAll(writes + [w], keep, hex), w.host, w.port, procs, keep, hex)
    ensures w.fault.PidUntouched? ==>
      Verifies(WrittenAll(writes + [w], keep, hex), w.host, w.port, procs, keep, hex)
      == Verifies(WrittenAll(writes, keep, hex), w.host, w.port, procs, keep, hex)
  {
    var all := writes + [w];
    assert all[..|all| - 1] == writes;
    FilesShowLastWrite(all, w.host, w.port, keep, hex);
    TrimItoa(w.pid);
    ItoaRoundTrip(w.pid);
  }
}
