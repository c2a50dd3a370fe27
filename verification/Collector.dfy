/** Turning a probe's result into metrics. */
module Collector {
  import opened Common
  import opened Bytes
  import opened Errors
  import opened Addresses
  import opened Probe
  import opened Phases
  import Authority
  import Config

  datatype Direction = ClientToServer | ServerToClient

  /** A sample: its family, labels and value. A flag stands for 1 or 0, a duration for its seconds. */
  datatype Metric =
    | DnsLookupSuccess(flag: bool)
    | DnsLookupDuration(nanos: int)
    | TcpConnectSuccess(flag: bool)
    | TcpConnectDuration(nanos: int)
    | TcpMss(size: int)
    | IdentificationInfo(text: seq<byte>, proto: seq<byte>, software: seq<byte>, comments: seq<byte>)
    | RfcConformant(flag: bool)
    | VersionExchangeSuccess(flag: bool)
    | VersionExchangeDuration(nanos: int)
    | KexAlgorithm(algorithm: string)
    | HostKeyAlgorithm(algorithm: string)
    | EncryptionAlgorithm(direction: Direction, algorithm: string)
    | MacAlgorithm(direction: Direction, algorithm: string)
    | HostKeyVerifySuccess(flag: bool)
    | KeyExchangeSuccess(flag: bool)
    | KeyExchangeDuration(nanos: int)
    | ErrorInfo(phase: Phase, reason: Option<Reason>)
    | Duration(nanos: int)
    | ProbeSuccess(flag: bool)

  /** The samples a result calls for. */
  predicate Calls(r: Report, m: Metric) {
    match m
    case DnsLookupSuccess(v) => r.dnsLookup && v == r.dnsLookupSuccess
    case DnsLookupDuration(d) => r.dnsLookup && r.dnsLookupSuccess && d == r.dnsLookupDuration
    case TcpConnectSuccess(v) => v == r.tcpConnectSuccess
    case TcpConnectDuration(d) => r.tcpConnectSuccess && d == r.tcpConnectDuration
    case TcpMss(n) => r.tcpConnectSuccess && r.tcpMss > 0 && n == r.tcpMss
    case IdentificationInfo(t, p, s, c) =>
      var id := r.identification;
      r.versionExchangeSuccess && id.text != [] && m == IdentificationInfo(id.text, id.protoVersion, id.softwareVersion, id.comments)
    case RfcConformant(v) => r.versionExchangeSuccess && v == r.identification.rfcConformant
    case VersionExchangeSuccess(v) => v == r.versionExchangeSuccess
    case VersionExchangeDuration(d) => r.versionExchangeSuccess && d == r.versionExchangeDuration
    case KexAlgorithm(a) => r.keyExchangeSuccess && a != "" && a == r.algorithms.kex
    case HostKeyAlgorithm(a) => a != "" && a == r.algorithms.hostKey
    case EncryptionAlgorithm(d, a) =>
      a != "" && a == if d.ClientToServer? then r.algorithms.encryptionClientToServer else r.algorithms.encryptionServerToClient
    case MacAlgorithm(d, a) =>
      a != "" && a == if d.ClientToServer? then r.algorithms.macClientToServer else r.algorithms.macServerToClient
    case HostKeyVerifySuccess(v) => v == r.hostKeyVerifySuccess
    case KeyExchangeSuccess(v) => v == r.keyExchangeSuccess
    case KeyExchangeDuration(d) => r.keyExchangeSuccess && d == r.keyExchangeDuration
    case ErrorInfo(p, e) => r.errorPhase == Some(p) && e == r.errorReason
    case Duration(d) => d == r.duration
    case ProbeSuccess(v) => v == r.success
  }

  /** A family, and for the two that have one sample per direction, the direction: what one response may hold once. */
  function Slot(m: Metric): nat {
    match m
    case DnsLookupSuccess(_) => 0
    case DnsLookupDuration(_) => 1
    case TcpConnectSuccess(_) => 2
    case TcpConnectDuration(_) => 3
    case TcpMss(_) => 4
    case IdentificationInfo(_, _, _, _) => 5
    case RfcConformant(_) => 6
    case VersionExchangeSuccess(_) => 7
    case VersionExchangeDuration(_) => 8
    case KexAlgorithm(_) => 9
    case HostKeyAlgorithm(_) => 10
    case EncryptionAlgorithm(d, _) => if d.ClientToServer? then 11 else 12
    case MacAlgorithm(d, _) => if d.ClientToServer? then 13 else 14
    case HostKeyVerifySuccess(_) => 15
    case KeyExchangeSuccess(_) => 16
    case KeyExchangeDuration(_) => 17
    case ErrorInfo(_, _) => 18
    case Duration(_) => 19
    case ProbeSuccess(_) => 20
  }

  /** `ch` holds exactly the samples called for in the slots before `n`, in order, each slot at most once. */
  ghost predicate Complete(r: Report, ch: seq<Metric>, n: nat) {
    && (forall m :: m in ch <==> Calls(r, m) && Slot(m) < n)
    && (forall i, j :: 0 <= i < j < |ch| ==> Slot(ch[i]) < Slot(ch[j]))
  }

  /** Sends `m` if `cond` holds, which settles the slot `n`. */
  method Send(ghost r: Report, ghost n: nat, ch: seq<Metric>, cond: bool, m: Metric) returns (sent: seq<Metric>)
    requires Complete(r, ch, n)
    requires Slot(m) == n
    requires forall x :: Slot(x) == n ==> (Calls(r, x) <==> cond && x == m)
    ensures Complete(r, sent, n + 1)
  {
    sent := if cond then ch + [m] else ch;
    forall i, j | 0 <= i < j < |sent|
      ensures Slot(sent[i]) < Slot(sent[j])
    {
      assert sent[i] in ch;
    }
  }

  method CollectConnection(r: Report) returns (ch: seq<Metric>)
    ensures Complete(r, ch, 5)
  {
    ch := [];
    ch := Send(r, 0, ch, r.dnsLookup, DnsLookupSuccess(r.dnsLookupSuccess));
    ch := Send(r, 1, ch, r.dnsLookup && r.dnsLookupSuccess, DnsLookupDuration(r.dnsLookupDuration));
    ch := Send(r, 2, ch, true, TcpConnectSuccess(r.tcpConnectSuccess));
    ch := Send(r, 3, ch, r.tcpConnectSuccess, TcpConnectDuration(r.tcpConnectDuration));
    ch := Send(r, 4, ch, r.tcpConnectSuccess && r.tcpMss > 0, TcpMss(r.tcpMss));
  }

  method CollectVersionExchange(r: Report, before: seq<Metric>) returns (ch: seq<Metric>)
    requires Complete(r, before, 5)
    ensures Complete(r, ch, 9)
  {
    var id := r.identification;
    ch := Send(r, 5, before, r.versionExchangeSuccess && id.text != [],
               IdentificationInfo(id.text, id.protoVersion, id.softwareVersion, id.comments));
    ch := Send(r, 6, ch, r.versionExchangeSuccess, RfcConformant(id.rfcConformant));
    ch := Send(r, 7, ch, true, VersionExchangeSuccess(r.versionExchangeSuccess));
    ch := Send(r, 8, ch, r.versionExchangeSuccess, VersionExchangeDuration(r.versionExchangeDuration));
  }

  method CollectAlgorithms(r: Report, before: seq<Metric>) returns (ch: seq<Metric>)
    requires Complete(r, before, 9)
    ensures Complete(r, ch, 13)
  {
    var a := r.algorithms;
    ch := Send(r, 9, before, r.keyExchangeSuccess && a.kex != "", KexAlgorithm(a.kex));
    ch := Send(r, 10, ch, a.hostKey != "", HostKeyAlgorithm(a.hostKey));
    ch := Send(r, 11, ch, a.encryptionClientToServer != "", EncryptionAlgorithm(ClientToServer, a.encryptionClientToServer));
    ch := Send(r, 12, ch, a.encryptionServerToClient != "", EncryptionAlgorithm(ServerToClient, a.encryptionServerToClient));
  }

  method CollectMacs(r: Report, before: seq<Metric>) returns (ch: seq<Metric>)
    requires Complete(r, before, 13)
    ensures Complete(r, ch, 15)
  {
    var a := r.algorithms;
    ch := Send(r, 13, before, a.macClientToServer != "", MacAlgorithm(ClientToServer, a.macClientToServer));
    ch := Send(r, 14, ch, a.macServerToClient != "", MacAlgorithm(ServerToClient, a.macServerToClient));
  }

  method CollectKeyExchange(r: Report, before: seq<Metric>) returns (ch: seq<Metric>)
    requires Complete(r, before, 15)
    ensures Complete(r, ch, 18)
  {
    ch := Send(r, 15, before, true, HostKeyVerifySuccess(r.hostKeyVerifySuccess));
    ch := Send(r, 16, ch, true, KeyExchangeSuccess(r.keyExchangeSuccess));
    ch := Send(r, 17, ch, r.keyExchangeSuccess, KeyExchangeDuration(r.keyExchangeDuration));
  }

  lemma OneError(r: Report, p: Phase)
    requires r.errorPhase.Some? ==> r.errorPhase.value == p
    ensures forall x :: Slot(x) == 18 ==> (Calls(r, x) <==> r.errorPhase.Some? && x == ErrorInfo(p, r.errorReason))
  {
  }

  method CollectVerdict(r: Report, before: seq<Metric>) returns (ch: seq<Metric>)
    requires Complete(r, before, 18)
    ensures Complete(r, ch, 21)
  {
    var error := ErrorInfo(if r.errorPhase.Some? then r.errorPhase.value else DnsLookup, r.errorReason);
    OneError(r, error.phase);
    ch := Send(r, 18, before, r.errorPhase.Some?, error);
    ch := Send(r, 19, ch, true, Duration(r.duration));
    ch := Send(r, 20, ch, true, ProbeSuccess(r.success));
  }

  /** The samples of a result: all it calls for, and no series twice. */
  ghost predicate Exports(r: Report, ch: seq<Metric>) {
    && (forall m :: m in ch <==> Calls(r, m))
    && (forall i, j :: 0 <= i < j < |ch| ==> Slot(ch[i]) < Slot(ch[j]))
  }

  method Collect(r: Report) returns (ch: seq<Metric>)
    ensures Exports(r, ch)
  {
    ch := CollectConnection(r);
    ch := CollectVersionExchange(r, ch);
    ch := CollectAlgorithms(r, ch);
    ch := CollectMacs(r, ch);
    ch := CollectKeyExchange(r, ch);
    ch := CollectVerdict(r, ch);
  }

  // ---- What a scrape shows ----

  predicate IsError(m: Metric) { m.ErrorInfo? }

  /** The samples that only a completed key exchange yields. */
  predicate OfKeyExchange(m: Metric) {
    m.KexAlgorithm? || m.HostKeyAlgorithm? || m.EncryptionAlgorithm? || m.MacAlgorithm? || m.KeyExchangeDuration?
  }

  /**
   * A response says either "success 1" and no error, or "success 0" and one error with a
   * phase and a reason; never both, and never neither.
   */
  ghost predicate SaysOneThing(ch: seq<Metric>) {
    && (ProbeSuccess(true) in ch <==> ProbeSuccess(false) !in ch)
    && (ProbeSuccess(true) in ch <==> forall m :: m in ch ==> !IsError(m))
    && (forall m, n :: m in ch && n in ch && IsError(m) && IsError(n) ==> m == n)
    && (forall m :: m in ch && IsError(m) ==> m.reason.Some?)
  }

  /** The gauges of the phases, each of which needs the one before. */
  ghost predicate InOrder(ch: seq<Metric>) {
    && (ProbeSuccess(true) in ch ==> KeyExchangeSuccess(true) in ch && HostKeyVerifySuccess(true) in ch)
    && (KeyExchangeSuccess(true) in ch ==> VersionExchangeSuccess(true) in ch)
    && (HostKeyVerifySuccess(true) in ch ==> VersionExchangeSuccess(true) in ch)
    && (VersionExchangeSuccess(true) in ch ==> TcpConnectSuccess(true) in ch)
    && (TcpConnectSuccess(true) in ch ==> DnsLookupSuccess(false) !in ch)
    && (forall m :: m in ch && OfKeyExchange(m) ==> KeyExchangeSuccess(true) in ch)
  }

  lemma OneThing(r: Report, ch: seq<Metric>)
    requires Exports(r, ch)
    requires r.errorPhase.Some? <==> r.errorReason.Some?
    requires r.success <==> r.errorPhase.None?
    ensures SaysOneThing(ch)
  {
    assert Calls(r, ProbeSuccess(r.success)) && !Calls(r, ProbeSuccess(!r.success));
    if r.errorPhase.Some? {
      assert Calls(r, ErrorInfo(r.errorPhase.value, r.errorReason));
    }
  }

  lemma OrderShows(r: Report, ch: seq<Metric>)
    requires Exports(r, ch)
    requires r.success ==> r.keyExchangeSuccess && r.hostKeyVerifySuccess
    requires r.keyExchangeSuccess || r.hostKeyVerifySuccess ==> r.versionExchangeSuccess
    requires r.versionExchangeSuccess ==> r.tcpConnectSuccess
    requires r.tcpConnectSuccess && r.dnsLookup ==> r.dnsLookupSuccess
    requires r.algorithms != NO_ALGORITHMS ==> r.keyExchangeSuccess
    ensures InOrder(ch)
  {
    assert Calls(r, KeyExchangeSuccess(r.keyExchangeSuccess));
    assert forall m :: Calls(r, m) && OfKeyExchange(m) ==> r.keyExchangeSuccess;
  }

  lemma ScrapeFacts(named: bool, target: string, opts: Config.Options, w: World, ch: seq<Metric>)
    requires Rules(w) && Exports(Outcome(named, target, opts, w), ch)
    ensures SaysOneThing(ch) && InOrder(ch)
  {
    SuccessMeans(named, target, opts, w);
    PhasesInOrder(named, target, opts, w);
    OneThing(Outcome(named, target, opts, w), ch);
    OrderShows(Outcome(named, target, opts, w), ch);
  }

  // ---- How a failure shows ----

  predicate GaugeOf(m: Metric, p: Phase) {
    match p
    case DnsLookup => m.DnsLookupSuccess?
    case TcpConnect => m.TcpConnectSuccess?
    case VersionExchange => m.VersionExchangeSuccess?
    case KeyExchange => m.KeyExchangeSuccess?
  }

  predicate DurationOf(m: Metric, p: Phase) {
    match p
    case DnsLookup => m.DnsLookupDuration?
    case TcpConnect => m.TcpConnectDuration?
    case VersionExchange => m.VersionExchangeDuration?
    case KeyExchange => m.KeyExchangeDuration?
  }

  /**
   * The failure of `p` as it is documented: 0 on its success gauge and on that of each later
   * phase, and on the host key's if the key exchange is one of the later ones; and none of
   * their durations.
   */
  ghost predicate ShowsFailure(p: Phase, ch: seq<Metric>) {
    && (forall q :: Rank(p) <= Rank(q) ==>
          && (exists m :: m in ch && GaugeOf(m, q) && !m.flag)
          && (forall m :: m in ch && GaugeOf(m, q) ==> !m.flag)
          && (forall m :: m in ch ==> !DurationOf(m, q)))
    && (Rank(p) < Rank(KeyExchange) ==> HostKeyVerifySuccess(false) in ch && HostKeyVerifySuccess(true) !in ch)
  }

  lemma FailureShows(r: Report, p: Phase, ch: seq<Metric>)
    requires Exports(r, ch) && r.errorPhase == Some(p)
    requires p.DnsLookup? ==> r.dnsLookup
    requires forall q :: Rank(p) <= Rank(q) ==> !Succeeded(r, q)
    requires Rank(p) < Rank(KeyExchange) ==> !r.hostKeyVerifySuccess
    ensures ShowsFailure(p, ch)
  {
    forall q | Rank(p) <= Rank(q)
      ensures exists m :: m in ch && GaugeOf(m, q) && !m.flag
      ensures forall m :: m in ch && GaugeOf(m, q) ==> !m.flag
      ensures forall m :: m in ch ==> !DurationOf(m, q)
    {
      assert !Succeeded(r, q);
      var zero := match q
                  case DnsLookup => DnsLookupSuccess(false)
                  case TcpConnect => TcpConnectSuccess(false)
                  case VersionExchange => VersionExchangeSuccess(false)
                  case KeyExchange => KeyExchangeSuccess(false);
      assert Calls(r, zero) && GaugeOf(zero, q) && !zero.flag;
    }
    assert Rank(p) < Rank(KeyExchange) ==> Calls(r, HostKeyVerifySuccess(false));
  }

  /**
   * A failure shows as documented, except exactly when the transport got ready and the first
   * host key was refused: the error is then in the key exchange, whose gauge is 1 and whose
   * duration is there.
   */
  lemma FailedPhaseReportsZero(named: bool, target: string, opts: Config.Options, w: World, ch: seq<Metric>, p: Phase)
    requires Rules(w) && Exports(Outcome(named, target, opts, w), ch)
    requires Outcome(named, target, opts, w).errorPhase == Some(p)
    ensures ShowsFailure(p, ch) <==> !RefusedThoughReady(target, opts, w)
    ensures RefusedThoughReady(target, opts, w) ==>
              KeyExchangeSuccess(true) in ch && exists m :: m in ch && m.KeyExchangeDuration?
  {
    var r := Outcome(named, target, opts, w);
    FailedPhases(named, target, opts, w);
    if RefusedThoughReady(target, opts, w) {
      var m, d := KeyExchangeSuccess(true), KeyExchangeDuration(r.keyExchangeDuration);
      assert Calls(r, m) && GaugeOf(m, KeyExchange) && m.flag;
      assert Calls(r, d) && d.KeyExchangeDuration?;
    } else {
      FailureShows(r, p, ch);
    }
  }

  /** A probe, under all the rules, whose samples do not show its failure as documented. */
  lemma RefusedKeyShowsSuccess(named: bool, target: string) returns (opts: Config.Options, w: World)
    ensures Rules(w) && Clock(w)
    ensures Outcome(named, target, opts, w).errorPhase == Some(KeyExchange)
    ensures forall ch :: Exports(Outcome(named, target, opts, w), ch) ==> !ShowsFailure(KeyExchange, ch)
  {
    opts, w := RefusedWorld();
    FailedPhases(named, target, opts, w);
    forall ch | Exports(Outcome(named, target, opts, w), ch)
      ensures !ShowsFailure(KeyExchange, ch)
    {
      FailedPhaseReportsZero(named, target, opts, w, ch, KeyExchange);
    }
  }

  /** A whole scrape: the probe runs, and its result is exported. */
  method Scrape(parse: AddrParser, target: string, opts: Config.Options, w: World) returns (ch: seq<Metric>)
    ensures Exports(Outcome(Authority.IsHostname(parse, target), target, opts, w), ch)
    ensures Rules(w) ==> SaysOneThing(ch) && InOrder(ch)
  {
    var result := Run(parse, target, opts, w);
    ch := Collect(result);
    if Rules(w) {
      ScrapeFacts(Authority.IsHostname(parse, target), target, opts, w, ch);
    }
  }
}
