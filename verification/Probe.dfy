/** One probe: from dialling to the end of the handshake. */
module Probe {
  import opened Common
  import opened Bytes
  import opened Errors
  import opened Addresses
  import Authority
  import Config
  import Identification
  import KnownHosts
  import Scanner

  datatype Phase = DnsLookup | TcpConnect | VersionExchange | KeyExchange

  datatype Report = Report(
    dnsLookup: bool,
    dnsLookupSuccess: bool,
    dnsLookupDuration: int,
    tcpConnectSuccess: bool,
    tcpConnectDuration: int,
    tcpMss: int,
    identification: Identification.ServerIdentification,
    versionExchangeSuccess: bool,
    versionExchangeDuration: int,
    keyExchangeSuccess: bool,
    keyExchangeDuration: int,
    algorithms: Algorithms,
    hostKeyVerifySuccess: bool,
    errorPhase: Option<Phase>,
    errorReason: Option<Reason>,
    duration: int,
    success: bool)

  /** What was negotiated; an AEAD cipher needs no MAC, which is then empty. */
  datatype Algorithms = Algorithms(
    kex: string, hostKey: string,
    encryptionClientToServer: string, encryptionServerToClient: string,
    macClientToServer: string, macServerToClient: string)

  /** The algorithms of one direction, as the client sees it. */
  datatype DirectionAlgorithms = DirectionAlgorithms(cipher: string, mac: string)

  /** What the SSH library reports as negotiated; the client writes to the server and reads from it. */
  datatype NegotiatedAlgorithms = NegotiatedAlgorithms(
    keyExchange: string, hostKey: string, read: DirectionAlgorithms, write: DirectionAlgorithms)

  function Named(n: NegotiatedAlgorithms): Algorithms {
    Algorithms(n.keyExchange, n.hostKey, n.write.cipher, n.read.cipher, n.write.mac, n.read.mac)
  }

  const NO_ALGORITHMS := Algorithms("", "", "", "", "", "")

  const NO_RESULT := Report(false, false, 0, false, 0, 0, Identification.NO_IDENTIFICATION, false, 0,
                            false, 0, NO_ALGORITHMS, false, None, None, 0, false)

  /** What the SSH library does during the handshake that the probe sees. */
  datatype Event =
    | BytesRead(chunk: seq<byte>, at: int)
    | HostKeyOffered(key: KnownHosts.PublicKey, at: int)
    | TransportReady(negotiated: NegotiatedAlgorithms, at: int)

  /** The world during one probe; times in nanoseconds. */
  datatype World = World(
    start: int,
    dialStart: int,
    connects: seq<int>,            // when each connection attempt began, names having been resolved
    dialError: Option<Error>,
    dialEnd: int,
    mss: Option<int>,
    exchangeStart: int,
    events: seq<Event>,
    handshakeError: Option<Error>,
    end: int,
    contextAfterDial: ContextError,
    contextAfterHandshake: ContextError)

  // ---- The probe, step by step ----

  datatype HostKeyResult = HostKeyResult(verified: bool, reason: Option<Reason>)

  function Callback(opts: Config.Options): KnownHosts.HostKeyCallback {
    if opts.hostKeyCallback.Some? then opts.hostKeyCallback.value else KnownHosts.NoCallback
  }

  function CheckHostKey(opts: Config.Options, target: string, key: KnownHosts.PublicKey): (r: HostKeyResult)
    ensures r.verified <==> r.reason.None?
  {
    match KnownHosts.VerifyHostKey(Callback(opts), target, key)
    case None => HostKeyResult(true, None)
    case Some(e) => HostKeyResult(false, Some(KnownHosts.Classify(e)))
  }

  /** What the callbacks and the watcher leave behind for after the handshake. */
  datatype Handshake = Handshake(
    identification: Option<seq<byte>>,
    receivedAt: Option<int>,
    hostKey: Option<HostKeyResult>,    // only the first verdict is kept
    keyExchangeDuration: int,
    algorithms: Algorithms)

  method Watch(target: string, opts: Config.Options, events: seq<Event>) returns (h: Handshake)
    ensures h == After(target, opts, events)
  {
    var watcher := new Scanner.IdentificationWatcher();
    var hostKey: Option<HostKeyResult> := None;
    var keyExchangeDuration, algorithms := 0, NO_ALGORITHMS;
    assert events[..0] == [];
    for i := 0 to |events|
      invariant watcher.Valid() && fresh(watcher) && fresh(watcher.line)
      invariant watcher.stream == BytesOf(events[..i])
      invariant watcher.received == ReceivedAt(events[..i])
      invariant hostKey == FirstVerdict(target, opts, events[..i])
      invariant keyExchangeDuration == KeyExchangeTime(events[..i])
      invariant algorithms == Negotiated(events[..i])
    {
      assert events[..i + 1][..i] == events[..i];
      match events[i] {
        case BytesRead(chunk, at) =>
          watcher.Read(chunk, at);
        case HostKeyOffered(key, at) =>
          var hk := CheckHostKey(opts, target, key);
          if hostKey.None? {
            hostKey := Some(hk);
          }
        case TransportReady(negotiated, at) =>
          if watcher.received.Some? {
            keyExchangeDuration := at - watcher.received.value;
          }
          algorithms := Algorithms(negotiated.keyExchange, negotiated.hostKey,
                                   negotiated.write.cipher, negotiated.read.cipher,
                                   negotiated.write.mac, negotiated.read.mac);
      }
    }
    assert events[..|events|] == events;
    var identification := if watcher.received.Some? then Some(watcher.line[..watcher.identLen]) else None;
    h := Handshake(identification, watcher.received, hostKey, keyExchangeDuration, algorithms);
  }

  /** The dial, up to a connection or a failure. */
  method Dial(named: bool, w: World) returns (result: Report)
    ensures result == Dialled(named, w)
  {
    result := NO_RESULT.(dnsLookup := named);
    var attemptStart := if w.connects == [] then None else Some(w.connects[0]);
    var connectFrom := w.dialStart;
    if attemptStart.Some? {
      connectFrom := attemptStart.value;
      if result.dnsLookup {
        result := result.(dnsLookupSuccess := true, dnsLookupDuration := attemptStart.value - w.dialStart);
      }
    }
    if w.dialError.Some? {
      result := result.(errorPhase := Some(TcpConnect));
      if result.dnsLookup && !result.dnsLookupSuccess {
        result := result.(errorPhase := Some(DnsLookup));
      }
      result := result.(errorReason := Some(ClassifyDial(w.contextAfterDial, w.dialError.value)));
      return;
    }
    result := result.(tcpConnectSuccess := true, tcpConnectDuration := w.dialEnd - connectFrom);
    if w.mss.Some? {
      result := result.(tcpMss := w.mss.value);
    }
  }

  /** What the identification string adds to the result. */
  method Identify(opts: Config.Options, w: World, h: Handshake, r: Report) returns (result: Report)
    requires h.identification.Some? <==> h.receivedAt.Some?
    requires r.identification == Identification.NO_IDENTIFICATION
    requires !r.versionExchangeSuccess && r.versionExchangeDuration == 0
    ensures result == r.(identification := Exported(opts, h),
                         versionExchangeSuccess := h.receivedAt.Some?,
                         versionExchangeDuration := if h.receivedAt.Some? then h.receivedAt.value - w.exchangeStart else 0)
  {
    result := r;
    if h.receivedAt.Some? {
      result := result.(versionExchangeSuccess := true,
                        versionExchangeDuration := h.receivedAt.value - w.exchangeStart);
      var ident := Identification.ParseServerIdentification(h.identification.value);
      if ident.Success? {
        if opts.stripComments {
          result := result.(identification := Identification.WithoutComments(ident.value));
        } else {
          result := result.(identification := ident.value);
        }
      }
    }
  }

  /** What the end of the handshake makes of the result. */
  method JudgeHandshake(w: World, h: Handshake, r: Report) returns (result: Report)
    requires r.errorPhase.None? && r.errorReason.None? && !r.keyExchangeSuccess
    requires r.versionExchangeSuccess <==> h.receivedAt.Some?
    ensures result == r.(keyExchangeSuccess := Aborted(w),
                         errorPhase := HandshakePhase(h, w),
                         errorReason := HandshakeReason(w))
  {
    result := r;
    if w.handshakeError.Some? && Is(w.handshakeError.value, Abort) {
      result := result.(keyExchangeSuccess := true);
    } else if w.handshakeError.None? {
      result := result.(errorPhase := Some(KeyExchange), errorReason := Some(UserAuthReached));
    } else {
      result := result.(errorPhase := Some(KeyExchange));
      if !result.versionExchangeSuccess {
        result := result.(errorPhase := Some(VersionExchange));
      }
      result := result.(errorReason := Some(ClassifyKex(w.contextAfterHandshake, w.handshakeError.value)));
    }
  }

  /** The host key's verdict, which outranks a handshake that failed after it. */
  method JudgeHostKey(w: World, h: Handshake, r: Report) returns (result: Report)
    requires r.keyExchangeSuccess == Aborted(w) && !r.hostKeyVerifySuccess
    requires r.errorPhase == HandshakePhase(h, w) && r.errorReason == HandshakeReason(w)
    ensures result == r.(hostKeyVerifySuccess := Verified(h),
                         errorPhase := FailedPhase(h, w),
                         errorReason := FailedReason(h, w),
                         success := Aborted(w) && Verified(h))
  {
    result := r;
    if h.hostKey.Some? {
      result := result.(hostKeyVerifySuccess := h.hostKey.value.verified);
      if !h.hostKey.value.verified {
        result := result.(errorPhase := Some(KeyExchange), errorReason := h.hostKey.value.reason);
      }
    }
    result := result.(success := result.errorPhase.None? && result.keyExchangeSuccess && result.hostKeyVerifySuccess);
  }

  method Run(parse: AddrParser, target: string, opts: Config.Options, w: World) returns (result: Report)
    ensures result == Outcome(Authority.IsHostname(parse, target), target, opts, w)
  {
    var named := Authority.IsHostname(parse, target);
    result := Dial(named, w);
    if w.dialError.None? {
      var h := Watch(target, opts, w.events);
      result := result.(keyExchangeDuration := h.keyExchangeDuration, algorithms := h.algorithms);
      result := Identify(opts, w, h, result);
      result := JudgeHandshake(w, h, result);
      result := JudgeHostKey(w, h, result);
    }
    result := result.(duration := w.end - w.start);
  }

  // ---- What the events amount to ----

  function BytesOf(events: seq<Event>): seq<byte> {
    if events == [] then []
    else
      var init, last := events[..|events| - 1], events[|events| - 1];
      BytesOf(init) + (if last.BytesRead? then last.chunk else [])
  }

  /** The watcher's state after the events. */
  function Seen(events: seq<Event>): Scanner.Watch { Scanner.Scan(Scanner.START, BytesOf(events)) }

  /** When the read that delivered the identification's newline happened. */
  function ReceivedAt(events: seq<Event>): (at: Option<int>)
    ensures at.Some? <==> Seen(events).Received?
  {
    if events == [] then None
    else
      var init, last := events[..|events| - 1], events[|events| - 1];
      var chunk := if last.BytesRead? then last.chunk else [];
      Scanner.ScanConcat(Scanner.START, BytesOf(init), chunk);
      if Seen(init).Received? then
        Scanner.ReceivedIsFinal(Seen(init), chunk);
        ReceivedAt(init)
      else if Seen(events).Received? then Some(last.at)
      else None
  }

  function FirstVerdict(target: string, opts: Config.Options, events: seq<Event>): (v: Option<HostKeyResult>)
    ensures v.Some? ==> (v.value.verified <==> v.value.reason.None?)
  {
    if events == [] then None
    else
      var init, last := events[..|events| - 1], events[|events| - 1];
      var before := FirstVerdict(target, opts, init);
      if before.Some? || !last.HostKeyOffered? then before else Some(CheckHostKey(opts, target, last.key))
  }

  function KeyExchangeTime(events: seq<Event>): int {
    if events == [] then 0
    else
      var init, last := events[..|events| - 1], events[|events| - 1];
      if last.TransportReady? && ReceivedAt(init).Some? then last.at - ReceivedAt(init).value
      else KeyExchangeTime(init)
  }

  function Negotiated(events: seq<Event>): Algorithms {
    if events == [] then NO_ALGORITHMS
    else
      var init, last := events[..|events| - 1], events[|events| - 1];
      if last.TransportReady? then Named(last.negotiated) else Negotiated(init)
  }

  function After(target: string, opts: Config.Options, events: seq<Event>): Handshake {
    Handshake(
      if Seen(events).Received? then Some(Seen(events).identification) else None,
      ReceivedAt(events), FirstVerdict(target, opts, events), KeyExchangeTime(events), Negotiated(events))
  }

  // ---- The outcome, field by field ----

  function Exported(opts: Config.Options, h: Handshake): Identification.ServerIdentification {
    if h.identification.None? then Identification.NO_IDENTIFICATION
    else match Identification.Parse(h.identification.value)
      case Failure(_) => Identification.NO_IDENTIFICATION
      case Success(id) => if opts.stripComments then Identification.WithoutComments(id) else id
  }

  function Dialled(named: bool, w: World): Report {
    var resolved := named && w.connects != [];
    var connectFrom := if w.connects == [] then w.dialStart else w.connects[0];
    var r := NO_RESULT.(dnsLookup := named,
                        dnsLookupSuccess := resolved,
                        dnsLookupDuration := if resolved then w.connects[0] - w.dialStart else 0);
    if w.dialError.None? then
      r.(tcpConnectSuccess := true,
         tcpConnectDuration := w.dialEnd - connectFrom,
         tcpMss := if w.mss.Some? then w.mss.value else 0)
    else
      r.(errorPhase := Some(if named && w.connects == [] then DnsLookup else TcpConnect),
         errorReason := Some(ClassifyDial(w.contextAfterDial, w.dialError.value)))
  }

  predicate Verified(h: Handshake) { h.hostKey.Some? && h.hostKey.value.verified }

  predicate Aborted(w: World) { w.handshakeError.Some? && Is(w.handshakeError.value, Abort) }

  function HandshakePhase(h: Handshake, w: World): Option<Phase> {
    if Aborted(w) then None
    else if w.handshakeError.Some? && h.receivedAt.None? then Some(VersionExchange)
    else Some(KeyExchange)
  }

  function HandshakeReason(w: World): Option<Reason> {
    if Aborted(w) then None
    else if w.handshakeError.None? then Some(UserAuthReached)
    else Some(ClassifyKex(w.contextAfterHandshake, w.handshakeError.value))
  }

  predicate HostKeyRefused(h: Handshake) { h.hostKey.Some? && !h.hostKey.value.verified }

  function FailedPhase(h: Handshake, w: World): Option<Phase> {
    if HostKeyRefused(h) then Some(KeyExchange) else HandshakePhase(h, w)
  }

  function FailedReason(h: Handshake, w: World): Option<Reason> {
    if HostKeyRefused(h) then h.hostKey.value.reason else HandshakeReason(w)
  }

  /** The result of a probe, each field from what happened. */
  function Outcome(named: bool, target: string, opts: Config.Options, w: World): Report {
    var r := Dialled(named, w).(duration := w.end - w.start);
    if w.dialError.Some? then r
    else
      var h := After(target, opts, w.events);
      r.(identification := Exported(opts, h),
         versionExchangeSuccess := h.receivedAt.Some?,
         versionExchangeDuration := if h.receivedAt.Some? then h.receivedAt.value - w.exchangeStart else 0,
         keyExchangeSuccess := Aborted(w),
         keyExchangeDuration := h.keyExchangeDuration,
         algorithms := h.algorithms,
         hostKeyVerifySuccess := Verified(h),
         errorPhase := FailedPhase(h, w),
         errorReason := FailedReason(h, w),
         success := Aborted(w) && Verified(h))
  }
}
