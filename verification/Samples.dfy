/** What each sample of a scrape tells of the world. */
module Samples {
  import opened Common
  import opened Bytes
  import opened Collector
  import opened Errors
  import opened Fields
  import opened Phases
  import opened Probe
  import Config
  import Identification
  import KnownHosts
  import Scanner

  // ---- The result shows ----

  lemma ConnectionExported(r: Report, ch: seq<Metric>)
    requires Exports(r, ch)
    ensures forall v :: DnsLookupSuccess(v) in ch <==> r.dnsLookup && v == r.dnsLookupSuccess
    ensures forall d :: DnsLookupDuration(d) in ch <==> r.dnsLookup && r.dnsLookupSuccess && d == r.dnsLookupDuration
    ensures forall v :: TcpConnectSuccess(v) in ch <==> v == r.tcpConnectSuccess
    ensures forall d :: TcpConnectDuration(d) in ch <==> r.tcpConnectSuccess && d == r.tcpConnectDuration
    ensures forall n :: TcpMss(n) in ch <==> r.tcpConnectSuccess && n > 0 && n == r.tcpMss
    ensures forall d :: Duration(d) in ch <==> d == r.duration
  {
  }

  lemma IdentificationExported(r: Report, ch: seq<Metric>)
    requires Exports(r, ch)
    ensures forall t, p, s, c :: IdentificationInfo(t, p, s, c) in ch <==>
              var id := r.identification;
              r.versionExchangeSuccess && t != [] && t == id.text && p == id.protoVersion && s == id.softwareVersion && c == id.comments
    ensures forall v :: RfcConformant(v) in ch <==> r.versionExchangeSuccess && v == r.identification.rfcConformant
  {
  }

  lemma HandshakeExported(r: Report, ch: seq<Metric>)
    requires Exports(r, ch)
    ensures forall v :: VersionExchangeSuccess(v) in ch <==> v == r.versionExchangeSuccess
    ensures forall d :: VersionExchangeDuration(d) in ch <==> r.versionExchangeSuccess && d == r.versionExchangeDuration
    ensures forall v :: KeyExchangeSuccess(v) in ch <==> v == r.keyExchangeSuccess
    ensures forall d :: KeyExchangeDuration(d) in ch <==> r.keyExchangeSuccess && d == r.keyExchangeDuration
    ensures forall v :: HostKeyVerifySuccess(v) in ch <==> v == r.hostKeyVerifySuccess
    ensures forall v :: ProbeSuccess(v) in ch <==> v == r.success
    ensures forall p, e :: ErrorInfo(p, e) in ch <==> r.errorPhase == Some(p) && e == r.errorReason
  {
  }

  lemma AlgorithmsExported(r: Report, ch: seq<Metric>)
    requires Exports(r, ch)
    ensures forall a :: KexAlgorithm(a) in ch <==> r.keyExchangeSuccess && a != "" && a == r.algorithms.kex
    ensures forall a :: HostKeyAlgorithm(a) in ch <==> a != "" && a == r.algorithms.hostKey
    ensures forall a :: EncryptionAlgorithm(ClientToServer, a) in ch <==> a != "" && a == r.algorithms.encryptionClientToServer
    ensures forall a :: EncryptionAlgorithm(ServerToClient, a) in ch <==> a != "" && a == r.algorithms.encryptionServerToClient
    ensures forall a :: MacAlgorithm(ClientToServer, a) in ch <==> a != "" && a == r.algorithms.macClientToServer
    ensures forall a :: MacAlgorithm(ServerToClient, a) in ch <==> a != "" && a == r.algorithms.macServerToClient
  {
  }

  // ---- The world shows ----

  /** The samples of the lookup and the connection, and the whole duration. */
  lemma ConnectionSamples(named: bool, target: string, opts: Config.Options, w: World, ch: seq<Metric>)
    requires Exports(Outcome(named, target, opts, w), ch)
    ensures forall v :: DnsLookupSuccess(v) in ch <==> named && v == (w.connects != [])
    ensures forall d :: DnsLookupDuration(d) in ch <==> named && w.connects != [] && d == w.connects[0] - w.dialStart
    ensures forall v :: TcpConnectSuccess(v) in ch <==> v == w.dialError.None?
    ensures forall d :: TcpConnectDuration(d) in ch <==>
              w.dialError.None? && d == w.dialEnd - if w.connects != [] then w.connects[0] else w.dialStart
    ensures forall n :: TcpMss(n) in ch <==> w.dialError.None? && n > 0 && w.mss == Some(n)
    ensures forall d :: Duration(d) in ch <==> d == w.end - w.start
  {
    ConnectionFields(named, target, opts, w);
    ConnectionExported(Outcome(named, target, opts, w), ch);
  }

  /** The successes of the handshake's stages, and of the probe. */
  lemma SuccessSamples(named: bool, target: string, opts: Config.Options, w: World, ch: seq<Metric>)
    requires Exports(Outcome(named, target, opts, w), ch)
    ensures var (version, kex, key) := (Scanner.HasSshLine(BytesOf(w.events)),
                                        w.handshakeError.Some? && Is(w.handshakeError.value, Abort),
                                        FirstKeyVerified(target, opts, w.events));
            && (forall v :: VersionExchangeSuccess(v) in ch <==> v == (w.dialError.None? && version))
            && (forall v :: KeyExchangeSuccess(v) in ch <==> v == (w.dialError.None? && kex))
            && (forall v :: HostKeyVerifySuccess(v) in ch <==> v == (w.dialError.None? && key))
            && (forall v :: ProbeSuccess(v) in ch <==> v == (w.dialError.None? && kex && key))
  {
    HandshakeSuccesses(named, target, opts, w);
    HandshakeExported(Outcome(named, target, opts, w), ch);
  }

  /** The durations of the handshake's stages. */
  lemma TimeSamples(named: bool, target: string, opts: Config.Options, w: World, ch: seq<Metric>)
    requires Exports(Outcome(named, target, opts, w), ch)
    ensures forall d :: VersionExchangeDuration(d) in ch <==>
              w.dialError.None? && exists i: nat :: Completes(w.events, i) && d == w.events[i].at - w.exchangeStart
    ensures Rules(w) ==> forall d :: KeyExchangeDuration(d) in ch <==>
              w.dialError.None? && exists i: nat, j: nat :: Completes(w.events, i) && LastReady(w.events, j)
                                                             && d == w.events[j].at - w.events[i].at
  {
    var r := Outcome(named, target, opts, w);
    HandshakeSuccesses(named, target, opts, w);
    HandshakeExported(r, ch);
    if w.dialError.None? {
      HandshakeTimes(named, target, opts, w);
      if Scanner.HasSshLine(BytesOf(w.events)) {
        var i := SomeReadCompletes(w.events);
        assert Completes(w.events, i);
      }
      forall i: nat | Completes(w.events, i)
        ensures Scanner.HasSshLine(BytesOf(w.events))
      {
        ReceivedWhenCompleted(w.events, i);
        SeenIsLine(w.events);
      }
      if Rules(w) {
        KeyExchangeTimeSample(r, w, ch);
      }
    }
  }

  lemma KeyExchangeTimeSample(r: Report, w: World, ch: seq<Metric>)
    requires Rules(w) && w.dialError.None?
    requires forall d :: KeyExchangeDuration(d) in ch <==> r.keyExchangeSuccess && d == r.keyExchangeDuration
    requires r.keyExchangeSuccess == Aborted(w)
    requires forall i: nat, j: nat :: Completes(w.events, i) && LastReady(w.events, j) ==>
               r.keyExchangeDuration == if i < j then w.events[j].at - w.events[i].at else 0
    ensures forall d :: KeyExchangeDuration(d) in ch <==>
              exists i: nat, j: nat :: Completes(w.events, i) && LastReady(w.events, j) && d == w.events[j].at - w.events[i].at
  {
    forall i: nat, j: nat | Completes(w.events, i) && LastReady(w.events, j)
      ensures Aborted(w) && i < j
    {
      LineBeforeReady(w, i, j);
    }
    if Aborted(w) {
      var j := SomeReadyIsLast(w.events);
      LineByReady(w, j);
      var i := SomeReadCompletes(w.events);
      assert Completes(w.events, i) && LastReady(w.events, j);
    }
  }

  lemma LineByReady(w: World, j: nat)
    requires Rules(w) && LastReady(w.events, j)
    ensures Scanner.HasSshLine(BytesOf(w.events[..j])) && Scanner.HasSshLine(BytesOf(w.events))
  {
    assert Seen(w.events[..j]).Received?;
    SeenIsLine(w.events[..j]);
    SeenStays(w.events, j);
    SeenIsLine(w.events);
  }

  lemma LineBeforeReady(w: World, i: nat, j: nat)
    requires Rules(w) && Completes(w.events, i) && LastReady(w.events, j)
    ensures Aborted(w) && i < j
  {
    LineByReady(w, j);
    assert w.events[j].TransportReady?;
    if j < i {
      assert w.events[..i][..j] == w.events[..j];
      SeenIsLine(w.events[..j]);
      SeenStays(w.events[..i], j);
      SeenIsLine(w.events[..i]);
    }
  }

  /** Each algorithm, under its own label, is that of the last time the transport got ready, and none is empty. */
  lemma AlgorithmSamples(named: bool, target: string, opts: Config.Options, w: World, ch: seq<Metric>)
    requires Exports(Outcome(named, target, opts, w), ch)
    ensures forall a :: EncryptionAlgorithm(ClientToServer, a) in ch <==>
              a != "" && w.dialError.None? && exists j: nat :: LastReady(w.events, j) && a == w.events[j].negotiated.write.cipher
    ensures forall a :: EncryptionAlgorithm(ServerToClient, a) in ch <==>
              a != "" && w.dialError.None? && exists j: nat :: LastReady(w.events, j) && a == w.events[j].negotiated.read.cipher
    ensures forall a :: MacAlgorithm(ClientToServer, a) in ch <==>
              a != "" && w.dialError.None? && exists j: nat :: LastReady(w.events, j) && a == w.events[j].negotiated.write.mac
    ensures forall a :: MacAlgorithm(ServerToClient, a) in ch <==>
              a != "" && w.dialError.None? && exists j: nat :: LastReady(w.events, j) && a == w.events[j].negotiated.read.mac
    ensures forall a :: HostKeyAlgorithm(a) in ch <==>
              a != "" && w.dialError.None? && exists j: nat :: LastReady(w.events, j) && a == w.events[j].negotiated.hostKey
    ensures Rules(w) ==> forall a :: KexAlgorithm(a) in ch <==>
              a != "" && w.dialError.None? && exists j: nat :: LastReady(w.events, j) && a == w.events[j].negotiated.keyExchange
  {
    var r := Outcome(named, target, opts, w);
    AlgorithmsExported(r, ch);
    if w.dialError.None? {
      HandshakeAlgorithms(named, target, opts, w);
      HandshakeSuccesses(named, target, opts, w);
      if Ready(w.events) {
        var j := SomeReadyIsLast(w.events);
        assert LastReady(w.events, j);
      }
      assert forall j: nat :: LastReady(w.events, j) ==> Ready(w.events);
    }
  }

  /**
   * The identification sample has the text and the fields of the stream's first "SSH-" line,
   * less the comments, in the text too, if they are to be stripped. There is none if there is
   * no such line, or if it cannot be parsed.
   */
  lemma IdentificationSamples(named: bool, target: string, opts: Config.Options, w: World, ch: seq<Metric>)
    requires Exports(Outcome(named, target, opts, w), ch) && w.dialError.None?
    ensures var s := BytesOf(w.events);
            && (!Scanner.HasSshLine(s) ==>
                  forall m :: m in ch ==> !m.IdentificationInfo? && !m.RfcConformant?)
            && forall i: nat, j: nat :: Scanner.FirstSshLine(s, i, j) ==>
                 match Identification.Parse(TrimCr(s[i..j]))
                 case Failure(_) =>
                   (forall m :: m in ch ==> !m.IdentificationInfo?) && RfcConformant(false) in ch
                 case Success(id) =>
                   && (forall m :: m in ch && m.IdentificationInfo? <==>
                         m == if opts.stripComments
                              then IdentificationInfo(SSH + id.protoVersion + [DASH] + id.softwareVersion,
                                                      id.protoVersion, id.softwareVersion, [])
                              else IdentificationInfo(TrimCr(s[i..j]), id.protoVersion, id.softwareVersion, id.comments))
                   && (forall v :: RfcConformant(v) in ch <==> v == id.rfcConformant)
  {
    var s := BytesOf(w.events);
    var r := Outcome(named, target, opts, w);
    ExportsFirstLine(named, target, opts, w);
    IdentificationExported(r, ch);
    forall m: Metric | m.IdentificationInfo?
      ensures m in ch <==> IdentificationInfo(m.text, m.proto, m.software, m.comments) in ch
    {
    }
    forall i: nat, j: nat | Scanner.FirstSshLine(s, i, j)
      ensures r.versionExchangeSuccess
      ensures Identification.Parse(TrimCr(s[i..j])).Success? ==> Identification.Parse(TrimCr(s[i..j])).value.text == TrimCr(s[i..j]) != []
    {
      assert Scanner.HasSshLine(s);
      if Identification.Parse(TrimCr(s[i..j])).Success? {
        Identification.AcceptedIsDenoted(TrimCr(s[i..j]));
      }
    }
  }

  /** A failed probe's error sample, by what went wrong. */
  lemma FailureSamples(named: bool, target: string, opts: Config.Options, w: World, ch: seq<Metric>, k: Kind, layers: seq<Layer>)
    requires Exports(Outcome(named, target, opts, w), ch) && !TextUnderOp(layers)
    ensures w.dialError == Some(Wrapped(Leaf(k), layers)) ==>
              ErrorInfo(if named && w.connects == [] then DnsLookup else TcpConnect,
                        Some(Unless(w.contextAfterDial, DialReasonOf(k)))) in ch
    ensures w.dialError.None? && w.handshakeError == Some(Wrapped(Leaf(k), layers)) && k != Abort
            && !FirstKeyRefused(target, opts, w.events) ==>
              ErrorInfo(if Scanner.HasSshLine(BytesOf(w.events)) then KeyExchange else VersionExchange,
                        Some(Unless(w.contextAfterHandshake, KexReasonOf(k)))) in ch
  {
    var r := Outcome(named, target, opts, w);
    HandshakeExported(r, ch);
    if w.dialError == Some(Wrapped(Leaf(k), layers)) {
      DialFailure(named, target, opts, w, k, layers);
    }
    if w.dialError.None? && w.handshakeError == Some(Wrapped(Leaf(k), layers)) && k != Abort
       && !FirstKeyRefused(target, opts, w.events) {
      HandshakeFailure(named, target, opts, w, k, layers);
    }
  }

  /** A host key that the file does not vouch for is reported with the file's reason. */
  lemma RefusalSample(named: bool, target: string, opts: Config.Options, w: World, ch: seq<Metric>, f: KnownHosts.File, j: nat)
    requires Exports(Outcome(named, target, opts, w), ch)
    requires w.dialError.None? && opts.hostKeyCallback.Some?
    requires forall addr, key :: Config.TrustsAs(f, opts.hostKeyCallback.value, addr, key)
    requires j < |w.events| && w.events[j].HostKeyOffered? && !Offered(w.events[..j])
    requires !f.Vouches(target, w.events[j].key)
    ensures ErrorInfo(KeyExchange, Some(f.Refusal(target, w.events[j].key))) in ch
  {
    RefusedKey(named, target, opts, w, f, j);
    HandshakeExported(Outcome(named, target, opts, w), ch);
  }
}
