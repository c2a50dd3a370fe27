/** What each field of a probe's result tells of the world. */
module Fields {
  import opened Common
  import opened Bytes
  import opened Errors
  import opened Phases
  import opened Probe
  import Config
  import KnownHosts
  import Scanner

  // ---- Which event a field is about ----

  /** Event `j` is the last one at which the transport got ready. */
  predicate LastReady(events: seq<Event>, j: nat) {
    && j < |events| && events[j].TransportReady?
    && forall i :: j < i < |events| ==> !events[i].TransportReady?
  }

  /** Event `i` is the read that delivers the end of the stream's first "SSH-" line. */
  ghost predicate Completes(events: seq<Event>, i: nat) {
    && i < |events| && events[i].BytesRead?
    && !Scanner.HasSshLine(BytesOf(events[..i]))
    && Scanner.HasSshLine(BytesOf(events[..i + 1]))
  }

  /** The stream is what the reads deliver, one after the other. */
  lemma {:induction false} StreamIsReads(a: seq<Event>, b: seq<Event>)
    ensures BytesOf(a + b) == BytesOf(a) + BytesOf(b)
  {
    if b == [] {
      assert a + b == a;
    } else {
      var init := b[..|b| - 1];
      assert (a + b)[..|a + b| - 1] == a + init;
      StreamIsReads(a, init);
    }
  }

  lemma StreamOfOne(e: Event)
    ensures BytesOf([e]) == if e.BytesRead? then e.chunk else []
  {
    assert [e][..0] == [];
  }

  lemma SeenIsLine(events: seq<Event>)
    ensures Seen(events).Received? <==> Scanner.HasSshLine(BytesOf(events))
  {
    Scanner.ScanMeaning(BytesOf(events));
  }

  lemma ReceivedWhenCompleted(events: seq<Event>, i: nat)
    requires Completes(events, i)
    ensures ReceivedAt(events) == Some(events[i].at)
  {
    var upTo := events[..i + 1];
    assert upTo[..|upTo| - 1] == events[..i];
    SeenIsLine(events[..i]);
    SeenIsLine(upTo);
    SeenStays(events, i + 1);
  }

  lemma {:induction false} SomeReadCompletes(events: seq<Event>) returns (i: nat)
    requires Scanner.HasSshLine(BytesOf(events))
    ensures Completes(events, i)
  {
    var init := events[..|events| - 1];
    if Scanner.HasSshLine(BytesOf(init)) {
      i := SomeReadCompletes(init);
      assert init[..i] == events[..i] && init[..i + 1] == events[..i + 1];
    } else {
      i := |events| - 1;
      assert events[..i + 1] == events;
      assert BytesOf(init) + [] == BytesOf(init);
    }
  }

  lemma {:induction false} SomeReadyIsLast(events: seq<Event>) returns (j: nat)
    requires Ready(events)
    ensures LastReady(events, j)
  {
    var last := |events| - 1;
    if events[last].TransportReady? {
      j := last;
    } else {
      j :| 0 <= j < |events| && events[j].TransportReady?;
      assert events[..last][j].TransportReady?;
      j := SomeReadyIsLast(events[..last]);
    }
  }

  lemma {:induction false} NegotiatedByLast(events: seq<Event>, j: nat)
    requires LastReady(events, j)
    ensures Negotiated(events) == Named(events[j].negotiated)
  {
    var init := events[..|events| - 1];
    if j < |init| {
      assert LastReady(init, j) && init[j] == events[j];
      NegotiatedByLast(init, j);
    }
  }

  lemma {:induction false} NoTimeWithoutLine(events: seq<Event>)
    requires !Scanner.HasSshLine(BytesOf(events))
    ensures KeyExchangeTime(events) == 0
  {
    if events != [] {
      var init := events[..|events| - 1];
      SeenIsLine(init);
      SeenIsLine(events);
      if Scanner.HasSshLine(BytesOf(init)) {
        SeenStays(events, |init|);
      }
      NoTimeWithoutLine(init);
    }
  }

  lemma {:induction false} TimeIsBetween(events: seq<Event>, i: nat, j: nat)
    requires Completes(events, i) && LastReady(events, j)
    ensures KeyExchangeTime(events) == if i < j then events[j].at - events[i].at else 0
  {
    var last := |events| - 1;
    var init := events[..last];
    if i == last {
      NoTimeWithoutLine(init);
    } else {
      assert init[..i] == events[..i] && init[..i + 1] == events[..i + 1];
      assert Completes(init, i);
      ReceivedWhenCompleted(init, i);
      if j < last {
        assert LastReady(init, j) && init[j] == events[j];
        TimeIsBetween(init, i, j);
      }
    }
  }

  // ---- The connection ----

  /** The fields of the lookup and the connection, and the whole duration. */
  lemma ConnectionFields(named: bool, target: string, opts: Config.Options, w: World)
    ensures var r := Outcome(named, target, opts, w);
            && r.dnsLookup == named
            && r.dnsLookupSuccess == (named && w.connects != [])
            && (named && w.connects != [] ==> r.dnsLookupDuration == w.connects[0] - w.dialStart)
            && r.tcpConnectSuccess == w.dialError.None?
            && (w.dialError.None? ==>
                  && r.tcpConnectDuration == w.dialEnd - (if w.connects != [] then w.connects[0] else w.dialStart)
                  && r.tcpMss == (if w.mss.Some? then w.mss.value else 0))
            && r.duration == w.end - w.start
  {
  }

  /** A dial that fails with the cause `k`, as the dialer wraps it, has the documented reason of `k`. */
  lemma DialFailure(named: bool, target: string, opts: Config.Options, w: World, k: Kind, layers: seq<Layer>)
    requires w.dialError == Some(Wrapped(Leaf(k), layers)) && !TextUnderOp(layers)
    ensures var r := Outcome(named, target, opts, w);
            && r.errorPhase == Some(if named && w.connects == [] then DnsLookup else TcpConnect)
            && r.errorReason == Some(Unless(w.contextAfterDial, DialReasonOf(k)))
            && !r.success && !r.versionExchangeSuccess && !r.keyExchangeSuccess && !r.hostKeyVerifySuccess
  {
    DialReasons(w.contextAfterDial, k, layers);
  }

  // ---- The handshake ----

  lemma WrappedIs(k: Kind, layers: seq<Layer>, sentinel: Kind)
    requires sentinel != Message && !sentinel.NetError?
    ensures Is(Wrapped(Leaf(k), layers), sentinel) <==> k == sentinel
  {
    WrappedChain(Leaf(k), layers, IsDnsError, sentinel);
    LeafQueries(k, IsDnsError);
  }

  lemma NotRefused(target: string, opts: Config.Options, w: World)
    requires !FirstKeyRefused(target, opts, w.events)
    ensures var h := After(target, opts, w.events);
            && FailedPhase(h, w) == HandshakePhase(h, w)
            && FailedReason(h, w) == HandshakeReason(w)
            && (h.receivedAt.Some? <==> Scanner.HasSshLine(BytesOf(w.events)))
  {
    RefusedIsFirst(target, opts, w.events);
    SeenIsLine(w.events);
  }

  /**
   * A handshake that fails with the cause `k`, no host key having been refused, has the
   * documented reason of `k`, in the key exchange if the identification string had come.
   */
  lemma HandshakeFailure(named: bool, target: string, opts: Config.Options, w: World, k: Kind, layers: seq<Layer>)
    requires w.dialError.None? && w.handshakeError == Some(Wrapped(Leaf(k), layers)) && !TextUnderOp(layers)
    requires k != Abort && !FirstKeyRefused(target, opts, w.events)
    ensures var r := Outcome(named, target, opts, w);
            && r.errorPhase == Some(if Scanner.HasSshLine(BytesOf(w.events)) then KeyExchange else VersionExchange)
            && r.errorReason == Some(Unless(w.contextAfterHandshake, KexReasonOf(k)))
            && !r.success && !r.keyExchangeSuccess
  {
    WrappedIs(k, layers, Abort);
    KexReasons(w.contextAfterHandshake, k, layers);
    NotRefused(target, opts, w);
  }

  /** A handshake that the abort ends is a completed key exchange; one that nothing ends is a fault of the exporter. */
  lemma HandshakeEnds(named: bool, target: string, opts: Config.Options, w: World, layers: seq<Layer>)
    requires w.dialError.None? && !FirstKeyRefused(target, opts, w.events)
    ensures w.handshakeError == Some(Wrapped(Leaf(Abort), layers)) ==>
              var r := Outcome(named, target, opts, w);
              r.keyExchangeSuccess && r.errorPhase.None? && r.errorReason.None?
    ensures w.handshakeError.None? ==>
              var r := Outcome(named, target, opts, w);
              !r.keyExchangeSuccess && r.errorPhase == Some(KeyExchange) && r.errorReason == Some(UserAuthReached)
  {
    WrappedIs(Abort, layers, Abort);
    NotRefused(target, opts, w);
  }

  /** A host key that the known_hosts file `f` does not vouch for has the reason that the file gives, whatever became of the handshake. */
  lemma RefusedKey(named: bool, target: string, opts: Config.Options, w: World, f: KnownHosts.File, j: nat)
    requires w.dialError.None? && opts.hostKeyCallback.Some?
    requires forall addr, key :: Config.TrustsAs(f, opts.hostKeyCallback.value, addr, key)
    requires j < |w.events| && w.events[j].HostKeyOffered? && !Offered(w.events[..j])
    requires !f.Vouches(target, w.events[j].key)
    ensures var r := Outcome(named, target, opts, w);
            && r.errorPhase == Some(KeyExchange)
            && r.errorReason == Some(f.Refusal(target, w.events[j].key))
            && !r.success && !r.hostKeyVerifySuccess
  {
    VerdictIsOfFirst(target, opts, w.events);
    assert Config.TrustsAs(f, opts.hostKeyCallback.value, target, w.events[j].key);
  }

  /** With no callback configured, every host key is rejected. */
  lemma RejectedKey(named: bool, target: string, opts: Config.Options, w: World)
    requires w.dialError.None? && opts.hostKeyCallback.None? && Offered(w.events)
    ensures var r := Outcome(named, target, opts, w);
            r.errorPhase == Some(KeyExchange) && r.errorReason == Some(HostKeyRejected) && !r.hostKeyVerifySuccess
  {
    VerdictIsOfFirst(target, opts, w.events);
    var j := FirstOffer(w.events);
    KnownHosts.NoCallbackRejects(target, w.events[j].key);
  }

  /** The successes of the handshake's stages. */
  lemma HandshakeSuccesses(named: bool, target: string, opts: Config.Options, w: World)
    ensures var r := Outcome(named, target, opts, w);
            && r.versionExchangeSuccess == (w.dialError.None? && Scanner.HasSshLine(BytesOf(w.events)))
            && r.keyExchangeSuccess == (w.dialError.None? && w.handshakeError.Some? && Is(w.handshakeError.value, Abort))
            && r.hostKeyVerifySuccess == (w.dialError.None? && FirstKeyVerified(target, opts, w.events))
            && r.success == (r.keyExchangeSuccess && r.hostKeyVerifySuccess)
  {
    SeenIsLine(w.events);
    VerifiedIsFirst(target, opts, w.events);
  }

  /**
   * The version exchange lasts until the read that ends the identification string, the key
   * exchange from then until the transport last got ready.
   */
  lemma HandshakeTimes(named: bool, target: string, opts: Config.Options, w: World)
    requires w.dialError.None?
    ensures var r := Outcome(named, target, opts, w);
            && (forall i: nat :: Completes(w.events, i) ==> r.versionExchangeDuration == w.events[i].at - w.exchangeStart)
            && forall i: nat, j: nat :: Completes(w.events, i) && LastReady(w.events, j) ==>
                 r.keyExchangeDuration == if i < j then w.events[j].at - w.events[i].at else 0
  {
    forall i: nat | Completes(w.events, i)
      ensures ReceivedAt(w.events) == Some(w.events[i].at)
    {
      ReceivedWhenCompleted(w.events, i);
    }
    forall i: nat, j: nat | Completes(w.events, i) && LastReady(w.events, j)
      ensures KeyExchangeTime(w.events) == if i < j then w.events[j].at - w.events[i].at else 0
    {
      TimeIsBetween(w.events, i, j);
    }
  }

  /** The algorithms are those of the last time the transport got ready: the client writes towards the server and reads what comes from it. */
  lemma HandshakeAlgorithms(named: bool, target: string, opts: Config.Options, w: World)
    requires w.dialError.None?
    ensures var a := Outcome(named, target, opts, w).algorithms;
            && (!Ready(w.events) ==> a == Algorithms("", "", "", "", "", ""))
            && forall j: nat :: LastReady(w.events, j) ==>
                 var n := w.events[j].negotiated;
                 && a.kex == n.keyExchange && a.hostKey == n.hostKey
                 && a.encryptionClientToServer == n.write.cipher && a.macClientToServer == n.write.mac
                 && a.encryptionServerToClient == n.read.cipher && a.macServerToClient == n.read.mac
  {
    if !Ready(w.events) {
      NothingWithoutReady(w.events);
    }
    forall j: nat | LastReady(w.events, j)
      ensures Negotiated(w.events) == Named(w.events[j].negotiated)
    {
      NegotiatedByLast(w.events, j);
    }
  }
}
