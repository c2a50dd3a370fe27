/** What every probe's result satisfies, given how the SSH library and the clock behave. */
module Phases {
  import opened Common
  import opened Bytes
  import opened Errors
  import opened Probe
  import Config
  import Identification
  import KnownHosts
  import Scanner

  // ---- The world's rules ----

  predicate Offered(events: seq<Event>) { exists j :: 0 <= j < |events| && events[j].HostKeyOffered? }

  predicate Ready(events: seq<Event>) { exists j :: 0 <= j < |events| && events[j].TransportReady? }

  /** What is assumed of the network and SSH libraries. */
  predicate Rules(w: World) {
    // A connection comes of an attempt.
    && (w.dialError.None? ==> w.connects != [])
    // The identification string is read before any key exchange callback, and before the handshake can succeed.
    && (forall i :: 0 <= i < |w.events| && !w.events[i].BytesRead? ==> Seen(w.events[..i]).Received?)
    && (w.handshakeError.None? ==> Seen(w.events).Received?)
    // The host key is checked before the transport layer is ready.
    && (forall i :: 0 <= i < |w.events| && w.events[i].TransportReady? ==> Offered(w.events[..i]))
    // The abort that TransportReadyCallback returns is what ends the handshake, and comes from nowhere else.
    && (Aborted(w) <==> Ready(w.events))
  }

  /** Time does not run backwards. */
  predicate Clock(w: World) {
    && w.start <= w.dialStart <= w.dialEnd <= w.exchangeStart <= w.end
    && (w.connects != [] ==> w.dialStart <= w.connects[0] <= w.dialEnd)
    && (forall i :: 0 <= i < |w.events| ==> w.exchangeStart <= w.events[i].at <= w.end)
    && (forall i, j :: 0 <= i < j < |w.events| ==> w.events[i].at <= w.events[j].at)
  }

  // ---- What the events leave behind ----

  lemma {:induction false} SeenStays(events: seq<Event>, i: nat)
    requires i <= |events| && Seen(events[..i]).Received?
    ensures Seen(events).Received? && ReceivedAt(events) == ReceivedAt(events[..i])
    decreases |events|
  {
    if i == |events| {
      assert events[..i] == events;
    } else {
      var init := events[..|events| - 1];
      assert init[..i] == events[..i];
      SeenStays(init, i);
      assert ReceivedAt(events) == ReceivedAt(init);
    }
  }

  lemma {:induction false} VerdictIsOfFirst(target: string, opts: Config.Options, events: seq<Event>)
    ensures FirstVerdict(target, opts, events).Some? <==> Offered(events)
    ensures forall j :: 0 <= j < |events| && events[j].HostKeyOffered? && !Offered(events[..j]) ==>
              FirstVerdict(target, opts, events) == Some(CheckHostKey(opts, target, events[j].key))
  {
    if events != [] {
      var init := events[..|events| - 1];
      VerdictIsOfFirst(target, opts, init);
      assert Offered(init) ==> Offered(events) by {
        if Offered(init) {
          var j :| 0 <= j < |init| && init[j].HostKeyOffered?;
          assert events[j].HostKeyOffered?;
        }
      }
      forall j | 0 <= j < |events| && events[j].HostKeyOffered? && !Offered(events[..j])
        ensures FirstVerdict(target, opts, events) == Some(CheckHostKey(opts, target, events[j].key))
      {
        if j < |init| {
          assert init[..j] == events[..j] && init[j] == events[j];
        }
      }
    }
  }

  lemma {:induction false} NothingWithoutReady(events: seq<Event>)
    requires !Ready(events)
    ensures Negotiated(events) == NO_ALGORITHMS && KeyExchangeTime(events) == 0
  {
    if events != [] {
      var init := events[..|events| - 1];
      assert forall j :: 0 <= j < |init| ==> init[j] == events[j];
      NothingWithoutReady(init);
    }
  }

  /** Under the rules, each stage of the handshake implies the ones before it. */
  lemma StagesNest(target: string, opts: Config.Options, w: World)
    requires Rules(w)
    ensures var h := After(target, opts, w.events);
            && (Aborted(w) ==> h.hostKey.Some?)
            && (h.hostKey.Some? ==> h.receivedAt.Some?)
            && (!Aborted(w) ==> h.algorithms == NO_ALGORITHMS && h.keyExchangeDuration == 0)
  {
    VerdictIsOfFirst(target, opts, w.events);
    if Aborted(w) {
      var i :| 0 <= i < |w.events| && w.events[i].TransportReady?;
      var j :| 0 <= j < i && w.events[..i][j].HostKeyOffered?;
      assert w.events[j].HostKeyOffered?;
    } else {
      NothingWithoutReady(w.events);
    }
    if Offered(w.events) {
      var j :| 0 <= j < |w.events| && w.events[j].HostKeyOffered?;
      SeenStays(w.events, j);
    }
  }

  // ---- Success and error ----

  /** Phase and reason are set together; whether they and success exclude each other depends on one thing only. */
  lemma SuccessOrErrorExactly(named: bool, target: string, opts: Config.Options, w: World)
    ensures var r := Outcome(named, target, opts, w);
            && (r.errorPhase.Some? <==> r.errorReason.Some?)
            && (r.success ==> r.errorPhase.None?)
            && ((r.success <==> r.errorPhase.None?)
                <==> !(w.dialError.None? && Aborted(w) && !Offered(w.events)))
  {
    VerdictIsOfFirst(target, opts, w.events);
  }

  /** The first host key offered passes verification. */
  predicate FirstKeyVerified(target: string, opts: Config.Options, events: seq<Event>) {
    exists j :: && 0 <= j < |events|
                && events[j].HostKeyOffered?
                && !Offered(events[..j])
                && KnownHosts.VerifyHostKey(Callback(opts), target, events[j].key).None?
  }

  /** Under the rules there is success exactly when there is no error, and exactly for a completed key exchange with a verified first host key. */
  lemma SuccessMeans(named: bool, target: string, opts: Config.Options, w: World)
    requires Rules(w)
    ensures var r := Outcome(named, target, opts, w);
            && (r.success <==> r.errorPhase.None? && r.errorReason.None?)
            && (!r.success <==> r.errorPhase.Some? && r.errorReason.Some?)
            && (r.success <==> w.dialError.None? && Ready(w.events) && FirstKeyVerified(target, opts, w.events))
  {
    SuccessOrErrorExactly(named, target, opts, w);
    StagesNest(target, opts, w);
    VerdictIsOfFirst(target, opts, w.events);
    if Offered(w.events) {
      var j := FirstOffer(w.events);
      assert FirstVerdict(target, opts, w.events) == Some(CheckHostKey(opts, target, w.events[j].key));
    }
  }

  lemma {:induction false} FirstOffer(events: seq<Event>) returns (j: nat)
    requires Offered(events)
    ensures j < |events| && events[j].HostKeyOffered? && !Offered(events[..j])
  {
    j :| 0 <= j < |events| && events[j].HostKeyOffered?;
    if Offered(events[..j]) {
      var before := events[..j];
      j := FirstOffer(before);
      assert before[..j] == events[..j];
    }
  }

  /** The two streams with and without the event `again` shrink alike. */
  lemma WithoutLast(a: seq<Event>, again: Event, b: seq<Event>)
    ensures b != [] ==>
              var (e, f, init) := (a + [again] + b, a + b, b[..|b| - 1]);
              && e[..|e| - 1] == a + [again] + init && f[..|f| - 1] == a + init
              && e[|e| - 1] == f[|f| - 1] == b[|b| - 1]
    ensures b == [] ==> a + b == a && (a + [again] + b)[..|a|] == a && |a + [again] + b| == |a| + 1
  {
  }

  lemma {:induction false} BytesSkip(a: seq<Event>, again: Event, b: seq<Event>)
    requires again.HostKeyOffered?
    ensures BytesOf(a + [again] + b) == BytesOf(a + b)
    decreases |b|
  {
    WithoutLast(a, again, b);
    if b == [] {
      assert BytesOf(a) + [] == BytesOf(a);
    } else {
      BytesSkip(a, again, b[..|b| - 1]);
    }
  }

  lemma {:induction false} ReceivedSkip(a: seq<Event>, again: Event, b: seq<Event>)
    requires again.HostKeyOffered?
    ensures ReceivedAt(a + [again] + b) == ReceivedAt(a + b)
    decreases |b|
  {
    WithoutLast(a, again, b);
    BytesSkip(a, again, b);
    if b != [] {
      BytesSkip(a, again, b[..|b| - 1]);
      ReceivedSkip(a, again, b[..|b| - 1]);
    }
  }

  lemma {:induction false} TimeSkip(a: seq<Event>, again: Event, b: seq<Event>)
    requires again.HostKeyOffered?
    ensures KeyExchangeTime(a + [again] + b) == KeyExchangeTime(a + b)
    ensures Negotiated(a + [again] + b) == Negotiated(a + b)
    decreases |b|
  {
    WithoutLast(a, again, b);
    if b != [] {
      ReceivedSkip(a, again, b[..|b| - 1]);
      TimeSkip(a, again, b[..|b| - 1]);
    }
  }

  lemma VerdictSkip(target: string, opts: Config.Options, a: seq<Event>, again: Event, b: seq<Event>)
    requires Offered(a)
    ensures FirstVerdict(target, opts, a + [again] + b) == FirstVerdict(target, opts, a + b)
  {
    var e, f := a + [again] + b, a + b;
    var j := FirstOffer(a);
    assert e[j] == f[j] == a[j] && e[..j] == f[..j] == a[..j];
    VerdictIsOfFirst(target, opts, e);
    VerdictIsOfFirst(target, opts, f);
  }

  lemma HandshakeSkip(target: string, opts: Config.Options, a: seq<Event>, again: Event, b: seq<Event>)
    requires Offered(a) && again.HostKeyOffered?
    ensures After(target, opts, a + [again] + b) == After(target, opts, a + b)
  {
    BytesSkip(a, again, b);
    ReceivedSkip(a, again, b);
    TimeSkip(a, again, b);
    VerdictSkip(target, opts, a, again, b);
  }

  /** The events matter to the result only by what they leave behind. */
  lemma OutcomeOfHandshake(named: bool, target: string, opts: Config.Options, w: World, events: seq<Event>)
    requires After(target, opts, events) == After(target, opts, w.events)
    ensures Outcome(named, target, opts, w.(events := events)) == Outcome(named, target, opts, w)
  {
  }

  /** A host key offered again, as in a later key exchange, changes nothing. */
  lemma LaterOffersAreIgnored(named: bool, target: string, opts: Config.Options, w: World,
                              a: seq<Event>, again: Event, b: seq<Event>)
    requires w.events == a + b && Offered(a) && again.HostKeyOffered?
    ensures Outcome(named, target, opts, w.(events := a + [again] + b)) == Outcome(named, target, opts, w)
  {
    HandshakeSkip(target, opts, a, again, b);
    OutcomeOfHandshake(named, target, opts, w, a + [again] + b);
  }

  // ---- Phases ----

  /** How far the probe got. */
  function LastPhase(named: bool, w: World): Phase {
    if named && w.connects == [] then DnsLookup
    else if w.dialError.Some? then TcpConnect
    else if Seen(w.events).Watching? then VersionExchange
    else KeyExchange
  }

  /** Each phase's success implies that of the phases before, and an error is blamed on the last phase reached. */
  lemma PhasesInOrder(named: bool, target: string, opts: Config.Options, w: World)
    requires Rules(w)
    ensures var r := Outcome(named, target, opts, w);
            && r.dnsLookup == named
            && (r.tcpConnectSuccess && r.dnsLookup ==> r.dnsLookupSuccess)
            && (r.versionExchangeSuccess ==> r.tcpConnectSuccess)
            && (r.hostKeyVerifySuccess ==> r.versionExchangeSuccess)
            && (r.keyExchangeSuccess ==> r.versionExchangeSuccess)
            && (r.algorithms != NO_ALGORITHMS ==> r.keyExchangeSuccess)
            && (r.errorPhase.Some? ==> r.errorPhase.value == LastPhase(named, w))
            && (r.success ==> r.keyExchangeSuccess && r.hostKeyVerifySuccess && LastPhase(named, w) == KeyExchange)
  {
    StagesNest(target, opts, w);
  }

  /** The first host key offered does not pass verification. */
  predicate FirstKeyRefused(target: string, opts: Config.Options, events: seq<Event>) {
    exists j :: && 0 <= j < |events|
                && events[j].HostKeyOffered?
                && !Offered(events[..j])
                && KnownHosts.VerifyHostKey(Callback(opts), target, events[j].key).Some?
  }

  lemma RefusedIsFirst(target: string, opts: Config.Options, events: seq<Event>)
    ensures HostKeyRefused(After(target, opts, events)) <==> FirstKeyRefused(target, opts, events)
  {
    VerdictIsOfFirst(target, opts, events);
    if Offered(events) {
      var j := FirstOffer(events);
      assert FirstVerdict(target, opts, events) == Some(CheckHostKey(opts, target, events[j].key));
    }
  }

  lemma VerifiedIsFirst(target: string, opts: Config.Options, events: seq<Event>)
    ensures Verified(After(target, opts, events)) <==> FirstKeyVerified(target, opts, events)
  {
    VerdictIsOfFirst(target, opts, events);
    if Offered(events) {
      var j := FirstOffer(events);
      assert FirstVerdict(target, opts, events) == Some(CheckHostKey(opts, target, events[j].key));
    }
  }

  /** The transport got ready, and yet the probe fails, over its host key. */
  predicate RefusedThoughReady(target: string, opts: Config.Options, w: World) {
    w.dialError.None? && Ready(w.events) && FirstKeyRefused(target, opts, w.events)
  }

  /** Whether a phase has succeeded. */
  predicate Succeeded(r: Report, p: Phase) {
    match p
    case DnsLookup => r.dnsLookupSuccess
    case TcpConnect => r.tcpConnectSuccess
    case VersionExchange => r.versionExchangeSuccess
    case KeyExchange => r.keyExchangeSuccess
  }

  function Rank(p: Phase): nat {
    match p case DnsLookup => 0 case TcpConnect => 1 case VersionExchange => 2 case KeyExchange => 3
  }

  /** Neither the phase that an error is blamed on nor a later one has succeeded, unless the key was refused though the transport got ready. */
  lemma FailedPhases(named: bool, target: string, opts: Config.Options, w: World)
    requires Rules(w)
    ensures var r := Outcome(named, target, opts, w);
            && (RefusedThoughReady(target, opts, w) ==> r.errorPhase == Some(KeyExchange) && r.keyExchangeSuccess)
            && (r.errorPhase.Some? && !RefusedThoughReady(target, opts, w) ==>
                  && (forall p :: Rank(r.errorPhase.value) <= Rank(p) ==> !Succeeded(r, p))
                  && (Rank(r.errorPhase.value) < Rank(KeyExchange) ==> !r.hostKeyVerifySuccess))
  {
    StagesNest(target, opts, w);
    RefusedIsFirst(target, opts, w.events);
  }

  /** A probe, with no callback to verify the key, that is refused after the transport got ready. */
  lemma RefusedWorld() returns (opts: Config.Options, w: World)
    ensures Rules(w) && Clock(w)
    ensures forall target :: RefusedThoughReady(target, opts, w)
  {
    opts := Config.Options(None, [], [], [], [], false);
    var e0 := BytesRead(SSH + [LF], 2);
    var e1 := HostKeyOffered(KnownHosts.HostKey([1]), 3);
    var e2 := TransportReady(NegotiatedAlgorithms("", "", DirectionAlgorithms("", ""), DirectionAlgorithms("", "")), 4);
    w := World(0, 0, [0], None, 1, None, 1, [e0, e1, e2], Some(Leaf(Abort)), 5, NotDone, NotDone);
    LineIsSeen(e0, w.events);
    assert w.events[..2][1] == e1;
    assert w.events[2].TransportReady?;
    assert Chain(Leaf(Abort)) == [Abort];
    forall target ensures FirstKeyRefused(target, opts, w.events) {
      assert w.events[..1] == [e0] && !Offered([e0]);
      KnownHosts.NoCallbackRejects(target, e1.key);
      assert w.events[1].HostKeyOffered?;
    }
  }

  lemma LineIsSeen(first: Event, events: seq<Event>)
    requires first.BytesRead? && first.chunk == SSH + [LF]
    requires |events| >= 1 && events[0] == first
    ensures forall i :: 1 <= i <= |events| ==> Seen(events[..i]).Received?
  {
    var s := first.chunk;
    assert s[0..4] == SSH;
    assert Scanner.SshLineAt(s, 0, 4);
    Scanner.ScanMeaning(s);
    assert events[..1] == [first];
    assert [first][..0] == [];
    assert BytesOf([first]) == s;
    forall i | 1 <= i <= |events|
      ensures Seen(events[..i]).Received?
    {
      assert events[..i][..1] == [first];
      SeenStays(events[..i], 1);
    }
  }

  // ---- Times ----

  lemma {:induction false} ReceivedInTime(events: seq<Event>, from: int, to: int)
    requires forall i :: 0 <= i < |events| ==> from <= events[i].at <= to
    ensures ReceivedAt(events).Some? ==> from <= ReceivedAt(events).value <= to
  {
    if events != [] {
      var init := events[..|events| - 1];
      assert forall i :: 0 <= i < |init| ==> init[i] == events[i];
      ReceivedInTime(init, from, to);
    }
  }

  lemma {:induction false} ExchangeFits(events: seq<Event>, from: int, to: int)
    requires from <= to
    requires forall i :: 0 <= i < |events| ==> from <= events[i].at <= to
    requires forall i, j :: 0 <= i < j < |events| ==> events[i].at <= events[j].at
    ensures 0 <= KeyExchangeTime(events)
    ensures ReceivedAt(events).Some? ==> from <= ReceivedAt(events).value && ReceivedAt(events).value + KeyExchangeTime(events) <= to
    ensures ReceivedAt(events).None? ==> KeyExchangeTime(events) == 0
  {
    if events != [] {
      var last := |events| - 1;
      var init := events[..last];
      assert forall i :: 0 <= i < |init| ==> init[i] == events[i];
      ExchangeFits(init, from, to);
      ReceivedInTime(events, from, to);
      if init != [] { ReceivedInTime(init, from, events[last].at); }
      if ReceivedAt(init).Some? {
        assert init == events[..last];
        SeenStays(events, last);
      }
    }
  }

  /** No duration is negative, and together the phases fit in the probe's duration. */
  lemma PhasesFitInDuration(named: bool, target: string, opts: Config.Options, w: World)
    requires Rules(w) && Clock(w)
    ensures var r := Outcome(named, target, opts, w);
            && 0 <= r.dnsLookupDuration && 0 <= r.tcpConnectDuration
            && 0 <= r.versionExchangeDuration && 0 <= r.keyExchangeDuration
            && r.dnsLookupDuration + r.tcpConnectDuration + r.versionExchangeDuration + r.keyExchangeDuration
               <= r.duration
  {
    ExchangeFits(w.events, w.exchangeStart, w.end);
  }

  // ---- The identification string ----

  /**
   * What is exported is what parsing the first whole "SSH-" line of the stream gives, with
   * no cap and however the reads were cut; and nothing if there is no such line.
   */
  lemma ExportsFirstLine(named: bool, target: string, opts: Config.Options, w: World)
    requires w.dialError.None?
    ensures var r := Outcome(named, target, opts, w);
            var s := BytesOf(w.events);
            && (r.versionExchangeSuccess <==> Scanner.HasSshLine(s))
            && (!Scanner.HasSshLine(s) ==> r.identification == Identification.NO_IDENTIFICATION)
            && forall i: nat, j: nat :: Scanner.FirstSshLine(s, i, j) ==>
                 r.identification == match Identification.Parse(TrimCr(s[i..j]))
                                     case Failure(_) => Identification.NO_IDENTIFICATION
                                     case Success(id) =>
                                       if opts.stripComments then Identification.WithoutComments(id) else id
  {
    var s := BytesOf(w.events);
    var rest: seq<seq<byte>> := [s][1..];
    assert rest == [];
    assert Scanner.Concat([s]) == s;
    assert Scanner.ScanChunks(Scanner.START, [s]) == Seen(w.events) by {
      Scanner.ChunkingIsIrrelevant(Scanner.START, [s]);
    }
    Scanner.ReceivedExactly([s]);
    forall i: nat, j: nat | Scanner.FirstSshLine(s, i, j)
      ensures Identification.Parse(Seen(w.events).identification) == Identification.Parse(TrimCr(s[i..j]))
    {
      Identification.BoundedScanRefinesUnbounded([s], i, j);
    }
  }
}
