/** Error values, as trees of wrapped causes, and the reasons the probe derives from them. */
module Errors {
  import opened Common

  import opened Bytes

  /** A public key in its wire encoding. */
  type Key = seq<byte>

  datatype Errno =
    | ECONNREFUSED | EHOSTUNREACH | ENETUNREACH | ECONNRESET | EPIPE
    | EAGAIN         // EWOULDBLOCK is the same number
    | ETIMEDOUT
    | OtherErrno

  datatype Kind =
    | Message                                   // a plain error, or a wrapper that only adds text
    | NetError(timeout: bool)                   // a net.Error with its Timeout()
    | Sys(errno: Errno)                         // a syscall.Errno, which is a net.Error too
    | DnsError(timeout: bool)                   // a *net.DNSError, likewise
    | Eof
    | UnexpectedEof
    | NegotiationError(what: string)            // *ssh.AlgorithmNegotiationError
    | KeyError(want: seq<Key>)                  // *knownhosts.KeyError
    | RevokedError(key: Key)                    // *knownhosts.RevokedError
    | HostCertificateInvalid                    // errHostCertificateInvalid
    | Abort                                     // errAbort

  datatype Error = Error(kind: Kind, causes: seq<Error>)

  function Leaf(kind: Kind): Error { Error(kind, []) }

  /** Every error that `errors.Is` and `errors.AsType` look at, in their order: depth first, outermost first. */
  function Chain(e: Error): seq<Kind>
    decreases e, 1
  {
    [e.kind] + Chains(e.causes)
  }

  function Chains(es: seq<Error>): seq<Kind>
    decreases es, 0
  {
    if es == [] then [] else Chain(es[0]) + Chains(es[1..])
  }

  /** `errors.Is` for a sentinel error. */
  predicate Is(e: Error, kind: Kind) { kind in Chain(e) }

  function FirstWhere(ks: seq<Kind>, p: Kind -> bool): (r: Option<Kind>)
    ensures r.Some? ==> p(r.value) && r.value in ks
    ensures r.None? ==> forall k :: k in ks ==> !p(k)
  {
    if ks == [] then None else if p(ks[0]) then Some(ks[0]) else FirstWhere(ks[1..], p)
  }

  /** `errors.AsType`: the first error of the wanted type. */
  function As(e: Error, p: Kind -> bool): (r: Option<Kind>)
    ensures r.Some? ==> p(r.value)
  {
    FirstWhere(Chain(e), p)
  }

  predicate IsKeyError(k: Kind) { k.KeyError? }
  predicate IsRevokedError(k: Kind) { k.RevokedError? }
  predicate IsNetError(k: Kind) { k.NetError? || k.Sys? || k.DnsError? }
  predicate IsDnsError(k: Kind) { k.DnsError? }
  predicate IsNegotiationError(k: Kind) { k.NegotiationError? }

  predicate Timeout(k: Kind)
    requires IsNetError(k)
  {
    match k
    case NetError(t) => t
    case DnsError(t) => t
    case Sys(no) => no in {EAGAIN, ETIMEDOUT}
  }

  datatype Reason =
    | ConnectionRefused | NoRouteToHost | NetworkUnreachable | DnsFailure | ConnectionReset
    | HostKeyUnknown | HostKeyMismatch | HostKeyRevoked | HostKeyRejected | CertificateInvalid
    | TimedOut | Canceled | UserAuthReached
    | NoCommonKex | NoCommonHostKey | NoCommonCipher | NoCommonMac | NoCommonAlgorithm
    | Other

  datatype ContextError = NotDone | DeadlineExceeded | ContextCanceled

  function ClassifyContext(ctx: ContextError): Option<Reason> {
    match ctx
    case DeadlineExceeded => Some(TimedOut)
    case ContextCanceled => Some(Canceled)
    case NotDone => None
  }

  function ClassifyDial(ctx: ContextError, e: Error): Reason {
    var net := As(e, IsNetError);
    if ClassifyContext(ctx).Some? then ClassifyContext(ctx).value
    else if net.Some? && Timeout(net.value) then TimedOut
    else if Is(e, Sys(ECONNREFUSED)) then ConnectionRefused
    else if Is(e, Sys(EHOSTUNREACH)) then NoRouteToHost
    else if Is(e, Sys(ENETUNREACH)) then NetworkUnreachable
    else if Is(e, Sys(ECONNRESET)) then ConnectionReset
    else if As(e, IsDnsError).Some? then DnsFailure
    else Other
  }

  function ClassifyNegotiation(what: string): Reason {
    if what == "key exchange" then NoCommonKex
    else if what == "host key" then NoCommonHostKey
    else if what == "client to server cipher" || what == "server to client cipher" then NoCommonCipher
    else if what == "client to server MAC" || what == "server to client MAC" then NoCommonMac
    else NoCommonAlgorithm
  }

  function ClassifyKex(ctx: ContextError, e: Error): Reason {
    var neg := As(e, IsNegotiationError);
    var net := As(e, IsNetError);
    if ClassifyContext(ctx).Some? then ClassifyContext(ctx).value
    else if neg.Some? then ClassifyNegotiation(neg.value.what)
    else if net.Some? && Timeout(net.value) then TimedOut
    else if Is(e, Eof) || Is(e, UnexpectedEof) || Is(e, Sys(ECONNRESET)) || Is(e, Sys(EPIPE)) then ConnectionReset
    else Other
  }

  // ---- Layers around a cause ----

  /**
   * What may lie around an error: text added by `fmt.Errorf`, an `*os.SyscallError`, or the
   * `*net.OpError` in which the network packages return every failure.
   */
  datatype Layer = Text | Syscall | Op

  /** Whether the error itself, not one that it wraps, has a Timeout method that says so. */
  predicate OwnTimeout(k: Kind) { IsNetError(k) && Timeout(k) }

  /** What Timeout says through `layers`, outermost first: added text has no such method, the others ask the error inside. */
  predicate TimeoutThrough(e: Error, layers: seq<Layer>) {
    if layers == [] then OwnTimeout(e.kind) else !layers[0].Text? && TimeoutThrough(e, layers[1..])
  }

  /** `e` inside `layers`. Only an `*net.OpError` is a net.Error. */
  function Wrapped(e: Error, layers: seq<Layer>): Error {
    if layers == [] then e
    else Error(if layers[0].Op? then NetError(TimeoutThrough(e, layers[1..])) else Message,
               [Wrapped(e, layers[1..])])
  }

  /** Some text lies inside an `*net.OpError`. */
  predicate TextUnderOp(layers: seq<Layer>) {
    exists i, j :: 0 <= i < j < |layers| && layers[i].Op? && layers[j].Text?
  }

  /** Whether classifying takes `e` for a timeout: the outermost net.Error says so. */
  predicate TimesOut(e: Error) {
    var net := As(e, IsNetError);
    net.Some? && Timeout(net.value)
  }

  /** The layers keep the timeout of `e` from showing: an `*net.OpError` comes first, and cannot ask it. */
  predicate Hides(layers: seq<Layer>, e: Error) {
    TimesOut(e) && Op in layers && (TextUnderOp(layers) || !OwnTimeout(e.kind))
  }

  lemma ChainOfOne(k: Kind, e: Error)
    ensures Chain(Error(k, [e])) == [k] + Chain(e)
  {
    var es := [e];
    assert es[1..] == [];
    assert Chains(es) == Chain(e) + [] == Chain(e);
  }

  lemma {:induction false} WrappedChain(e: Error, layers: seq<Layer>, p: Kind -> bool, k: Kind)
    requires !p(Message) && (forall t :: !p(NetError(t)))
    requires k != Message && !k.NetError?
    ensures As(Wrapped(e, layers), p) == As(e, p)
    ensures Is(Wrapped(e, layers), k) == Is(e, k)
  {
    if layers != [] {
      var inner := Wrapped(e, layers[1..]);
      ChainOfOne(Wrapped(e, layers).kind, inner);
      assert ([Wrapped(e, layers).kind] + Chain(inner))[1..] == Chain(inner);
      WrappedChain(e, layers[1..], p, k);
    }
  }

  lemma {:induction false} TimeoutGoesThrough(e: Error, layers: seq<Layer>)
    ensures TimeoutThrough(e, layers) <==> OwnTimeout(e.kind) && Text !in layers
  {
    if layers != [] {
      TimeoutGoesThrough(e, layers[1..]);
      assert Text in layers <==> layers[0] == Text || Text in layers[1..];
    }
  }

  lemma TextUnderFirst(layers: seq<Layer>)
    requires layers != []
    ensures TextUnderOp(layers) <==> (layers[0].Op? && Text in layers[1..]) || TextUnderOp(layers[1..])
    ensures Op in layers <==> layers[0].Op? || Op in layers[1..]
  {
    var rest := layers[1..];
    if TextUnderOp(layers) {
      var i, j :| 0 <= i < j < |layers| && layers[i].Op? && layers[j].Text?;
      assert layers[j] == rest[j - 1];
      if i > 0 { assert rest[i - 1].Op? && rest[j - 1].Text?; }
    }
    if layers[0].Op? && Text in rest {
      var j :| 0 <= j < |rest| && rest[j].Text?;
      assert layers[0].Op? && layers[j + 1].Text?;
    }
    if TextUnderOp(rest) {
      var i, j :| 0 <= i < j < |rest| && rest[i].Op? && rest[j].Text?;
      assert layers[i + 1].Op? && layers[j + 1].Text?;
    }
  }

  lemma {:induction false} WrappedTimesOut(e: Error, layers: seq<Layer>)
    ensures TimesOut(Wrapped(e, layers)) <==>
            if Op in layers then OwnTimeout(e.kind) && !TextUnderOp(layers) else TimesOut(e)
  {
    if layers != [] {
      var rest := layers[1..];
      var w, inner := Wrapped(e, layers), Wrapped(e, rest);
      ChainOfOne(w.kind, inner);
      assert ([w.kind] + Chain(inner))[1..] == Chain(inner);
      TextUnderFirst(layers);
      if layers[0].Op? {
        TimeoutGoesThrough(e, rest);
        assert As(w, IsNetError) == Some(w.kind);
        assert TextUnderOp(rest) ==> Text in rest;
      } else {
        WrappedTimesOut(e, rest);
      }
    }
  }

  lemma OwnTimeoutTimesOut(e: Error)
    ensures OwnTimeout(e.kind) ==> TimesOut(e)
  {
    assert Chain(e)[0] == e.kind;
  }

  /** Layers change the reason of a failed dial exactly when they hide a timeout that nothing outranks. */
  lemma WrappingKeepsDialReason(ctx: ContextError, e: Error, layers: seq<Layer>)
    ensures ClassifyDial(ctx, Wrapped(e, layers)) == ClassifyDial(ctx, e)
       <==> !(ctx.NotDone? && Hides(layers, e))
  {
    WrappedTimesOut(e, layers);
    OwnTimeoutTimesOut(e);
    WrappedChain(e, layers, IsDnsError, Sys(ECONNREFUSED));
    WrappedChain(e, layers, IsDnsError, Sys(EHOSTUNREACH));
    WrappedChain(e, layers, IsDnsError, Sys(ENETUNREACH));
    WrappedChain(e, layers, IsDnsError, Sys(ECONNRESET));
  }

  /** The same for the reason of a failed handshake, where a failed negotiation outranks a timeout. */
  lemma WrappingKeepsKexReason(ctx: ContextError, e: Error, layers: seq<Layer>)
    ensures ClassifyKex(ctx, Wrapped(e, layers)) == ClassifyKex(ctx, e)
       <==> !(ctx.NotDone? && As(e, IsNegotiationError).None? && Hides(layers, e))
  {
    WrappedTimesOut(e, layers);
    OwnTimeoutTimesOut(e);
    WrappedChain(e, layers, IsNegotiationError, Eof);
    WrappedChain(e, layers, IsNegotiationError, UnexpectedEof);
    WrappedChain(e, layers, IsNegotiationError, Sys(ECONNRESET));
    WrappedChain(e, layers, IsNegotiationError, Sys(EPIPE));
  }

  lemma LeafQueries(k: Kind, p: Kind -> bool)
    ensures Chain(Leaf(k)) == [k]
    ensures As(Leaf(k), p) == if p(k) then Some(k) else None
  {
    assert Chain(Leaf(k)) == [k];
    assert [k][1..] == [];
  }

  /** The documented reason for each cause of a failed dial. */
  function DialReasonOf(k: Kind): Reason {
    match k
    case NetError(true) => TimedOut
    case DnsError(timeout) => if timeout then TimedOut else DnsFailure
    case Sys(ECONNREFUSED) => ConnectionRefused
    case Sys(EHOSTUNREACH) => NoRouteToHost
    case Sys(ENETUNREACH) => NetworkUnreachable
    case Sys(ECONNRESET) => ConnectionReset
    case Sys(EAGAIN) => TimedOut
    case Sys(ETIMEDOUT) => TimedOut
    case _ => Reason.Other
  }

  /** The documented reason for each list that may have nothing in common with the server's. */
  const NO_COMMON: map<string, Reason> := map[
    "key exchange" := NoCommonKex,
    "host key" := NoCommonHostKey,
    "client to server cipher" := NoCommonCipher,
    "server to client cipher" := NoCommonCipher,
    "client to server MAC" := NoCommonMac,
    "server to client MAC" := NoCommonMac]

  function NegotiationReasonOf(list: string): Reason {
    if list in NO_COMMON then NO_COMMON[list] else NoCommonAlgorithm
  }

  /** The documented reason for each cause of a failed handshake. */
  function KexReasonOf(k: Kind): Reason {
    match k
    case NetError(true) => TimedOut
    case DnsError(true) => TimedOut
    case Sys(EAGAIN) => TimedOut
    case Sys(ETIMEDOUT) => TimedOut
    case Sys(ECONNRESET) => ConnectionReset
    case Sys(EPIPE) => ConnectionReset
    case Eof => ConnectionReset
    case UnexpectedEof => ConnectionReset
    case NegotiationError(list) => NegotiationReasonOf(list)
    case _ => Reason.Other
  }

  /** The reason that the state of the context imposes, or else `reason`. */
  function Unless(ctx: ContextError, reason: Reason): Reason {
    match ctx
    case DeadlineExceeded => TimedOut
    case ContextCanceled => Canceled
    case NotDone => reason
  }

  /**
   * Each cause gets its documented reason inside any layers, unless the context has ended,
   * which outranks it; but for a timeout that text inside an `*net.OpError` hides.
   */
  lemma DialReasons(ctx: ContextError, k: Kind, layers: seq<Layer>)
    ensures ClassifyDial(ctx, Wrapped(Leaf(k), layers)) == Unless(ctx, DialReasonOf(k))
       <==> !(ctx.NotDone? && OwnTimeout(k) && TextUnderOp(layers))
  {
    WrappingKeepsDialReason(ctx, Leaf(k), layers);
    LeafQueries(k, IsNetError);
    LeafQueries(k, IsDnsError);
    assert TextUnderOp(layers) ==> Op in layers;
    assert ClassifyDial(ctx, Leaf(k)) == Unless(ctx, DialReasonOf(k));
  }

  /** The names under which the SSH library reports a list are those of the table, and any other is still a failed negotiation. */
  lemma NegotiationReasons(list: string)
    ensures ClassifyNegotiation(list) == NegotiationReasonOf(list)
  {
  }

  lemma KexReasonOfLeaf(k: Kind)
    ensures ClassifyKex(NotDone, Leaf(k)) == KexReasonOf(k)
  {
    LeafQueries(k, IsNetError);
    LeafQueries(k, IsNegotiationError);
    if k.NegotiationError? {
      NegotiationReasons(k.what);
    }
  }

  lemma KexReasons(ctx: ContextError, k: Kind, layers: seq<Layer>)
    ensures ClassifyKex(ctx, Wrapped(Leaf(k), layers)) == Unless(ctx, KexReasonOf(k))
       <==> !(ctx.NotDone? && OwnTimeout(k) && TextUnderOp(layers))
  {
    WrappingKeepsKexReason(ctx, Leaf(k), layers);
    LeafQueries(k, IsNetError);
    LeafQueries(k, IsNegotiationError);
    KexReasonOfLeaf(k);
    assert TextUnderOp(layers) ==> Op in layers;
  }

  /** The layers that the dialer itself puts around a cause hide nothing. */
  lemma DialerReasons(ctx: ContextError, k: Kind)
    ensures ClassifyDial(ctx, Wrapped(Leaf(k), [Op])) == Unless(ctx, DialReasonOf(k))
    ensures ClassifyDial(ctx, Wrapped(Leaf(k), [Op, Syscall])) == Unless(ctx, DialReasonOf(k))
  {
    DialReasons(ctx, k, [Op]);
    DialReasons(ctx, k, [Op, Syscall]);
  }

  /** Nor do the layers of a handshake's errors: the SSH library's text comes outermost. */
  lemma HandshakeReasons(ctx: ContextError, k: Kind)
    ensures ClassifyKex(ctx, Wrapped(Leaf(k), [Text])) == Unless(ctx, KexReasonOf(k))
    ensures ClassifyKex(ctx, Wrapped(Leaf(k), [Text, Op])) == Unless(ctx, KexReasonOf(k))
    ensures ClassifyKex(ctx, Wrapped(Leaf(k), [Text, Op, Syscall])) == Unless(ctx, KexReasonOf(k))
  {
    KexReasons(ctx, k, [Text]);
    KexReasons(ctx, k, [Text, Op]);
    KexReasons(ctx, k, [Text, Op, Syscall]);
  }

  /**
   * Text inside an `*net.OpError` would keep every timeout below it from being classified as
   * one. The errors of the dialer and the handshake do not have this shape.
   */
  lemma TextHidesTimeout(k: Kind, layers: seq<Layer>)
    requires OwnTimeout(k) && TextUnderOp(layers)
    ensures DialReasonOf(k) == KexReasonOf(k) == TimedOut
    ensures ClassifyDial(NotDone, Wrapped(Leaf(k), layers)) != TimedOut
    ensures ClassifyKex(NotDone, Wrapped(Leaf(k), layers)) != TimedOut
  {
    DialReasons(NotDone, k, layers);
    KexReasons(NotDone, k, layers);
  }

  /** A kernel timeout under one layer of each. */
  lemma HiddenTimeout() returns (k: Kind, layers: seq<Layer>)
    ensures k == Sys(ETIMEDOUT) && layers == [Op, Text]
    ensures ClassifyDial(NotDone, Wrapped(Leaf(k), layers)) != DialReasonOf(k)
  {
    layers := [Op, Text];
    k := Sys(ETIMEDOUT);
    assert layers[0].Op? && layers[1].Text?;
    TextHidesTimeout(k, layers);
  }
}
