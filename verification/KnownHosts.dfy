/** Host key verification against a known_hosts file. */
module KnownHosts {
  import opened Common
  import opened Errors

  /** What the server presents: a plain host key, or an SSH host certificate. */
  datatype PublicKey =
    | HostKey(key: Key)
    | Certificate(
        key: Key,                 // the host key inside
        ca: Key,                  // the key that signed it
        signatureFormat: string,  // the CA's signature algorithm
        acceptable: bool)         // type, principals, validity period, options and signature check out

  /** Called with the dialled address and the server's key; None is Go's nil error. */
  type HostKeyCallback = (string, PublicKey) -> Option<Error>

  const CA_SIGNATURE_ALGORITHMS := [
    "ssh-ed25519",
    "ecdsa-sha2-nistp256", "ecdsa-sha2-nistp384", "ecdsa-sha2-nistp521",
    "sk-ssh-ed25519@openssh.com", "sk-ecdsa-sha2-nistp256@openssh.com",
    "rsa-sha2-512", "rsa-sha2-256"]

  function VerifyHostKey(cb: HostKeyCallback, addr: string, key: PublicKey): Option<Error> {
    match key
    case HostKey(_) => cb(addr, key)
    case Certificate(inner, ca, format, _) =>
      var certErr := cb(addr, key);
      if certErr.None? && format in CA_SIGNATURE_ALGORITHMS then None
      else
        var why := if certErr.Some? then certErr.value else Leaf(Message);
        var caErr := cb(addr, HostKey(ca));
        if caErr.Some? && As(caErr.value, IsRevokedError).Some? then caErr
        else
          var plainErr := cb(addr, HostKey(inner));
          if plainErr.Some? && As(plainErr.value, IsKeyError).Some? && caErr.None? then
            Some(Error(Message, [Leaf(HostCertificateInvalid), why]))
          else plainErr
  }

  function Classify(e: Error): Reason {
    var keyErr := As(e, IsKeyError);
    if Is(e, HostCertificateInvalid) then CertificateInvalid
    else if keyErr.Some? then (if keyErr.value.want == [] then HostKeyUnknown else HostKeyMismatch)
    else if As(e, IsRevokedError).Some? then HostKeyRevoked
    else HostKeyRejected
  }

  /** The callback that stands in when none is configured. */
  function NoCallback(addr: string, key: PublicKey): Option<Error> { Some(Leaf(Message)) }

  // ---- The known_hosts oracle ----

  datatype Marker = NoMarker | CertAuthority | Revoked

  datatype Line = Line(marker: Marker, hosts: string, key: Key)

  /** A parsed file; `matches` says whether a line's host pattern covers an address. */
  datatype File = File(lines: seq<Line>, matches: (string, string) -> bool) {

    /** A @revoked line applies to all hosts. */
    predicate IsRevoked(k: Key) {
      exists l :: l in lines && l.marker.Revoked? && l.key == k
    }

    predicate Covers(l: Line, addr: string) {
      !l.marker.Revoked? && matches(l.hosts, addr)
    }

    /** Some line for the address has the key, be it a plain or a @cert-authority line. */
    predicate Listed(addr: string, k: Key) {
      exists l :: l in lines && Covers(l, addr) && l.key == k
    }

    predicate ListedAs(marker: Marker, addr: string, k: Key) {
      exists l :: l in lines && Covers(l, addr) && l.marker == marker && l.key == k
    }

    predicate Mentions(addr: string) {
      exists l :: l in lines && Covers(l, addr)
    }

    /** The keys of the lines that cover the address, in file order. */
    function Want(addr: string): seq<Key> {
      WantOf(lines, addr)
    }

    function WantOf(ls: seq<Line>, addr: string): (ks: seq<Key>)
      ensures ks == [] <==> forall l :: l in ls ==> !Covers(l, addr)
    {
      if ls == [] then []
      else if Covers(ls[0], addr) then [ls[0].key] + WantOf(ls[1..], addr)
      else WantOf(ls[1..], addr)
    }

    /** The library's callback, which does not fall back from a certificate to its key. */
    function Check(addr: string, key: PublicKey): Option<Error> {
      match key
      case HostKey(k) =>
        if IsRevoked(k) then Some(Leaf(RevokedError(k)))
        else if Listed(addr, k) then None
        else Some(Leaf(KeyError(Want(addr))))
      case Certificate(k, ca, _, acceptable) =>
        if ListedAs(CertAuthority, addr, ca) && acceptable && !IsRevoked(ca) && !IsRevoked(k) then None
        else Some(Leaf(Message))
    }

    function Callback(): HostKeyCallback { (addr, key) => Check(addr, key) }

    function Verify(addr: string, key: PublicKey): Option<Error> { VerifyHostKey(Callback(), addr, key) }

    // ---- What verification means, over the lines ----

    predicate AnyRevoked(key: PublicKey) {
      IsRevoked(key.key) || (key.Certificate? && IsRevoked(key.ca))
    }

    /** The file vouches for the key, directly or through a CA. */
    predicate Vouches(addr: string, key: PublicKey) {
      && !AnyRevoked(key)
      && (|| Listed(addr, key.key)
          || (&& key.Certificate?
              && ListedAs(CertAuthority, addr, key.ca)
              && key.acceptable
              && key.signatureFormat in CA_SIGNATURE_ALGORITHMS))
    }

    function Refusal(addr: string, key: PublicKey): Reason {
      if AnyRevoked(key) then HostKeyRevoked
      else if key.Certificate? && Listed(addr, key.ca) then CertificateInvalid
      else if Mentions(addr) then HostKeyMismatch
      else HostKeyUnknown
    }
  }

  lemma LeafChain(k: Kind)
    ensures Chain(Leaf(k)) == [k]
  {
  }

  lemma InvalidCertificateChain(why: Error)
    ensures Is(Error(Message, [Leaf(HostCertificateInvalid), why]), HostCertificateInvalid)
  {
    var e := Error(Message, [Leaf(HostCertificateInvalid), why]);
    LeafChain(HostCertificateInvalid);
    assert Chain(e) == [Message] + Chains(e.causes);
    assert Chains(e.causes) == Chain(e.causes[0]) + Chains(e.causes[1..]);
    assert HostCertificateInvalid in Chains(e.causes);
  }

  lemma ClassifyLeaf(k: Kind)
    ensures As(Leaf(k), IsKeyError) == if k.KeyError? then Some(k) else None
    ensures As(Leaf(k), IsRevokedError) == if k.RevokedError? then Some(k) else None
    ensures Is(Leaf(k), HostCertificateInvalid) <==> k.HostCertificateInvalid?
  {
    LeafChain(k);
    assert [k][1..] == [];
  }

  /**
   * Soundness, completeness and the exact reason: over any known_hosts, a key is verified
   * iff the file vouches for it, and otherwise the reason is the one its lines call for.
   */
  lemma VerdictIsExact(f: File, addr: string, key: PublicKey)
    ensures f.Verify(addr, key).None? <==> f.Vouches(addr, key)
    ensures f.Verify(addr, key).Some? ==> Classify(f.Verify(addr, key).value) == f.Refusal(addr, key)
  {
    ClassifyLeaf(Message);
    ClassifyLeaf(RevokedError(key.key));
    ClassifyLeaf(KeyError(f.Want(addr)));
    assert f.Want(addr) == [] <==> !f.Mentions(addr);
    if key.Certificate? {
      ClassifyLeaf(RevokedError(key.ca));
      var certErr := f.Check(addr, key);
      var why := if certErr.Some? then certErr.value else Leaf(Message);
      InvalidCertificateChain(why);
    }
  }

  /** A revoked key or CA is reported as such whatever other lines the file holds. */
  lemma RevocationDominates(f: File, before: seq<Line>, after: seq<Line>, addr: string, key: PublicKey)
    requires f.AnyRevoked(key)
    ensures var g := f.(lines := before + f.lines + after);
            g.Verify(addr, key).Some? && Classify(g.Verify(addr, key).value) == HostKeyRevoked
  {
    var g := f.(lines := before + f.lines + after);
    assert forall l :: l in f.lines ==> l in g.lines;
    VerdictIsExact(g, addr, key);
  }

  /** Lines added to a file, none of them @revoked, never take a verification away. */
  lemma AddingLinesKeepsVerified(f: File, more: seq<Line>, addr: string, key: PublicKey)
    requires f.Verify(addr, key).None?
    requires forall l :: l in more ==> !l.marker.Revoked?
    ensures f.(lines := f.lines + more).Verify(addr, key).None?
    ensures f.(lines := more + f.lines).Verify(addr, key).None?
  {
    var g, h := f.(lines := f.lines + more), f.(lines := more + f.lines);
    VerdictIsExact(f, addr, key);
    VerdictIsExact(g, addr, key);
    VerdictIsExact(h, addr, key);
    assert forall l :: l in g.lines <==> l in f.lines || l in more;
    assert forall l :: l in h.lines <==> l in f.lines || l in more;
  }

  /** The order and repetition of lines decide neither the verdict nor the reason. */
  lemma LineOrderIsIrrelevant(f: File, g: File, addr: string, key: PublicKey)
    requires f.matches == g.matches
    requires forall l :: l in f.lines <==> l in g.lines
    ensures f.Verify(addr, key).None? <==> g.Verify(addr, key).None?
    ensures f.Verify(addr, key).Some? ==>
              Classify(f.Verify(addr, key).value) == Classify(g.Verify(addr, key).value)
  {
    VerdictIsExact(f, addr, key);
    VerdictIsExact(g, addr, key);
    assert forall l :: f.Covers(l, addr) == g.Covers(l, addr);
  }

  /**
   * The documentation calls a CA trusted when a @cert-authority line for the target has its
   * key. For a refused certificate with nothing revoked, the "certificate invalid" reason
   * agrees with that exactly unless the CA's key is listed on plain lines alone.
   */
  lemma TrustedAsDocumented(f: File, addr: string, key: PublicKey)
    requires key.Certificate? && !f.AnyRevoked(key) && !f.Vouches(addr, key)
    ensures f.Verify(addr, key).Some?
    ensures (Classify(f.Verify(addr, key).value) == CertificateInvalid <==> f.ListedAs(CertAuthority, addr, key.ca))
       <==> (f.ListedAs(NoMarker, addr, key.ca) ==> f.ListedAs(CertAuthority, addr, key.ca))
  {
    VerdictIsExact(f, addr, key);
    assert f.Listed(addr, key.ca) <==>
      f.ListedAs(NoMarker, addr, key.ca) || f.ListedAs(CertAuthority, addr, key.ca) by {
      if f.Listed(addr, key.ca) {
        var l :| l in f.lines && f.Covers(l, addr) && l.key == key.ca;
        assert l.marker == NoMarker || l.marker == CertAuthority;
      }
    }
  }

  /** A file where the two differ: the CA's key is there, but as a plain host key. */
  lemma TrustedByAPlainLine() returns (f: File, key: PublicKey)
    ensures key.Certificate? && f.Verify("h:22", key).Some? && Classify(f.Verify("h:22", key).value) == CertificateInvalid
    ensures !f.ListedAs(CertAuthority, "h:22", key.ca)
  {
    f := File([Line(NoMarker, "h", [1])], (hosts, addr) => true);
    key := Certificate([2], [1], "ssh-ed25519", true);
    assert f.lines[0] in f.lines;
    assert forall l :: l in f.lines ==> l == f.lines[0];
    assert f.Listed("h:22", [1]);
    VerdictIsExact(f, "h:22", key);
  }

  /**
   * A CA signature with SHA-1, or of no known algorithm, makes no certificate good: then the
   * key inside must be listed itself. One of OpenSSH's default algorithms does, for a good
   * certificate of a listed CA.
   */
  lemma SignatureAlgorithms(f: File, addr: string, key: PublicKey)
    requires key.Certificate? && !f.AnyRevoked(key)
    ensures key.signatureFormat in {"ssh-rsa", "ssh-dss", ""} ==>
              (f.Verify(addr, key).None? <==> f.Listed(addr, key.key))
    ensures key.acceptable && f.ListedAs(CertAuthority, addr, key.ca)
            && key.signatureFormat in {"ssh-ed25519", "ecdsa-sha2-nistp256", "ecdsa-sha2-nistp384", "ecdsa-sha2-nistp521",
                                       "sk-ssh-ed25519@openssh.com", "sk-ecdsa-sha2-nistp256@openssh.com",
                                       "rsa-sha2-512", "rsa-sha2-256"} ==>
              f.Verify(addr, key).None?
  {
    VerdictIsExact(f, addr, key);
    NoSha1("ssh-rsa");
    NoSha1("ssh-dss");
    NoSha1("");
  }

  lemma NoSha1(format: string)
    requires format in {"ssh-rsa", "ssh-dss", ""}
    ensures format !in CA_SIGNATURE_ALGORITHMS
  {
    assert forall a :: a in CA_SIGNATURE_ALGORITHMS ==> |a| >= 11;
  }

  /** Without a callback nothing is verified, and the reason is "rejected". */
  lemma NoCallbackRejects(addr: string, key: PublicKey)
    ensures VerifyHostKey(NoCallback, addr, key).Some?
    ensures Classify(VerifyHostKey(NoCallback, addr, key).value) == HostKeyRejected
  {
    ClassifyLeaf(Message);
  }
}
