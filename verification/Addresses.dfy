/** IP addresses and prefixes, down to their bits. */
module Addresses {
  import opened Common
  import opened HostPort

  datatype Family = V4 | V6 {
    function Width(): nat { if V4? then 32 else 128 }
  }

  function Pow2(n: nat): (p: nat)
    ensures p > 0
  {
    if n == 0 then 1 else 2 * Pow2(n - 1)
  }

  datatype AddrBits = AddrBits(family: Family, value: nat, zone: string)

  type Addr = a: AddrBits | a.value < Pow2(a.family.Width()) witness AddrBits(V4, 0, "")

  /** `netip.ParseAddr`: which addresses text stands for is taken from the library. */
  type AddrParser = string -> Option<Addr>

  /** v >> k */
  function ShiftRight(v: nat, k: nat): nat
    decreases k
  {
    if k == 0 then v else ShiftRight(v / 2, k - 1)
  }

  /** v << k */
  function ShiftLeft(v: nat, k: nat): nat
    decreases k
  {
    if k == 0 then v else 2 * ShiftLeft(v, k - 1)
  }

  /** Bit `j` of `v`, counted from the least significant. */
  function Bit(v: nat, j: nat): nat { ShiftRight(v, j) % 2 }

  datatype PrefixBits = PrefixBits(addr: Addr, bits: nat) {

    /** How many low bits the prefix leaves free. */
    function HostBits(): nat
      requires bits <= addr.family.Width()
    {
      addr.family.Width() - bits
    }

    /** The address's top bits, moved down to the right. */
    function Network(): nat
      requires bits <= addr.family.Width()
    {
      ShiftRight(addr.value, HostBits())
    }
  }

  type Prefix = p: PrefixBits | p.bits <= p.addr.family.Width() witness PrefixBits(AddrBits(V4, 0, ""), 0)

  /** `Prefix.Masked`: the host bits cleared. */
  function Masked(p: Prefix): (m: Prefix)
    ensures m.bits == p.bits && m.addr.family == p.addr.family
  {
    MaskedValue(p.addr.value, p.HostBits());
    p.(addr := p.addr.(value := ShiftLeft(p.Network(), p.HostBits())))
  }

  predicate Contains(p: Prefix, a: Addr) {
    && a.zone == ""
    && a.family == p.addr.family
    && ShiftRight(a.value, p.HostBits()) == p.Network()
  }

  /** `netip.ParsePrefix`; None is any of its errors. */
  function ParsePrefix(parse: AddrParser, s: string): Option<Prefix> {
    var i := LastIndexOf(s, '/');
    if i == |s| then None
    else
      var addr := parse(s[..i]);
      var bits := s[i + 1..];
      if addr.None? || (addr.value.family.V6? && addr.value.zone != "") then None
      else if |bits| > 1 && !('1' <= bits[0] <= '9') then None
      else
        var n := Atoi(bits);
        if n.None? || n.value < 0 || n.value > addr.value.family.Width() then None
        else Some(PrefixBits(addr.value, n.value))
  }

  /** `s` is an address without a zone, a slash, and a number of bits that the address has, in plain decimals. */
  predicate IsPrefixText(parse: AddrParser, s: string, a: string, bits: nat) {
    && s == a + "/" + Itoa(bits)
    && parse(a).Some?
    && (parse(a).value.family.V6? ==> parse(a).value.zone == "")
    && bits <= parse(a).value.family.Width()
  }

  /** A prefix is read out of exactly these texts, and is then what they say. */
  lemma PrefixByText(parse: AddrParser, s: string)
    ensures ParsePrefix(parse, s).Some? <==> exists a, bits: nat :: IsPrefixText(parse, s, a, bits)
    ensures forall a, bits: nat :: IsPrefixText(parse, s, a, bits) ==>
              ParsePrefix(parse, s) == Some(PrefixBits(parse(a).value, bits))
  {
    forall a, bits: nat | IsPrefixText(parse, s, a, bits)
      ensures ParsePrefix(parse, s) == Some(PrefixBits(parse(a).value, bits))
    {
      PrefixRead(parse, s, a, bits);
    }
    if ParsePrefix(parse, s).Some? {
      var a, bits := PrefixWritten(parse, s);
    }
  }

  lemma PrefixRead(parse: AddrParser, s: string, a: string, bits: nat)
    requires IsPrefixText(parse, s, a, bits)
    ensures ParsePrefix(parse, s) == Some(PrefixBits(parse(a).value, bits))
  {
    SlashIsLast(s, a, bits);
    PlainBits(bits);
  }

  lemma PlainBits(bits: nat)
    requires bits <= 128
    ensures |Itoa(bits)| > 1 ==> '1' <= Itoa(bits)[0] <= '9'
    ensures Atoi(Itoa(bits)) == Some(bits)
  {
    NoLeadingZero(bits);
    AtoiOfItoa(bits);
  }

  lemma SlashIsLast(s: string, a: string, bits: nat)
    requires s == a + "/" + Itoa(bits)
    ensures LastIndexOf(s, '/') == |a| && s[..|a|] == a && s[|a| + 1..] == Itoa(bits)
  {
    assert s[|a| + 1..] == Itoa(bits) && s[..|a|] == a;
    LastIndexOfUnique(s, '/', |a|);
  }

  lemma PrefixWritten(parse: AddrParser, s: string) returns (a: string, bits: nat)
    requires ParsePrefix(parse, s).Some?
    ensures IsPrefixText(parse, s, a, bits)
  {
    var i := LastIndexOf(s, '/');
    var text := s[i + 1..];
    a, bits := s[..i], Atoi(text).value;
    assert s == a + "/" + text;
    assert text[0] != '+' && text[0] != '-' by {
      if |text| == 1 { assert text[1..] == ""; }
    }
    DigitsOfValue(text);
  }

  lemma {:induction false} ShiftStep(v: nat, k: nat)
    ensures ShiftRight(v, k + 1) == ShiftRight(v, k) / 2
    decreases k
  {
    if k > 0 {
      ShiftStep(v / 2, k - 1);
    }
  }

  lemma {:induction false} ShiftLeftHalves(v: nat, k: nat)
    ensures ShiftRight(ShiftLeft(v, k), k) == v
  {
    if k > 0 {
      ShiftLeftHalves(v, k - 1);
    }
  }

  lemma {:induction false} MaskedValue(v: nat, k: nat)
    ensures ShiftLeft(ShiftRight(v, k), k) <= v
    decreases k
  {
    if k > 0 {
      MaskedValue(v / 2, k - 1);
    }
  }

  lemma {:induction false} ShiftedOut(v: nat, w: nat)
    requires v < Pow2(w)
    ensures ShiftRight(v, w) == 0
    decreases w
  {
    if w > 0 {
      ShiftedOut(v / 2, w - 1);
    }
  }

  /** Two numbers of `w` bits agree after a shift by `k` exactly when all their bits from `k` up agree. */
  lemma {:induction false} ShiftsAgree(v: nat, u: nat, k: nat, w: nat)
    requires k <= w && v < Pow2(w) && u < Pow2(w)
    ensures ShiftRight(v, k) == ShiftRight(u, k) <==> forall j :: k <= j < w ==> Bit(v, j) == Bit(u, j)
    decreases w - k
  {
    if k == w {
      ShiftedOut(v, w);
      ShiftedOut(u, w);
    } else {
      ShiftsAgree(v, u, k + 1, w);
      ShiftStep(v, k);
      ShiftStep(u, k);
      assert Bit(v, k) == Bit(u, k) && ShiftRight(v, k + 1) == ShiftRight(u, k + 1)
         <==> ShiftRight(v, k) == ShiftRight(u, k);
    }
  }

  /** `a` has no zone, is of the family of `p`, and its `p.bits` top bits are those of `p`. */
  ghost predicate SharesTopBits(p: Prefix, a: Addr) {
    && a.zone == ""
    && a.family == p.addr.family
    && forall j :: p.HostBits() <= j < a.family.Width() ==> Bit(a.value, j) == Bit(p.addr.value, j)
  }

  /** Containment is agreement on the top bits, and masking a prefix changes nothing about it. */
  lemma ContainsIsTopBits(p: Prefix, a: Addr)
    ensures Contains(p, a) <==> SharesTopBits(p, a)
    ensures Contains(Masked(p), a) <==> SharesTopBits(p, a)
  {
    if a.family == p.addr.family {
      ShiftsAgree(a.value, p.addr.value, p.HostBits(), a.family.Width());
    }
    ShiftLeftHalves(p.Network(), p.HostBits());
  }
}
