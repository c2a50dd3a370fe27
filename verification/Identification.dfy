/** Parsing the server's identification string: RFC 4253, sections 4.2 and 5.1. */
module Identification {
  import opened Common
  import opened Bytes
  import Scanner

  /** "2.0" */
  const V2: seq<byte> := [50, 46, 48]
  /** "1.99" */
  const V199: seq<byte> := [49, 46, 57, 57]

  const PROTOVERSIONS := [V2, V199]

  datatype ServerIdentification = ServerIdentification(
    text: seq<byte>,
    protoVersion: seq<byte>,
    softwareVersion: seq<byte>,
    comments: seq<byte>,
    rfcConformant: bool)

  /** What the probe reports when there is no parsable string. */
  const NO_IDENTIFICATION := ServerIdentification([], [], [], [], false)

  datatype ParseError = TooLong | UnsupportedProtocol | NotPrintable | NoSoftwareVersion

  predicate Printable(c: byte) { 0x20 <= c <= 0x7e }

  predicate AllPrintable(s: seq<byte>) { forall k :: 0 <= k < |s| ==> Printable(s[k]) }

  lemma ProtoversionsSpelled()
    ensures V2 == Ascii("2.0") && V199 == Ascii("1.99")
    ensures Intro(V2) == Ascii("SSH-2.0-") && Intro(V199) == Ascii("SSH-1.99-")
  {
    Spelled();
  }

  /** "SSH-" + v + "-" */
  function Intro(v: seq<byte>): seq<byte> { SSH + v + [DASH] }

  function Conformant(raw: seq<byte>, software: seq<byte>): bool {
    |raw| <= MAX_IDENTIFICATION_LEN - 2 && DASH !in software
  }

  /** Splits what follows the protoversion at its first space. */
  function ParseRest(raw: seq<byte>, proto: seq<byte>, rest: seq<byte>): Result<ServerIdentification, ParseError> {
    if !AllPrintable(rest) then Failure(NotPrintable)
    else
      var i := IndexOf(rest, SPACE);
      if i == 0 then Failure(NoSoftwareVersion)
      else
        var comments := if i < |rest| then rest[i + 1..] else [];
        Success(ServerIdentification(raw, proto, rest[..i], comments, Conformant(raw, rest[..i])))
  }

  function Parse(raw: seq<byte>): Result<ServerIdentification, ParseError> {
    if |raw| > MAX_IDENTIFICATION_LEN then Failure(TooLong)
    else if HasPrefix(raw, Intro(V2)) then ParseRest(raw, V2, raw[|Intro(V2)|..])
    else if HasPrefix(raw, Intro(V199)) then ParseRest(raw, V199, raw[|Intro(V199)|..])
    else Failure(UnsupportedProtocol)
  }

  /** The parser as the probe runs it: over the protoversions in turn, then byte by byte. */
  method ParseServerIdentification(raw: seq<byte>) returns (r: Result<ServerIdentification, ParseError>)
    ensures r == Parse(raw)
  {
    if |raw| > MAX_IDENTIFICATION_LEN {
      return Failure(TooLong);
    }
    var proto: seq<byte> := [];
    var rest: seq<byte> := [];
    for v := 0 to |PROTOVERSIONS|
      invariant proto == [] && forall u :: 0 <= u < v ==> !HasPrefix(raw, Intro(PROTOVERSIONS[u]))
    {
      var intro := Intro(PROTOVERSIONS[v]);
      if HasPrefix(raw, intro) {
        proto, rest := PROTOVERSIONS[v], raw[|intro|..];
        break;
      }
    }
    assert PROTOVERSIONS[0] == V2 && PROTOVERSIONS[1] == V199;
    if proto == [] {
      return Failure(UnsupportedProtocol);
    }
    assert Parse(raw) == ParseRest(raw, proto, rest);
    for k := 0 to |rest|
      invariant AllPrintable(rest[..k])
    {
      if rest[k] < 0x20 || rest[k] > 0x7e {
        return Failure(NotPrintable);
      }
    }
    assert rest[..|rest|] == rest;
    var i := IndexOf(rest, SPACE);
    var software := rest[..i];
    var comments := if i < |rest| then rest[i + 1..] else [];
    if |software| == 0 {
      return Failure(NoSoftwareVersion);
    }
    r := Success(ServerIdentification(raw, proto, software, comments,
                                      |raw| <= MAX_IDENTIFICATION_LEN - 2 && DASH !in software));
  }

  /** `rest` is a softwareversion, and then nothing, or a space and comments. */
  ghost predicate SplitsInto(rest: seq<byte>, software: seq<byte>, comments: seq<byte>) {
    && software != [] && SPACE !in software
    && (|| (rest == software && comments == [])
        || rest == software + [SPACE] + comments)
  }

  /** The grammar of section 4.2, as this exporter accepts it, with the fields it assigns. */
  ghost predicate Denotes(raw: seq<byte>, id: ServerIdentification) {
    && |raw| <= 255
    && AllPrintable(raw)
    && id.text == raw
    && id.protoVersion in {V2, V199}
    && (exists rest :: raw == Intro(id.protoVersion) + rest && SplitsInto(rest, id.softwareVersion, id.comments))
    && (id.rfcConformant <==> |raw| <= 253 && DASH !in id.softwareVersion)
  }

  lemma AfterPrefix(raw: seq<byte>, p: seq<byte>, rest: seq<byte>)
    ensures raw == p + rest <==> HasPrefix(raw, p) && raw[|p|..] == rest
  {
    if HasPrefix(raw, p) { assert raw == raw[..|p|] + raw[|p|..]; }
    if raw == p + rest { assert raw[..|p|] == p && raw[|p|..] == rest; }
  }

  lemma IntroIsPrintable(v: seq<byte>, rest: seq<byte>)
    requires v in {V2, V199}
    ensures AllPrintable(Intro(v) + rest) == AllPrintable(rest)
  {
    var raw := Intro(v) + rest;
    assert AllPrintable(Intro(v));
    assert forall k :: 0 <= k < |rest| ==> rest[k] == raw[|Intro(v)| + k];
  }

  lemma IntrosDiffer(raw: seq<byte>)
    ensures !(HasPrefix(raw, Intro(V2)) && HasPrefix(raw, Intro(V199)))
  {
    assert Intro(V2)[4] == 50 && Intro(V199)[4] == 49;
    assert HasPrefix(raw, Intro(V2)) ==> raw[4] == raw[..|Intro(V2)|][4];
    assert HasPrefix(raw, Intro(V199)) ==> raw[4] == raw[..|Intro(V199)|][4];
  }

  lemma CutSplits(rest: seq<byte>)
    ensures var i := IndexOf(rest, SPACE);
            i > 0 ==> SplitsInto(rest, rest[..i], if i < |rest| then rest[i + 1..] else [])
  {
    var i := IndexOf(rest, SPACE);
    if 0 < i < |rest| {
      assert rest == rest[..i] + [SPACE] + rest[i + 1..];
    } else {
      assert rest[..|rest|] == rest;
    }
  }

  lemma SplitIsCut(rest: seq<byte>, software: seq<byte>, comments: seq<byte>)
    requires SplitsInto(rest, software, comments)
    ensures var i := IndexOf(rest, SPACE);
            i == |software| && rest[..i] == software && comments == if i < |rest| then rest[i + 1..] else []
  {
    assert rest[..|software|] == software;
    IndexOfUnique(rest, SPACE, |software|);
  }

  /** Every accepted string is printed back by its own fields, and is printable US-ASCII. */
  lemma AcceptedIsDenoted(raw: seq<byte>)
    requires Parse(raw).Success?
    ensures Denotes(raw, Parse(raw).value)
  {
    var proto := if HasPrefix(raw, Intro(V2)) then V2 else V199;
    var rest := raw[|Intro(proto)|..];
    AfterPrefix(raw, Intro(proto), rest);
    assert Parse(raw) == ParseRest(raw, proto, rest);
    IntroIsPrintable(proto, rest);
    CutSplits(rest);
  }

  lemma DenotedIsAccepted(raw: seq<byte>, id: ServerIdentification)
    requires Denotes(raw, id)
    ensures Parse(raw) == Success(id)
  {
    var rest :| raw == Intro(id.protoVersion) + rest && SplitsInto(rest, id.softwareVersion, id.comments);
    AfterPrefix(raw, Intro(id.protoVersion), rest);
    IntrosDiffer(raw);
    assert Parse(raw) == ParseRest(raw, id.protoVersion, rest);
    IntroIsPrintable(id.protoVersion, rest);
    SplitIsCut(rest, id.softwareVersion, id.comments);
  }

  /** The parser accepts exactly the grammar, with exactly its fields. */
  lemma ParseIsTheGrammar(raw: seq<byte>, id: ServerIdentification)
    ensures Parse(raw) == Success(id) <==> Denotes(raw, id)
  {
    if Parse(raw) == Success(id) { AcceptedIsDenoted(raw); }
    if Denotes(raw, id) { DenotedIsAccepted(raw, id); }
  }

  // ---- Stripping comments ----

  function WithoutComments(id: ServerIdentification): ServerIdentification {
    id.(text := SSH + id.protoVersion + [DASH] + id.softwareVersion, comments := [])
  }

  /**
   * A stripped string parses again to the same protoversion and softwareversion with no
   * comments; and it is then conformant exactly when the softwareversion has no minus and
   * the stripped string fits the limit, so stripping can make a string conformant but
   * never makes one non-conformant.
   */
  lemma StrippedParsesAgain(raw: seq<byte>)
    requires Parse(raw).Success?
    ensures var id := Parse(raw).value;
            var bare := WithoutComments(id);
            && WithoutComments(bare) == bare
            && Parse(bare.text) == Success(bare.(rfcConformant := Conformant(bare.text, bare.softwareVersion)))
            && (id.rfcConformant ==> Parse(bare.text) == Success(bare))
            && bare.text == SSH + id.protoVersion + [DASH] + id.softwareVersion && bare.comments == []
            && bare.protoVersion == id.protoVersion && bare.softwareVersion == id.softwareVersion
            && bare.rfcConformant == id.rfcConformant
            && |bare.text| <= |raw|
            && (id.comments == [] && SPACE !in raw ==> bare == id)
  {
    AcceptedIsDenoted(raw);
    var id := Parse(raw).value;
    var bare := WithoutComments(id);
    var intro := Intro(id.protoVersion);
    var rest :| raw == intro + rest && SplitsInto(rest, id.softwareVersion, id.comments);
    assert bare.text == intro + id.softwareVersion == raw[..|bare.text|];
    assert SplitsInto(id.softwareVersion, id.softwareVersion, []);
    if rest != id.softwareVersion {
      assert raw[|bare.text|] == SPACE;
    }
    DenotedIsAccepted(bare.text, bare.(rfcConformant := Conformant(bare.text, bare.softwareVersion)));
  }

  /** The converse fails: a string one byte over the limit becomes conformant without its comments. */
  lemma StrippingCanMakeConformant() returns (raw: seq<byte>)
    ensures Parse(raw).Success? && !Parse(raw).value.rfcConformant
    ensures var bare := WithoutComments(Parse(raw).value); Parse(bare.text).Success? && Parse(bare.text).value.rfcConformant
  {
    var comments := Repeat(98, 244);
    raw := Intro(V2) + ([97] + [SPACE] + comments);
    assert SplitsInto([97] + [SPACE] + comments, [97], comments);
    DenotedIsAccepted(raw, ServerIdentification(raw, V2, [97], comments, false));
    StrippedParsesAgain(raw);
  }

  // ---- The cap on a line ----

  /** "SSH-2.0-" followed by `n` letters. */
  function Banner(n: nat): seq<byte> { Intro(V2) + Repeat(97, n) }

  lemma BannerParses(n: nat)
    requires 1 <= n <= 247
    ensures Parse(Banner(n)).Success? && Parse(Banner(n)).value.text == Banner(n)
    ensures TrimCr(Banner(n)) == Banner(n)
  {
    assert SplitsInto(Repeat(97, n), Repeat(97, n), []);
    DenotedIsAccepted(Banner(n), ServerIdentification(Banner(n), V2, Repeat(97, n), [], |Banner(n)| <= 253));
  }

  ghost predicate Transparent(cap: nat) {
    forall line :: Parse(TrimCr(Cap(cap, line))) == Parse(TrimCr(line))
  }

  /** Capping a line changes what the parser says about it for no line, if the cap is 257 or more. */
  lemma CapIsTransparent(cap: nat, line: seq<byte>)
    requires cap >= LINE_CAP
    ensures Parse(TrimCr(Cap(cap, line))) == Parse(TrimCr(line))
    ensures HasPrefix(Cap(cap, line), SSH) == HasPrefix(line, SSH)
  {
    if |line| > cap {
      assert line[..cap][..4] == line[..4];
    }
  }

  lemma CutBanner(cap: nat) returns (line: seq<byte>)
    requires cap < 255
    ensures Parse(TrimCr(Cap(cap, line))) != Parse(TrimCr(line))
  {
    var n := if cap < 9 then 1 else cap - 7;
    line := Banner(n);
    BannerParses(n);
    var short := TrimCr(Cap(cap, line));
    assert |short| < |line|;
    assert Parse(short).Success? ==> Parse(short).value.text == short;
  }

  lemma TooLongFails(raw: seq<byte>)
    requires |raw| > 255
    ensures Parse(raw).Failure?
  {
  }

  lemma CutLongLine(tail: seq<byte>)
    requires tail == [97] || tail == [CR, 97]
    ensures var (line, cap) := (Banner(247) + tail, 254 + |tail|);
            Parse(TrimCr(Cap(cap, line))) != Parse(TrimCr(line))
  {
    var (line, cap) := (Banner(247) + tail, 254 + |tail|);
    assert line[..cap] == Banner(247) + tail[..|tail| - 1];
    assert TrimCr(line[..cap]) == Banner(247) by {
      assert |tail| == 1 ==> line[..cap] == Banner(247);
      assert |tail| == 2 ==> line[..cap] == Banner(247) + [CR];
      BannerParses(247);
    }
    BannerParses(247);
    TooLongFails(TrimCr(line));
  }

  lemma SmallCapIsNot(cap: nat) returns (line: seq<byte>)
    requires cap < LINE_CAP
    ensures Parse(TrimCr(Cap(cap, line))) != Parse(TrimCr(line))
  {
    if cap == 256 {
      line := Banner(247) + [CR, 97];
      CutLongLine([CR, 97]);
    } else if cap == 255 {
      line := Banner(247) + [97];
      CutLongLine([97]);
    } else {
      line := CutBanner(cap);
    }
  }

  /** The watcher's 257 bytes are what transparency takes, and one fewer is not enough. */
  lemma CapIsTight(cap: nat)
    ensures Transparent(cap) <==> cap >= LINE_CAP
  {
    if cap >= LINE_CAP {
      forall line ensures Parse(TrimCr(Cap(cap, line))) == Parse(TrimCr(line)) {
        CapIsTransparent(cap, line);
      }
    } else {
      var line := SmallCapIsNot(cap);
    }
  }

  /**
   * Scanner and parser together: what is parsed out of the bounded buffer is what parsing
   * the first whole "SSH-" line of the stream would give, however the stream was cut.
   */
  lemma BoundedScanRefinesUnbounded(chunks: seq<seq<byte>>, i: nat, j: nat)
    requires Scanner.FirstSshLine(Scanner.Concat(chunks), i, j)
    ensures Scanner.ScanChunks(Scanner.START, chunks).Received?
    ensures Parse(Scanner.ScanChunks(Scanner.START, chunks).identification)
         == Parse(TrimCr(Scanner.Concat(chunks)[i..j]))
  {
    Scanner.ReceivedExactly(chunks);
    CapIsTransparent(LINE_CAP, Scanner.Concat(chunks)[i..j]);
  }
}
