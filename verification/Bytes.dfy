/** Bytes as the server sends them. */
module Bytes {
  newtype byte = b: int | 0 <= b < 256

  const LF: byte := 10
  const CR: byte := 13
  const SPACE: byte := 0x20
  const DASH: byte := 45

  /** "SSH-" */
  const SSH: seq<byte> := [83, 83, 72, 45]

  /** The RFC 4253, section 4.2 limit on an identification string, including the CR LF. */
  const MAX_IDENTIFICATION_LEN := 255

  /** How many bytes of a line the watcher keeps: past the limit by the length of a CR LF. */
  const LINE_CAP := MAX_IDENTIFICATION_LEN + 2

  function Cap(n: nat, line: seq<byte>): seq<byte> {
    if |line| <= n then line else line[..n]
  }

  function TrimCr(line: seq<byte>): seq<byte> {
    if line != [] && line[|line| - 1] == CR then line[..|line| - 1] else line
  }

  function Ascii(s: string): seq<byte>
    requires forall k :: 0 <= k < |s| ==> s[k] as int < 128
  {
    seq(|s|, k requires 0 <= k < |s| => s[k] as int as byte)
  }

  /** The texts and the limit above, spelled out. */
  lemma Spelled()
    ensures SSH == Ascii("SSH-") && [DASH] == Ascii("-") && [SPACE] == Ascii(" ") && [CR, LF] == Ascii("\r\n")
    ensures MAX_IDENTIFICATION_LEN == 255 && LINE_CAP == 257
  {
  }

  /** Trimming takes one CR off the end, if there is one, and nothing else. */
  lemma TrimmedLine(line: seq<byte>, t: seq<byte>)
    ensures TrimCr(line) == t <==> line == t + Ascii("\r") || (line == t && (t == [] || t[|t| - 1] != 13))
  {
    if line == t + Ascii("\r") {
      assert line[..|line| - 1] == t;
    }
    if line != [] && line[|line| - 1] == 13 {
      assert line == line[..|line| - 1] + Ascii("\r");
    }
  }
}
