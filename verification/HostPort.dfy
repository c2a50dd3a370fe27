/** Decimal ports, and joining and splitting `host:port`. */
module HostPort {
  import opened Common

  // ---- Decimal numbers ----

  const MIN_INT := -0x8000_0000_0000_0000
  const MAX_INT := 0x7fff_ffff_ffff_ffff

  predicate IsDigit(c: char) { '0' <= c <= '9' }

  predicate AllDigits(s: string) { forall k :: 0 <= k < |s| ==> IsDigit(s[k]) }

  function Value(s: string): nat
    requires AllDigits(s)
  {
    if s == "" then 0 else Value(s[..|s| - 1]) * 10 + (s[|s| - 1] as int - '0' as int)
  }

  function Digits(n: nat): (s: string)
    ensures s != "" && AllDigits(s)
  {
    var d := ('0' as int + n % 10) as char;
    if n < 10 then [d] else Digits(n / 10) + [d]
  }

  /** `strconv.Itoa` */
  function Itoa(n: int): string {
    if n < 0 then "-" + Digits(-n) else Digits(n)
  }

  /** `strconv.Atoi` on 64 bits; None is a syntax or range error. */
  function Atoi(s: string): Option<int> {
    var signed := s != "" && (s[0] == '-' || s[0] == '+');
    var digits := if signed then s[1..] else s;
    if digits == "" || !AllDigits(digits) then None
    else
      var n: int := if signed && s[0] == '-' then -(Value(digits) as int) else Value(digits);
      if MIN_INT <= n <= MAX_INT then Some(n) else None
  }

  lemma {:induction false} ValueOfDigits(n: nat)
    ensures Value(Digits(n)) == n
  {
    var d := ('0' as int + n % 10) as char;
    if n < 10 {
      assert Digits(n) == [d];
      assert Digits(n)[..0] == "";
    } else {
      ValueOfDigits(n / 10);
      assert Digits(n)[..|Digits(n)| - 1] == Digits(n / 10);
    }
  }

  lemma {:induction false} DigitsOfValue(s: string)
    requires s != "" && AllDigits(s) && (|s| > 1 ==> s[0] != '0')
    ensures Digits(Value(s)) == s
    ensures s[0] != '0' ==> Value(s) > 0
  {
    var init, d := s[..|s| - 1], s[|s| - 1] as int - '0' as int;
    assert s == init + [s[|s| - 1]];
    if |s| == 1 {
      assert init == "" && Value(s) == d;
    } else {
      DigitsOfValue(init);
      assert Value(s) == Value(init) * 10 + d;
    }
  }

  lemma {:induction false} NoLeadingZero(n: nat)
    ensures |Digits(n)| > 1 ==> Digits(n)[0] != '0'
  {
    if n >= 10 {
      NoLeadingZero(n / 10);
      assert n / 10 < 10 ==> Digits(n / 10) == [('0' as int + n / 10) as char];
    }
  }

  /** Printing a number and reading it back gives the number. */
  lemma AtoiOfItoa(n: int)
    requires MIN_INT <= n <= MAX_INT
    ensures Atoi(Itoa(n)) == Some(n)
  {
    if n < 0 {
      ValueOfDigits(-n);
      assert Itoa(n)[1..] == Digits(-n);
    } else {
      ValueOfDigits(n);
      assert IsDigit(Digits(n)[0]);
    }
  }

  // ---- host:port ----

  /** `net.JoinHostPort` */
  function JoinHostPort(host: string, port: string): string {
    if ':' in host then "[" + host + "]:" + port else host + ":" + port
  }

  datatype HostPort = HostPort(host: string, port: string)

  /** `net.SplitHostPort`; None is any of its errors. */
  function SplitHostPort(s: string): Option<HostPort> {
    var i := LastIndexOf(s, ':');
    if i == |s| then None
    else if s[0] == '[' then
      var end := IndexOf(s, ']');
      if end == |s| || end + 1 != i then None
      else if '[' in s[1..] || ']' in s[end + 1..] then None
      else Some(HostPort(s[1..end], s[i + 1..]))
    else if ':' in s[..i] || '[' in s || ']' in s then None
    else Some(HostPort(s[..i], s[i + 1..]))
  }

  predicate BracketFree(s: string) { '[' !in s && ']' !in s }

  lemma ContainsConcat<T>(a: seq<T>, b: seq<T>, c: T)
    ensures c in a + b <==> c in a || c in b
  {
  }

  lemma LastColon(head: string, port: string)
    requires ':' !in port
    ensures LastIndexOf(head + ":" + port, ':') == |head|
  {
    var s := head + ":" + port;
    assert s[|head| + 1..] == port;
    LastIndexOfUnique(s, ':', |head|);
  }

  lemma SplitBracketFree(host: string, port: string)
    requires ':' !in port && BracketFree(port) && BracketFree(host)
    ensures SplitHostPort("[" + host + "]:" + port) == Some(HostPort(host, port))
  {
    var s := "[" + host + "]:" + port;
    assert s == ("[" + host + "]") + ":" + port;
    LastColon("[" + host + "]", port);
    assert s[..|host| + 1] == "[" + host;
    IndexOfUnique(s, ']', |host| + 1);
    var tail := "]:" + port;
    assert s[1..] == host + tail;
    ContainsConcat(host, tail, '[');
    ContainsConcat("]:", port, '[');
    assert s[|host| + 2..] == ":" + port;
    ContainsConcat(":", port, ']');
    assert s[1..|host| + 1] == host && s[|host| + 3..] == port;
  }

  lemma SplitWithBrackets(host: string, port: string)
    requires ':' !in port && BracketFree(port) && !BracketFree(host)
    ensures SplitHostPort("[" + host + "]:" + port).None?
  {
    var s := "[" + host + "]:" + port;
    assert s == ("[" + host + "]") + ":" + port;
    LastColon("[" + host + "]", port);
    if ']' in host {
      var k :| 0 <= k < |host| && host[k] == ']';
      IndexOfAtMost(s, ']', k + 1);
    } else {
      assert s[1..] == host + ("]:" + port);
      ContainsConcat(host, "]:" + port, '[');
    }
  }

  /** A bracketed address splits back exactly when there are no brackets inside. */
  lemma SplitBracketed(host: string, port: string)
    requires ':' !in port && BracketFree(port)
    ensures SplitHostPort("[" + host + "]:" + port) == Some(HostPort(host, port)) <==> BracketFree(host)
  {
    if BracketFree(host) { SplitBracketFree(host, port); } else { SplitWithBrackets(host, port); }
  }

  lemma SplitPlain(host: string, port: string)
    requires ':' !in port && BracketFree(port) && ':' !in host
    ensures SplitHostPort(host + ":" + port) == Some(HostPort(host, port)) <==> BracketFree(host)
  {
    var s := host + ":" + port;
    LastColon(host, port);
    assert s[..|host|] == host && s[|host| + 1..] == port;
    assert s == host + (":" + port);
    ContainsConcat(host, ":" + port, '[');
    ContainsConcat(host, ":" + port, ']');
    ContainsConcat(":", port, '[');
    ContainsConcat(":", port, ']');
    if s[0] == '[' && SplitHostPort(s).Some? {
      assert |SplitHostPort(s).value.host| < |host|;
    }
  }

  /** Splitting a joined address recovers both parts exactly when the host has no brackets. */
  lemma SplitJoined(host: string, port: string)
    requires ':' !in port && BracketFree(port)
    ensures SplitHostPort(JoinHostPort(host, port)) == Some(HostPort(host, port)) <==> BracketFree(host)
  {
    if ':' in host {
      SplitBracketed(host, port);
    } else {
      SplitPlain(host, port);
    }
  }

  lemma PortIsPlain(n: int)
    ensures ':' !in Itoa(n) && BracketFree(Itoa(n))
  {
  }

  /** Numbers are printed in decimals. */
  lemma PrintsDecimals(n: nat)
    ensures n < 10 ==> Itoa(n) == ["0123456789"[n]]
    ensures n >= 10 ==> Itoa(n) == Itoa(n / 10) + ["0123456789"[n % 10]]
  {
    assert forall d :: 0 <= d < 10 ==> "0123456789"[d] == ('0' as int + d) as char;
  }

  lemma {:induction false} ZeroInFront(s: string)
    requires AllDigits(s)
    ensures AllDigits("0" + s) && Value("0" + s) == Value(s)
  {
    var t := "0" + s;
    if s == "" {
      assert t[..0] == "" && Value(t) == Value(t[..0]) * 10 + 0;
    } else {
      assert t[..|t| - 1] == "0" + s[..|s| - 1];
      ZeroInFront(s[..|s| - 1]);
    }
  }

  /** A plus sign and a zero in front make no difference to what is read; nothing at all is no number. */
  lemma ReadsDecimals(n: nat)
    requires n <= MAX_INT
    ensures Atoi("+" + Itoa(n)) == Atoi("0" + Itoa(n)) == Some(n)
    ensures Atoi("") == Atoi("-") == None
  {
    ValueOfDigits(n);
    ZeroInFront(Itoa(n));
    assert ("+" + Itoa(n))[1..] == Itoa(n);
    assert "-"[1..] == "";
  }

  /** A colon goes between host and port, and brackets around a host that has colons of its own. */
  lemma JoinedText(host: string, port: string)
    ensures ':' !in host ==> JoinHostPort(host, port) == host + ":" + port
    ensures ':' in host ==> JoinHostPort(host, port) == "[" + host + "]:" + port
  {
  }
}
