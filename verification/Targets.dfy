/** Compiling `allowed_targets` patterns, and matching hosts against them. */
module Targets {
  import opened Common
  import opened Addresses
  import Normalize

  datatype Matcher =
    | AllowAll
    | Host(host: string)
    | Wildcard(parent: string)
    | Ip(addr: Addr)
    | Cidr(prefix: Prefix)
  {
    predicate Match(parse: AddrParser, h: string) {
      match this
      case AllowAll => true
      case Host(host) => h == host
      case Wildcard(parent) =>
        var suffix := "." + parent;
        HasSuffix(h, suffix) && (var sub := h[..|h| - |suffix|]; sub != "" && '.' !in sub)
      case Ip(addr) =>
        var a := parse(h);
        a.Some? && a.value.zone == "" && a.value == addr
      case Cidr(prefix) =>
        var a := parse(h);
        a.Some? && a.value.zone == "" && Contains(prefix, a.value)
    }
  }

  datatype TargetError =
    | EmptyPattern
    | AllowAllNotConfigurable
    | MultiLabelWildcard
    | ZoneNotAllowed
    | InvalidWildcard
    | InvalidCidr
    | EmptyHostname
    | NoAllowedTargets

  function BuildTarget(parse: AddrParser, pattern: string): (r: Result<Matcher, TargetError>)
    ensures r.Success? ==> !r.value.AllowAll?
  {
    if pattern == "" then Failure(EmptyPattern)
    else if pattern == "*" then Failure(AllowAllNotConfigurable)
    else if HasPrefix(pattern, "**") then Failure(MultiLabelWildcard)
    else if '%' in pattern then Failure(ZoneNotAllowed)
    else if HasPrefix(pattern, "*.") then
      var parent := Normalize.Hostname(pattern[2..]);
      if parent == "" || '*' in parent then Failure(InvalidWildcard) else Success(Wildcard(parent))
    else if '/' in pattern then
      var prefix := ParsePrefix(parse, pattern);
      if prefix.None? then Failure(InvalidCidr) else Success(Cidr(Masked(prefix.value)))
    else
      var addr := parse(pattern);
      if addr.Some? then
        if addr.value.zone != "" then Failure(ZoneNotAllowed) else Success(Ip(addr.value))
      else
        var h := Normalize.Hostname(pattern);
        if h == "" then Failure(EmptyHostname) else Success(Host(h))
  }

  function Builder(parse: AddrParser): string -> Result<Matcher, TargetError> {
    pattern => BuildTarget(parse, pattern)
  }

  /** The compiled matchers of a list, or its first bad pattern's error. */
  function Compile(parse: AddrParser, patterns: seq<string>): Result<seq<Matcher>, TargetError> {
    TryMap(Builder(parse), patterns)
  }

  function Resolve(parse: AddrParser, patterns: seq<string>, allowAll: bool): Result<seq<Matcher>, TargetError> {
    if patterns != [] then Compile(parse, patterns)
    else if allowAll then Success([AllowAll])
    else Failure(NoAllowedTargets)
  }

  method ResolveAllowedTargets(parse: AddrParser, patterns: seq<string>, allowAll: bool)
    returns (r: Result<seq<Matcher>, TargetError>)
    ensures r == Resolve(parse, patterns, allowAll)
  {
    if |patterns| == 0 {
      if allowAll {
        return Success([AllowAll]);
      }
      return Failure(NoAllowedTargets);
    }
    var matchers := [];
    var build := Builder(parse);
    for i := 0 to |patterns|
      invariant TryMap(build, patterns[..i]) == Success(matchers)
    {
      assert patterns[..i + 1][..i] == patterns[..i];
      var m := build(patterns[i]);
      if m.Failure? {
        TryMapStops(build, patterns, i);
        return Failure(m.error);
      }
      matchers := matchers + [m.value];
    }
    assert patterns[..|patterns|] == patterns;
    r := Success(matchers);
  }

  predicate Allowed(parse: AddrParser, host: string, matchers: seq<Matcher>) {
    exists m :: m in matchers && m.Match(parse, host)
  }

  /** Deny unless some matcher matches. */
  method TargetAllowed(parse: AddrParser, host: string, matchers: seq<Matcher>) returns (allowed: bool)
    ensures allowed <==> Allowed(parse, host, matchers)
  {
    for i := 0 to |matchers|
      invariant forall k :: 0 <= k < i ==> !matchers[k].Match(parse, host)
    {
      if matchers[i].Match(parse, host) {
        return true;
      }
    }
    return false;
  }

  // ---- What a pattern means ----

  /** The hosts a pattern stands for, read off its text. */
  ghost predicate Denotes(parse: AddrParser, pattern: string, host: string) {
    if HasPrefix(pattern, "*.") then
      exists sub :: sub != "" && '.' !in sub && host == sub + ("." + Normalize.Hostname(pattern[2..]))
    else if '/' in pattern then
      var prefix := ParsePrefix(parse, pattern);
      prefix.Some? && parse(host).Some? && SharesTopBits(prefix.value, parse(host).value)
    else if parse(pattern).Some? then
      parse(host) == parse(pattern)
    else
      host == Normalize.Hostname(pattern)
  }

  lemma WildcardDenotes(parse: AddrParser, parent: string, host: string)
    ensures Wildcard(parent).Match(parse, host)
       <==> exists sub :: sub != "" && '.' !in sub && host == sub + ("." + parent)
  {
    var suffix := "." + parent;
    if HasSuffix(host, suffix) {
      SuffixSplits(host, host[..|host| - |suffix|], suffix);
    }
    forall sub | host == sub + suffix
      ensures HasSuffix(host, suffix) && host[..|host| - |suffix|] == sub
    {
      SuffixSplits(host, sub, suffix);
    }
  }

  /** A compiled pattern matches exactly the hosts the pattern stands for. */
  lemma BuildKeepsMeaning(parse: AddrParser, pattern: string, host: string)
    requires BuildTarget(parse, pattern).Success?
    ensures BuildTarget(parse, pattern).value.Match(parse, host) <==> Denotes(parse, pattern, host)
  {
    var m := BuildTarget(parse, pattern).value;
    match m {
      case Wildcard(parent) => WildcardDenotes(parse, parent, host);
      case Cidr(_) =>
        if parse(host).Some? {
          ContainsIsTopBits(ParsePrefix(parse, pattern).value, parse(host).value);
        }
      case Ip(_) =>
      case Host(_) =>
    }
  }

  /** A host is allowed by a compiled list exactly when some pattern of the list stands for it. */
  lemma CompileKeepsMeaning(parse: AddrParser, patterns: seq<string>, host: string)
    requires Compile(parse, patterns).Success?
    ensures forall m :: m in Compile(parse, patterns).value ==> !m.AllowAll?
    ensures Allowed(parse, host, Compile(parse, patterns).value)
       <==> exists p :: p in patterns && Denotes(parse, p, host)
  {
    TryMapEach(Builder(parse), patterns);
    var ms := Compile(parse, patterns).value;
    forall k | 0 <= k < |patterns|
      ensures !ms[k].AllowAll? && (ms[k].Match(parse, host) <==> Denotes(parse, patterns[k], host))
    {
      BuildKeepsMeaning(parse, patterns[k], host);
    }
    if Allowed(parse, host, ms) {
      var k :| 0 <= k < |ms| && ms[k].Match(parse, host);
      assert patterns[k] in patterns;
    }
    if exists p :: p in patterns && Denotes(parse, p, host) {
      var k :| 0 <= k < |patterns| && Denotes(parse, patterns[k], host);
      assert ms[k] in ms;
    }
  }

  /** Exactly one label: a subdomain of a subdomain, the parent itself and an empty label are out. */
  lemma WildcardIsOneLabel(parse: AddrParser, parent: string, a: string, b: string)
    ensures Wildcard(parent).Match(parse, a + ("." + parent)) <==> a != "" && '.' !in a
    ensures !Wildcard(parent).Match(parse, a + "." + b + ("." + parent))
    ensures !Wildcard(parent).Match(parse, parent)
  {
    var ab := a + "." + b;
    SuffixSplits(a + ("." + parent), a, "." + parent);
    SuffixSplits(ab + ("." + parent), ab, "." + parent);
    assert ab[|a|] == '.';
  }

  function Longest(patterns: seq<string>): (n: nat)
    ensures forall p :: p in patterns ==> |p| <= n
  {
    if patterns == [] then 0
    else
      var n := Longest(patterns[1..]);
      if |patterns[0]| > n then |patterns[0]| else n
  }

  /** However many patterns are listed, some host is left out: allow-all is not configurable as a list. */
  lemma NoListAllowsAll(parse: AddrParser, patterns: seq<string>) returns (host: string)
    requires Compile(parse, patterns).Success?
    requires forall n: nat :: n > 0 ==> parse(Repeat('a', n)).None?
    ensures host != "" && !Allowed(parse, host, Compile(parse, patterns).value)
  {
    host := Repeat('a', Longest(patterns) + 1);
    CompileKeepsMeaning(parse, patterns, host);
    forall p | p in patterns
      ensures !Denotes(parse, p, host)
    {
      if HasPrefix(p, "*.") {
        forall sub: string ensures host != sub + ("." + Normalize.Hostname(p[2..])) {
          assert (sub + ("." + Normalize.Hostname(p[2..])))[|sub|] == '.';
        }
      }
      assert |Normalize.Hostname(p)| <= |p|;
    }
  }

  /** A pattern that is empty, is "*", starts with "**" or names a zone never compiles, and no list with one does. */
  lemma ForbiddenPatterns(parse: AddrParser, patterns: seq<string>, p: string)
    requires p in patterns
    requires p == "" || p == "*" || HasPrefix(p, "**") || '%' in p
    ensures BuildTarget(parse, p).Failure? && Compile(parse, patterns).Failure?
  {
    TryMapEach(Builder(parse), patterns);
    var k :| 0 <= k < |patterns| && patterns[k] == p;
    assert BuildTarget(parse, patterns[k]).Failure?;
  }

  /** The patterns that can be configured, by their text. */
  ghost predicate Configurable(parse: AddrParser, p: string) {
    && p != "" && p != "*" && !HasPrefix(p, "**") && '%' !in p
    && if HasPrefix(p, "*.") then p[2..] !in {"", "."} && '*' !in p[2..]
       else if '/' in p then exists a, bits: nat :: IsPrefixText(parse, p, a, bits)
       else if parse(p).Some? then parse(p).value.zone == ""
       else p != "."
  }

  /** Exactly these compile. */
  lemma BuildsByText(parse: AddrParser, pattern: string)
    ensures BuildTarget(parse, pattern).Success? <==> Configurable(parse, pattern)
  {
    if HasPrefix(pattern, "*.") {
      Normalize.EmptyHostname(pattern[2..]);
      Normalize.NormalizedHas(pattern[2..], '*');
    } else if '/' in pattern {
      PrefixByText(parse, pattern);
    } else {
      Normalize.EmptyHostname(pattern);
    }
  }

  lemma CompilesByText(parse: AddrParser, patterns: seq<string>)
    ensures Compile(parse, patterns).Success? <==> forall p :: p in patterns ==> Configurable(parse, p)
  {
    TryMapEach(Builder(parse), patterns);
    forall k | 0 <= k < |patterns|
      ensures Builder(parse)(patterns[k]).Success? <==> Configurable(parse, patterns[k])
    {
      BuildsByText(parse, patterns[k]);
    }
  }
}
