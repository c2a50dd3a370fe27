/** Taking a target apart as `url.Parse` does with "//" + target. */
module Urls {
  import opened Common

  datatype HostPart = HostPart(
    hostname: string,  // without the brackets of an IPv6 literal
    port: string)

  /** How the library reads a host with an optional port; None is any of its errors. */
  type HostParser = string -> Option<HostPart>

  datatype Url = Url(
    hasUser: bool, path: string, rawQuery: string, forceQuery: bool, fragment: string, opaquePart: string,
    host: HostPart)

  predicate IsControl(c: char) { c < ' ' || c as int == 0x7f }

  predicate HasControl(s: string) { exists c :: c in s && IsControl(c) }

  /** What follows the first `c`, if there is one. */
  function After(s: string, c: char): string {
    var i := IndexOf(s, c);
    if i < |s| then s[i + 1..] else ""
  }

  function Before(s: string, c: char): string { s[..IndexOf(s, c)] }

  /**
   * The URL of "//" + target: the fragment is cut off first, then the query, then the path.
   * An escape that is not well-formed in one of these is not an error here.
   */
  function Parse(parseHost: HostParser, target: string): Option<Url> {
    var u := Before(target, '#');
    if HasControl(u) then None
    else
      var rest := Before(u, '?');
      // An empty query leaves a mark, an empty fragment none.
      var forceQuery := u != "" && rest == u[..|u| - 1] && u[|u| - 1] == '?';
      if HasPrefix(rest, "/") then
        // Three slashes introduce a path, not an authority.
        Some(Url(false, "//" + rest, After(u, '?'), forceQuery, After(target, '#'), "", HostPart("", "")))
      else
        var j := IndexOf(rest, '/');
        var authority := rest[..j];
        var at := LastIndexOf(authority, '@');
        var hasUser := at < |authority|;
        var host := parseHost(if hasUser then authority[at + 1..] else authority);
        if host.None? then None
        else Some(Url(hasUser, rest[j..], After(u, '?'), forceQuery, After(target, '#'), "", host.value))
  }

  /** None of a URL's structure around a host and port: no userinfo, path, query or fragment. */
  predicate Bare(s: string) { '@' !in s && '/' !in s && '?' !in s && '#' !in s }

  /** The target less a "#" and then a "?" at its end. */
  function BarePart(target: string): string {
    Less(Less(target, '#'), '?')
  }

  function Less(s: string, c: char): string {
    if s != "" && s[|s| - 1] == c then s[..|s| - 1] else s
  }

  /** The parts that a probe's target must not have are all empty. */
  predicate Plain(u: Url) {
    !u.hasUser && u.path == "" && u.rawQuery == "" && u.fragment == "" && u.opaquePart == ""
  }

  /** Cutting at a character leaves nothing after it exactly if it is nowhere but at the end. */
  lemma CutsNothing(s: string, c: char)
    ensures After(s, c) == "" <==> c !in Less(s, c)
    ensures After(s, c) == "" ==> Before(s, c) == Less(s, c)
  {
    var i := IndexOf(s, c);
    if c !in Less(s, c) {
      if s != "" && s[|s| - 1] == c {
        IndexOfUnique(s, c, |s| - 1);
      } else {
        assert s[..|s|] == s;
        IndexOfUnique(s, c, |s|);
      }
    }
    if After(s, c) == "" {
      assert i == |s| ==> s[..i] == s;
      assert i < |s| ==> i == |s| - 1;
    } else {
      assert s[i] == c && i < |s| - 1;
      assert Less(s, c)[i] == c;
    }
  }

  lemma LessKeeps(s: string, c: char, x: char)
    requires x != c
    ensures x in Less(s, c) <==> x in s
  {
    if Less(s, c) != s {
      assert s == Less(s, c) + [c];
    }
  }

  lemma ControlsOf(s: string, c: char)
    requires !IsControl(c)
    ensures HasControl(Less(s, c)) <==> HasControl(s)
  {
    forall x | IsControl(x)
      ensures x in Less(s, c) <==> x in s
    {
      LessKeeps(s, c, x);
    }
  }

  /**
   * A target has no part that must not be there exactly if it is bare up to a "?" and a "#"
   * at its end; and then the host is that of the bare part.
   */
  lemma PlainByText(parseHost: HostParser, target: string)
    ensures var u := Parse(parseHost, target);
            var bare := BarePart(target);
            && (u.Some? && Plain(u.value) <==> Bare(bare) && !HasControl(bare) && parseHost(bare).Some?)
            && (u.Some? && Plain(u.value) ==> parseHost(bare) == Some(u.value.host))
  {
    var t, bare := Less(target, '#'), BarePart(target);
    CutsNothing(target, '#');
    CutsNothing(t, '?');
    ControlsOf(t, '?');
    LessKeeps(t, '?', '#');
    if After(target, '#') == "" && After(t, '?') == "" {
      PlainAuthority(parseHost, target, t, bare);
    }
  }

  lemma PlainAuthority(parseHost: HostParser, target: string, u: string, rest: string)
    requires After(target, '#') == "" && u == Before(target, '#')
    requires After(u, '?') == "" && rest == Before(u, '?')
    ensures var r := Parse(parseHost, target);
            && (r.Some? && Plain(r.value) <==> !HasControl(u) && '/' !in rest && '@' !in rest && parseHost(rest).Some?)
            && (r.Some? && Plain(r.value) ==> parseHost(rest) == Some(r.value.host))
  {
    var j := IndexOf(rest, '/');
    assert rest[..|rest|] == rest;
    if '/' !in rest {
      assert j == |rest| && rest[..j] == rest && rest[j..] == "";
      assert LastIndexOf(rest, '@') < |rest| <==> '@' in rest;
    }
  }

  /** The bare part means what the whole does. */
  lemma BarePartIsBare(target: string)
    requires Bare(BarePart(target))
    ensures BarePart(BarePart(target)) == BarePart(target)
    ensures Bare(target) <==> target == BarePart(target)
    ensures Bare(target) <==> !HasSuffix(target, "?") && !HasSuffix(target, "#")
  {
    var t := Less(target, '#');
    LessKeeps(t, '?', '#');
    if target != "" {
      assert target[|target| - 1] in target;
      assert target[|target| - 1..] == [target[|target| - 1]];
    }
    if t != "" {
      assert t[|t| - 1] in t;
    }
  }
}
