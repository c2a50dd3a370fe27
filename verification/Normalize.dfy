/** Canonical host names. Letters outside ASCII are left as they are. */
module Normalize {
  import opened Common

  function LowerChar(c: char): char {
    if 'A' <= c <= 'Z' then (c as int + 32) as char else c
  }

  function ToLower(s: string): (r: string)
    ensures |r| == |s| && forall k :: 0 <= k < |s| ==> r[k] == LowerChar(s[k])
  {
    seq(|s|, k requires 0 <= k < |s| => LowerChar(s[k]))
  }

  function TrimDot(h: string): string {
    if HasSuffix(h, ".") then h[..|h| - 1] else h
  }

  /** Lower case, less one trailing dot. */
  function Hostname(h: string): string { ToLower(TrimDot(h)) }

  lemma LowerTwice(h: string)
    ensures ToLower(ToLower(h)) == ToLower(h)
  {
  }

  lemma LowerEnds(h: string)
    ensures HasSuffix(ToLower(h), ".") <==> HasSuffix(h, ".")
  {
    if h != "" {
      assert h[|h| - 1..] == [h[|h| - 1]];
      assert ToLower(h)[|h| - 1..] == [ToLower(h)[|h| - 1]];
    }
  }

  /** Normalizing twice changes nothing more exactly when at most one trailing dot was there. */
  lemma HostnameTwice(h: string)
    ensures Hostname(Hostname(h)) == Hostname(h) <==> !HasSuffix(TrimDot(h), ".")
  {
    LowerEnds(TrimDot(h));
    LowerTwice(TrimDot(h));
    if HasSuffix(TrimDot(h), ".") {
      assert |Hostname(Hostname(h))| == |Hostname(h)| - 1;
    }
  }

  lemma EmptyHostname(h: string)
    ensures Hostname(h) == "" <==> h in {"", "."}
  {
    assert |Hostname(h)| == |TrimDot(h)|;
    if h != "" {
      assert h[|h| - 1..] == [h[|h| - 1]];
    }
  }

  /** The same but for the case of ASCII letters. */
  predicate SameButCase(a: string, b: string) {
    && |a| == |b|
    && forall k :: 0 <= k < |a| ==>
         || a[k] == b[k]
         || ('A' <= a[k] <= 'Z' && b[k] as int == a[k] as int - 'A' as int + 'a' as int)
         || ('A' <= b[k] <= 'Z' && a[k] as int == b[k] as int - 'A' as int + 'a' as int)
  }

  /** Two names have the same canonical form exactly if, less one dot at their ends, they differ in case alone; and that has no capitals. */
  lemma SameHostname(a: string, b: string)
    ensures Hostname(a) == Hostname(b) <==> SameButCase(TrimDot(a), TrimDot(b))
    ensures forall k :: 0 <= k < |Hostname(a)| ==> !('A' <= Hostname(a)[k] <= 'Z')
  {
    var s, t := TrimDot(a), TrimDot(b);
    if Hostname(a) == Hostname(b) {
      assert forall k :: 0 <= k < |s| ==> LowerChar(s[k]) == ToLower(s)[k] == ToLower(t)[k] == LowerChar(t[k]);
    }
  }

  /** The dot at the end of a fully qualified name makes no difference. */
  lemma FinalDot(h: string)
    ensures TrimDot(h + ".") == h
    ensures !HasSuffix(h, ".") ==> TrimDot(h) == h && Hostname(h + ".") == Hostname(h)
  {
    assert (h + ".")[|h|..] == "." && (h + ".")[..|h|] == h;
  }

  lemma NormalizedHas(h: string, c: char)
    requires c != '.' && !('A' <= c <= 'Z') && !('a' <= c <= 'z')
    ensures c in Hostname(h) <==> c in h
  {
    TrimmedHas(h, c);
    LowerHas(TrimDot(h), c);
  }

  lemma TrimmedHas(h: string, c: char)
    requires c != '.'
    ensures c in TrimDot(h) <==> c in h
  {
    if TrimDot(h) != h {
      assert h == TrimDot(h) + ".";
    }
  }

  lemma LowerHas(s: string, c: char)
    requires !('A' <= c <= 'Z') && !('a' <= c <= 'z')
    ensures c in ToLower(s) <==> c in s
  {
    assert forall k :: 0 <= k < |s| ==> (ToLower(s)[k] == c <==> s[k] == c);
    if c in s {
      var k :| 0 <= k < |s| && s[k] == c;
      assert ToLower(s)[k] == c;
    }
  }
}
