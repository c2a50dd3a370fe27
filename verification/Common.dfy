/** Result types shared by the whole model. */
module Common {

  /** A value that may be absent: Go's nil pointer, or a lookup that finds nothing. */
  datatype Option<+T> = None | Some(value: T)

  /** Go's `(value, error)` returns. */
  datatype Result<+T, +E> = Success(value: T) | Failure(error: E)

  /** The position of the first `c` in `s`, or `|s|` if there is none. */
  function IndexOf<T(==)>(s: seq<T>, c: T): (i: nat)
    ensures i <= |s| && c !in s[..i]
    ensures i < |s| ==> s[i] == c
  {
    if s == [] || s[0] == c then 0 else
      var i := IndexOf(s[1..], c);
      assert s[..1 + i] == [s[0]] + s[1..][..i];
      1 + i
  }

  lemma {:induction false} IndexOfUnique<T>(s: seq<T>, c: T, i: nat)
    requires i <= |s| && c !in s[..i] && (i == |s| || s[i] == c)
    ensures IndexOf(s, c) == i
  {
    if i > 0 {
      assert s[0] == s[..i][0];
      assert s[1..][..i - 1] == s[..i][1..];
      IndexOfUnique(s[1..], c, i - 1);
    }
  }

  /** The position of the last `c` in `s`, or `|s|` if there is none. */
  function LastIndexOf<T(==)>(s: seq<T>, c: T): (i: nat)
    ensures i <= |s|
    ensures i < |s| ==> s[i] == c && c !in s[i + 1..]
    ensures i == |s| ==> c !in s
  {
    if s == [] then 0
    else if s[|s| - 1] == c then |s| - 1
    else
      var init := s[..|s| - 1];
      assert s == init + [s[|s| - 1]];
      var i := LastIndexOf(init, c);
      if i == |init| then |s| else
        assert s[i + 1..] == init[i + 1..] + [s[|s| - 1]];
        i
  }

  lemma {:induction false} LastIndexOfUnique<T>(s: seq<T>, c: T, i: nat)
    requires i < |s| && s[i] == c && c !in s[i + 1..]
    ensures LastIndexOf(s, c) == i
  {
    var init := s[..|s| - 1];
    if i < |s| - 1 {
      assert s[i + 1..] == init[i + 1..] + [s[|s| - 1]];
      LastIndexOfUnique(init, c, i);
    }
  }

  lemma {:induction false} IndexOfAtMost<T>(s: seq<T>, c: T, k: nat)
    requires k < |s| && s[k] == c
    ensures IndexOf(s, c) <= k
  {
    if k > 0 {
      IndexOfAtMost(s[1..], c, k - 1);
    }
  }

  /** `n` copies of `c`. */
  function Repeat<T>(c: T, n: nat): (s: seq<T>)
    ensures |s| == n && forall i :: 0 <= i < n ==> s[i] == c
  {
    seq(n, _ => c)
  }

  /** `f` of every element in turn, or the first failure. */
  function TryMap<A, B, E>(f: A -> Result<B, E>, xs: seq<A>): Result<seq<B>, E> {
    if xs == [] then Success([])
    else
      var init := TryMap(f, xs[..|xs| - 1]);
      if init.Failure? then init
      else match f(xs[|xs| - 1])
        case Success(y) => Success(init.value + [y])
        case Failure(e) => Failure(e)
  }

  /** It succeeds when `f` does on each element, and then position by position. */
  lemma {:induction false} TryMapEach<A, B, E>(f: A -> Result<B, E>, xs: seq<A>)
    ensures TryMap(f, xs).Success? <==> forall k :: 0 <= k < |xs| ==> f(xs[k]).Success?
    ensures TryMap(f, xs).Success? ==>
              var ys := TryMap(f, xs).value;
              |ys| == |xs| && forall k :: 0 <= k < |ys| ==> f(xs[k]) == Success(ys[k])
  {
    if xs != [] {
      var init := xs[..|xs| - 1];
      TryMapEach(f, init);
      assert forall k :: 0 <= k < |init| ==> init[k] == xs[k];
    }
  }

  /** Elements after the first failure do not change it. */
  lemma {:induction false} TryMapStops<A, B, E>(f: A -> Result<B, E>, xs: seq<A>, i: nat)
    requires i < |xs| && TryMap(f, xs[..i]).Success? && f(xs[i]).Failure?
    ensures TryMap(f, xs) == Failure(f(xs[i]).error)
    decreases |xs|
  {
    var init := xs[..|xs| - 1];
    if i < |init| {
      assert init[..i] == xs[..i];
      TryMapStops(f, init, i);
    }
  }

  predicate HasPrefix<T(==)>(s: seq<T>, p: seq<T>) { |p| <= |s| && s[..|p|] == p }

  predicate HasSuffix<T(==)>(s: seq<T>, p: seq<T>) { |p| <= |s| && s[|s| - |p|..] == p }

  lemma SuffixSplits<T>(s: seq<T>, head: seq<T>, tail: seq<T>)
    ensures s == head + tail <==> HasSuffix(s, tail) && s[..|s| - |tail|] == head
  {
    if HasSuffix(s, tail) {
      assert s == s[..|s| - |tail|] + s[|s| - |tail|..];
    }
    if s == head + tail {
      assert s[|head|..] == tail && s[..|head|] == head;
    }
  }
}
