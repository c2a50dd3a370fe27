/**
 * The watcher on the probe's connection, which looks for the server's identification
 * string in whatever pieces the network delivers it.
 */
module Scanner {
  import opened Common
  import opened Bytes

  // ---- The automaton, on values ----

  datatype Watch =
    | Watching(line: seq<byte>)
    | Received(identification: seq<byte>)

  const START := Watching([])

  function Step(w: Watch, c: byte): Watch {
    match w
    case Received(_) => w
    case Watching(line) =>
      if c == LF then
        if HasPrefix(line, SSH) then Received(TrimCr(line)) else START
      else if |line| < LINE_CAP then Watching(line + [c])
      else w
  }

  function Scan(w: Watch, b: seq<byte>): Watch
    decreases |b|
  {
    if b == [] then w else Scan(Step(w, b[0]), b[1..])
  }

  /** Scanning one piece after another is scanning them joined. */
  lemma {:induction false} ScanConcat(w: Watch, a: seq<byte>, b: seq<byte>)
    ensures Scan(w, a + b) == Scan(Scan(w, a), b)
    decreases |a|
  {
    if a == [] {
      assert a + b == b;
    } else {
      assert (a + b)[1..] == a[1..] + b;
      ScanConcat(Step(w, a[0]), a[1..], b);
    }
  }

  lemma {:induction false} ScanSnoc(w: Watch, a: seq<byte>, c: byte)
    ensures Scan(w, a + [c]) == Step(Scan(w, a), c)
  {
    ScanConcat(w, a, [c]);
    assert [c][1..] == [];
  }

  function Concat(chunks: seq<seq<byte>>): seq<byte> {
    if chunks == [] then [] else chunks[0] + Concat(chunks[1..])
  }

  function ScanChunks(w: Watch, chunks: seq<seq<byte>>): Watch
    decreases |chunks|
  {
    if chunks == [] then w else ScanChunks(Scan(w, chunks[0]), chunks[1..])
  }

  /** However the stream is cut into reads, the watcher ends where one big read would take it. */
  lemma {:induction false} ChunkingIsIrrelevant(w: Watch, chunks: seq<seq<byte>>)
    ensures ScanChunks(w, chunks) == Scan(w, Concat(chunks))
    decreases |chunks|
  {
    if chunks != [] {
      ScanConcat(w, chunks[0], Concat(chunks[1..]));
      ChunkingIsIrrelevant(Scan(w, chunks[0]), chunks[1..]);
    }
  }

  /** Once received, nothing that follows changes the identification. */
  lemma {:induction false} ReceivedIsFinal(w: Watch, b: seq<byte>)
    requires w.Received?
    ensures Scan(w, b) == w
  {
    if b != [] {
      ReceivedIsFinal(w, b[1..]);
    }
  }

  lemma ReceivedBeforeEnd(w: Watch, b: seq<byte>, n: nat)
    requires n <= |b| && Scan(w, b[..n]).Received?
    ensures Scan(w, b) == Scan(w, b[..n])
  {
    assert b == b[..n] + b[n..];
    ScanConcat(w, b[..n], b[n..]);
    ReceivedIsFinal(Scan(w, b[..n]), b[n..]);
  }

  // ---- What the automaton means: the lines of the stream, with no cap ----

  predicate NoNewline(s: seq<byte>, i: nat, j: nat)
    requires j <= |s|
  {
    forall k :: i <= k < j ==> s[k] != LF
  }

  predicate LineStart(s: seq<byte>, i: nat) {
    i <= |s| && (i == 0 || s[i - 1] == LF)
  }

  /** `s[i..j]` is a complete line of the stream `s`, its newline at `j`, and starts with "SSH-". */
  predicate SshLineAt(s: seq<byte>, i: nat, j: nat) {
    && i <= j < |s|
    && s[j] == LF
    && LineStart(s, i)
    && NoNewline(s, i, j)
    && HasPrefix(s[i..j], SSH)
  }

  ghost predicate FirstSshLine(s: seq<byte>, i: nat, j: nat) {
    && SshLineAt(s, i, j)
    && forall i': nat, j': nat :: SshLineAt(s, i', j') ==> j <= j'
  }

  ghost predicate HasSshLine(s: seq<byte>) {
    exists i: nat, j: nat :: SshLineAt(s, i, j)
  }

  /** `st` is where the unfinished last line of `s` begins. */
  predicate OpenLineAt(s: seq<byte>, st: nat) {
    LineStart(s, st) && NoNewline(s, st, |s|)
  }

  /** The watcher's state `w` is the right one after the stream `s`. */
  ghost predicate Describes(w: Watch, s: seq<byte>) {
    match w
    case Watching(line) =>
      !HasSshLine(s) && exists st: nat :: OpenLineAt(s, st) && line == Cap(LINE_CAP, s[st..])
    case Received(id) =>
      exists i: nat, j: nat :: FirstSshLine(s, i, j) && id == TrimCr(Cap(LINE_CAP, s[i..j]))
  }

  /** Appending a byte leaves the complete lines of a stream as they are. */
  lemma LinesOfPrefix(s: seq<byte>, c: byte, i: nat, j: nat)
    requires j < |s|
    ensures SshLineAt(s + [c], i, j) == SshLineAt(s, i, j)
  {
    var t := s + [c];
    assert forall k :: 0 <= k < |s| ==> t[k] == s[k];
    if i <= j {
      assert t[i..j] == s[i..j];
      assert NoNewline(t, i, j) == NoNewline(s, i, j);
    }
  }

  /** The only line an appended newline can complete is the open one. */
  lemma OpenLineCompleted(s: seq<byte>, st: nat, c: byte, i: nat, j: nat)
    requires OpenLineAt(s, st) && !HasSshLine(s) && SshLineAt(s + [c], i, j)
    ensures c == LF && i == st && j == |s|
  {
    var t := s + [c];
    assert forall k :: 0 <= k < |s| ==> t[k] == s[k];
    if j < |s| {
      LinesOfPrefix(s, c, i, j);
    }
  }

  lemma StepAfterReceived(id: seq<byte>, s: seq<byte>, c: byte)
    requires Describes(Received(id), s)
    ensures Describes(Received(id), s + [c])
  {
    var t := s + [c];
    var i: nat, j: nat :| FirstSshLine(s, i, j) && id == TrimCr(Cap(LINE_CAP, s[i..j]));
    assert t[i..j] == s[i..j];
    LinesOfPrefix(s, c, i, j);
    forall i': nat, j': nat | SshLineAt(t, i', j')
      ensures j <= j'
    {
      if j' < |s| { LinesOfPrefix(s, c, i', j'); }
    }
    assert FirstSshLine(t, i, j);
  }

  lemma StepWithinLine(line: seq<byte>, s: seq<byte>, c: byte)
    requires Describes(Watching(line), s) && c != LF
    ensures Describes(Step(Watching(line), c), s + [c])
  {
    var t := s + [c];
    var st: nat :| OpenLineAt(s, st) && line == Cap(LINE_CAP, s[st..]);
    assert t[st..] == s[st..] + [c];
    assert OpenLineAt(t, st);
    assert Step(Watching(line), c).line == Cap(LINE_CAP, t[st..]);
    forall i: nat, j: nat
      ensures !SshLineAt(t, i, j)
    {
      if SshLineAt(t, i, j) { OpenLineCompleted(s, st, c, i, j); }
    }
  }

  lemma StepAtNewline(line: seq<byte>, s: seq<byte>)
    requires Describes(Watching(line), s)
    ensures Describes(Step(Watching(line), LF), s + [LF])
  {
    var t := s + [LF];
    var st: nat :| OpenLineAt(s, st) && line == Cap(LINE_CAP, s[st..]);
    assert t[st..|s|] == s[st..];
    assert NoNewline(t, st, |s|);
    assert LineStart(t, st);
    assert HasPrefix(line, SSH) == HasPrefix(s[st..], SSH) == SshLineAt(t, st, |s|);
    forall i: nat, j: nat | SshLineAt(t, i, j)
      ensures i == st && j == |s|
    {
      OpenLineCompleted(s, st, LF, i, j);
    }
    if HasPrefix(line, SSH) {
      assert FirstSshLine(t, st, |s|);
    } else {
      assert t[|t|..] == [];
      assert OpenLineAt(t, |t|);
    }
  }

  lemma StepDescribes(w: Watch, s: seq<byte>, c: byte)
    requires Describes(w, s)
    ensures Describes(Step(w, c), s + [c])
  {
    match w {
      case Received(id) => StepAfterReceived(id, s, c);
      case Watching(line) =>
        if c == LF {
          StepAtNewline(line, s);
        } else {
          StepWithinLine(line, s, c);
        }
    }
  }

  /**
   * The bounded automaton computes the unbounded specification: the first complete line
   * starting with "SSH-", or the open line so far if there is none.
   */
  lemma {:induction false} ScanMeaning(s: seq<byte>)
    ensures Describes(Scan(START, s), s)
  {
    if s == [] {
      assert OpenLineAt(s, 0);
    } else {
      var init := s[..|s| - 1];
      assert s == init + [s[|s| - 1]];
      ScanMeaning(init);
      ScanSnoc(START, init, s[|s| - 1]);
      StepDescribes(Scan(START, init), init, s[|s| - 1]);
    }
  }

  lemma FirstSshLineIsUnique(s: seq<byte>, i: nat, j: nat, i': nat, j': nat)
    requires FirstSshLine(s, i, j) && FirstSshLine(s, i', j')
    ensures i == i' && j == j'
  {
    assert j == j';
  }

  /**
   * After any reads, the identification has been received exactly when a whole "SSH-"
   * line has, so it is set by the read that delivers that line's newline; and it is that
   * line, capped and without its CR.
   */
  lemma ReceivedExactly(chunks: seq<seq<byte>>)
    ensures ScanChunks(START, chunks).Received? <==> HasSshLine(Concat(chunks))
    ensures forall i: nat, j: nat :: FirstSshLine(Concat(chunks), i, j) ==>
              ScanChunks(START, chunks) == Received(TrimCr(Cap(LINE_CAP, Concat(chunks)[i..j])))
  {
    var s := Concat(chunks);
    ChunkingIsIrrelevant(START, chunks);
    ScanMeaning(s);
    forall i: nat, j: nat | FirstSshLine(s, i, j)
      ensures Scan(START, s) == Received(TrimCr(Cap(LINE_CAP, s[i..j])))
    {
      assert HasSshLine(s);
      var i': nat, j': nat :| FirstSshLine(s, i', j') && Scan(START, s).identification == TrimCr(Cap(LINE_CAP, s[i'..j']));
      FirstSshLineIsUnique(s, i, j, i', j');
    }
  }

  // ---- The watcher itself ----

  class IdentificationWatcher {
    var line: array<byte>
    var len: nat
    /** The identification is the first `identLen` bytes of `line`, once received: it shares the array. */
    var identLen: nat
    /** When the newline that ends the identification was read. */
    var received: Option<int>
    /** Every byte handed out by the connection so far. */
    ghost var stream: seq<byte>

    ghost predicate Valid()
      reads this, line
    {
      && line.Length == LINE_CAP
      && len <= LINE_CAP && identLen <= LINE_CAP
      && State() == Scan(START, stream)
    }

    ghost function State(): Watch
      reads this, line
      requires len <= line.Length && identLen <= line.Length
    {
      if received.Some? then Received(line[..identLen]) else Watching(line[..len])
    }

    constructor ()
      ensures Valid() && fresh(line) && received.None? && stream == []
    {
      line := new byte[LINE_CAP];
      len, identLen := 0, 0;
      received := None;
      stream := [];
    }

    /** One read of the connection delivers `chunk` at time `now`. */
    method Read(chunk: seq<byte>, now: int)
      requires Valid()
      modifies this, line
      ensures Valid() && line == old(line)
      ensures stream == old(stream) + chunk
      ensures State() == Scan(old(State()), chunk)
      ensures received == if State().Watching? then None
                          else if old(received).Some? then old(received)
                          else Some(now)
      ensures old(received).Some? ==> line[..] == old(line[..]) && identLen == old(identLen)
    {
      ScanConcat(START, stream, chunk);
      if received.None? {
        ScanLines(chunk, now);
      } else {
        ReceivedIsFinal(State(), chunk);
      }
      stream := stream + chunk;
    }

    method ScanLines(b: seq<byte>, now: int)
      requires received.None? && line.Length == LINE_CAP && len <= LINE_CAP && identLen <= LINE_CAP
      modifies this`len, this`identLen, this`received, line
      ensures len <= LINE_CAP && identLen <= LINE_CAP
      ensures State() == Scan(old(State()), b)
      ensures received == if State().Received? then Some(now) else None
    {
      assert b[..0] == [];
      for i := 0 to |b|
        invariant len <= LINE_CAP && identLen <= LINE_CAP && received.None?
        invariant State() == Scan(old(State()), b[..i])
      {
        var c := b[i];
        assert b[..i + 1] == b[..i] + [c];
        ScanSnoc(old(State()), b[..i], c);
        if c == LF {
          if HasPrefix(line[..len], SSH) {
            identLen := if len > 0 && line[len - 1] == CR then len - 1 else len;
            received := Some(now);
            assert line[..identLen] == TrimCr(line[..len]);
            ReceivedBeforeEnd(old(State()), b, i + 1);
            return;
          }
          len := 0;
        } else if len < LINE_CAP {
          line[len] := c;
          len := len + 1;
        }
      }
      assert b[..|b|] == b;
    }
  }
}
