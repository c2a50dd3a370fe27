/** Recording which status code a response went out with. */
module StatusRecorder {

  /** What a handler may do with its response writer. */
  datatype Call = WriteHeader(code: int) | Write

  /** Codes that announce a response rather than being one; 101 is final. */
  predicate Informational(code: int) { 100 <= code <= 199 && code != 101 }

  /** The code the client gets: that of the first call that ends the header, else 200. */
  function Received(calls: seq<Call>): int {
    if calls == [] then 200
    else match calls[0]
      case Write => 200
      case WriteHeader(code) => if Informational(code) then Received(calls[1..]) else code
  }

  /** The code on record: that of the first call, if it is a WriteHeader, else 200. */
  function Recorded(calls: seq<Call>): int {
    if calls != [] && calls[0].WriteHeader? then calls[0].code else 200
  }

  /** Whether a call so far has ended the header. */
  function HeaderSent(calls: seq<Call>): bool {
    exists k :: 0 <= k < |calls| && (calls[k].Write? || !Informational(calls[k].code))
  }

  /** The server's own writer, which lets the first final header through and drops later ones. */
  class ResponseWriter {
    var sent: bool
    var code: int
    ghost var calls: seq<Call>

    ghost predicate Valid()
      reads this
    {
      sent == HeaderSent(calls) && code == Received(calls)
    }

    constructor ()
      ensures Valid() && calls == []
    {
      sent, code, calls := false, 200, [];
    }

    method Do(call: Call)
      requires Valid()
      modifies this
      ensures Valid() && calls == old(calls) + [call]
    {
      ReceivedSnoc(calls, call);
      if !sent {
        match call {
          case Write => sent, code := true, 200;
          case WriteHeader(c) =>
            if !Informational(c) {
              sent, code := true, c;
            }
        }
      }
      calls := calls + [call];
    }
  }

  class Recorder {
    const w: ResponseWriter
    var status: int
    var wroteHeader: bool

    ghost predicate Valid()
      reads this, w
    {
      && w.Valid()
      && wroteHeader == (w.calls != [])
      && status == Recorded(w.calls)
    }

    constructor (w: ResponseWriter)
      requires w.Valid() && w.calls == []
      ensures Valid() && this.w == w
    {
      this.w := w;
      status, wroteHeader := 200, false;
    }

    method WriteHeader(code: int)
      requires Valid()
      modifies this, w
      ensures Valid() && w.calls == old(w.calls) + [Call.WriteHeader(code)]
    {
      if !wroteHeader {
        status := code;
        wroteHeader := true;
      }
      w.Do(Call.WriteHeader(code));
    }

    method Write()
      requires Valid()
      modifies this, w
      ensures Valid() && w.calls == old(w.calls) + [Call.Write]
    {
      wroteHeader := true;
      w.Do(Call.Write);
    }

    /** Any handler whose calls are `script`, run on a fresh recorder. */
    method Replay(script: seq<Call>)
      requires Valid() && w.calls == []
      modifies this, w
      ensures Valid() && w.calls == script
      ensures status == w.code <==> !(script != [] && script[0].WriteHeader? && Informational(script[0].code))
    {
      for i := 0 to |script|
        invariant Valid() && w.calls == script[..i]
      {
        match script[i] {
          case WriteHeader(code) => WriteHeader(code);
          case Write => Write();
        }
        assert script[..i + 1] == script[..i] + [script[i]];
      }
      assert script[..|script|] == script;
      RecordedIsReceived(script);
    }
  }

  lemma {:induction false} ReceivedSnoc(calls: seq<Call>, call: Call)
    ensures Received(calls + [call]) == if HeaderSent(calls) then Received(calls) else Received([call])
    ensures HeaderSent(calls + [call]) <==> HeaderSent(calls) || call.Write? || !Informational(call.code)
    ensures !HeaderSent(calls) ==> Received(calls) == 200
  {
    var more := calls + [call];
    assert more[|calls|] == call;
    assert forall k :: 0 <= k < |calls| ==> more[k] == calls[k];
    if calls == [] {
      assert more == [call];
    } else {
      assert more[1..] == calls[1..] + [call];
      ReceivedSnoc(calls[1..], call);
      assert forall k :: 0 <= k < |calls| - 1 ==> calls[1..][k] == calls[k + 1];
      assert HeaderSent(calls) <==> calls[0].Write? || !Informational(calls[0].code) || HeaderSent(calls[1..]) by {
        if HeaderSent(calls) {
          var k :| 0 <= k < |calls| && (calls[k].Write? || !Informational(calls[k].code));
          assert k > 0 ==> calls[1..][k - 1] == calls[k];
        }
      }
    }
  }

  lemma {:induction false} ReceivedIsFinal(calls: seq<Call>)
    ensures !Informational(Received(calls))
  {
    if calls != [] {
      ReceivedIsFinal(calls[1..]);
    }
  }

  /** The call ends the header: it writes the page, or a code that is no announcement. */
  predicate IsFinal(call: Call) {
    match call
    case Write => true
    case WriteHeader(code) => code < 100 || code == 101 || code > 199
  }

  /** The client receives the code of the first final call, 200 for a write; and 200 if there is none. */
  lemma {:induction false} ReceivedIsFirstFinal(calls: seq<Call>, k: nat)
    requires k <= |calls| && forall i :: 0 <= i < k ==> !IsFinal(calls[i])
    requires k < |calls| ==> IsFinal(calls[k])
    ensures Received(calls) == if k < |calls| && calls[k].WriteHeader? then calls[k].code else 200
  {
    if k > 0 {
      ReceivedIsFirstFinal(calls[1..], k - 1);
    }
  }

  /**
   * The recorded code is the one the client received, unless the very first call announces
   * with an informational code, and then it never is.
   */
  lemma RecordedIsReceived(calls: seq<Call>)
    ensures Recorded(calls) == Received(calls) <==> calls == [] || IsFinal(calls[0])
    ensures calls != [] && !IsFinal(calls[0]) ==> Recorded(calls) == calls[0].code && 100 <= Recorded(calls) <= 199
  {
    ReceivedIsFinal(calls);
  }
}
