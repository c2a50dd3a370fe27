/** How `serve` ends: the listener, the signal loop beside it, and the drain. */
module Shutdown {
  import opened Common

  datatype Signal = Hangup | Terminate

  /** What `listenAndServe` returns. */
  datatype ListenError = NoError | ServerClosed | Broken

  datatype Ending = StopSeen | Drained | DrainTimedOut

  /** The signal loop. */
  datatype Loop = Selecting | Reloading | Draining | Ended(ending: Ending)

  /** The goroutine that called `serve`. */
  datatype Caller =
    | Listening
    | ListenReturned(err: ListenError)
    | AwaitingDrain(err: ListenError)     // `stop` is closed
    | Returned(err: ListenError)

  datatype State = State(
    caller: Caller,
    loop: Loop,
    stopClosed: bool,
    doneClosed: nat,          // how often `shutdownDone` has been closed
    relayed: bool,            // whether signals still reach the channel
    pending: Option<Signal>,  // the channel, which holds one
    shutDown: bool,           // whether the server has been told to shut down
    active: nat,              // requests being served
    reloads: nat)             // how many reloads the loop has started

  datatype Step =
    | Deliver(signal: Signal)
    | RequestStarts
    | RequestEnds
    | PickStop
    | PickSignal
    | ReloadEnds
    | DrainEnds
    | DrainTimesOut
    | ListenEnds(err: ListenError)
    | CloseStop
    | Return

  const INIT := State(Listening, Selecting, false, 0, true, None, false, 0, 0)

  /** The state after `step`, or None if it cannot be taken. */
  function Apply(s: State, step: Step): Option<State> {
    match step
    case Deliver(signal) =>
      // Once relaying has stopped a signal ends the process. A full channel drops it.
      if !s.relayed then None
      else Some(if s.pending.None? then s.(pending := Some(signal)) else s)
    case RequestStarts =>
      // Connections outlive the listener; a completed drain leaves none.
      if s.loop != Ended(Drained) then Some(s.(active := s.active + 1)) else None
    case RequestEnds => if s.active > 0 then Some(s.(active := s.active - 1)) else None
    case PickStop =>
      if s.loop.Selecting? && s.stopClosed
      then Some(s.(loop := Ended(StopSeen), doneClosed := s.doneClosed + 1)) else None
    case PickSignal =>
      if !s.loop.Selecting? then None
      else (match s.pending
            case None => None
            case Some(Hangup) => Some(s.(loop := Reloading, pending := None, reloads := s.reloads + 1))
            case Some(Terminate) => Some(s.(loop := Draining, pending := None, relayed := false, shutDown := true)))
    case ReloadEnds => if s.loop.Reloading? then Some(s.(loop := Selecting)) else None
    case DrainEnds =>
      if s.loop.Draining? && s.active == 0
      then Some(s.(loop := Ended(Drained), doneClosed := s.doneClosed + 1)) else None
    case DrainTimesOut =>
      if s.loop.Draining? then Some(s.(loop := Ended(DrainTimedOut), doneClosed := s.doneClosed + 1)) else None
    case ListenEnds(err) =>
      // The listener reports that the server closed only once it has been told to.
      if s.caller.Listening? && (err.ServerClosed? ==> s.shutDown) then Some(s.(caller := ListenReturned(err))) else None
    case CloseStop =>
      (match s.caller
       case ListenReturned(err) => Some(s.(caller := AwaitingDrain(err), stopClosed := true))
       case _ => None)
    case Return =>
      (match s.caller
       case AwaitingDrain(err) => if s.doneClosed > 0 then Some(s.(caller := Returned(err))) else None
       case _ => None)
  }

  datatype Run = Run(states: seq<State>, steps: seq<Step>)

  ghost predicate IsRun(r: Run) {
    && |r.states| == |r.steps| + 1
    && r.states[0] == INIT
    && forall i :: 0 <= i < |r.steps| ==> Apply(r.states[i], r.steps[i]) == Some(r.states[i + 1])
  }

  predicate Inv(s: State) {
    && s.doneClosed == (if s.loop.Ended? then 1 else 0)
    && (s.stopClosed <==> s.caller.AwaitingDrain? || s.caller.Returned?)
    && (s.caller.Returned? ==> s.loop.Ended?)
    && (s.shutDown <==> s.loop.Draining? || (s.loop.Ended? && !s.loop.ending.StopSeen?))
    && (s.relayed <==> !s.shutDown)
    && (s.loop == Ended(StopSeen) ==> s.stopClosed)
    && (s.loop == Ended(Drained) ==> s.active == 0)
    && (!s.caller.Listening? && s.caller.err.ServerClosed? ==> s.shutDown)
  }

  lemma {:induction false} InvAlways(r: Run, n: nat)
    requires IsRun(r) && n < |r.states|
    ensures Inv(r.states[n])
  {
    if n > 0 {
      InvAlways(r, n - 1);
      assert Apply(r.states[n - 1], r.steps[n - 1]) == Some(r.states[n]);
    }
  }

  /** Some signal to terminate was taken from the channel before state `n`. */
  ghost predicate Told(r: Run, n: nat) {
    exists j :: 0 <= j < n && j < |r.steps| && j < |r.states| && r.steps[j].PickSignal? && r.states[j].pending == Some(Terminate)
  }

  lemma {:induction false} ShutDownMeansTold(r: Run, n: nat)
    requires IsRun(r) && n < |r.states|
    ensures r.states[n].shutDown <==> Told(r, n)
  {
    if n > 0 {
      ShutDownMeansTold(r, n - 1);
      assert Apply(r.states[n - 1], r.steps[n - 1]) == Some(r.states[n]);
      assert Told(r, n) <==> Told(r, n - 1) || (r.steps[n - 1].PickSignal? && r.states[n - 1].pending == Some(Terminate));
    }
  }

  /**
   * `shutdownDone` is closed at most once; `serve` returns only when it has been and the
   * loop is over. After a signal to terminate, the drain is over by then, or out of time.
   */
  lemma ReturnsAfterTheLoop(r: Run, n: nat)
    requires IsRun(r) && n < |r.states|
    ensures r.states[n].doneClosed <= 1
    ensures r.states[n].caller.Returned? ==> r.states[n].loop.Ended? && r.states[n].doneClosed == 1
    ensures r.states[n].caller.Returned? && Told(r, n) ==> r.states[n].loop.ending.Drained? || r.states[n].loop.ending.DrainTimedOut?
    ensures r.states[n].loop == Ended(Drained) ==> r.states[n].active == 0
  {
    InvAlways(r, n);
    ShutDownMeansTold(r, n);
  }

  /** Hangups, however many, never end the loop: that takes a signal to terminate, or the listener to have returned. */
  lemma HangupsNeverEndTheLoop(r: Run, n: nat)
    requires IsRun(r) && n < |r.states| && r.states[n].loop.Ended?
    ensures Told(r, n) || !r.states[n].caller.Listening?
  {
    InvAlways(r, n);
    ShutDownMeansTold(r, n);
  }

  /** Once `serve` has returned the loop starts no reload, and does nothing else. */
  lemma {:induction false} NothingAfterReturn(r: Run, i: nat, j: nat)
    requires IsRun(r) && i <= j < |r.states| && r.states[i].caller.Returned?
    ensures r.states[j].caller == r.states[i].caller
    ensures r.states[j].loop == r.states[i].loop && r.states[j].reloads == r.states[i].reloads
    decreases j
  {
    if i < j {
      NothingAfterReturn(r, i, j - 1);
      InvAlways(r, j - 1);
      assert Apply(r.states[j - 1], r.steps[j - 1]) == Some(r.states[j]);
    }
  }

  // ---- What a signal does ----

  function Follow(s: State, steps: seq<Step>): Option<State>
    decreases |steps|
  {
    if steps == [] then Some(s)
    else match Apply(s, steps[0])
      case None => None
      case Some(t) => Follow(t, steps[1..])
  }

  /** The steps before state `n` that took a hangup from the channel. */
  ghost function HangupsTaken(r: Run, n: nat): set<nat>
    requires |r.states| == |r.steps| + 1 && n <= |r.steps|
  {
    set j: nat | 0 <= j < n && r.steps[j].PickSignal? && r.states[j].pending == Some(Hangup)
  }

  lemma HangupsAddUp(r: Run, n: nat)
    requires |r.states| == |r.steps| + 1 && n < |r.steps|
    ensures var taken := r.steps[n].PickSignal? && r.states[n].pending == Some(Hangup);
            |HangupsTaken(r, n + 1)| == |HangupsTaken(r, n)| + if taken then 1 else 0
  {
    var taken := r.steps[n].PickSignal? && r.states[n].pending == Some(Hangup);
    if taken {
      assert HangupsTaken(r, n + 1) == HangupsTaken(r, n) + {n};
    } else {
      assert HangupsTaken(r, n + 1) == HangupsTaken(r, n);
    }
  }

  lemma StepReloads(s: State, step: Step)
    requires Apply(s, step).Some?
    ensures Apply(s, step).value.reloads == s.reloads + if step.PickSignal? && s.pending == Some(Hangup) then 1 else 0
  {
  }

  /** The loop has started one reload for each hangup that it took, and none besides. */
  lemma {:induction false} ReloadsAreHangups(r: Run, n: nat)
    requires IsRun(r) && n < |r.states|
    ensures r.states[n].reloads == |HangupsTaken(r, n)|
  {
    if n == 0 {
      assert HangupsTaken(r, 0) == {};
    } else {
      ReloadsAreHangups(r, n - 1);
      assert Apply(r.states[n - 1], r.steps[n - 1]) == Some(r.states[n]);
      StepReloads(r.states[n - 1], r.steps[n - 1]);
      HangupsAddUp(r, n - 1);
    }
  }

  /** Having taken a hangup, the loop is at its reload, and takes nothing else, until that ends. */
  lemma {:induction false} ReloadingUntilItEnds(r: Run, i: nat, n: nat)
    requires IsRun(r) && i < n < |r.states|
    requires r.steps[i].PickSignal? && r.states[i].pending == Some(Hangup)
    requires forall j :: i < j < n ==> !r.steps[j].ReloadEnds?
    ensures r.states[n].loop.Reloading?
    ensures r.states[n].reloads == r.states[i].reloads + 1
    decreases n
  {
    assert Apply(r.states[n - 1], r.steps[n - 1]) == Some(r.states[n]);
    if i < n - 1 {
      ReloadingUntilItEnds(r, i, n - 1);
    }
  }

  /** A signal that finds the loop waiting and the channel empty is taken: a hangup reloads once, any other begins the drain. */
  lemma SignalIsTaken(r: Run, n: nat, signal: Signal)
    requires IsRun(r) && n < |r.states|
    requires r.states[n].loop.Selecting? && r.states[n].pending.None? && r.states[n].relayed
    ensures var t := Follow(r.states[n], [Deliver(signal), PickSignal]);
            && t.Some?
            && t.value.caller == r.states[n].caller && t.value.active == r.states[n].active
            && match signal
               case Hangup => t.value.loop.Reloading? && t.value.reloads == r.states[n].reloads + 1 && !t.value.shutDown
               case Terminate => t.value.loop.Draining? && t.value.reloads == r.states[n].reloads && t.value.shutDown
  {
    InvAlways(r, n);
    FollowTwo(r.states[n], Deliver(signal), PickSignal);
  }

  lemma FollowTwo(s: State, a: Step, b: Step)
    ensures Follow(s, [a, b]) == match Apply(s, a)
                                 case None => None
                                 case Some(t) => Apply(t, b)
  {
    assert [a, b][1..] == [b] && [b][1..] == [];
    if Apply(s, a).Some? {
      var t := Apply(s, a).value;
      assert Follow(t, [b]) == Apply(t, b) by {
        if Apply(t, b).Some? { assert Follow(Apply(t, b).value, []) == Apply(t, b); }
      }
    }
  }

  /** Once the server is told to shut down, no further signal reaches the loop. */
  lemma NoSignalWhileDraining(r: Run, n: nat, signal: Signal)
    requires IsRun(r) && n < |r.states| && r.states[n].shutDown
    ensures Apply(r.states[n], Deliver(signal)).None?
  {
    InvAlways(r, n);
  }

  /** While it drains, the end of every request in flight is all that a complete drain takes. */
  lemma {:induction false} DrainCompletes(s: State) returns (steps: seq<Step>)
    requires s.loop.Draining?
    ensures steps == seq(s.active, _ => RequestEnds) + [DrainEnds]
    ensures var t := Follow(s, steps);
            t.Some? && t.value.loop == Ended(Drained) && t.value.active == 0
    decreases s.active
  {
    steps := seq(s.active, _ => RequestEnds) + [DrainEnds];
    if s.active == 0 {
      assert steps == [DrainEnds] && steps[1..] == [];
    } else {
      var rest := DrainCompletes(s.(active := s.active - 1));
      assert steps[0] == RequestEnds && steps[1..] == rest;
    }
  }

  // ---- Reaching the return ----

  /**
   * The steps of `serve`'s own goroutines, which need no signal and no request to end. The end
   * of a reload stands for all of that reload's steps: it may have to wait for another reload
   * that holds the mutex, and `Serving.ReloadReachesItsEnd` says how many steps the two need.
   */
  predicate Own(step: Step) {
    step.PickStop? || step.ReloadEnds? || step.DrainTimesOut? || step.CloseStop? || step.Return?
  }

  /** How many own steps are left to the return, once the listener has returned. */
  function Distance(s: State): nat {
    if s.caller.Returned? then 0
    else
      1 + (if s.caller.ListenReturned? then 1 else 0)
        + (match s.loop case Ended(_) => 0 case Reloading => 2 case _ => 1)
  }

  /** Once the listener has returned, `serve` is never stuck before it returns too. */
  lemma NeverStuck(s: State) returns (step: Step)
    requires Inv(s) && !s.caller.Listening? && !s.caller.Returned?
    ensures Own(step) && Apply(s, step).Some?
  {
    step := if s.caller.ListenReturned? then CloseStop
            else match s.loop
              case Selecting => PickStop
              case Reloading => ReloadEnds
              case Draining => DrainTimesOut
              case Ended(_) => Return;
  }

  /** Every step but one brings the return no further away, and an own step one closer; the one is taking a hangup. */
  lemma StepsLeadOn(s: State, step: Step)
    requires Inv(s) && !s.caller.Listening? && Apply(s, step).Some?
    ensures var t := Apply(s, step).value;
            && Inv(t) && !t.caller.Listening?
            && (Own(step) ==> Distance(t) == Distance(s) - 1)
            && (Distance(t) > Distance(s) ==> step.PickSignal? && s.pending == Some(Hangup) && Distance(t) == Distance(s) + 1)
  {
  }

  lemma {:induction false} FinishFrom(s: State) returns (steps: seq<Step>)
    requires Inv(s) && !s.caller.Listening?
    ensures |steps| == Distance(s) && forall step :: step in steps ==> Own(step)
    ensures Follow(s, steps).Some? && Follow(s, steps).value.caller.Returned?
    decreases Distance(s)
  {
    if s.caller.Returned? {
      steps := [];
    } else {
      var step := NeverStuck(s);
      StepsLeadOn(s, step);
      var rest := FinishFrom(Apply(s, step).value);
      steps := [step] + rest;
      assert steps[1..] == rest;
    }
  }

  /** Once the listener has returned, at most four steps of its own take `serve` to its return, from any reachable state. */
  lemma ReachesReturn(r: Run, n: nat) returns (steps: seq<Step>)
    requires IsRun(r) && n < |r.states| && !r.states[n].caller.Listening?
    ensures |steps| <= 4 && forall step :: step in steps ==> Own(step)
    ensures Follow(r.states[n], steps).Some? && Follow(r.states[n], steps).value.caller.Returned?
  {
    InvAlways(r, n);
    steps := FinishFrom(r.states[n]);
  }

  // ---- What has drained by then ----

  /** The drain ran out of time before state `n`. */
  ghost predicate TimedOut(r: Run, n: nat) {
    exists j :: 0 <= j < n && j < |r.steps| && r.steps[j].DrainTimesOut?
  }

  lemma {:induction false} TimedOutShows(r: Run, n: nat)
    requires IsRun(r) && n < |r.states|
    ensures r.states[n].loop == Ended(DrainTimedOut) <==> TimedOut(r, n)
  {
    if n > 0 {
      TimedOutShows(r, n - 1);
      assert Apply(r.states[n - 1], r.steps[n - 1]) == Some(r.states[n]);
      assert TimedOut(r, n) <==> TimedOut(r, n - 1) || r.steps[n - 1].DrainTimesOut?;
    }
  }

  /** By the return, the drain is complete exactly if a signal to terminate was taken and the drain did not run out of time. */
  lemma DrainedIff(r: Run, n: nat)
    requires IsRun(r) && n < |r.states| && r.states[n].caller.Returned?
    ensures r.states[n].loop == Ended(Drained) <==> Told(r, n) && !TimedOut(r, n)
  {
    InvAlways(r, n);
    ShutDownMeansTold(r, n);
    TimedOutShows(r, n);
  }

  /** An error is returned exactly when the listener failed rather than being closed. */
  function ServeFails(s: State): bool
    requires s.caller.Returned?
  {
    s.caller.err.Broken?
  }

  function Last(r: Run): State
    requires |r.states| == |r.steps| + 1
  {
    r.states[|r.steps|]
  }

  lemma Extended(r: Run, step: Step) returns (longer: Run)
    requires IsRun(r) && Apply(Last(r), step).Some?
    ensures IsRun(longer) && Last(longer) == Apply(Last(r), step).value
  {
    longer := Run(r.states + [Apply(Last(r), step).value], r.steps + [step]);
  }

  /** A run that the listener's failure ends, with a request in flight. */
  lemma ListenerFailureDoesNotDrain() returns (r: Run)
    ensures IsRun(r)
    ensures Last(r).caller.Returned? && Last(r).loop == Ended(StopSeen) && ServeFails(Last(r)) && Last(r).active > 0
  {
    r := Run([INIT], []);
    r := Extended(r, RequestStarts);
    r := Extended(r, ListenEnds(Broken));
    r := Extended(r, CloseStop);
    r := Extended(r, PickStop);
    r := Extended(r, Return);
  }

  /** A run that a signal ends without an error, with a request still in flight when the drain runs out of time. */
  lemma SlowRequestDoesNotDrain() returns (r: Run)
    ensures IsRun(r)
    ensures Last(r).caller.Returned? && Last(r).loop == Ended(DrainTimedOut) && !ServeFails(Last(r)) && Last(r).active > 0
  {
    r := Run([INIT], []);
    r := Extended(r, RequestStarts);
    r := Extended(r, Deliver(Terminate));
    r := Extended(r, PickSignal);
    r := Extended(r, ListenEnds(ServerClosed));
    r := Extended(r, CloseStop);
    r := Extended(r, DrainTimesOut);
    r := Extended(r, Return);
  }

  /** No run returns after the ending `e` with a request in flight. */
  ghost predicate Drains(e: Ending) {
    forall r: Run, n: nat :: IsRun(r) && n < |r.states| && r.states[n].caller.Returned? && r.states[n].loop == Ended(e) ==>
                               r.states[n].active == 0
  }

  /**
   * The comment on `serve` says that requests in flight have drained when it returns. Of the
   * three ways in which the signal loop ends, a completed drain alone makes that so: the
   * listener's own end does not, nor does a drain that runs out of time. `DrainedIff` says
   * which runs end so.
   */
  lemma OnlyACompleteDrainDrains(e: Ending)
    ensures Drains(e) <==> e == Drained
  {
    match e {
      case Drained =>
        forall r: Run, n: nat | IsRun(r) && n < |r.states| && r.states[n].loop == Ended(Drained)
          ensures r.states[n].active == 0
        {
          InvAlways(r, n);
        }
      case StopSeen =>
        var r := ListenerFailureDoesNotDrain();
        assert Last(r).active > 0;
      case DrainTimedOut =>
        var r := SlowRequestDoesNotDrain();
        assert Last(r).active > 0;
    }
  }
}
