/** The `/probe` handler, serving one request from start to end. */
module Handler {
  import opened Common
  import opened Authority
  import Config
  import Reloader
  import Serving
  import StatusRecorder
  import Targets

  /** The label a request is counted under, and the code it is answered with, when `taken` slots are taken. */
  function Answer(lib: Config.Library, limit: nat, modules: Config.Modules, taken: nat,
                  q: Query, script: seq<StatusRecorder.Call>): Label
  {
    match Decide(lib, modules, q)
    case Reject(why) => why
    case Admit(name, _, _) =>
      if limit > 0 && taken >= limit then Label(name, 503) else Label(name, StatusRecorder.Recorded(script))
  }

  class ProbeHandler {
    const lib: Config.Library
    const limit: nat
    const live: Reloader.LivePointer
    var tokens: nat
    var inFlight: int
    var requests: multiset<Label>

    constructor (lib: Config.Library, limit: nat, live: Reloader.LivePointer)
      ensures this.lib == lib && this.limit == limit && this.live == live
      ensures tokens == 0 && inFlight == 0 && requests == multiset{}
    {
      this.lib, this.limit, this.live := lib, limit, live;
      tokens, inFlight, requests := 0, 0, multiset{};
    }

    method WriteError(w: StatusRecorder.ResponseWriter, entry: Label)
      requires w.Valid() && w.calls == [] && !StatusRecorder.Informational(entry.code)
      modifies this`requests, w
      ensures w.Valid() && w.code == entry.code
      ensures requests == old(requests) + multiset{entry}
    {
      w.Do(StatusRecorder.WriteHeader(entry.code));
      w.Do(StatusRecorder.Write);
      assert w.calls == [StatusRecorder.WriteHeader(entry.code), StatusRecorder.Write];
      requests := requests + multiset{entry};
    }

    /** The checks before a probe, in the order that decides which error is answered. */
    method Check(modules: Config.Modules, q: Query) returns (d: Decision)
      ensures d == Decide(lib, modules, q)
    {
      var name := ModuleName(q);
      if name !in modules {
        return Reject(Label(MODULE_UNRESOLVED, 400));
      }
      var mod := modules[name];
      if q.target == "" {
        return Reject(Label(name, 400));
      }
      var endpoint := EnsurePort(lib.parseHost, q.target, mod.targetPort);
      if endpoint.None? {
        return Reject(Label(name, 400));
      }
      if endpoint.value.port !in mod.allowedPorts {
        return Reject(Label(name, 403));
      }
      var allowed := Targets.TargetAllowed(lib.parse, endpoint.value.host, mod.allowedTargets);
      if !allowed {
        return Reject(Label(name, 403));
      }
      return Admit(name, mod, endpoint.value);
    }

    /**
     * Serves one request, the metrics page being written by the calls of `script`. The slot
     * and the gauge are given back, the request is counted once, and under the code that
     * the client receives, unless the page starts by announcing an informational one. That
     * is what `RequestAlone` says of a request's steps in the concurrent model when nothing
     * comes between them.
     */
    method ServeProbe(q: Query, script: seq<StatusRecorder.Call>, w: StatusRecorder.ResponseWriter)
      requires w.Valid() && w.calls == []
      modifies this`tokens, this`inFlight, this`requests, w
      ensures tokens == old(tokens) && inFlight == old(inFlight)
      ensures var entry := Answer(lib, limit, live.modules, old(tokens), q, script);
              && requests == old(requests) + multiset{entry}
              && (w.code == entry.code <==>
                    !(&& Decide(lib, live.modules, q).Admit? && !(limit > 0 && old(tokens) >= limit)
                      && script != [] && script[0].WriteHeader? && StatusRecorder.Informational(script[0].code)))
    {
      var d := Check(live.modules, q);
      if d.Reject? {
        WriteError(w, d.why);
        return;
      }
      if limit > 0 {
        if tokens >= limit {
          WriteError(w, Label(d.name, 503));
          return;
        }
        tokens := tokens + 1;
      }
      inFlight := inFlight + 1;
      var rec := new StatusRecorder.Recorder(w);
      rec.Replay(script);
      requests := requests + multiset{Label(d.name, rec.status)};
      inFlight := inFlight - 1;
      if limit > 0 {
        tokens := tokens - 1;
      }
    }
  }

  // ---- The same, by the steps of the concurrent model ----

  /** Where a request and what requests share end up by the given steps, with `live` in service throughout. */
  function Take(setup: Serving.Setup, live: Config.Modules, q: Query,
                pc: Serving.Pc, sh: Serving.Shared, steps: seq<Serving.Step>): Option<(Serving.Pc, Serving.Shared)>
    decreases |steps|
  {
    if steps == [] then Some((pc, sh))
    else match Serving.Advance(setup, live, q, pc, sh, steps[0])
      case None => None
      case Some((next, after)) => Take(setup, live, q, next, after, steps[1..])
  }

  lemma TakeOne(setup: Serving.Setup, live: Config.Modules, q: Query,
                pc: Serving.Pc, sh: Serving.Shared, step: Serving.Step, steps: seq<Serving.Step>)
    requires Serving.Advance(setup, live, q, pc, sh, step).Some?
    ensures var (next, after) := Serving.Advance(setup, live, q, pc, sh, step).value;
            Take(setup, live, q, pc, sh, [step] + steps) == Take(setup, live, q, next, after, steps)
  {
    assert ([step] + steps)[1..] == steps;
  }

  function EndSteps(id: nat): seq<Serving.Step> {
    [Serving.CountIt(id)] + ([Serving.Dec(id)] + ([Serving.Release(id)] + []))
  }

  /** From taking a slot to the end, for a page written with `code`. */
  function ProbeSteps(id: nat, code: int): seq<Serving.Step> {
    [Serving.Inc(id)] + ([Serving.StartProbe(id)] + ([Serving.Answer(id, code)] + EndSteps(id)))
  }

  /** The steps that a request takes to its end, for a page written with `code`. */
  function StepsOf(setup: Serving.Setup, live: Config.Modules, q: Query, taken: nat, id: nat, code: int): seq<Serving.Step> {
    [Serving.Snapshot(id)] + ([Serving.Check(id)]
    + match setup.decide(live, q)
      case Reject(_) => [Serving.CountIt(id)] + []
      case Admit(_, _, _) =>
        [Serving.Acquire(id)]
        + if setup.limit > 0 && taken >= setup.limit then [Serving.CountIt(id)] + [] else ProbeSteps(id, code))
  }

  lemma AnsweredAlone(setup: Serving.Setup, live: Config.Modules, q: Query, pass: Serving.Pass,
                      sh: Serving.Shared, id: nat, code: int)
    requires setup.limit > 0 ==> sh.tokens > 0
    ensures var entry := Label(pass.name, code);
            Take(setup, live, q, Serving.Answered(pass, code), sh, EndSteps(id))
            == Some((Serving.Done(entry),
                     Serving.Shared(if setup.limit > 0 then sh.tokens - 1 else sh.tokens,
                                    sh.inFlight - 1, sh.counts + multiset{entry})))
  {
    var entry := Label(pass.name, code);
    var counted := sh.(counts := sh.counts + multiset{entry});
    var last := [Serving.Release(id)] + [];
    TakeOne(setup, live, q, Serving.Answered(pass, code), sh, Serving.CountIt(id), [Serving.Dec(id)] + last);
    TakeOne(setup, live, q, Serving.Counted(entry), counted, Serving.Dec(id), last);
    TakeOne(setup, live, q, Serving.Lowered(entry), counted.(inFlight := sh.inFlight - 1), Serving.Release(id), []);
  }

  lemma ProbeAlone(setup: Serving.Setup, live: Config.Modules, q: Query, pass: Serving.Pass,
                   sh: Serving.Shared, id: nat, code: int)
    requires setup.limit > 0 ==> sh.tokens > 0
    ensures var entry := Label(pass.name, code);
            Take(setup, live, q, Serving.Holding(pass), sh, ProbeSteps(id, code))
            == Some((Serving.Done(entry),
                     sh.(counts := sh.counts + multiset{entry},
                         tokens := if setup.limit > 0 then sh.tokens - 1 else sh.tokens)))
  {
    var launch := Serving.Launch(pass.endpoint.target, pass.mod.options);
    var up := sh.(inFlight := sh.inFlight + 1);
    var end := EndSteps(id);
    TakeOne(setup, live, q, Serving.Holding(pass), sh, Serving.Inc(id),
            [Serving.StartProbe(id)] + ([Serving.Answer(id, code)] + end));
    TakeOne(setup, live, q, Serving.InFlight(pass), up, Serving.StartProbe(id), [Serving.Answer(id, code)] + end);
    TakeOne(setup, live, q, Serving.Probing(pass, launch), up, Serving.Answer(id, code), end);
    AnsweredAlone(setup, live, q, pass, up, id, code);
  }

  /** With nothing between them, a request's steps give back slot and gauge, and count it once as answered. */
  lemma RequestAlone(lib: Config.Library, flag: bool, limit: nat, live: Config.Modules, q: Query,
                     script: seq<StatusRecorder.Call>, sh: Serving.Shared, id: nat)
    ensures var setup := Serving.Exporter(lib, flag, limit);
            var entry := Answer(lib, limit, live, sh.tokens, q, script);
            Take(setup, live, q, Serving.Arrived, sh,
                 StepsOf(setup, live, q, sh.tokens, id, StatusRecorder.Recorded(script)))
            == Some((Serving.Done(entry), sh.(counts := sh.counts + multiset{entry})))
  {
    var setup := Serving.Exporter(lib, flag, limit);
    var code := StatusRecorder.Recorded(script);
    var steps := StepsOf(setup, live, q, sh.tokens, id, code);
    var rest := steps[2..];
    assert steps == [Serving.Snapshot(id)] + ([Serving.Check(id)] + rest);
    TakeOne(setup, live, q, Serving.Arrived, sh, Serving.Snapshot(id), [Serving.Check(id)] + rest);
    TakeOne(setup, live, q, Serving.Snapped(live), sh, Serving.Check(id), rest);
    match Decide(lib, live, q) {
      case Reject(why) =>
        assert rest == [Serving.CountIt(id)] + [];
        TakeOne(setup, live, q, Serving.Refused(why), sh, Serving.CountIt(id), []);
      case Admit(name, mod, endpoint) =>
        var pass := Serving.Pass(live, name, mod, endpoint);
        AdmittedAlone(setup, live, q, pass, sh, id, code);
        assert rest == [Serving.Acquire(id)] + rest[1..];
    }
  }

  lemma AdmittedAlone(setup: Serving.Setup, live: Config.Modules, q: Query, pass: Serving.Pass,
                      sh: Serving.Shared, id: nat, code: int)
    ensures var full := setup.limit > 0 && sh.tokens >= setup.limit;
            var entry := Label(pass.name, if full then 503 else code);
            Take(setup, live, q, Serving.Admitted(pass), sh,
                 [Serving.Acquire(id)] + if full then [Serving.CountIt(id)] + [] else ProbeSteps(id, code))
            == Some((Serving.Done(entry), sh.(counts := sh.counts + multiset{entry})))
  {
    if setup.limit > 0 && sh.tokens >= setup.limit {
      var why := Label(pass.name, 503);
      TakeOne(setup, live, q, Serving.Admitted(pass), sh, Serving.Acquire(id), [Serving.CountIt(id)] + []);
      TakeOne(setup, live, q, Serving.Refused(why), sh, Serving.CountIt(id), []);
    } else {
      var holding := if setup.limit > 0 then sh.(tokens := sh.tokens + 1) else sh;
      TakeOne(setup, live, q, Serving.Admitted(pass), sh, Serving.Acquire(id), ProbeSteps(id, code));
      ProbeAlone(setup, live, q, pass, holding, id, code);
    }
  }
}
