/**
 * The exporter while it serves: any number of probe requests and reloads at once, each
 * advancing by its own atomic steps, while the files on disk change at any time.
 */
module Serving {
  import opened Common
  import opened Authority
  import opened Counting
  import opened Config

  /** What stays fixed while the exporter runs; `limit` 0 is no limit. */
  datatype Setup = Setup(
    load: Disk -> Option<Modules>,          // what a load makes of the files, None if it fails
    decide: (Modules, Query) -> Decision,   // the checks before a probe
    limit: nat)

  /** The exporter's own loading and checks. */
  ghost function Exporter(lib: Library, allowAllFlag: bool, limit: nat): Setup {
    Setup(disk => Loaded(lib, disk, allowAllFlag), (modules, query) => Decide(lib, modules, query), limit)
  }

  /** What a request holds on to once its checks have passed: its own snapshot of the modules, and what it found there. */
  datatype Pass = Pass(modules: Modules, name: string, mod: Module, endpoint: Endpoint)

  /** What a probe is started with: the string it dials, and its options. */
  datatype Launch = Launch(target: string, options: Options)

  /** Where a request is in the handler. Deferred calls run last in first out: Dec, then the slot. */
  datatype Pc =
    | Arrived
    | Snapped(modules: Modules)        // the live pointer has been read
    | Refused(why: Label)              // an error response is written, and not yet counted
    | Admitted(pass: Pass)             // the checks passed
    | Holding(pass: Pass)              // past the semaphore
    | InFlight(pass: Pass)             // the gauge has been raised
    | Probing(pass: Pass, launch: Launch)
    | Answered(pass: Pass, code: int)  // the response is written
    | Counted(entry: Label)
    | Lowered(entry: Label)               // the gauge has been lowered
    | Done(entry: Label)
  {
    /** Between taking a slot and giving it back. */
    predicate HasSlot() { Holding? || Lowered? || InGauge() }

    /** Between Inc and Dec. */
    predicate InGauge() { InFlight? || Probing? || Answered? || Counted? }

    /** Past its count step. */
    predicate IsCounted() { Counted? || Lowered? || Done? }
  }

  datatype Request = Request(query: Query, pc: Pc)

  /**
   * Where a reload is, and, as history, which version the files had when it was asked for
   * and when it read them. What it read is None if the load failed.
   */
  datatype Reload =
    | Waiting(asked: nat)
    | Locked(asked: nat)
    | Read(asked: nat, modules: Option<Modules>, version: nat)
    | Recorded(asked: nat, modules: Option<Modules>, version: nat)
    | Stored(asked: nat, version: nat)
    | Finished(asked: nat, version: nat, ok: bool)   // ok answers 200, otherwise 500
  {
    predicate InMutex() { !Waiting? && !Finished? }
  }

  /** What requests share. */
  datatype Shared = Shared(
    tokens: nat,               // how many slots of the semaphore are taken
    inFlight: int,             // the gauge
    counts: multiset<Label>)   // probe_requests_total

  /** What reloads share. */
  datatype Service = Service(
    live: Modules,
    liveVersion: nat,            // which version of the files `live` was read from
    successful: bool,            // the gauge of the last load's outcome
    lastLoad: Option<Modules>,   // history: what the last load to finish reading made of it
    lastVersion: nat,            // history: the version it read
    mutex: Option<nat>)

  datatype State = State(
    disk: Disk,
    diskVersion: nat,            // how often the files have changed
    service: Service,
    reloads: map<nat, Reload>,
    shared: Shared,
    requests: map<nat, Request>)

  datatype Step =
    | Edit(disk: Disk)
    | Arrive(id: nat, query: Query)
    | Snapshot(id: nat)
    | Check(id: nat)
    | Acquire(id: nat)
    | Inc(id: nat)
    | StartProbe(id: nat)
    | Answer(id: nat, code: int)
    | CountIt(id: nat)
    | Dec(id: nat)
    | Release(id: nat)
    | AskReload(rid: nat)
    | Lock(rid: nat)
    | Load(rid: nat)
    | Record(rid: nat)
    | Store(rid: nat)
    | Unlock(rid: nat)

  ghost predicate Init(setup: Setup, s: State) {
    && setup.load(s.disk) == Some(s.service.live)
    && s.diskVersion == 0
    && s.service == Service(s.service.live, 0, true, Some(s.service.live), 0, None)
    && s.reloads == map[] && s.requests == map[]
    && s.shared == Shared(0, 0, multiset{})
  }

  /** Where a request at `pc` gets by `step`, and what that does to what requests share. */
  function Advance(setup: Setup, live: Modules, query: Query, pc: Pc, sh: Shared, step: Step): Option<(Pc, Shared)> {
    match pc
    case Arrived => if step.Snapshot? then Some((Snapped(live), sh)) else None
    case Snapped(modules) =>
      if !step.Check? then None
      else
        (match setup.decide(modules, query)
         case Reject(why) => Some((Refused(why), sh))
         case Admit(name, mod, endpoint) => Some((Admitted(Pass(modules, name, mod, endpoint)), sh)))
    case Refused(why) =>
      if step.CountIt? then Some((Done(why), sh.(counts := sh.counts + multiset{why}))) else None
    case Admitted(pass) =>
      if !step.Acquire? then None
      else if setup.limit == 0 then Some((Holding(pass), sh))
      else if sh.tokens < setup.limit then Some((Holding(pass), sh.(tokens := sh.tokens + 1)))
      else Some((Refused(Label(pass.name, 503)), sh))
    case Holding(pass) => if step.Inc? then Some((InFlight(pass), sh.(inFlight := sh.inFlight + 1))) else None
    case InFlight(pass) =>
      if step.StartProbe? then Some((Probing(pass, Launch(pass.endpoint.target, pass.mod.options)), sh)) else None
    case Probing(pass, _) => if step.Answer? then Some((Answered(pass, step.code), sh)) else None
    case Answered(pass, code) =>
      var entry := Label(pass.name, code);
      if step.CountIt? then Some((Counted(entry), sh.(counts := sh.counts + multiset{entry}))) else None
    case Counted(entry) => if step.Dec? then Some((Lowered(entry), sh.(inFlight := sh.inFlight - 1))) else None
    case Lowered(entry) =>
      if !step.Release? then None
      else if setup.limit == 0 then Some((Done(entry), sh))
      else if sh.tokens > 0 then Some((Done(entry), sh.(tokens := sh.tokens - 1)))
      else None
    case Done(_) => None
  }

  /** The same for a reload, from files `disk` of version `version`. */
  function AdvanceReload(setup: Setup, disk: Disk, version: nat, rid: nat, at: Reload, sv: Service, step: Step):
    Option<(Reload, Service)>
  {
    match at
    case Waiting(asked) =>
      if step.Lock? && sv.mutex.None? then Some((Locked(asked), sv.(mutex := Some(rid)))) else None
    case Locked(asked) =>
      var modules := setup.load(disk);
      if step.Load? then Some((Read(asked, modules, version), sv.(lastLoad := modules, lastVersion := version)))
      else None
    case Read(asked, modules, v) =>
      if step.Record? then Some((Recorded(asked, modules, v), sv.(successful := modules.Some?))) else None
    case Recorded(asked, modules, v) =>
      if step.Store? && modules.Some? then Some((Stored(asked, v), sv.(live := modules.value, liveVersion := v)))
      else if step.Unlock? && modules.None? then Some((Finished(asked, v, false), sv.(mutex := None)))
      else None
    case Stored(asked, v) => if step.Unlock? then Some((Finished(asked, v, true), sv.(mutex := None))) else None
    case Finished(_, _, _) => None
  }

  predicate ForRequest(step: Step) {
    !step.Edit? && !step.Arrive? && !step.AskReload? && !ForReload(step)
  }

  predicate ForReload(step: Step) {
    step.Lock? || step.Load? || step.Record? || step.Store? || step.Unlock?
  }

  /** The state after `step`, or None if it cannot be taken. */
  function Apply(setup: Setup, s: State, step: Step): Option<State> {
    if step.Edit? then Some(s.(disk := step.disk, diskVersion := s.diskVersion + 1))
    else if step.Arrive? then
      if step.id in s.requests then None
      else Some(s.(requests := s.requests[step.id := Request(step.query, Arrived)]))
    else if step.AskReload? then
      if step.rid in s.reloads then None else Some(s.(reloads := s.reloads[step.rid := Waiting(s.diskVersion)]))
    else if ForReload(step) then
      if step.rid !in s.reloads then None
      else match AdvanceReload(setup, s.disk, s.diskVersion, step.rid, s.reloads[step.rid], s.service, step)
        case None => None
        case Some((at, service)) => Some(s.(reloads := s.reloads[step.rid := at], service := service))
    else
      if step.id !in s.requests then None
      else
        var r := s.requests[step.id];
        match Advance(setup, s.service.live, r.query, r.pc, s.shared, step)
        case None => None
        case Some((pc, shared)) => Some(s.(requests := s.requests[step.id := r.(pc := pc)], shared := shared))
  }

  /** A run: the states it passes through, and the steps between them. */
  datatype Run = Run(states: seq<State>, steps: seq<Step>)

  ghost predicate IsRun(setup: Setup, r: Run) {
    && |r.states| == |r.steps| + 1
    && Init(setup, r.states[0])
    && forall i :: 0 <= i < |r.steps| ==> Apply(setup, r.states[i], r.steps[i]) == Some(r.states[i + 1])
  }

  // ---- Slots, the gauge and the counters ----

  predicate HasSlot(r: Request) { r.pc.HasSlot() }
  predicate InGauge(r: Request) { r.pc.InGauge() }
  predicate IsCounted(r: Request) { r.pc.IsCounted() }

  ghost function CountedAs(l: Label): Request -> bool {
    (r: Request) => r.pc.IsCounted() && r.pc.entry == l
  }

  /** What requests share agrees with where they are. */
  ghost predicate Agree(setup: Setup, sh: Shared, requests: map<nat, Request>) {
    && sh.tokens == (if setup.limit == 0 then 0 else Count(requests, HasSlot))
    && (setup.limit > 0 ==> sh.tokens <= setup.limit)
    && sh.inFlight == Count(requests, InGauge)
    && |sh.counts| == Count(requests, IsCounted)
    && forall l :: sh.counts[l] == Count(requests, CountedAs(l))
  }

  ghost predicate Accounted(setup: Setup, s: State) { Agree(setup, s.shared, s.requests) }

  lemma AccountedInit(setup: Setup, s: State)
    requires Init(setup, s)
    ensures Accounted(setup, s)
  {
    CountNone(s.requests, HasSlot);
    CountNone(s.requests, InGauge);
    CountNone(s.requests, IsCounted);
    forall l ensures s.shared.counts[l] == Count(s.requests, CountedAs(l)) {
      CountNone(s.requests, CountedAs(l));
    }
  }

  ghost predicate ShowsInTokens(setup: Setup, sh: Shared, a: Pc, b: Pc, after: Shared) {
    && after.tokens == sh.tokens + (if setup.limit == 0 then 0 else One(b.HasSlot()) - One(a.HasSlot()))
    && (after.tokens > sh.tokens ==> after.tokens <= setup.limit)
  }

  ghost predicate ShowsInGauge(sh: Shared, a: Pc, b: Pc, after: Shared) {
    after.inFlight == sh.inFlight + One(b.InGauge()) - One(a.InGauge())
  }

  ghost predicate ShowsInCounts(sh: Shared, a: Pc, b: Pc, after: Shared) {
    && (a.IsCounted() ==> b.IsCounted() && b.entry == a.entry)
    && after.counts == if b.IsCounted() && !a.IsCounted() then sh.counts + multiset{b.entry} else sh.counts
  }

  /** How one request's move from `a` to `b` shows in what requests share. */
  ghost predicate Shows(setup: Setup, sh: Shared, a: Pc, b: Pc, after: Shared) {
    ShowsInTokens(setup, sh, a, b, after) && ShowsInGauge(sh, a, b, after) && ShowsInCounts(sh, a, b, after)
  }

  lemma TokensShow(setup: Setup, live: Modules, query: Query, pc: Pc, sh: Shared, step: Step)
    requires Advance(setup, live, query, pc, sh, step).Some?
    ensures var (b, after) := Advance(setup, live, query, pc, sh, step).value;
            ShowsInTokens(setup, sh, pc, b, after)
  {
  }

  lemma GaugeShows(setup: Setup, live: Modules, query: Query, pc: Pc, sh: Shared, step: Step)
    requires Advance(setup, live, query, pc, sh, step).Some?
    ensures var (b, after) := Advance(setup, live, query, pc, sh, step).value;
            ShowsInGauge(sh, pc, b, after)
  {
  }

  lemma CountsShow(setup: Setup, live: Modules, query: Query, pc: Pc, sh: Shared, step: Step)
    requires Advance(setup, live, query, pc, sh, step).Some?
    ensures var (b, after) := Advance(setup, live, query, pc, sh, step).value;
            ShowsInCounts(sh, pc, b, after)
  {
  }

  lemma AdvanceShows(setup: Setup, live: Modules, query: Query, pc: Pc, sh: Shared, step: Step)
    requires Advance(setup, live, query, pc, sh, step).Some?
    ensures var (b, after) := Advance(setup, live, query, pc, sh, step).value;
            Shows(setup, sh, pc, b, after)
  {
    TokensShow(setup, live, query, pc, sh, step);
    GaugeShows(setup, live, query, pc, sh, step);
    CountsShow(setup, live, query, pc, sh, step);
  }

  lemma ShownAgrees(setup: Setup, sh: Shared, requests: map<nat, Request>, id: nat, b: Pc, after: Shared)
    requires Agree(setup, sh, requests) && id in requests && Shows(setup, sh, requests[id].pc, b, after)
    ensures Agree(setup, after, requests[id := requests[id].(pc := b)])
  {
    var r := requests[id].(pc := b);
    CountUpdate(requests, id, r, HasSlot);
    CountUpdate(requests, id, r, InGauge);
    CountUpdate(requests, id, r, IsCounted);
    forall l ensures after.counts[l] == Count(requests[id := r], CountedAs(l)) {
      CountUpdate(requests, id, r, CountedAs(l));
    }
  }

  lemma ArrivalAgrees(setup: Setup, sh: Shared, requests: map<nat, Request>, id: nat, query: Query)
    requires Agree(setup, sh, requests) && id !in requests
    ensures Agree(setup, sh, requests[id := Request(query, Arrived)])
  {
    var r := Request(query, Arrived);
    CountUpdate(requests, id, r, HasSlot);
    CountUpdate(requests, id, r, InGauge);
    CountUpdate(requests, id, r, IsCounted);
    forall l ensures sh.counts[l] == Count(requests[id := r], CountedAs(l)) {
      CountUpdate(requests, id, r, CountedAs(l));
    }
  }

  lemma AccountedStep(setup: Setup, s: State, step: Step, t: State)
    requires Accounted(setup, s) && Apply(setup, s, step) == Some(t)
    ensures Accounted(setup, t)
  {
    if step.Arrive? {
      ArrivalAgrees(setup, s.shared, s.requests, step.id, step.query);
    } else if ForRequest(step) {
      var r := s.requests[step.id];
      AdvanceShows(setup, s.service.live, r.query, r.pc, s.shared, step);
      ShownAgrees(setup, s.shared, s.requests, step.id, t.requests[step.id].pc, t.shared);
    }
  }

  lemma {:induction false} AccountedAlways(setup: Setup, r: Run, n: nat)
    requires IsRun(setup, r) && n < |r.states|
    ensures Accounted(setup, r.states[n])
  {
    if n == 0 {
      AccountedInit(setup, r.states[0]);
    } else {
      AccountedAlways(setup, r, n - 1);
      AccountedStep(setup, r.states[n - 1], r.steps[n - 1], r.states[n]);
    }
  }

  /**
   * Slots, in every reachable state: with a limit, the probes in the gauge are at most the
   * slots taken, which are at most the limit and exactly the requests between taking and
   * giving back; and once every request is done nothing is left over.
   */
  lemma SlotsAreAccounted(setup: Setup, r: Run, n: nat)
    requires IsRun(setup, r) && n < |r.states|
    ensures var s := r.states[n];
            && s.shared.inFlight == Count(s.requests, InGauge)
            && (setup.limit > 0 ==> && s.shared.inFlight <= s.shared.tokens <= setup.limit
                                    && s.shared.tokens == Count(s.requests, HasSlot))
            && ((forall id :: id in s.requests ==> s.requests[id].pc.Done?) ==>
                  s.shared.tokens == 0 && s.shared.inFlight == 0 && |s.shared.counts| == |s.requests|)
  {
    var s := r.states[n];
    AccountedAlways(setup, r, n);
    CountMonotone(s.requests, InGauge, HasSlot);
    if forall id :: id in s.requests ==> s.requests[id].pc.Done? {
      CountNone(s.requests, HasSlot);
      CountNone(s.requests, InGauge);
      assert Where(s.requests, IsCounted) == s.requests.Keys;
    }
  }

  /**
   * Where the semaphore decides: with a limit, a request whose checks have passed is refused
   * with 503 exactly if as many requests as the limit hold a slot at that moment.
   */
  lemma FullMeansRefused(setup: Setup, r: Run, i: nat)
    requires IsRun(setup, r) && i < |r.steps| && r.steps[i].Acquire?
    ensures var (s, t, id) := (r.states[i], r.states[i + 1], r.steps[i].id);
            && id in s.requests && id in t.requests && s.requests[id].pc.Admitted?
            && var pass := s.requests[id].pc.pass;
               t.requests[id].pc == if setup.limit > 0 && Count(s.requests, HasSlot) == setup.limit
                                    then Refused(Label(pass.name, 503))
                                    else Holding(pass)
  {
    assert Apply(setup, r.states[i], r.steps[i]) == Some(r.states[i + 1]);
    AccountedAlways(setup, r, i);
  }

  /** The step a request takes next. */
  function NextStep(id: nat, pc: Pc): Step {
    match pc
    case Arrived => Snapshot(id)
    case Snapped(_) => Check(id)
    case Refused(_) => CountIt(id)
    case Admitted(_) => Acquire(id)
    case Holding(_) => Inc(id)
    case InFlight(_) => StartProbe(id)
    case Probing(_, _) => Answer(id, 200)
    case Answered(_, _) => CountIt(id)
    case Counted(_) => Dec(id)
    case Lowered(_) => Release(id)
    case Done(_) => Release(id)
  }

  /** No request ever waits for another: a full semaphore refuses at once, and a slot given back is there to take. */
  lemma RequestsNeverBlock(setup: Setup, r: Run, n: nat, id: nat)
    requires IsRun(setup, r) && n < |r.states|
    requires id in r.states[n].requests && !r.states[n].requests[id].pc.Done?
    ensures Apply(setup, r.states[n], NextStep(id, r.states[n].requests[id].pc)).Some?
  {
    AccountedAlways(setup, r, n);
    if HasSlot(r.states[n].requests[id]) {
      assert id in Where(r.states[n].requests, HasSlot);
    }
  }

  // ---- Reloads ----

  /** The gauge tells the outcome of the last load, and after a success its map is the live one. */
  ghost predicate Settled(sv: Service) {
    && (sv.successful <==> sv.lastLoad.Some?)
    && (sv.lastLoad.Some? ==> sv.live == sv.lastLoad.value && sv.liveVersion == sv.lastVersion)
  }

  /** What a reload at `at` may rely on. */
  ghost predicate ReloadOk(sv: Service, diskVersion: nat, rid: nat, at: Reload) {
    && at.asked <= diskVersion
    && (at.InMutex() <==> sv.mutex == Some(rid))
    && match at
       case Waiting(_) => true
       case Locked(_) => Settled(sv)
       case Read(asked, m, v) => sv.lastLoad == m && sv.lastVersion == v && asked <= v
       case Recorded(asked, m, v) =>
         sv.lastLoad == m && sv.lastVersion == v && asked <= v && (sv.successful <==> m.Some?)
       case Stored(asked, v) => Settled(sv) && asked <= v <= sv.liveVersion
       case Finished(asked, v, ok) => asked <= v && (ok ==> v <= sv.liveVersion)
  }

  ghost predicate ServiceOk(s: State) {
    && s.service.liveVersion <= s.service.lastVersion <= s.diskVersion
    && (s.service.mutex.None? ==> Settled(s.service))
    && (s.service.mutex.Some? ==> s.service.mutex.value in s.reloads)
    && forall rid :: rid in s.reloads ==> ReloadOk(s.service, s.diskVersion, rid, s.reloads[rid])
  }

  lemma AdvanceReloadOk(setup: Setup, disk: Disk, version: nat, rid: nat, at: Reload, sv: Service, step: Step)
    requires ReloadOk(sv, version, rid, at) && sv.liveVersion <= sv.lastVersion <= version
    requires sv.mutex.None? ==> Settled(sv)
    requires AdvanceReload(setup, disk, version, rid, at, sv, step).Some?
    ensures var (next, after) := AdvanceReload(setup, disk, version, rid, at, sv, step).value;
            && ReloadOk(after, version, rid, next)
            && after.liveVersion <= after.lastVersion <= version
            && sv.liveVersion <= after.liveVersion
            && (after.mutex.None? ==> Settled(after))
            && (sv.mutex.None? || sv.mutex == Some(rid))
            && (after.mutex.None? || after.mutex == Some(rid))
            && (after.live != sv.live ==> step.Store?)
  {
    match at {
      case Waiting(_) => assert step.Lock?;
      case Locked(_) => assert step.Load?;
      case Read(_, _, _) => assert step.Record?;
      case Recorded(_, _, _) => assert step.Store? || step.Unlock?;
      case Stored(_, _) => assert step.Unlock?;
      case Finished(_, _, _) =>
    }
  }

  lemma ServiceStep(setup: Setup, s: State, step: Step, t: State)
    requires ServiceOk(s) && Apply(setup, s, step) == Some(t)
    ensures ServiceOk(t) && s.service.liveVersion <= t.service.liveVersion
    ensures t.service.live != s.service.live ==> step.Store?
  {
    if ForReload(step) {
      AdvanceReloadOk(setup, s.disk, s.diskVersion, step.rid, s.reloads[step.rid], s.service, step);
      forall rid | rid in t.reloads && rid != step.rid
        ensures ReloadOk(t.service, t.diskVersion, rid, t.reloads[rid])
      {
        assert ReloadOk(s.service, s.diskVersion, rid, s.reloads[rid]);
        assert !s.reloads[rid].InMutex();
      }
    } else {
      assert t.service == s.service;
    }
  }

  lemma {:induction false} ServiceAlways(setup: Setup, r: Run, n: nat)
    requires IsRun(setup, r) && n < |r.states|
    ensures ServiceOk(r.states[n])
  {
    if n > 0 {
      ServiceAlways(setup, r, n - 1);
      ServiceStep(setup, r.states[n - 1], r.steps[n - 1], r.states[n]);
    }
  }

  lemma LiveStep(setup: Setup, r: Run, n: nat)
    requires IsRun(setup, r) && n < |r.steps|
    ensures r.states[n].service.liveVersion <= r.states[n + 1].service.liveVersion
    ensures r.states[n].service.live != r.states[n + 1].service.live ==> r.steps[n].Store?
  {
    ServiceAlways(setup, r, n);
    ServiceStep(setup, r.states[n], r.steps[n], r.states[n + 1]);
  }

  /** However many reloads run at once, the files behind the live modules never get older. */
  lemma {:induction false} LiveNeverGoesBack(setup: Setup, r: Run, i: nat, j: nat)
    requires IsRun(setup, r) && i <= j < |r.states|
    ensures r.states[i].service.liveVersion <= r.states[j].service.liveVersion
    decreases j
  {
    if i < j {
      LiveNeverGoesBack(setup, r, i, j - 1);
      LiveStep(setup, r, j - 1);
    }
  }

  /** While no reload holds the mutex, the gauge is 1 iff the last load succeeded, and then its map is live. */
  lemma GaugeIsTrueWhenIdle(setup: Setup, r: Run, n: nat)
    requires IsRun(setup, r) && n < |r.states| && r.states[n].service.mutex.None?
    ensures Settled(r.states[n].service)
  {
    ServiceAlways(setup, r, n);
  }

  /**
   * The gauge and the live map disagree with the last load only while the reload that made
   * it stands between reading and storing.
   */
  lemma DisagreementIsTheWindow(setup: Setup, r: Run, n: nat)
    requires IsRun(setup, r) && n < |r.states| && !Settled(r.states[n].service)
    ensures var s := r.states[n];
            && s.service.mutex.Some? && s.service.mutex.value in s.reloads
            && (s.reloads[s.service.mutex.value].Read? || s.reloads[s.service.mutex.value].Recorded?)
  {
    ServiceAlways(setup, r, n);
    var s := r.states[n];
    assert ReloadOk(s.service, s.diskVersion, s.service.mutex.value, s.reloads[s.service.mutex.value]);
  }

  /** A reload that answers success has put in service files at least as new as when it was asked for. */
  lemma SuccessfulReloadIsInService(setup: Setup, r: Run, i: nat, j: nat, rid: nat)
    requires IsRun(setup, r) && i <= j < |r.states| && i < |r.steps|
    requires r.steps[i] == AskReload(rid)
    requires rid in r.states[j].reloads && r.states[j].reloads[rid].Finished? && r.states[j].reloads[rid].ok
    ensures r.states[i].diskVersion <= r.states[j].service.liveVersion
  {
    assert i < j by {
      assert Apply(setup, r.states[i], r.steps[i]) == Some(r.states[i + 1]);
    }
    AskedIsKept(setup, r, i, j, rid);
    ServiceAlways(setup, r, j);
  }

  lemma {:induction false} AskedIsKept(setup: Setup, r: Run, i: nat, j: nat, rid: nat)
    requires IsRun(setup, r) && i < j < |r.states| && r.steps[i] == AskReload(rid)
    ensures rid in r.states[j].reloads && r.states[j].reloads[rid].asked == r.states[i].diskVersion
    decreases j
  {
    assert Apply(setup, r.states[j - 1], r.steps[j - 1]) == Some(r.states[j]);
    if i < j - 1 {
      AskedIsKept(setup, r, i, j - 1, rid);
    }
  }

  /** The step a reload takes next. */
  function NextReloadStep(rid: nat, at: Reload): Step {
    match at
    case Waiting(_) => Lock(rid)
    case Locked(_) => Load(rid)
    case Read(_, _, _) => Record(rid)
    case Recorded(_, m, _) => if m.Some? then Store(rid) else Unlock(rid)
    case _ => Unlock(rid)
  }

  /** Some reload can always move while one is unfinished, so reloads never deadlock. */
  lemma ReloadsNeverDeadlock(setup: Setup, r: Run, n: nat, rid: nat)
    requires IsRun(setup, r) && n < |r.states|
    requires rid in r.states[n].reloads && !r.states[n].reloads[rid].Finished?
    ensures exists step :: ForReload(step) && Apply(setup, r.states[n], step).Some?
  {
    ServiceAlways(setup, r, n);
    var s := r.states[n];
    var mover := if s.service.mutex.Some? then s.service.mutex.value else rid;
    assert ReloadOk(s.service, s.diskVersion, mover, s.reloads[mover]);
    var step := NextReloadStep(mover, s.reloads[mover]);
    assert AdvanceReload(setup, s.disk, s.diskVersion, mover, s.reloads[mover], s.service, step).Some?;
    assert Apply(setup, s, step).Some?;
  }

  /** How many steps a reload has left. */
  function Left(at: Reload): nat {
    match at
    case Waiting(_) => 5
    case Locked(_) => 4
    case Read(_, _, _) => 3
    case Recorded(_, m, _) => if m.Some? then 2 else 1
    case Stored(_, _) => 1
    case Finished(_, _, _) => 0
  }

  /** How many steps are left until the reload `rid` ends, with those of the one that holds the mutex. */
  ghost function StepsTo(s: State, rid: nat): nat
    requires ServiceOk(s) && rid in s.reloads
  {
    Left(s.reloads[rid])
    + if s.service.mutex.None? || s.service.mutex.value == rid then 0 else Left(s.reloads[s.service.mutex.value])
  }

  function Follow(setup: Setup, s: State, steps: seq<Step>): Option<State>
    decreases |steps|
  {
    if steps == [] then Some(s)
    else match Apply(setup, s, steps[0])
      case None => None
      case Some(t) => Follow(setup, t, steps[1..])
  }

  /** The next step of the reload that can move is one step closer to the end of `rid`. */
  lemma ReloadMoves(setup: Setup, s: State, rid: nat) returns (step: Step)
    requires ServiceOk(s) && rid in s.reloads && !s.reloads[rid].Finished?
    ensures ForReload(step) && Apply(setup, s, step).Some?
    ensures var t := Apply(setup, s, step).value;
            ServiceOk(t) && rid in t.reloads && StepsTo(t, rid) < StepsTo(s, rid)
  {
    var mover := if s.service.mutex.Some? then s.service.mutex.value else rid;
    assert ReloadOk(s.service, s.diskVersion, mover, s.reloads[mover]);
    assert ReloadOk(s.service, s.diskVersion, rid, s.reloads[rid]);
    step := NextReloadStep(mover, s.reloads[mover]);
    var moved := AdvanceReload(setup, s.disk, s.diskVersion, mover, s.reloads[mover], s.service, step);
    assert moved.Some? && Left(moved.value.0) < Left(s.reloads[mover]);
    ServiceStep(setup, s, step, Apply(setup, s, step).value);
  }

  lemma {:induction false} ReloadEndsFrom(setup: Setup, s: State, rid: nat) returns (steps: seq<Step>)
    requires ServiceOk(s) && rid in s.reloads
    ensures |steps| <= StepsTo(s, rid) && forall step :: step in steps ==> ForReload(step)
    ensures var t := Follow(setup, s, steps);
            t.Some? && rid in t.value.reloads && t.value.reloads[rid].Finished?
    decreases StepsTo(s, rid)
  {
    steps := [];
    if !s.reloads[rid].Finished? {
      var step := ReloadMoves(setup, s, rid);
      var rest := ReloadEndsFrom(setup, Apply(setup, s, step).value, rid);
      steps := [step] + rest;
      assert steps[1..] == rest;
    }
  }

  /** From every reachable state, at most nine steps of reloads end any one of them, whoever holds the mutex. */
  lemma ReloadReachesItsEnd(setup: Setup, r: Run, n: nat, rid: nat) returns (steps: seq<Step>)
    requires IsRun(setup, r) && n < |r.states| && rid in r.states[n].reloads
    ensures |steps| <= 9 && forall step :: step in steps ==> ForReload(step)
    ensures var t := Follow(setup, r.states[n], steps);
            t.Some? && rid in t.value.reloads && t.value.reloads[rid].Finished?
  {
    ServiceAlways(setup, r, n);
    var s := r.states[n];
    if s.service.mutex.Some? {
      assert ReloadOk(s.service, s.diskVersion, s.service.mutex.value, s.reloads[s.service.mutex.value]);
    }
    steps := ReloadEndsFrom(setup, s, rid);
  }

  // ---- Authorisation, over whole runs ----

  /** The request `id` read the live pointer at some step before `n`, and found `m`. */
  ghost predicate SnapshotTaken(r: Run, n: nat, id: nat, m: Modules) {
    exists j :: 0 <= j < n <= |r.steps| && n <= |r.states| && r.steps[j] == Snapshot(id) && r.states[j].service.live == m
  }

  /** `m` is what a load makes of the files as they were, at version `v`, at some moment up to `n`. */
  ghost predicate LoadedBy(setup: Setup, r: Run, n: nat, m: Modules, v: nat) {
    exists k :: 0 <= k <= n < |r.states| && r.states[k].diskVersion == v && setup.load(r.states[k].disk) == Some(m)
  }

  /** A label that the checks of `m` call for: the rejection, or any code under the module's own name. */
  ghost predicate Rightful(setup: Setup, m: Modules, query: Query, entry: Label) {
    match setup.decide(m, query)
    case Reject(why) => entry == why
    case Admit(name, _, _) => entry.moduleName == name
  }

  /** The label `entry` is one that the request's own snapshot calls for. */
  ghost predicate Earned(setup: Setup, r: Run, n: nat, id: nat, query: Query, entry: Label) {
    exists m :: SnapshotTaken(r, n, id, m) && Rightful(setup, m, query, entry)
  }

  ghost predicate TracedRequest(setup: Setup, r: Run, n: nat, id: nat, req: Request) {
    match req.pc
    case Arrived => true
    case Snapped(m) => SnapshotTaken(r, n, id, m)
    case Refused(why) => Earned(setup, r, n, id, req.query, why)
    case Counted(why) => Earned(setup, r, n, id, req.query, why)
    case Lowered(why) => Earned(setup, r, n, id, req.query, why)
    case Done(why) => Earned(setup, r, n, id, req.query, why)
    case _ =>
      var p := req.pc.pass;
      SnapshotTaken(r, n, id, p.modules) && setup.decide(p.modules, req.query) == Admit(p.name, p.mod, p.endpoint)
  }

  ghost predicate TracedReload(setup: Setup, r: Run, n: nat, at: Reload) {
    match at
    case Read(_, Some(m), v) => LoadedBy(setup, r, n, m, v)
    case Recorded(_, Some(m), v) => LoadedBy(setup, r, n, m, v)
    case _ => true
  }

  lemma SnapshotStaysTaken(r: Run, n: nat, id: nat)
    requires n + 1 <= |r.steps| && n + 1 <= |r.states|
    ensures forall m :: SnapshotTaken(r, n, id, m) ==> SnapshotTaken(r, n + 1, id, m)
  {
  }

  lemma EarnedStays(setup: Setup, r: Run, n: nat, id: nat, query: Query, entry: Label)
    requires n + 1 <= |r.steps| && n + 1 <= |r.states|
    requires Earned(setup, r, n, id, query, entry)
    ensures Earned(setup, r, n + 1, id, query, entry)
  {
    SnapshotStaysTaken(r, n, id);
  }

  /** A request that moves on by `Advance` is traced after the step if it was before. */
  lemma AdvanceTraces(setup: Setup, r: Run, n: nat, id: nat, live: Modules, query: Query, pc: Pc, sh: Shared, step: Step)
    requires n + 1 <= |r.steps| && n + 1 <= |r.states|
    requires TracedRequest(setup, r, n, id, Request(query, pc))
    requires Advance(setup, live, query, pc, sh, step).Some?
    requires pc.Arrived? ==> SnapshotTaken(r, n + 1, id, live)
    ensures TracedRequest(setup, r, n + 1, id, Request(query, Advance(setup, live, query, pc, sh, step).value.0))
  {
    SnapshotStaysTaken(r, n, id);
    match pc {
      case Arrived => assert step.Snapshot?;
      case Snapped(m) => assert step.Check?;
      case Refused(why) => EarnedStays(setup, r, n, id, query, why);
      case Admitted(_) => assert step.Acquire?;
      case Holding(_) => assert step.Inc?;
      case InFlight(_) => assert step.StartProbe?;
      case Probing(_, _) => assert step.Answer?;
      case Answered(_, _) => assert step.CountIt?;
      case Counted(why) => EarnedStays(setup, r, n, id, query, why);
      case Lowered(why) => EarnedStays(setup, r, n, id, query, why);
      case Done(_) =>
    }
  }

  lemma TraceRequestStays(setup: Setup, r: Run, n: nat, id: nat, req: Request)
    requires n + 1 <= |r.steps| && n + 1 <= |r.states|
    requires TracedRequest(setup, r, n, id, req)
    ensures TracedRequest(setup, r, n + 1, id, req)
  {
    SnapshotStaysTaken(r, n, id);
  }

  lemma TraceRequestMoves(setup: Setup, r: Run, n: nat, req: Request)
    requires IsRun(setup, r) && n < |r.steps| && ForRequest(r.steps[n])
    requires r.steps[n].id in r.states[n].requests && req == r.states[n].requests[r.steps[n].id]
    requires TracedRequest(setup, r, n, r.steps[n].id, req)
    ensures r.steps[n].id in r.states[n + 1].requests
    ensures TracedRequest(setup, r, n + 1, r.steps[n].id, r.states[n + 1].requests[r.steps[n].id])
  {
    var step, s := r.steps[n], r.states[n];
    assert Apply(setup, s, step) == Some(r.states[n + 1]);
    assert step.Snapshot? ==> SnapshotTaken(r, n + 1, step.id, s.service.live);
    assert req.pc.Arrived? ==> step.Snapshot?;
    AdvanceTraces(setup, r, n, step.id, s.service.live, req.query, req.pc, s.shared, step);
  }

  ghost predicate RequestsTraced(setup: Setup, r: Run, n: nat)
    requires n < |r.states|
  {
    forall id :: id in r.states[n].requests ==> TracedRequest(setup, r, n, id, r.states[n].requests[id])
  }

  ghost predicate LiveTraced(setup: Setup, r: Run, n: nat)
    requires n < |r.states|
  {
    var s := r.states[n];
    && LoadedBy(setup, r, n, s.service.live, s.service.liveVersion)
    && forall rid :: rid in s.reloads ==> TracedReload(setup, r, n, s.reloads[rid])
  }

  lemma {:induction false} RequestsTracedAlways(setup: Setup, r: Run, n: nat)
    requires IsRun(setup, r) && n < |r.states|
    ensures RequestsTraced(setup, r, n)
  {
    if n > 0 {
      RequestsTracedAlways(setup, r, n - 1);
      var s, step, t := r.states[n - 1], r.steps[n - 1], r.states[n];
      assert Apply(setup, s, step) == Some(t);
      forall id | id in t.requests
        ensures TracedRequest(setup, r, n, id, t.requests[id])
      {
        if ForRequest(step) && step.id == id {
          TraceRequestMoves(setup, r, n - 1, s.requests[id]);
        } else if id in s.requests {
          TraceRequestStays(setup, r, n - 1, id, s.requests[id]);
        }
      }
    }
  }

  lemma LoadedStays(setup: Setup, r: Run, n: nat)
    requires n + 1 < |r.states|
    ensures forall m, v :: LoadedBy(setup, r, n, m, v) ==> LoadedBy(setup, r, n + 1, m, v)
  {
  }

  lemma ReloadTraces(setup: Setup, r: Run, n: nat, rid: nat, at: Reload, sv: Service, step: Step)
    requires n + 1 < |r.states| && TracedReload(setup, r, n, at) && LoadedBy(setup, r, n, sv.live, sv.liveVersion)
    requires AdvanceReload(setup, r.states[n].disk, r.states[n].diskVersion, rid, at, sv, step).Some?
    ensures var (next, after) := AdvanceReload(setup, r.states[n].disk, r.states[n].diskVersion, rid, at, sv, step).value;
            TracedReload(setup, r, n + 1, next) && LoadedBy(setup, r, n + 1, after.live, after.liveVersion)
  {
    LoadedStays(setup, r, n);
    var m := setup.load(r.states[n].disk);
    assert m.Some? ==> LoadedBy(setup, r, n + 1, m.value, r.states[n].diskVersion);
  }

  lemma {:induction false} LiveTracedAlways(setup: Setup, r: Run, n: nat)
    requires IsRun(setup, r) && n < |r.states|
    ensures LiveTraced(setup, r, n)
  {
    if n > 0 {
      LiveTracedAlways(setup, r, n - 1);
      var s, step, t := r.states[n - 1], r.steps[n - 1], r.states[n];
      assert Apply(setup, s, step) == Some(t);
      LoadedStays(setup, r, n - 1);
      if ForReload(step) {
        ReloadTraces(setup, r, n - 1, step.rid, s.reloads[step.rid], s.service, step);
      }
      forall rid | rid in t.reloads
        ensures TracedReload(setup, r, n, t.reloads[rid])
      {
        if rid in s.reloads { assert TracedReload(setup, r, n - 1, s.reloads[rid]); }
      }
    } else {
      assert LoadedBy(setup, r, 0, r.states[0].service.live, 0);
    }
  }

  /** No request reads the live pointer twice, so nothing of a later reload is mixed in. */
  lemma {:induction false} SnapshotPassed(setup: Setup, r: Run, j: nat, n: nat, id: nat)
    requires IsRun(setup, r) && j < n < |r.states| && r.steps[j] == Snapshot(id)
    ensures id in r.states[n].requests && !r.states[n].requests[id].pc.Arrived?
    decreases n
  {
    assert Apply(setup, r.states[n - 1], r.steps[n - 1]) == Some(r.states[n]);
    if j < n - 1 {
      SnapshotPassed(setup, r, j, n - 1, id);
    }
  }

  lemma SnapshotIsTakenOnce(setup: Setup, r: Run, j: nat, i: nat, id: nat)
    requires IsRun(setup, r) && j < |r.steps| && i < |r.steps|
    requires r.steps[j] == Snapshot(id) && r.steps[i] == Snapshot(id)
    ensures i == j
  {
    var first, last := if i < j then i else j, if i < j then j else i;
    assert Apply(setup, r.states[last], r.steps[last]) == Some(r.states[last + 1]);
    if first < last {
      SnapshotPassed(setup, r, first, last, id);
    }
  }

  /** The probe that the request `id` has started. */
  ghost function Started(r: Run, i: nat, id: nat): Launch
    requires i < |r.states| && id in r.states[i].requests && r.states[i].requests[id].pc.Probing?
  {
    r.states[i].requests[id].pc.launch
  }

  /** Where a started probe comes from: the snapshot at step `j`, loaded from the files of state `k`. */
  lemma ProbeComesFrom(setup: Setup, r: Run, i: nat) returns (k: nat, j: nat)
    requires IsRun(setup, r) && i < |r.steps| && r.steps[i].StartProbe?
    ensures var id := r.steps[i].id;
            && id in r.states[i + 1].requests && r.states[i + 1].requests[id].pc.Probing?
            && id in r.states[i].requests && r.states[i + 1].requests[id].query == r.states[i].requests[id].query
            && k <= j < i
            && r.steps[j] == Snapshot(id)
            && r.states[k].diskVersion == r.states[j].service.liveVersion
            && setup.load(r.states[k].disk) == Some(r.states[j].service.live)
            && var d := setup.decide(r.states[j].service.live, r.states[i + 1].requests[id].query);
               d.Admit? && Started(r, i + 1, id) == Launch(d.endpoint.target, d.mod.options)
  {
    var id := r.steps[i].id;
    assert Apply(setup, r.states[i], r.steps[i]) == Some(r.states[i + 1]);
    RequestsTracedAlways(setup, r, i);
    var req := r.states[i].requests[id];
    assert req.pc.InFlight?;
    assert TracedRequest(setup, r, i, id, req);
    j :| 0 <= j < i && r.steps[j] == Snapshot(id) && r.states[j].service.live == req.pc.pass.modules;
    LiveTracedAlways(setup, r, j);
    k :| 0 <= k <= j && r.states[k].diskVersion == r.states[j].service.liveVersion
                     && setup.load(r.states[k].disk) == Some(req.pc.pass.modules);
  }

  /**
   * Whole-run authorisation: in every interleaving, each probe started dials the host and
   * port that its request names, with the options of the module that it names, as permitted
   * and configured by files that were on disk at one moment; these are the files behind the
   * modules that were live when the request read the live pointer.
   */
  lemma ProbesAreAuthorised(lib: Library, flag: bool, limit: nat, r: Run, i: nat, name: string)
    returns (k: nat, j: nat)
    requires IsRun(Exporter(lib, flag, limit), r) && i < |r.steps| && r.steps[i].StartProbe?
    requires r.steps[i].id in r.states[i].requests && IsFor(r.states[i].requests[r.steps[i].id].query, name)
    ensures var id := r.steps[i].id;
            && id in r.states[i + 1].requests && r.states[i + 1].requests[id].pc.Probing?
            && r.states[i + 1].requests[id].query == r.states[i].requests[id].query
            && k <= j < i
            && r.steps[j] == Snapshot(id)
            && r.states[k].diskVersion == r.states[j].service.liveVersion
            && Loaded(lib, r.states[k].disk, flag) == Some(r.states[j].service.live)
            && Authorised(lib, r.states[k].disk, flag, r.states[i].requests[id].query, name,
                          Started(r, i + 1, id).target, Started(r, i + 1, id).options)
            && ByItsModule(lib, r.states[j].service.live, r.states[i].requests[id].query, name,
                           Started(r, i + 1, id).target, Started(r, i + 1, id).options)
  {
    k, j := ProbeComesFrom(Exporter(lib, flag, limit), r, i);
    var live, q := r.states[j].service.live, r.states[i].requests[r.steps[i].id].query;
    AdmittedIsAuthorised(lib, r.states[k].disk, flag, live, q, name);
    AdmittedByItsModule(lib, live, q, name);
  }

  /**
   * The counter, in every reachable state: it has counted exactly the requests past their
   * count step, each once, and each under a label its own snapshot calls for.
   */
  lemma RequestsAreConserved(setup: Setup, r: Run, n: nat)
    requires IsRun(setup, r) && n < |r.states|
    ensures var s := r.states[n];
            && |s.shared.counts| == Count(s.requests, IsCounted)
            && (forall l :: s.shared.counts[l] == Count(s.requests, CountedAs(l)))
            && forall id :: id in s.requests && IsCounted(s.requests[id]) ==>
                 Earned(setup, r, n, id, s.requests[id].query, s.requests[id].pc.entry)
  {
    AccountedAlways(setup, r, n);
    RequestsTracedAlways(setup, r, n);
    var s := r.states[n];
    forall id | id in s.requests && IsCounted(s.requests[id])
      ensures Earned(setup, r, n, id, s.requests[id].query, s.requests[id].pc.entry)
    {
      assert TracedRequest(setup, r, n, id, s.requests[id]);
    }
  }

  /** For the exporter: each counted request is under the module it is for, if its own snapshot has that, and else under none with 400. */
  lemma CountedLabels(lib: Library, flag: bool, limit: nat, r: Run, n: nat, id: nat, name: string) returns (m: Modules)
    requires IsRun(Exporter(lib, flag, limit), r) && n < |r.states|
    requires id in r.states[n].requests && IsCounted(r.states[n].requests[id])
    requires IsFor(r.states[n].requests[id].query, name)
    ensures SnapshotTaken(r, n, id, m)
    ensures var entry := r.states[n].requests[id].pc.entry;
            if name in m then entry.moduleName == name else entry == Label("", 400)
  {
    var setup := Exporter(lib, flag, limit);
    RequestsAreConserved(setup, r, n);
    var req := r.states[n].requests[id];
    assert Earned(setup, r, n, id, req.query, req.pc.entry);
    m :| SnapshotTaken(r, n, id, m) && Rightful(setup, m, req.query, req.pc.entry);
    DecidedByModules(lib, m, req.query, name);
  }
}
