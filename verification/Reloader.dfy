/** The pointer to the modules in service, and the reloader that swaps it. */
module Reloader {
  import opened Common
  import opened Config
  import Serving

  class LivePointer {
    var modules: Modules

    constructor (modules: Modules)
      ensures this.modules == modules
    {
      this.modules := modules;
    }
  }

  class ReloadMetrics {
    var successful: bool
    var timestamp: int

    constructor ()
      ensures !successful && timestamp == 0
    {
      successful, timestamp := false, 0;
    }

    method RecordLoad(ok: bool, now: int)
      modifies this
      ensures successful == ok
      ensures timestamp == if ok then now else old(timestamp)
    {
      if !ok {
        successful := false;
        return;
      }
      successful := true;
      timestamp := now;
    }
  }

  class ConfigReloader {
    const lib: Library
    const allowAllFlag: bool
    const live: LivePointer
    const metrics: ReloadMetrics

    constructor (lib: Library, allowAllFlag: bool, live: LivePointer, metrics: ReloadMetrics)
      ensures this.lib == lib && this.allowAllFlag == allowAllFlag && this.live == live && this.metrics == metrics
    {
      this.lib, this.allowAllFlag, this.live, this.metrics := lib, allowAllFlag, live, metrics;
    }

    /**
     * One reload, from the files as they are: what `ReloadAlone` says of a reload's steps in
     * the concurrent model when nothing comes between them.
     */
    method Reload(disk: Disk, now: int) returns (ok: bool)
      modifies live, metrics
      ensures ok <==> Loaded(lib, disk, allowAllFlag).Some?
      ensures live.modules == if ok then Loaded(lib, disk, allowAllFlag).value else old(live.modules)
      ensures metrics.successful == ok
      ensures metrics.timestamp == if ok then now else old(metrics.timestamp)
    {
      var modules := Load(lib, disk, allowAllFlag);
      metrics.RecordLoad(modules.Success?, now);
      if modules.Failure? {
        return false;
      }
      live.modules := modules.value;
      return true;
    }
  }

  /** Where a reload and what reloads share end up by the given steps, with the files at rest. */
  function Take(setup: Serving.Setup, disk: Disk, version: nat, rid: nat,
                at: Serving.Reload, sv: Serving.Service, steps: seq<Serving.Step>): Option<(Serving.Reload, Serving.Service)>
    decreases |steps|
  {
    if steps == [] then Some((at, sv))
    else match Serving.AdvanceReload(setup, disk, version, rid, at, sv, steps[0])
      case None => None
      case Some((next, after)) => Take(setup, disk, version, rid, next, after, steps[1..])
  }

  /** From `at`, the steps that a reload takes to its end. */
  function RestOf(setup: Serving.Setup, disk: Disk, rid: nat): seq<Serving.Step> {
    [Serving.Lock(rid), Serving.Load(rid), Serving.Record(rid)]
    + (if setup.load(disk).Some? then [Serving.Store(rid)] else [])
    + [Serving.Unlock(rid)]
  }

  lemma TakeOne(setup: Serving.Setup, disk: Disk, version: nat, rid: nat,
                at: Serving.Reload, sv: Serving.Service, step: Serving.Step, steps: seq<Serving.Step>)
    requires Serving.AdvanceReload(setup, disk, version, rid, at, sv, step).Some?
    ensures var (next, after) := Serving.AdvanceReload(setup, disk, version, rid, at, sv, step).value;
            Take(setup, disk, version, rid, at, sv, [step] + steps) == Take(setup, disk, version, rid, next, after, steps)
  {
    assert ([step] + steps)[1..] == steps;
  }

  /**
   * From a free mutex all of a reload's steps can be taken; they give the mutex back, set
   * the gauge to the load's outcome, and replace the live modules if it succeeded.
   */
  lemma ReloadAlone(setup: Serving.Setup, disk: Disk, version: nat, rid: nat, asked: nat, sv: Serving.Service)
    requires sv.mutex.None?
    ensures var m := setup.load(disk);
            Take(setup, disk, version, rid, Serving.Waiting(asked), sv, RestOf(setup, disk, rid))
            == Some((Serving.Finished(asked, version, m.Some?),
                     Serving.Service(if m.Some? then m.value else sv.live,
                                     if m.Some? then version else sv.liveVersion,
                                     m.Some?, m, version, None)))
  {
    var m := setup.load(disk);
    var tail := (if m.Some? then [Serving.Store(rid)] else []) + [Serving.Unlock(rid)];
    var locked := sv.(mutex := Some(rid));
    var read := locked.(lastLoad := m, lastVersion := version);
    var recorded := read.(successful := m.Some?);
    assert RestOf(setup, disk, rid) == [Serving.Lock(rid)] + ([Serving.Load(rid)] + ([Serving.Record(rid)] + tail));
    TakeOne(setup, disk, version, rid, Serving.Waiting(asked), sv, Serving.Lock(rid),
            [Serving.Load(rid)] + ([Serving.Record(rid)] + tail));
    TakeOne(setup, disk, version, rid, Serving.Locked(asked), locked, Serving.Load(rid), [Serving.Record(rid)] + tail);
    TakeOne(setup, disk, version, rid, Serving.Read(asked, m, version), read, Serving.Record(rid), tail);
    TailAlone(setup, disk, version, rid, asked, m, recorded);
  }

  lemma TailAlone(setup: Serving.Setup, disk: Disk, version: nat, rid: nat, asked: nat, m: Option<Modules>, sv: Serving.Service)
    ensures Take(setup, disk, version, rid, Serving.Recorded(asked, m, version), sv,
                 (if m.Some? then [Serving.Store(rid)] else []) + [Serving.Unlock(rid)])
            == Some((Serving.Finished(asked, version, m.Some?),
                     sv.(mutex := None,
                         live := if m.Some? then m.value else sv.live,
                         liveVersion := if m.Some? then version else sv.liveVersion)))
  {
    var end := [Serving.Unlock(rid)];
    assert end == end + [];
    if m.Some? {
      var stored := sv.(live := m.value, liveVersion := version);
      TakeOne(setup, disk, version, rid, Serving.Recorded(asked, m, version), sv, Serving.Store(rid), end);
      TakeOne(setup, disk, version, rid, Serving.Stored(asked, version), stored, Serving.Unlock(rid), []);
    } else {
      assert [] + end == end;
      TakeOne(setup, disk, version, rid, Serving.Recorded(asked, m, version), sv, Serving.Unlock(rid), []);
    }
  }
}
