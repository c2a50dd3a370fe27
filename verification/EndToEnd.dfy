/** From the files on disk to the samples of a scrape. */
module EndToEnd {
  import opened Common
  import opened Authority
  import opened Collector
  import opened Config
  import opened Phases
  import opened Probe
  import KnownHosts
  import Samples
  import Serving

  /** The known_hosts file `f` vouches for the first host key that the server offers. */
  ghost predicate VouchesForFirst(f: KnownHosts.File, target: string, events: seq<Event>) {
    exists j :: && 0 <= j < |events|
                && events[j].HostKeyOffered?
                && !Offered(events[..j])
                && f.Vouches(target, events[j].key)
  }

  /** The probe connected, got the transport ready, and its first host key is one that `f` vouches for. */
  ghost predicate Deserved(f: KnownHosts.File, target: string, w: World) {
    w.dialError.None? && Ready(w.events) && VouchesForFirst(f, target, w.events)
  }

  lemma SuccessIsExported(r: Report, ch: seq<Metric>)
    requires Exports(r, ch)
    ensures ProbeSuccess(true) in ch <==> r.success
  {
    assert ProbeSuccess(true) in ch <==> Calls(r, ProbeSuccess(true));
  }

  lemma VerifiedIsExported(r: Report, ch: seq<Metric>)
    requires Exports(r, ch)
    ensures HostKeyVerifySuccess(true) in ch <==> r.hostKeyVerifySuccess
  {
    assert HostKeyVerifySuccess(true) in ch <==> Calls(r, HostKeyVerifySuccess(true));
  }

  lemma VerifiedIsVouchedFor(f: KnownHosts.File, target: string, opts: Options, events: seq<Event>)
    requires opts.hostKeyCallback.Some?
    requires forall addr, key :: TrustsAs(f, opts.hostKeyCallback.value, addr, key)
    ensures FirstKeyVerified(target, opts, events) <==> VouchesForFirst(f, target, events)
  {
    assert forall key :: TrustsAs(f, opts.hostKeyCallback.value, target, key) ==>
                           (KnownHosts.VerifyHostKey(Callback(opts), target, key).None? <==> f.Vouches(target, key));
  }

  /** With options as configured, a scrape says success exactly when it is deserved by the configured known_hosts file. */
  lemma SuccessIsDeserved(lib: Library, disk: Disk, name: string, named: bool, target: string,
                          opts: Options, w: World, ch: seq<Metric>)
    requires HasModule(disk, name)
    requires AsConfigured(lib, disk, name, opts)
    requires Rules(w) && Exports(Outcome(named, target, opts, w), ch)
    ensures ProbeSuccess(true) in ch <==> Deserved(disk.knownHosts[KnownHostsPath(disk, name)], target, w)
  {
    var f := disk.knownHosts[KnownHostsPath(disk, name)];
    SuccessMeans(named, target, opts, w);
    VerifiedIsVouchedFor(f, target, opts, w.events);
    SuccessIsExported(Outcome(named, target, opts, w), ch);
  }

  /** With options as configured, the host key's gauge is 1 exactly when the configured known_hosts file vouches for the first key. */
  lemma VerifiedIsVouched(lib: Library, disk: Disk, name: string, named: bool, target: string,
                          opts: Options, w: World, ch: seq<Metric>)
    requires HasModule(disk, name)
    requires AsConfigured(lib, disk, name, opts)
    requires Exports(Outcome(named, target, opts, w), ch)
    ensures HostKeyVerifySuccess(true) in ch
       <==> w.dialError.None?
            && VouchesForFirst(disk.knownHosts[KnownHostsPath(disk, name)], target, w.events)
  {
    VerifiedIsVouchedFor(disk.knownHosts[KnownHostsPath(disk, name)], target, opts, w.events);
    VerifiedIsFirst(target, opts, w.events);
    VerifiedIsExported(Outcome(named, target, opts, w), ch);
  }

  /**
   * A scrape of `target` says by the file `f` what it should: the host key's gauge is 1
   * exactly when `f` vouches for the first key of a connection, success exactly when it is
   * deserved, and for a first key that `f` does not vouch for there is the reason `f` has.
   */
  ghost predicate TruthfulScrape(f: KnownHosts.File, target: string, w: World, ch: seq<Metric>) {
    && (HostKeyVerifySuccess(true) in ch <==> w.dialError.None? && VouchesForFirst(f, target, w.events))
    && (Rules(w) ==> (ProbeSuccess(true) in ch <==> Deserved(f, target, w)))
    && forall j: nat :: w.dialError.None? && j < |w.events| && w.events[j].HostKeyOffered? && !Offered(w.events[..j])
                        && !f.Vouches(target, w.events[j].key) ==>
                          ErrorInfo(KeyExchange, Some(f.Refusal(target, w.events[j].key))) in ch
  }

  lemma ScrapeIsTruthful(lib: Library, disk: Disk, name: string, named: bool, target: string,
                         opts: Options, w: World, ch: seq<Metric>)
    requires HasModule(disk, name)
    requires AsConfigured(lib, disk, name, opts)
    requires Exports(Outcome(named, target, opts, w), ch)
    ensures TruthfulScrape(disk.knownHosts[KnownHostsPath(disk, name)], target, w, ch)
  {
    VerifiedIsVouched(lib, disk, name, named, target, opts, w, ch);
    if Rules(w) {
      SuccessIsDeserved(lib, disk, name, named, target, opts, w, ch);
    }
    var f := disk.knownHosts[KnownHostsPath(disk, name)];
    forall j: nat | w.dialError.None? && j < |w.events| && w.events[j].HostKeyOffered? && !Offered(w.events[..j])
                    && !f.Vouches(target, w.events[j].key)
      ensures ErrorInfo(KeyExchange, Some(f.Refusal(target, w.events[j].key))) in ch
    {
      Samples.RefusalSample(named, target, opts, w, ch, f, j);
    }
  }

  /** The samples of a probe started as `launch`, in the world `w`. */
  ghost predicate Scraped(lib: Library, launch: Serving.Launch, w: World, ch: seq<Metric>) {
    Exports(Outcome(IsHostname(lib.parse, launch.target), launch.target, launch.options, w), ch)
  }

  ghost predicate Truthful(lib: Library, f: KnownHosts.File, launch: Serving.Launch) {
    forall w: World, ch: seq<Metric> :: Scraped(lib, launch, w, ch) ==> TruthfulScrape(f, launch.target, w, ch)
  }

  lemma ConfiguredIsTruthful(lib: Library, disk: Disk, name: string, launch: Serving.Launch)
    requires HasModule(disk, name)
    requires AsConfigured(lib, disk, name, launch.options)
    ensures Truthful(lib, disk.knownHosts[KnownHostsPath(disk, name)], launch)
  {
    forall w: World, ch: seq<Metric> | Scraped(lib, launch, w, ch)
      ensures TruthfulScrape(disk.knownHosts[KnownHostsPath(disk, name)], launch.target, w, ch)
    {
      ScrapeIsTruthful(lib, disk, name, IsHostname(lib.parse, launch.target), launch.target, launch.options, w, ch);
    }
  }

  /**
   * The exporter from end to end: for every probe started, in every interleaving of requests
   * and reloads and whatever the server does, the host key's gauge is 1 exactly if the first
   * key the server offers is vouched for, as one of the dialled target, by the known_hosts
   * file of the module that the request names, as the files were when the modules its request
   * found live were loaded; and success is scraped exactly if the transport got ready too.
   */
  lemma SuccessIsVouchedFor(lib: Library, flag: bool, limit: nat, r: Serving.Run, i: nat, name: string)
    returns (k: nat, j: nat)
    requires Serving.IsRun(Serving.Exporter(lib, flag, limit), r) && i < |r.steps| && r.steps[i].StartProbe?
    requires r.steps[i].id in r.states[i].requests && IsFor(r.states[i].requests[r.steps[i].id].query, name)
    ensures var id := r.steps[i].id;
            && id in r.states[i + 1].requests && r.states[i + 1].requests[id].pc.Probing?
            && k <= j < i
            && r.steps[j] == Serving.Snapshot(id)
            && Loaded(lib, r.states[k].disk, flag) == Some(r.states[j].service.live)
            && var disk := r.states[k].disk;
               && HasModule(disk, name)
               && KnownHostsPath(disk, name) in disk.knownHosts
               && Truthful(lib, disk.knownHosts[KnownHostsPath(disk, name)], Serving.Started(r, i + 1, id))
  {
    k, j := Serving.ProbesAreAuthorised(lib, flag, limit, r, i, name);
    ConfiguredIsTruthful(lib, r.states[k].disk, name, Serving.Started(r, i + 1, r.steps[i].id));
  }
}
