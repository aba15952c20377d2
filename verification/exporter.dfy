/** `Exporter`: builds the pool of workers and dispatches each received
    line to an idle worker, dropping it when none is idle. The goroutines
    of `Run` are sequentialised: a line's arrival and a worker's completion
    are separate steps, and the events of both go to one exposer log. */
module Exporter {
  import opened Wrappers
  import opened Patterns
  import opened Subnets
  import opened Fields
  import opened LruCache
  import opened Config
  import opened Metrics
  import opened Worker

  /** The error `NewExporter` returns when no source is configured. */
  const NoSourcesError: string := "nothing to parse and export, specify at least one source\n"

  /** The runtime panic of a pool channel made with a negative capacity. */
  const NegativePoolPanic: string := "makechan: size out of range"

  /** The dispatcher: the shared worker configuration, the pool's capacity,
      how many workers sit idle in it, the lines leased workers are still
      processing, the shared user-agent cache, everything exposed so far,
      and whether the dispatch loop is still reading lines. */
  datatype Dispatcher<!N> = Dispatcher(
    worker: ExportWorker<N>,
    capacity: nat,
    idle: nat,
    inFlight: seq<LogLine>,
    cache: Cache<LabelMap>,
    exposed: seq<Event>,
    running: bool)

  /** How many events of `events` are the counter `name` of `host`. */
  function Tally(events: seq<Event>, name: MetricName, host: string): nat {
    CountOf(events, name, [host])
  }

  /** How many in-flight lines came from `host`. */
  function InFlightFor(lines: seq<LogLine>, host: string): nat {
    if |lines| == 0 then 0
    else (if lines[0].nginxHost == host then 1 else 0) + InFlightFor(lines[1..], host)
  }

  /** Per host, every received line has been dropped, processed, or is
      being processed. */
  predicate Balanced<N>(d: Dispatcher<N>, host: string) {
    Tally(d.exposed, LogsTotal, host) ==
      Tally(d.exposed, LogsDroppedTotal, host) + Tally(d.exposed, NginxRequestsTotal, host)
      + InFlightFor(d.inFlight, host)
  }

  /** The dispatcher's invariant: no worker is lost or duplicated, the cache
      keeps its own invariant, and every host's counters balance. */
  ghost predicate Inv<N>(d: Dispatcher<N>) {
    && d.idle + |d.inFlight| == d.capacity
    && Valid(d.cache)
    && forall host :: Balanced(d, host)
  }

  /** `NewExporter`: refuses a configuration without sources, then fills a
      pool of `ExportWorkers` idle workers that share the configuration and
      the cache. A negative worker count makes the pool's channel panic. */
  function NewExporter<N>(
    cfg: Config,
    logLineParser: (string, string) -> Result<FieldMap, string>,
    userAgentParser: string -> Client,
    engine: Engine,
    netOps: NetOps<N>,
    parseFloat: string -> Result<real, string>,
    cache: Cache<LabelMap>): (r: Result<Dispatcher<N>, string>)
    requires Valid(cache)
    ensures r.Failure? <==> |cfg.sources| == 0 || cfg.global.exportWorkers < 0
    ensures |cfg.sources| == 0 ==> r == Failure(NoSourcesError)
    ensures |cfg.sources| > 0 && cfg.global.exportWorkers < 0 ==> r == Failure(NegativePoolPanic)
    ensures r.Success? ==>
      && Inv(r.value)
      && r.value.capacity == r.value.idle == cfg.global.exportWorkers
      && r.value.inFlight == [] && r.value.exposed == [] && r.value.running
      && r.value.cache == cache
      && r.value.worker.sources == cfg.sources
      && r.value.worker.internalSubnets == cfg.global.internalSubnets
      && r.value.worker.userAgentSettings == cfg.global.userAgentReplacementSettings
      && r.value.worker.requestUriSettings == cfg.global.requestUriReplacementSettings
      && r.value.worker.hosts == cfg.global.hosts
  {
    if |cfg.sources| == 0 then Failure(NoSourcesError)
    else if cfg.global.exportWorkers < 0 then Failure(NegativePoolPanic)
    else
      var worker := ExportWorker(
        logLineParser, userAgentParser, engine, netOps, parseFloat,
        cfg.global.internalSubnets, cfg.sources,
        cfg.global.userAgentReplacementSettings,
        cfg.global.requestUriReplacementSettings,
        cfg.global.hosts);
      Success(Dispatcher(worker, cfg.global.exportWorkers, cfg.global.exportWorkers, [], cache, [], true))
  }

  /** Whether an arriving line is leased to a worker: the loop is running,
      the cancellation case was not the one selected, and a worker is idle. */
  predicate Leases<N>(d: Dispatcher<N>, cancelled: bool) {
    d.running && !cancelled && d.idle > 0
  }

  lemma TallyAppend(a: seq<Event>, b: seq<Event>, name: MetricName)
    ensures forall host :: (Tally(a + b, name, host) == Tally(a, name, host) + Tally(b, name, host))
  {
    forall host ensures Tally(a + b, name, host) == Tally(a, name, host) + Tally(b, name, host) {
      CountOfAppend(a, b, name, [host]);
    }
  }

  lemma TallyOfCounter(name: MetricName, lineHost: string, counted: MetricName)
    ensures forall host :: (Tally([HostCounter(name, lineHost)], counted, host) ==
      if name == counted && host == lineHost then 1 else 0)
  {
    forall host ensures Tally([HostCounter(name, lineHost)], counted, host) ==
      if name == counted && host == lineHost then 1 else 0
    {
      var e := HostCounter(name, lineHost);
      assert [e][1..] == [];
      assert CountOf([e], counted, [host]) == (if e.name == counted && e.labels == [host] then 1 else 0) + CountOf([], counted, [host]);
      assert e.labels == [host] <==> lineHost == host by {
        if e.labels == [host] { assert e.labels[0] == [host][0]; }
      }
    }
  }

  /** One line read by the dispatch loop. `cancelled` says that the
      context's cancellation case was the one selected; the loop then
      returns without counting the line, and reads nothing more. Otherwise
      the line never waits: it goes to an idle worker or is counted as
      dropped, and in both cases is counted as received. */
  function Arrive<N>(d: Dispatcher<N>, line: LogLine, cancelled: bool): (r: Dispatcher<N>)
    ensures r.worker == d.worker && r.capacity == d.capacity && r.cache == d.cache
    ensures r.running == (d.running && !cancelled)
    ensures Leases(d, cancelled) ==> r.idle == d.idle - 1 && r.inFlight == d.inFlight + [line]
    ensures !Leases(d, cancelled) ==> r.idle == d.idle && r.inFlight == d.inFlight
    ensures forall host :: (Tally(r.exposed, LogsTotal, host) ==
      Tally(d.exposed, LogsTotal, host) + (if r.running && host == line.nginxHost then 1 else 0))
    ensures forall host :: (Tally(r.exposed, LogsDroppedTotal, host) ==
      Tally(d.exposed, LogsDroppedTotal, host)
        + (if r.running && d.idle == 0 && host == line.nginxHost then 1 else 0))
    ensures forall host :: Tally(r.exposed, NginxRequestsTotal, host) == Tally(d.exposed, NginxRequestsTotal, host)
    ensures |r.exposed| >= |d.exposed| && r.exposed[..|d.exposed|] == d.exposed
  {
    var received := [HostCounter(LogsTotal, line.nginxHost)];
    var dropped := [HostCounter(LogsDroppedTotal, line.nginxHost)];
    TallyOfCounter(LogsTotal, line.nginxHost, LogsTotal);
    TallyOfCounter(LogsTotal, line.nginxHost, LogsDroppedTotal);
    TallyOfCounter(LogsTotal, line.nginxHost, NginxRequestsTotal);
    TallyOfCounter(LogsDroppedTotal, line.nginxHost, LogsTotal);
    TallyOfCounter(LogsDroppedTotal, line.nginxHost, LogsDroppedTotal);
    TallyOfCounter(LogsDroppedTotal, line.nginxHost, NginxRequestsTotal);
    TallyAppend(d.exposed, received, LogsTotal);
    TallyAppend(d.exposed, received, LogsDroppedTotal);
    TallyAppend(d.exposed, received, NginxRequestsTotal);
    TallyAppend(d.exposed + dropped, received, LogsTotal);
    TallyAppend(d.exposed + dropped, received, LogsDroppedTotal);
    TallyAppend(d.exposed + dropped, received, NginxRequestsTotal);
    TallyAppend(d.exposed, dropped, LogsTotal);
    TallyAppend(d.exposed, dropped, LogsDroppedTotal);
    TallyAppend(d.exposed, dropped, NginxRequestsTotal);
    assert (d.exposed + received)[..|d.exposed|] == d.exposed;
    assert (d.exposed + dropped + received)[..|d.exposed|] == d.exposed;
    if !d.running || cancelled then d.(running := false)
    else if d.idle > 0 then
      d.(idle := d.idle - 1, inFlight := d.inFlight + [line], exposed := d.exposed + received)
    else
      d.(exposed := d.exposed + dropped + received)
  }

  /** `s` without its `k`-th element. */
  function RemoveAt(s: seq<LogLine>, k: nat): (r: seq<LogLine>)
    requires k < |s|
    ensures |r| == |s| - 1
    ensures multiset(r) + multiset{s[k]} == multiset(s)
  {
    assert s == s[..k] + [s[k]] + s[k + 1..];
    s[..k] + s[k + 1..]
  }

  lemma {:induction false} InFlightForAppend(a: seq<LogLine>, b: seq<LogLine>, host: string)
    ensures InFlightFor(a + b, host) == InFlightFor(a, host) + InFlightFor(b, host)
  {
    if |a| > 0 {
      assert (a + b)[0] == a[0];
      assert (a + b)[1..] == a[1..] + b;
      InFlightForAppend(a[1..], b, host);
    } else {
      assert a + b == b;
    }
  }

  lemma InFlightForOne(line: LogLine, host: string)
    ensures InFlightFor([line], host) == if line.nginxHost == host then 1 else 0
  {
    assert [line][1..] == [];
  }

  /** Removing the `k`-th line lowers its host's count by one. */
  lemma InFlightForRemoveAt(s: seq<LogLine>, k: nat, host: string)
    requires k < |s|
    ensures InFlightFor(RemoveAt(s, k), host) + (if s[k].nginxHost == host then 1 else 0) == InFlightFor(s, host)
  {
    assert s == s[..k] + ([s[k]] + s[k + 1..]);
    InFlightForAppend(s[..k], [s[k]] + s[k + 1..], host);
    InFlightForAppend([s[k]], s[k + 1..], host);
    InFlightForAppend(s[..k], s[k + 1..], host);
    InFlightForOne(s[k], host);
  }

  /** A leased worker finishes the `k`-th in-flight line: `Process` runs
      with the shared cache, its events are exposed, and the worker returns
      to the pool. This happens whether or not the loop still runs. */
  function Complete<N>(d: Dispatcher<N>, k: nat): (r: Dispatcher<N>)
    requires Valid(d.cache) && k < |d.inFlight|
    ensures r.worker == d.worker && r.capacity == d.capacity && r.running == d.running
    ensures r.idle == d.idle + 1
    ensures multiset(r.inFlight) + multiset{d.inFlight[k]} == multiset(d.inFlight)
    ensures Valid(r.cache) && r.cache.size == d.cache.size
    ensures forall host :: (InFlightFor(r.inFlight, host) + (if d.inFlight[k].nginxHost == host then 1 else 0) ==
      InFlightFor(d.inFlight, host))
    ensures forall host :: Tally(r.exposed, LogsTotal, host) == Tally(d.exposed, LogsTotal, host)
    ensures forall host :: Tally(r.exposed, LogsDroppedTotal, host) == Tally(d.exposed, LogsDroppedTotal, host)
    ensures forall host :: (Tally(r.exposed, NginxRequestsTotal, host) ==
      Tally(d.exposed, NginxRequestsTotal, host) + (if host == d.inFlight[k].nginxHost then 1 else 0))
    ensures |r.exposed| >= |d.exposed| && r.exposed[..|d.exposed|] == d.exposed
  {
    var line := d.inFlight[k];
    var out := Process(d.worker, d.cache, line);
    forall host
      ensures InFlightFor(RemoveAt(d.inFlight, k), host) + (if line.nginxHost == host then 1 else 0) ==
        InFlightFor(d.inFlight, host)
      ensures Tally(out.events, LogsTotal, host) == 0 && Tally(out.events, LogsDroppedTotal, host) == 0
      ensures Tally(out.events, NginxRequestsTotal, host) == if host == line.nginxHost then 1 else 0
    {
      InFlightForRemoveAt(d.inFlight, k, host);
      ProcessCounts(d.worker, d.cache, line, host);
    }
    TallyAppend(d.exposed, out.events, LogsTotal);
    TallyAppend(d.exposed, out.events, LogsDroppedTotal);
    TallyAppend(d.exposed, out.events, NginxRequestsTotal);
    assert (d.exposed + out.events)[..|d.exposed|] == d.exposed;
    d.(idle := d.idle + 1, inFlight := RemoveAt(d.inFlight, k), cache := out.cache,
       exposed := d.exposed + out.events)
  }

  /** An arrival keeps the invariant. */
  lemma ArrivePreservesInv<N>(d: Dispatcher<N>, line: LogLine, cancelled: bool)
    requires Inv(d)
    ensures Inv(Arrive(d, line, cancelled))
  {
    var r := Arrive(d, line, cancelled);
    forall host ensures Balanced(r, host) {
      assert Balanced(d, host);
      if Leases(d, cancelled) {
        InFlightForAppend(d.inFlight, [line], host);
        InFlightForOne(line, host);
      }
    }
  }

  /** A completion keeps the invariant. */
  lemma CompletePreservesInv<N>(d: Dispatcher<N>, k: nat)
    requires Inv(d) && k < |d.inFlight|
    ensures Inv(Complete(d, k))
  {
    var r := Complete(d, k);
    forall host ensures Balanced(r, host) {
      assert Balanced(d, host);
    }
  }

  /** A scheduler step: a line arrives, or the worker holding the `k`-th
      in-flight line finishes it. */
  datatype Step = Arrival(line: LogLine, cancelled: bool) | Completion(k: nat)

  /** One step; a completion naming no in-flight line is no step. */
  function Apply<N>(d: Dispatcher<N>, step: Step): (r: Dispatcher<N>)
    requires Valid(d.cache)
    ensures Valid(r.cache) && r.capacity == d.capacity
    ensures |r.exposed| >= |d.exposed| && r.exposed[..|d.exposed|] == d.exposed
  {
    match step
    case Arrival(line, cancelled) => Arrive(d, line, cancelled)
    case Completion(k) => if k < |d.inFlight| then Complete(d, k) else d
  }

  /** `Run`, as any interleaving of arrivals and completions. */
  function RunSteps<N>(d: Dispatcher<N>, steps: seq<Step>): (r: Dispatcher<N>)
    requires Valid(d.cache)
    ensures Valid(r.cache) && r.capacity == d.capacity
    ensures |r.exposed| >= |d.exposed| && r.exposed[..|d.exposed|] == d.exposed
    decreases |steps|
  {
    if |steps| == 0 then d
    else
      var next := Apply(d, steps[0]);
      assert next.exposed[..|d.exposed|] == d.exposed;
      RunSteps(next, steps[1..])
  }

  /** Whatever the interleaving, no worker is lost and every host's
      received lines are its dropped, processed and in-flight lines. */
  lemma {:induction false} RunKeepsInv<N>(d: Dispatcher<N>, steps: seq<Step>)
    requires Inv(d)
    ensures Inv(RunSteps(d, steps))
    decreases |steps|
  {
    if |steps| > 0 {
      match steps[0] {
        case Arrival(line, cancelled) => ArrivePreservesInv(d, line, cancelled);
        case Completion(k) => if k < |d.inFlight| { CompletePreservesInv(d, k); }
      }
      RunKeepsInv(Apply(d, steps[0]), steps[1..]);
    }
  }

  /** Once every leased line is finished, each host's received count is
      exactly its dropped count plus its processed count. */
  lemma SettledCounts<N>(d: Dispatcher<N>, host: string)
    requires Inv(d) && d.inFlight == []
    ensures d.idle == d.capacity
    ensures Tally(d.exposed, LogsTotal, host) ==
      Tally(d.exposed, LogsDroppedTotal, host) + Tally(d.exposed, NginxRequestsTotal, host)
  {
    assert Balanced(d, host);
  }

  /** With one worker, a second line that arrives while the first is still
      being processed is dropped; both are counted as received, and once the
      first is done the worker is idle again. */
  lemma PoolOfOne<N>(d: Dispatcher<N>, first: LogLine, second: LogLine)
    requires Inv(d) && d.running && d.capacity == 1 && d.inFlight == []
    requires first.nginxHost == second.nginxHost
    ensures var s1 := Arrive(d, first, false);
      var s2 := Arrive(s1, second, false);
      var s3 := Complete(s2, 0);
      var host := first.nginxHost;
      && s1.idle == 0 && s1.inFlight == [first]
      && s2.inFlight == [first]
      && Tally(s2.exposed, LogsDroppedTotal, host) == Tally(d.exposed, LogsDroppedTotal, host) + 1
      && Tally(s2.exposed, LogsTotal, host) == Tally(d.exposed, LogsTotal, host) + 2
      && s3.idle == 1 && s3.inFlight == []
      && Tally(s3.exposed, NginxRequestsTotal, host) == Tally(d.exposed, NginxRequestsTotal, host) + 1
  {
    var s3 := Complete(Arrive(Arrive(d, first, false), second, false), 0);
    assert |s3.inFlight| == 0;
  }

  /** A cancelled loop counts nothing more, whatever arrives. */
  lemma CancelledLoopIsSilent<N>(d: Dispatcher<N>, line: LogLine, cancelled: bool)
    requires !d.running
    ensures Arrive(d, line, cancelled) == d
  {
  }

  /** With no workers at all, every received line is dropped. */
  lemma EmptyPoolDropsEverything<N>(d: Dispatcher<N>, line: LogLine)
    requires Inv(d) && d.capacity == 0 && d.running
    ensures var r := Arrive(d, line, false);
      && r.inFlight == d.inFlight
      && Tally(r.exposed, LogsDroppedTotal, line.nginxHost) == Tally(d.exposed, LogsDroppedTotal, line.nginxHost) + 1
  {
  }
}
