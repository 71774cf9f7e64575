/**
  The scan orchestration of scanner.py: `scan_prefix`'s rolling window over a
  thread pool, `fetch_enabled_prefixes` and `run_auto_scan`. The pool is run
  one event at a time: a scan finishes when `AwaitAny` picks it, in no
  particular order.
*/
module Dispatch {
  import opened Wrappers

  function Min(a: int, b: int): int {
    if a <= b then a else b
  }

  /** `_MAX_IP_WORKERS = int(MAX_CONCURRENT_IP_SCANS or 32)`: an unset (zero) setting means 32. */
  function MaxIpWorkers(configured: int): (r: int)
    ensures r != 0
    ensures configured != 0 ==> r == configured
    ensures r > 0 <==> configured >= 0
  {
    if configured == 0 then 32 else configured
  }

  /** One `scan_prefix` run: the hosts of the prefix and the state of its pool. */
  class PoolRun {
    const hosts: seq<string>
    const maxWorkers: nat
    var next: nat               // how many hosts have been pulled from the host iterator
    var submitted: seq<string>  // the hosts handed to the pool, in submission order
    var inFlight: set<nat>      // positions of the submitted hosts whose scan has not finished
    var completed: seq<nat>     // positions of the hosts whose scan finished, in completion order
    var load: seq<nat>          // the number of scans in flight just after each submission
    var peak: nat               // the largest number of scans ever in flight

    ghost predicate Valid()
      reads this
    {
      next <= |hosts| &&
      submitted == hosts[..next] &&
      |load| == next &&
      (forall i :: i in inFlight ==> i < next) &&
      (forall k :: 0 <= k < |completed| ==> completed[k] < next && completed[k] !in inFlight) &&
      (forall k, l :: 0 <= k < l < |completed| ==> completed[k] != completed[l]) &&
      (forall i :: 0 <= i < next ==> i in inFlight || i in completed) &&
      |inFlight| + |completed| == next &&
      |inFlight| <= peak &&
      (forall k :: 0 <= k < |load| ==> load[k] <= peak)
    }

    constructor (hosts: seq<string>, maxWorkers: nat)
      ensures Valid()
      ensures this.hosts == hosts && this.maxWorkers == maxWorkers
      ensures next == 0 && inFlight == {} && completed == [] && load == [] && peak == 0
    {
      this.hosts := hosts;
      this.maxWorkers := maxWorkers;
      next := 0;
      submitted := [];
      inFlight := {};
      completed := [];
      load := [];
      peak := 0;
    }

    /** `pool.submit(scan_ip, ip, ...)` for the next host pulled from the iterator. */
    method Submit()
      requires Valid() && next < |hosts|
      modifies this
      ensures Valid()
      ensures next == old(next) + 1 && submitted == old(submitted) + [hosts[old(next)]]
      ensures inFlight == old(inFlight) + {old(next)} && completed == old(completed)
      ensures load == old(load) + [|inFlight|]
      ensures peak == if |inFlight| > old(peak) then |inFlight| else old(peak)
    {
      inFlight := inFlight + {next};
      submitted := submitted + [hosts[next]];
      load := load + [|inFlight|];
      peak := if |inFlight| > peak then |inFlight| else peak;
      next := next + 1;
    }

    /** `next(as_completed(futures))` and `futures.pop(done)`: some scan in flight finishes. */
    method AwaitAny() returns (done: nat)
      requires Valid() && inFlight != {}
      modifies this
      ensures Valid()
      ensures done in old(inFlight) && inFlight == old(inFlight) - {done}
      ensures completed == old(completed) + [done]
      ensures next == old(next) && submitted == old(submitted) && load == old(load) && peak == old(peak)
    {
      done :| done in inFlight;
      inFlight := inFlight - {done};
      completed := completed + [done];
    }

    /** `zip(range(max_workers), it)`: the first `max_workers` hosts are submitted; the range runs out before the iterator is pulled again. */
    method FillWindow()
      requires Valid() && next == 0 && peak == 0 && maxWorkers > 0
      modifies this
      ensures Valid()
      ensures next == Min(maxWorkers, |hosts|) && |inFlight| == next
      ensures peak <= maxWorkers
      ensures forall k :: 0 <= k < next ==> load[k] == k + 1
    {
      while next < maxWorkers && next < |hosts|
        invariant Valid() && next <= maxWorkers
        invariant completed == [] && |inFlight| == next
        invariant peak <= maxWorkers
        invariant forall k :: 0 <= k < next ==> load[k] == k + 1
      {
        Submit();
      }
    }

    /** `for ip in it:` for each remaining host, one scan finishes and the host is submitted. */
    method Refill()
      requires Valid() && maxWorkers > 0 && |inFlight| <= maxWorkers && peak <= maxWorkers
      requires next < |hosts| ==> |inFlight| == maxWorkers
      requires forall k :: 0 <= k < next ==> load[k] == Min(k + 1, maxWorkers)
      modifies this
      ensures Valid() && next == |hosts| && peak <= maxWorkers
      ensures forall k :: 0 <= k < next ==> load[k] == Min(k + 1, maxWorkers)
    {
      while next < |hosts|
        invariant Valid()
        invariant |inFlight| <= maxWorkers
        invariant next < |hosts| ==> |inFlight| == maxWorkers
        invariant peak <= maxWorkers
        invariant forall k :: 0 <= k < next ==> load[k] == Min(k + 1, maxWorkers)
      {
        var _ := AwaitAny();
        Submit();
      }
    }

    /** `for _ in as_completed(futures): pass`: every scan still in flight finishes. */
    method Drain()
      requires Valid()
      modifies this
      ensures Valid() && inFlight == {}
      ensures next == old(next) && submitted == old(submitted) && load == old(load) && peak == old(peak)
    {
      while inFlight != {}
        invariant Valid()
        invariant next == old(next) && submitted == old(submitted) && load == old(load) && peak == old(peak)
        decreases |inFlight|
      {
        var _ := AwaitAny();
      }
    }

    /**
      The body of `scan_prefix` under the pool: submit the first `max_workers`
      hosts; then, for each remaining host, wait for one scan and submit the
      host; then wait for all scans still in flight.
    */
    method Run()
      requires Valid() && next == 0 && peak == 0 && maxWorkers > 0
      modifies this
      ensures Valid()
      ensures next == |hosts| && submitted == hosts && inFlight == {}
      ensures peak <= maxWorkers
      ensures forall k :: 0 <= k < |hosts| ==> load[k] == Min(k + 1, maxWorkers)
    {
      FillWindow();
      Refill();
      Drain();
    }
  }

  /** How one prefix scan ended. */
  datatype PrefixOutcome =
    | InvalidPrefix(prefix: string)  // `ip_network` raised; logged, nothing scanned
    | PoolRejected(prefix: string)   // `ThreadPoolExecutor` raised for `max_workers <= 0`; the error propagates
    | Scanned(prefix: string, submitted: seq<string>, completed: seq<nat>, load: seq<nat>, peak: nat)

  /** Every position below `n` finished exactly once. */
  predicate EachOnce(completed: seq<nat>, n: nat) {
    |completed| == n &&
    (forall k :: 0 <= k < n ==> completed[k] < n) &&
    (forall i :: 0 <= i < n ==> i in completed) &&
    (forall k, l :: 0 <= k < l < n ==> completed[k] != completed[l])
  }

  /** The k-th submission found min(k, max_workers - 1) scans already in flight: the window fills, then stays full. */
  predicate RollingWindow(load: seq<nat>, maxWorkers: nat, n: nat) {
    |load| == n && forall k :: 0 <= k < n ==> load[k] == Min(k + 1, maxWorkers)
  }

  /** What `scan_prefix` promises for `prefix`, whose hosts are `hosts` (None where it is not a prefix). */
  predicate ScanReport(o: PrefixOutcome, prefix: string, hosts: Option<seq<string>>, maxWorkers: int) {
    o.prefix == prefix &&
    match hosts
    case None => o.InvalidPrefix?
    case Some(hs) =>
      if maxWorkers <= 0 then o.PoolRejected?
      else
        o.Scanned? && o.submitted == hs && EachOnce(o.completed, |hs|) &&
        RollingWindow(o.load, maxWorkers, |hs|) && o.peak <= maxWorkers
  }

  /**
    `scan_prefix`: expand the prefix (`expand` stands for `ip_network(...).hosts()`,
    None where the prefix is invalid) and scan every host through a pool of
    `MaxIpWorkers(configured)` workers.
  */
  method ScanPrefix(prefix: string, expand: string -> Option<seq<string>>, configured: int)
    returns (outcome: PrefixOutcome)
    ensures ScanReport(outcome, prefix, expand(prefix), MaxIpWorkers(configured))
  {
    var network := expand(prefix);
    var maxWorkers := MaxIpWorkers(configured);
    if network.None? {
      return InvalidPrefix(prefix);
    }
    if maxWorkers <= 0 {
      return PoolRejected(prefix);
    }
    var hosts := network.value;
    var pool := new PoolRun(hosts, maxWorkers);
    pool.Run();
    outcome := Scanned(prefix, pool.submitted, pool.completed, pool.load, pool.peak);
  }

  /** What the store answered to one prefix query. */
  datatype Query = QueryFailed | Listed(prefixes: seq<string>)

  const BoolFilter: string := "cf_scan_enabled=True"
  const StringFilter: string := "cf_scan_enabled=true"

  predicate NonEmpty(q: Query) {
    q.Listed? && q.prefixes != []
  }

  /** `fetch_enabled_prefixes`: the boolean filter, then the string filter; the first non-empty answer, else none. */
  function FetchEnabledPrefixes(byBool: Query, byString: Query): (r: Attempted<seq<string>>)
    ensures NonEmpty(byBool) ==> r.result == byBool.prefixes && r.tried == [BoolFilter]
    ensures !NonEmpty(byBool) ==> r.tried == [BoolFilter, StringFilter]
    ensures !NonEmpty(byBool) && NonEmpty(byString) ==> r.result == byString.prefixes
    ensures !NonEmpty(byBool) && !NonEmpty(byString) ==> r.result == []
  {
    if byBool.Listed? && byBool.prefixes != [] then Attempted(byBool.prefixes, [BoolFilter])
    else if byString.Listed? && byString.prefixes != [] then Attempted(byString.prefixes, [BoolFilter, StringFilter])
    else Attempted([], [BoolFilter, StringFilter])
  }

  /**
    `run_auto_scan`: scan the enabled prefixes one after another, each to
    completion before the next; a pool error ends the run.
  */
  method RunAutoScan(byBool: Query, byString: Query, expand: string -> Option<seq<string>>, configured: int)
    returns (outcomes: seq<PrefixOutcome>)
    ensures var prefixes := FetchEnabledPrefixes(byBool, byString).result;
      |outcomes| <= |prefixes| &&
      (forall k :: 0 <= k < |outcomes| ==> ScanReport(outcomes[k], prefixes[k], expand(prefixes[k]), MaxIpWorkers(configured))) &&
      (forall k :: 0 <= k < |outcomes| - 1 ==> !outcomes[k].PoolRejected?) &&
      (|outcomes| < |prefixes| ==> |outcomes| > 0 && outcomes[|outcomes| - 1].PoolRejected?)
  {
    var prefixes := FetchEnabledPrefixes(byBool, byString).result;
    outcomes := [];
    if prefixes == [] {
      return;
    }
    var k := 0;
    while k < |prefixes|
      invariant k <= |prefixes| && |outcomes| == k
      invariant forall j :: 0 <= j < k ==> ScanReport(outcomes[j], prefixes[j], expand(prefixes[j]), MaxIpWorkers(configured))
      invariant forall j :: 0 <= j < k ==> !outcomes[j].PoolRejected?
    {
      var outcome := ScanPrefix(prefixes[k], expand, configured);
      outcomes := outcomes + [outcome];
      if outcome.PoolRejected? {
        return;
      }
      k := k + 1;
    }
  }
}
