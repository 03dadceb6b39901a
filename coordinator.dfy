/**
 * The coordinator's bookkeeping of its workers: the set of known
 * (address, friendly name) pairs, the addresses with a cached connection
 * stub, and per-address performance metrics with the availability state
 * machine (success makes a worker available again, the third failure in a
 * row makes it unavailable and drops it from the pool). Task distribution
 * itself is `CoordinatorStrategy`; the remote calls are left out.
 */
module Coordinators {
  import opened Wrappers
  import opened KotlinNum
  import opened Text
  import opened Sorting
  import opened CoordinatorStrategy
  import opened Arith

  /** The metrics kept per worker address (the running average response time is left out). */
  datatype WorkerMetrics = WorkerMetrics(successfulTasks: int, failedTasks: int, lastResponseTime: int, isAvailable: bool)

  /** `WorkerMetrics()`: no tasks, available. */
  const FreshMetrics: WorkerMetrics := WorkerMetrics(0, 0, 0, true)

  /** The number of failures in a row that takes an available worker offline. */
  const FailureLimit: int := 3

  function AddressOf(w: Worker): string { w.0 }

  /** The addresses of a set of workers. */
  function Addresses(ws: set<Worker>): set<string>
  {
    set w | w in ws :: w.0
  }

  /** `workerPerformance.getOrPut(address) { WorkerMetrics() }`, as a value. */
  function MetricsOf(perf: map<string, WorkerMetrics>, address: string): WorkerMetrics
  {
    if address in perf then perf[address] else FreshMetrics
  }

  /**
   * The metrics after one task outcome: a success counts, records the
   * time, clears the failure streak and makes the worker available; a
   * failure extends the streak and takes an available worker offline when
   * the streak reaches the limit.
   */
  function MetricsAfter(m: WorkerMetrics, success: bool, computationTime: int): (r: WorkerMetrics)
    ensures success ==> r.isAvailable && r.failedTasks == 0 && r.lastResponseTime == computationTime
    ensures success ==> r.successfulTasks == m.successfulTasks + 1
    ensures !success ==> r.failedTasks == m.failedTasks + 1 && r.successfulTasks == m.successfulTasks
    ensures !success ==> r.lastResponseTime == m.lastResponseTime
    ensures !success ==> (r.isAvailable <==> m.isAvailable && m.failedTasks + 1 < FailureLimit)
  {
    if success then
      m.(successfulTasks := m.successfulTasks + 1, lastResponseTime := computationTime, failedTasks := 0, isAvailable := true)
    else
      var failed := m.failedTasks + 1;
      m.(failedTasks := failed, isAvailable := m.isAvailable && failed < FailureLimit)
  }

  /** The metrics after `k` failures in a row. */
  function Failures(m: WorkerMetrics, k: nat): WorkerMetrics
  {
    if k == 0 then m else MetricsAfter(Failures(m, k - 1), false, 0)
  }

  /**
   * A streak of `k` failures adds `k` to the failure count and leaves the
   * worker available exactly when it was available and the count stays
   * below the limit: once offline, further failures keep it offline.
   */
  lemma {:induction false} FailuresInARow(m: WorkerMetrics, k: nat)
    requires 0 < k
    ensures Failures(m, k).failedTasks == m.failedTasks + k
    ensures Failures(m, k).successfulTasks == m.successfulTasks
    ensures Failures(m, k).isAvailable <==> m.isAvailable && m.failedTasks + k < FailureLimit
  {
    if k > 1 {
      FailuresInARow(m, k - 1);
    }
  }

  /** A freshly registered worker survives two failures and goes offline at the third. */
  lemma ThirdFailureCutsOff()
    ensures Failures(FreshMetrics, 2).isAvailable
    ensures !Failures(FreshMetrics, 3).isAvailable
  {
    FailuresInARow(FreshMetrics, 2);
    FailuresInARow(FreshMetrics, 3);
  }

  /** What `resetState` keeps of an address's metrics: availability and failure count; new metrics elsewhere. */
  function Preserved(perf: map<string, WorkerMetrics>, address: string): (m: WorkerMetrics)
    ensures m.successfulTasks == 0 && m.lastResponseTime == 0
    ensures m.isAvailable == (address !in perf || perf[address].isAvailable)
    ensures m.failedTasks == (if address in perf then perf[address].failedTasks else 0)
  {
    var old_ := MetricsOf(perf, address);
    WorkerMetrics(0, old_.failedTasks, 0, old_.isAvailable)
  }

  /** The metrics map `resetState` rebuilds: one entry per worker address, nothing else. */
  function ResetMetrics(perf: map<string, WorkerMetrics>, ws: set<Worker>): (r: map<string, WorkerMetrics>)
    ensures r.Keys == Addresses(ws)
  {
    map a | a in Addresses(ws) :: Preserved(perf, a)
  }

  /** Resetting twice is resetting once. */
  lemma ResetIdempotent(perf: map<string, WorkerMetrics>, ws: set<Worker>)
    ensures ResetMetrics(ResetMetrics(perf, ws), ws) == ResetMetrics(perf, ws)
  {
    var once := ResetMetrics(perf, ws);
    forall a | a in Addresses(ws)
      ensures Preserved(once, a) == once[a]
    {
    }
  }

  /** A flag or streak survives a reset only for addresses still in the pool; a reset never revives a worker. */
  lemma ResetKeepsAvailability(perf: map<string, WorkerMetrics>, ws: set<Worker>, w: Worker)
    requires w in ws
    ensures w.0 in ResetMetrics(perf, ws)
    ensures ResetMetrics(perf, ws)[w.0].isAvailable <==> (w.0 !in perf || perf[w.0].isAvailable)
    ensures w.0 in perf ==> ResetMetrics(perf, ws)[w.0].failedTasks == perf[w.0].failedTasks
  {
    assert w.0 in Addresses(ws);
  }

  /** The workers whose address is not among `addresses`, in order. */
  function WithoutAddresses(ws: seq<Worker>, addresses: set<string>): (r: seq<Worker>)
    ensures forall w :: w in r <==> w in ws && w.0 !in addresses
    ensures |r| <= |ws|
    ensures (forall i, j :: 0 <= i < j < |ws| ==> ws[i] != ws[j]) ==>
      forall i, j :: 0 <= i < j < |r| ==> r[i] != r[j]
  {
    if ws == [] then []
    else
      var prev := WithoutAddresses(ws[..|ws| - 1], addresses);
      var last := ws[|ws| - 1];
      assert ws == ws[..|ws| - 1] + [last];
      if last.0 in addresses then prev else prev + [last]
  }

  /** The key `redistributeFailedTasks` sorts by: the last response time, `Long.MAX_VALUE` when unknown. */
  function LastResponseKey(perf: map<string, WorkerMetrics>, w: Worker): int
  {
    if w.0 in perf then perf[w.0].lastResponseTime else LongMax
  }

  /**
   * The workers that take over a failed worker's tasks, fastest first: the
   * available workers other than the failed address, by last response time.
   */
  function RedistributionOrder(available: seq<Worker>, failedAddress: string, perf: map<string, WorkerMetrics>)
    : (sorted: seq<Worker>)
    ensures forall w :: w in sorted <==> w in available && w.0 != failedAddress
    ensures multiset(sorted) == multiset(WithoutAddresses(available, {failedAddress}))
    ensures SortedBy(sorted, ResponseKey(perf), IntLe)
    ensures var candidates := WithoutAddresses(available, {failedAddress});
      forall t :: Ties(sorted, ResponseKey(perf), IntLe, t) == Ties(candidates, ResponseKey(perf), IntLe, t)
  {
    IntLeTotalPreorder();
    var candidates := WithoutAddresses(available, {failedAddress});
    var sorted := SortBy(candidates, ResponseKey(perf), IntLe);
    SortByStable(candidates, ResponseKey(perf), IntLe);
    assert forall w :: w in sorted <==> w in multiset(candidates);
    sorted
  }

  /** `sortedBy`'s selector: a worker's last response time. */
  function ResponseKey(perf: map<string, WorkerMetrics>): Worker -> int
  {
    w => LastResponseKey(perf, w)
  }

  /**
   * When the candidates' keys all tie (for instance, none has metrics
   * yet) the stable sort leaves them in the order they were listed.
   */
  lemma RedistributionKeepsTiedOrder(available: seq<Worker>, failedAddress: string, perf: map<string, WorkerMetrics>)
    requires forall v, w :: v in available && w in available && v.0 != failedAddress && w.0 != failedAddress ==>
      LastResponseKey(perf, v) == LastResponseKey(perf, w)
    ensures RedistributionOrder(available, failedAddress, perf) == WithoutAddresses(available, {failedAddress})
  {
    IntLeTotalPreorder();
    var candidates := WithoutAddresses(available, {failedAddress});
    assert forall i :: 0 <= i < |candidates| ==> candidates[i] in available && candidates[i].0 != failedAddress;
    SortBySorted(candidates, ResponseKey(perf), IntLe);
  }

  /**
   * The worker that gets the `index`-th task of a failed worker (round
   * robin over the redistribution order), or None when nobody else is
   * available.
   */
  function RedistributionTarget(available: seq<Worker>, failedAddress: string, perf: map<string, WorkerMetrics>, index: nat)
    : (r: Option<Worker>)
    ensures r.None? <==> forall w :: w in available ==> w.0 == failedAddress
    ensures r.Some? ==> r.value in available && r.value.0 != failedAddress
    ensures var order := RedistributionOrder(available, failedAddress, perf);
      r == if order == [] then None else Some(order[index % |order|])
  {
    var sorted := RedistributionOrder(available, failedAddress, perf);
    var r := RoundRobin(sorted, index);
    assert r.Some? ==> r.value in sorted;
    r
  }

  /** Element `index` of a cyclic walk through `s`, or None for an empty `s`. */
  function RoundRobin<T>(s: seq<T>, index: nat): Option<T>
  {
    if s == [] then None else Some(s[index % |s|])
  }

  /** A cyclic walk through `s` comes back after `|s|` steps. */
  lemma RoundRobinPeriodic<T>(s: seq<T>, index: nat)
    ensures RoundRobin(s, index + |s|) == RoundRobin(s, index)
  {
    if s != [] {
      ModShift(index, |s|);
    }
  }

  /** Round robin: task `index + n` goes where task `index` went, `n` being the number of candidates. */
  lemma RedistributionPeriodic(available: seq<Worker>, failedAddress: string, perf: map<string, WorkerMetrics>, index: nat)
    ensures var n := |RedistributionOrder(available, failedAddress, perf)|;
      RedistributionTarget(available, failedAddress, perf, index + n) == RedistributionTarget(available, failedAddress, perf, index)
  {
    RoundRobinPeriodic(RedistributionOrder(available, failedAddress, perf), index);
  }

  /** The first task goes to a candidate with the smallest last response time. */
  lemma RedistributionFastestFirst(available: seq<Worker>, failedAddress: string, perf: map<string, WorkerMetrics>, w: Worker)
    requires w in available && w.0 != failedAddress
    ensures RedistributionTarget(available, failedAddress, perf, 0).Some?
    ensures LastResponseKey(perf, RedistributionTarget(available, failedAddress, perf, 0).value) <= LastResponseKey(perf, w)
  {
    var sorted := RedistributionOrder(available, failedAddress, perf);
    assert w in sorted;
    var i :| 0 <= i < |sorted| && sorted[i] == w;
    if i > 0 {
      assert IntLe(LastResponseKey(perf, sorted[0]), LastResponseKey(perf, sorted[i]));
    }
  }

  class Coordinator {
    /** The known workers as (address, friendly name) pairs. */
    var workers: set<Worker>
    /** The addresses with a cached connection stub. */
    var stubs: set<string>
    /** `workerPerformance`: metrics by worker address. */
    var performance: map<string, WorkerMetrics>

    /** The pool starts with the coordinator itself as local worker. */
    constructor(localAddress: string, taskFriendlyName: string)
      ensures workers == {(localAddress, taskFriendlyName)}
      ensures stubs == {} && performance == map[]
    {
      workers := {(localAddress, taskFriendlyName)};
      stubs := {};
      performance := map[];
    }

    /** Some known worker has this address. */
    predicate HasAddress(address: string)
      reads this
    {
      exists w :: w in workers && w.0 == address
    }

    /** `workers.find { it.first == address }`: some worker with that address, whichever the set yields first. */
    method FindWorker(address: string) returns (found: Option<Worker>)
      ensures found.None? <==> !HasAddress(address)
      ensures found.Some? ==> found.value in workers && found.value.0 == address
    {
      if w :| w in workers && w.0 == address {
        found := Some(w);
      } else {
        found := None;
      }
    }

    /**
     * `registerWorkerInternal`: add the pair (a repeat adds nothing) and
     * start the address over with fresh metrics; reports whether the pair is new.
     */
    method RegisterWorkerInternal(address: string, friendlyName: string) returns (isNewWorker: bool)
      modifies this
      ensures isNewWorker <==> (address, friendlyName) !in old(workers)
      ensures workers == old(workers) + {(address, friendlyName)}
      ensures performance == old(performance)[address := FreshMetrics]
      ensures stubs == old(stubs)
    {
      isNewWorker := (address, friendlyName) !in workers;
      workers := workers + {(address, friendlyName)};
      performance := performance[address := FreshMetrics];
    }

    /** `registerWorker`: a request with neither address nor name is only a handshake. */
    method RegisterWorker(address: string, friendlyName: string)
      modifies this
      ensures address == "" && friendlyName == "" ==>
        workers == old(workers) && performance == old(performance)
      ensures !(address == "" && friendlyName == "") ==>
        workers == old(workers) + {(address, friendlyName)} && performance == old(performance)[address := FreshMetrics]
      ensures stubs == old(stubs)
    {
      if address == "" && friendlyName == "" {
        return;
      }
      var _ := RegisterWorkerInternal(address, friendlyName);
      performance := performance[address := FreshMetrics];
    }

    /**
     * `updateWorkerMetrics`: record the outcome; when a failure takes an
     * available worker offline, one worker with that address (if any) is
     * dropped from the pool together with the address's stub.
     */
    method UpdateWorkerMetrics(workerId: string, success: bool, computationTime: int)
      modifies this
      ensures performance == old(performance)[workerId := MetricsAfter(MetricsOf(old(performance), workerId), success, computationTime)]
      ensures var m := MetricsOf(old(performance), workerId);
        var cutOff := !success && m.isAvailable && m.failedTasks + 1 >= FailureLimit;
        if cutOff && old(HasAddress(workerId)) then
          (exists w :: w in old(workers) && w.0 == workerId && workers == old(workers) - {w}) &&
          stubs == old(stubs) - {workerId}
        else
          workers == old(workers) && stubs == old(stubs)
    {
      var metrics := MetricsOf(performance, workerId);
      var workerInfo := FindWorker(workerId);
      if success {
        metrics := metrics.(successfulTasks := metrics.successfulTasks + 1, lastResponseTime := computationTime, failedTasks := 0);
        if !metrics.isAvailable {
          metrics := metrics.(isAvailable := true);
        }
      } else {
        metrics := metrics.(failedTasks := metrics.failedTasks + 1);
        if metrics.failedTasks >= FailureLimit {
          if metrics.isAvailable {
            metrics := metrics.(isAvailable := false);
            if workerInfo.Some? {
              workers := workers - {workerInfo.value};
              stubs := stubs - {workerId};
            }
          }
        }
      }
      performance := performance[workerId := metrics];
    }

    /** `addWorker`: add the pair; reports whether it was new. */
    method AddWorker(address: string, friendlyName: string) returns (added: bool)
      modifies this
      ensures added <==> (address, friendlyName) !in old(workers)
      ensures workers == old(workers) + {(address, friendlyName)}
      ensures stubs == old(stubs) && performance == old(performance)
    {
      added := (address, friendlyName) !in workers;
      workers := workers + {(address, friendlyName)};
    }

    /**
     * `markWorkerUnavailable`: for a known address, clear its flag (when it
     * has metrics) and drop one worker with that address and the stub;
     * nothing happens for an unknown address.
     */
    method MarkWorkerUnavailable(address: string)
      modifies this
      ensures !old(HasAddress(address)) ==>
        workers == old(workers) && stubs == old(stubs) && performance == old(performance)
      ensures old(HasAddress(address)) ==>
        (exists w :: w in old(workers) && w.0 == address && workers == old(workers) - {w}) &&
        stubs == old(stubs) - {address} &&
        performance == (if address in old(performance)
                        then old(performance)[address := old(performance)[address].(isAvailable := false)]
                        else old(performance))
    {
      var workerInfo := FindWorker(address);
      if workerInfo.Some? {
        if address in performance {
          performance := performance[address := performance[address].(isAvailable := false)];
        }
        workers := workers - {workerInfo.value};
        stubs := stubs - {address};
      }
    }

    /**
     * `markWorkerAvailable`: re-add the pair only when no worker has the
     * address, and set the flag of existing metrics.
     */
    method MarkWorkerAvailable(address: string, friendlyName: string)
      modifies this
      ensures workers == if old(HasAddress(address)) then old(workers) else old(workers) + {(address, friendlyName)}
      ensures performance == (if address in old(performance)
                              then old(performance)[address := old(performance)[address].(isAvailable := true)]
                              else old(performance))
      ensures stubs == old(stubs)
      ensures HasAddress(address)
    {
      var workerInfo := FindWorker(address);
      if workerInfo.None? {
        workers := workers + {(address, friendlyName)};
      }
      assert workerInfo.Some? ==> workerInfo.value in workers;
      if address in performance {
        performance := performance[address := performance[address].(isAvailable := true)];
      }
    }

    /**
     * `resetState`: rebuild the metrics for the addresses in the pool,
     * keeping each one's availability and failure count, and forget every
     * other address.
     */
    method ResetState()
      modifies this
      ensures performance == ResetMetrics(old(performance), old(workers))
      ensures workers == old(workers) && stubs == old(stubs)
    {
      var current := performance;
      var rebuilt: map<string, WorkerMetrics> := map[];
      var rest := workers;
      while rest != {}
        invariant rest <= workers
        invariant rebuilt == ResetMetrics(current, workers - rest)
        decreases |rest|
      {
        var w :| w in rest;
        ghost var done := workers - rest;
        assert Addresses(done + {w}) == Addresses(done) + {w.0};
        assert workers - (rest - {w}) == done + {w};
        rebuilt := rebuilt[w.0 := Preserved(current, w.0)];
        rest := rest - {w};
      }
      assert workers - rest == workers;
      performance := rebuilt;
    }

    /** Workers flagged unavailable in the metrics; a worker without metrics counts as available. */
    predicate FlaggedUnavailable(w: Worker)
      reads this`performance
    {
      w.0 in performance && !performance[w.0].isAvailable
    }

    /** The pruning step of `assignTask`: drop every worker flagged unavailable. */
    method PruneUnavailable()
      modifies this
      ensures workers == set w | w in old(workers) && !old(FlaggedUnavailable(w))
      ensures performance == old(performance) && stubs == old(stubs)
    {
      var flagged := set w | w in workers && FlaggedUnavailable(w);
      var unavailable := flagged;
      ghost var original := workers;
      while unavailable != {}
        invariant unavailable <= flagged
        invariant workers == original - (flagged - unavailable)
        invariant performance == old(performance) && stubs == old(stubs)
        decreases |unavailable|
      {
        var w :| w in unavailable;
        workers := workers - {w};
        unavailable := unavailable - {w};
      }
      forall w ensures w in workers <==> w in original && !FlaggedUnavailable(w) {
        assert w in flagged <==> w in original && FlaggedUnavailable(w);
      }
    }

    /**
     * `workers.filter { isAvailable ?: true }.sortedBy { it.first }`: the
     * available workers, each once, in address order.
     */
    method AvailableWorkers() returns (list: seq<Worker>)
      ensures forall w :: w in list <==> w in workers && !FlaggedUnavailable(w)
      ensures forall i, j :: 0 <= i < j < |list| ==> list[i] != list[j]
      ensures SortedBy(list, AddressOf, StrLe)
    {
      var picked := PickAvailable();
      StrLeTotalPreorder();
      list := SortBy(picked, AddressOf, StrLe);
      DistinctPermutation(picked, list);
      assert forall w :: w in list <==> w in multiset(picked);
    }

    /** The available workers, each once, in the order the set yields them. */
    method PickAvailable() returns (picked: seq<Worker>)
      ensures forall w :: w in picked <==> w in workers && !FlaggedUnavailable(w)
      ensures forall i, j :: 0 <= i < j < |picked| ==> picked[i] != picked[j]
    {
      picked := [];
      var rest := workers;
      while rest != {}
        invariant rest <= workers
        invariant forall w :: w in picked <==> w in workers - rest && !FlaggedUnavailable(w)
        invariant forall i, j :: 0 <= i < j < |picked| ==> picked[i] != picked[j]
        invariant forall w :: w in picked ==> w !in rest
        decreases |rest|
      {
        var w :| w in rest;
        if !FlaggedUnavailable(w) {
          picked := picked + [w];
        }
        rest := rest - {w};
      }
    }

    /**
     * The first half of `assignTask`: reset the metrics, prune the
     * unavailable workers, and list the pool in address order; None where
     * the pool is empty and the default response is sent.
     */
    method PreparePool() returns (pool: Option<seq<Worker>>)
      modifies this
      ensures performance == ResetMetrics(old(performance), old(workers)) && stubs == old(stubs)
      ensures workers == set w | w in old(workers) && (w.0 !in old(performance) || old(performance)[w.0].isAvailable)
      ensures pool.None? <==> workers == {}
      ensures pool.Some? ==> forall w :: w in pool.value <==> w in workers
      ensures pool.Some? ==> SortedBy(pool.value, AddressOf, StrLe)
      ensures pool.Some? ==> forall i, j :: 0 <= i < j < |pool.value| ==> pool.value[i] != pool.value[j]
    {
      ghost var perf0, workers0 := performance, workers;
      ResetState();
      forall w | w in workers0
        ensures FlaggedUnavailable(w) <==> !(w.0 !in perf0 || perf0[w.0].isAvailable)
      {
        ResetKeepsAvailability(perf0, workers0, w);
      }
      PruneUnavailable();
      if workers == {} {
        return None;
      }
      var list := AvailableWorkers();
      var w :| w in workers;
      assert w in list;
      pool := Some(list);
    }
  }

  /** A permutation of a sequence without repeats has no repeats. */
  lemma DistinctPermutation<T>(s: seq<T>, t: seq<T>)
    requires multiset(s) == multiset(t)
    requires forall i, j :: 0 <= i < j < |s| ==> s[i] != s[j]
    ensures forall i, j :: 0 <= i < j < |t| ==> t[i] != t[j]
  {
    forall i, j | 0 <= i < j < |t|
      ensures t[i] != t[j]
    {
      if t[i] == t[j] {
        assert multiset(t)[t[i]] >= 2 by {
          assert t == t[..i] + [t[i]] + t[i + 1..j] + [t[j]] + t[j + 1..];
        }
        DistinctCount(s, t[i]);
        assert false;
      }
    }
  }

  /** In a sequence without repeats every value occurs at most once. */
  lemma {:induction false} DistinctCount<T>(s: seq<T>, x: T)
    requires forall i, j :: 0 <= i < j < |s| ==> s[i] != s[j]
    ensures multiset(s)[x] <= 1
  {
    if s != [] {
      var n := |s| - 1;
      assert s == s[..n] + [s[n]];
      DistinctCount(s[..n], x);
      if s[n] == x {
        assert x !in s[..n];
      }
    }
  }
}
