/** Who is connected, and what each worker ever did: the repository as functions, as a class, and what its
    statistics keep. */
module WorkerRepo {
  import opened Common
  import opened Sums

  const COUNTER_SIZE: nat := 0x1_0000_0000_0000_0000

  // Counters are 64 bits wide.
  type Counter = n: nat | n < COUNTER_SIZE

  function Wrap(n: int): Counter { n % COUNTER_SIZE }

  datatype Stats = Stats(workTime: Counter, processed: Counter)

  datatype WorkerInfo = WorkerInfo(total: Stats, byAlgorithm: map<string, Stats>, lastStart: nat)

  const NEW_WORKER := WorkerInfo(Stats(0, 0), map[], 0)

  datatype Repo = Repo(connected: set<WorkerId>, records: map<WorkerId, WorkerInfo>)

  // Every connected worker has a record.
  ghost predicate Known(r: Repo) { r.connected <= r.records.Keys }

  function Lookup(r: Repo, w: WorkerId): Option<WorkerInfo>
  {
    if w in r.records then Some(r.records[w]) else None
  }

  function Joined(r: Repo, w: WorkerId): Repo
  {
    Repo(r.connected + {w}, if w in r.records then r.records else r.records[w := NEW_WORKER])
  }

  function Left(r: Repo, w: WorkerId): Repo { r.(connected := r.connected - {w}) }

  // The counters under an algorithm name; a worker without an entry counts as 0.
  function UnderName(info: WorkerInfo, name: string): Stats
  {
    if name in info.byAlgorithm then info.byAlgorithm[name] else Stats(0, 0)
  }

  // False stands for the exception thrown for a worker without a record.
  function StartedWork(r: Repo, w: WorkerId, now: nat): (Repo, bool)
  {
    if w !in r.records then (r, false)
    else (r.(records := r.records[w := r.records[w].(lastStart := now)]), true)
  }

  function Plus(s: Stats, workTime: int, processed: nat): Stats
  {
    Stats(Wrap(s.workTime + workTime), Wrap(s.processed + processed))
  }

  // Milliseconds between two readings of the clock in nanoseconds, cut towards zero; the clock may run backwards.
  function Millis(start: nat, now: nat): int
  {
    if now < start then -((start - now) / 1_000_000) else (now - start) / 1_000_000
  }

  function FinishedInfo(info: WorkerInfo, processed: nat, algorithm: string, now: nat): WorkerInfo
  {
    var workTime := Millis(info.lastStart, now);
    var before := if algorithm in info.byAlgorithm then info.byAlgorithm[algorithm] else Stats(0, 0);
    info.(total := Plus(info.total, workTime, processed),
          byAlgorithm := info.byAlgorithm[algorithm := Plus(before, workTime, processed)])
  }

  function FinishedWork(r: Repo, w: WorkerId, processed: nat, algorithm: string, now: nat): (Repo, bool)
  {
    if w !in r.records then (r, false)
    else (r.(records := r.records[w := FinishedInfo(r.records[w], processed, algorithm, now)]), true)
  }

  class WorkerInfoRepository {
    var connectedWorkers: set<WorkerId>
    var workerRecords: map<WorkerId, WorkerInfo>

    ghost function State(): Repo
      reads this
    {
      Repo(connectedWorkers, workerRecords)
    }

    // The records may come from a settings file; nobody is connected yet.
    constructor (records: map<WorkerId, WorkerInfo>)
      ensures State() == Repo({}, records)
    {
      connectedWorkers := {};
      workerRecords := records;
    }

    method WorkerJoined(w: WorkerId)
      modifies this
      ensures State() == Joined(old(State()), w)
    {
      if w !in workerRecords {
        workerRecords := workerRecords[w := NEW_WORKER];
      }
      connectedWorkers := connectedWorkers + {w};
    }

    method WorkerLeft(w: WorkerId)
      modifies this
      ensures State() == Left(old(State()), w)
    {
      connectedWorkers := connectedWorkers - {w};
    }

    method WorkerStartedWork(w: WorkerId, now: nat) returns (ok: bool)
      modifies this
      ensures (State(), ok) == StartedWork(old(State()), w, now)
    {
      if w !in workerRecords {
        return false;
      }
      workerRecords := workerRecords[w := workerRecords[w].(lastStart := now)];
      return true;
    }

    method WorkerFinishedWork(w: WorkerId, processed: nat, algorithm: string, now: nat) returns (ok: bool)
      modifies this
      ensures (State(), ok) == FinishedWork(old(State()), w, processed, algorithm, now)
    {
      if w !in workerRecords {
        return false;
      }
      var info := workerRecords[w];
      var workTime := Millis(info.lastStart, now);
      info := info.(total := Plus(info.total, workTime, processed));
      if algorithm !in info.byAlgorithm {
        info := info.(byAlgorithm := info.byAlgorithm[algorithm := Stats(0, 0)]);
      }
      info := info.(byAlgorithm := info.byAlgorithm[algorithm := Plus(info.byAlgorithm[algorithm], workTime, processed)]);
      assert info.byAlgorithm == FinishedInfo(workerRecords[w], processed, algorithm, now).byAlgorithm;
      workerRecords := workerRecords[w := info];
      return true;
    }

    method GetWorkerInfo(w: WorkerId) returns (r: Option<WorkerInfo>)
      ensures r == Lookup(State(), w)
      ensures Known(State()) && w in connectedWorkers ==> r.Some?
    {
      if w in workerRecords {
        return Some(workerRecords[w]);
      }
      return None;
    }
  }

  /** Milliseconds: the whole ones that fit between the two readings, with a minus sign if the clock ran backwards. */
  lemma WholeMilliseconds(start: nat, now: nat)
    ensures now >= start ==> 1_000_000 * Millis(start, now) <= now - start < 1_000_000 * (Millis(start, now) + 1)
    ensures Millis(start, now) == -Millis(now, start)
  {
  }

  /** Counters add up modulo 2^64. */
  lemma CountersAdd(s: Stats, workTime: int, processed: nat)
    ensures (s.workTime + workTime - Plus(s, workTime, processed).workTime) % 18_446_744_073_709_551_616 == 0
    ensures (s.processed + processed - Plus(s, workTime, processed).processed) % 18_446_744_073_709_551_616 == 0
  {
    var n, m := s.workTime + workTime, s.processed + processed;
    assert n - Wrap(n) == COUNTER_SIZE * (n / COUNTER_SIZE);
    assert m - Wrap(m) == COUNTER_SIZE * (m / COUNTER_SIZE);
    WrapShift(0, n / COUNTER_SIZE);
    WrapShift(0, m / COUNTER_SIZE);
  }

  ghost function WorkTimes(m: map<string, Stats>): map<string, nat> { map a | a in m :: m[a].workTime }

  ghost function Processed(m: map<string, Stats>): map<string, nat> { map a | a in m :: m[a].processed }

  // A worker's totals are the sums over its algorithms, as far as the counters reach.
  ghost predicate Balanced(info: WorkerInfo)
  {
    && info.total.workTime == Wrap(Total(WorkTimes(info.byAlgorithm)))
    && info.total.processed == Wrap(Total(Processed(info.byAlgorithm)))
  }

  ghost predicate AllBalanced(r: Repo) { forall w <- r.records :: Balanced(r.records[w]) }

  ghost function ProcessedBy(r: Repo): map<WorkerId, nat> { map w | w in r.records :: r.records[w].total.processed }

  // Individuals processed by all workers ever, connected or not.
  ghost function GrandTotal(r: Repo): nat { Total(ProcessedBy(r)) }

  // Wrapping once at the end is the same as wrapping in between.
  lemma WrapTwice(a: int, b: int)
    ensures Wrap(Wrap(a) + b) == Wrap(a + b)
  {
    var q := a / COUNTER_SIZE;
    assert a + b == Wrap(a) + b + COUNTER_SIZE * q;
    WrapShift(Wrap(a) + b, q);
  }

  lemma WrapShift(n: int, q: int)
    ensures Wrap(n + COUNTER_SIZE * q) == Wrap(n)
  {
    var m := n + COUNTER_SIZE * q;
    assert m == COUNTER_SIZE * (m / COUNTER_SIZE) + m % COUNTER_SIZE;
    assert n == COUNTER_SIZE * (n / COUNTER_SIZE) + n % COUNTER_SIZE;
  }

  // One summand is replaced by its wrapped sum with a gain.
  lemma WrapSummand(total: nat, old0: Counter, gain: int)
    requires old0 <= total
    ensures Wrap(total - old0 + Wrap(old0 + gain)) == Wrap(Wrap(total) + gain)
  {
    WrapTwice(total, gain);
    WrapTwice(old0 + gain, total - old0);
    assert total - old0 + (old0 + gain) == total + gain;
    hide Wrap;
  }

  lemma BalancedUpdate(m: map<string, nat>, algorithm: string, gain: int)
    requires algorithm in m ==> m[algorithm] < COUNTER_SIZE
    ensures var before := if algorithm in m then m[algorithm] else 0;
            Wrap(Total(m[algorithm := Wrap(before + gain)])) == Wrap(Wrap(Total(m)) + gain)
  {
    var before := if algorithm in m then m[algorithm] else 0;
    TotalUpdate(m, algorithm, Wrap(before + gain));
    if algorithm in m {
      TotalRemove(m, algorithm);
    }
    hide Total, Wrap;
    WrapSummand(Total(m), before, gain);
  }

  lemma FinishedBalanced(info: WorkerInfo, processed: nat, algorithm: string, now: nat)
    requires Balanced(info)
    ensures Balanced(FinishedInfo(info, processed, algorithm, now))
  {
    hide Total, Wrap, Millis;
    var info' := FinishedInfo(info, processed, algorithm, now);
    var v := info'.byAlgorithm[algorithm];
    assert WorkTimes(info'.byAlgorithm) == WorkTimes(info.byAlgorithm)[algorithm := v.workTime];
    assert Processed(info'.byAlgorithm) == Processed(info.byAlgorithm)[algorithm := v.processed];
    BalancedUpdate(WorkTimes(info.byAlgorithm), algorithm, Millis(info.lastStart, now));
    BalancedUpdate(Processed(info.byAlgorithm), algorithm, processed);
  }

  /** A total grows by a size: exactly, as long as a counter can hold it, and modulo the counters' size always. */
  ghost predicate Grows(before: nat, after: nat, size: nat)
  {
    && Wrap(after) == Wrap(before + size)
    && (before + size < COUNTER_SIZE ==> after == before + size)
  }

  lemma GrowsNot(a: nat)
    ensures Grows(a, a, 0)
  {
  }

  lemma GrowsTwice(a: nat, b: nat, c: nat, x: nat, y: nat)
    requires Grows(a, b, x) && Grows(b, c, y)
    ensures Grows(a, c, x + y)
  {
    WrapTwice(b, y);
    WrapTwice(a + x, y);
    assert a + x + y == a + (x + y);
    hide Wrap;
  }

  // What each operation does to the statistics: only finished work changes a total, and by its size.
  lemma StatsOfJoin(r: Repo, w: WorkerId)
    requires AllBalanced(r)
    ensures AllBalanced(Joined(r, w)) && GrandTotal(Joined(r, w)) == GrandTotal(r)
    ensures w in r.records ==> Joined(r, w).records[w] == r.records[w]
  {
    if w !in r.records {
      TotalEmpty<string>();
      assert WorkTimes(map[]) == map[] && Processed(map[]) == map[];
      assert ProcessedBy(Joined(r, w)) == ProcessedBy(r)[w := 0];
      TotalUpdate(ProcessedBy(r), w, 0);
    }
  }

  lemma StatsOfStart(r: Repo, w: WorkerId, now: nat)
    requires AllBalanced(r)
    ensures AllBalanced(StartedWork(r, w, now).0) && GrandTotal(StartedWork(r, w, now).0) == GrandTotal(r)
  {
    assert ProcessedBy(StartedWork(r, w, now).0) == ProcessedBy(r);
  }

  lemma StatsOfFinish(r: Repo, w: WorkerId, processed: nat, algorithm: string, now: nat)
    requires AllBalanced(r) && w in r.records
    ensures AllBalanced(FinishedWork(r, w, processed, algorithm, now).0)
    ensures Grows(GrandTotal(r), GrandTotal(FinishedWork(r, w, processed, algorithm, now).0), processed)
  {
    hide Balanced, Total, Wrap;
    var r' := FinishedWork(r, w, processed, algorithm, now).0;
    FinishedBalanced(r.records[w], processed, algorithm, now);
    var before := r.records[w].total.processed;
    var m := ProcessedBy(r);
    assert ProcessedBy(r') == m[w := Wrap(before + processed)];
    TotalUpdate(m, w, Wrap(before + processed));
    TotalRemove(m, w);
    WrapSummand(Total(m), before, processed);
    WrapTwice(Total(m), processed);
    if Total(m) + processed < COUNTER_SIZE {
      NoWrap(before + processed);
    }
  }

  lemma NoWrap(n: nat)
    requires n < COUNTER_SIZE
    ensures Wrap(n) == n
  {
  }
}
