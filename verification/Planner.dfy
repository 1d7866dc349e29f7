/** The solver's work plan: which worker, algorithm and population size each island gets. Averages and shares are exact
    reals. */
module Planner {
  import opened Common
  import opened NumberUtils
  import opened WorkerRepo

  datatype Strategy = AllIslandsEqual | ByPerformance

  datatype Algorithm = Algorithm(name: string, settings: string)

  datatype PlanEntry = PlanEntry(size: nat, cycleCount: nat, worker: WorkerId, algorithm: Algorithm)

  // A worker chosen for an island, and the average it was chosen by.
  datatype Choice = Choice(worker: WorkerId, algorithm: Algorithm, metric: real)

  type Records = map<WorkerId, WorkerInfo>

  function Average(s: Stats): (r: real)
    ensures r >= 0.0
  {
    SafeDivide(s.processed, s.workTime)
  }

  function TotalAverage(info: WorkerInfo): real { Average(info.total) }

  function AlgorithmAverage(info: WorkerInfo, name: string): real
  {
    if name in info.byAlgorithm then Average(info.byAlgorithm[name]) else 0.0
  }

  /** An average is a rate: times the time it is the amount. Without time it is 0. */
  lemma AverageIsRate(s: Stats)
    ensures s.workTime > 0 ==> Average(s) * s.workTime as real == s.processed as real
    ensures s.workTime == 0 ==> Average(s) == 0.0
  {
  }

  /** a has at least the rate of b, a factor aside, in whole numbers. */
  predicate AtLeast(factor: nat, a: Stats, b: Stats)
  {
    if b.workTime == 0 then true
    else if a.workTime == 0 then b.processed == 0
    else b.processed * a.workTime <= factor * a.processed * b.workTime
  }

  lemma RateOrder(factor: nat, a: Stats, b: Stats)
    ensures Average(b) <= factor as real * Average(a) <==> AtLeast(factor, a, b)
  {
    AverageIsRate(a);
    AverageIsRate(b);
    if a.workTime > 0 && b.workTime > 0 {
      CrossMultiply(Average(b), factor as real * Average(a), b.workTime as real, a.workTime as real);
      RegroupProducts(factor, a, b);
    } else if b.workTime > 0 {
      ZeroRate(Average(b), b.workTime as real);
    }
    hide Average;
  }

  lemma ZeroRate(x: real, t: real)
    requires x >= 0.0 && t > 0.0
    ensures x <= 0.0 <==> x * t == 0.0
  {
  }

  lemma CrossMultiply(x: real, y: real, t: real, u: real)
    requires t > 0.0 && u > 0.0
    ensures x <= y <==> (x * t) * u <= (y * u) * t
  {
    assert (y * u) * t - (x * t) * u == (y - x) * (t * u);
  }

  lemma RegroupProducts(factor: nat, a: Stats, b: Stats)
    ensures (factor as real * Average(a) * a.workTime as real) == factor as real * (Average(a) * a.workTime as real)
    ensures (b.processed as real) * (a.workTime as real) == (b.processed * a.workTime) as real
    ensures (factor as real * a.processed as real) * (b.workTime as real)
         == (factor * a.processed * b.workTime) as real
  {
  }

  /** The choice in the counters themselves: either, under the algorithm's name, no free worker has a better rate, and
      in total none has more than twice that rate; or, in total, no free worker has a better rate, and under the
      algorithm's name none has half of it. */
  lemma BestFitInCounters(free: set<WorkerId>, records: Records, name: string, w: WorkerId, metric: real)
    requires free <= records.Keys && BestFit(free, records, name, w, metric)
    ensures || (forall v <- free :: AtLeast(1, UnderName(records[w], name), UnderName(records[v], name))
                                    && AtLeast(2, UnderName(records[w], name), records[v].total))
            || (forall v <- free :: AtLeast(1, records[w].total, records[v].total)
                                    && !AtLeast(2, UnderName(records[v], name), records[w].total))
  {
    if metric == AlgorithmAverage(records[w], name) {
      forall v <- free
        ensures AtLeast(1, UnderName(records[w], name), UnderName(records[v], name))
        ensures AtLeast(2, UnderName(records[w], name), records[v].total)
      {
        NamedAverage(records[w], name);
        NamedAverage(records[v], name);
        RateOrder(1, UnderName(records[w], name), UnderName(records[v], name));
        RateOrder(2, UnderName(records[w], name), records[v].total);
        hide Average, UnderName, AlgorithmAverage, AtLeast;
      }
    } else {
      forall v <- free
        ensures AtLeast(1, records[w].total, records[v].total)
        ensures !AtLeast(2, UnderName(records[v], name), records[w].total)
      {
        NamedAverage(records[v], name);
        RateOrder(1, records[w].total, records[v].total);
        RateOrder(2, UnderName(records[v], name), records[w].total);
        hide Average, UnderName, AlgorithmAverage, AtLeast;
      }
    }
  }

  lemma NamedAverage(info: WorkerInfo, name: string)
    ensures AlgorithmAverage(info, name) == Average(UnderName(info, name))
  {
  }

  /** The worker for an island among those still unassigned: the best for the algorithm, unless the best in total is
      more than twice as good. */
  ghost predicate BestFit(free: set<WorkerId>, records: Records, name: string, w: WorkerId, metric: real)
    requires free <= records.Keys
  {
    && w in free
    && (forall v <- free :: AlgorithmAverage(records[v], name) <= metric && TotalAverage(records[v]) <= 2.0 * metric)
    && (metric == AlgorithmAverage(records[w], name)
        || (metric == TotalAverage(records[w])
            && forall v <- free :: TotalAverage(records[v]) <= metric
                                   && 2.0 * AlgorithmAverage(records[v], name) < metric))
  }

  // The best worker in total and the best for the algorithm, over the workers in any order.
  method FindBest(free: set<WorkerId>, repo: WorkerInfoRepository, name: string)
    returns (bestTotalAvg: real, bestTotalWorker: WorkerId, bestAlgoAvg: real, bestAlgoWorker: WorkerId)
    requires free <= repo.workerRecords.Keys && free != {}
    ensures bestTotalWorker in free && bestTotalAvg == TotalAverage(repo.workerRecords[bestTotalWorker])
    ensures bestAlgoWorker in free && bestAlgoAvg == AlgorithmAverage(repo.workerRecords[bestAlgoWorker], name)
    ensures forall v <- free :: TotalAverage(repo.workerRecords[v]) <= bestTotalAvg
                                && AlgorithmAverage(repo.workerRecords[v], name) <= bestAlgoAvg
  {
    ghost var records := repo.workerRecords;
    bestTotalAvg, bestTotalWorker, bestAlgoAvg, bestAlgoWorker := 0.0, "", 0.0, "";
    var rest := free;
    while rest != {}
      invariant rest <= free
      invariant if rest == free then bestTotalAvg == bestAlgoAvg == 0.0
                else bestTotalWorker in free && bestTotalAvg == TotalAverage(records[bestTotalWorker])
                     && bestAlgoWorker in free && bestAlgoAvg == AlgorithmAverage(records[bestAlgoWorker], name)
      invariant forall v <- free - rest :: TotalAverage(records[v]) <= bestTotalAvg
                                           && AlgorithmAverage(records[v], name) <= bestAlgoAvg
    {
      var w :| w in rest;
      rest := rest - {w};
      var wInfo := repo.GetWorkerInfo(w);
      var wTotalAvg := TotalAverage(wInfo.value);
      var wAlgoAvg := AlgorithmAverage(wInfo.value, name);
      if wTotalAvg >= bestTotalAvg {
        bestTotalAvg, bestTotalWorker := wTotalAvg, w;
      }
      if wAlgoAvg >= bestAlgoAvg {
        bestAlgoAvg, bestAlgoWorker := wAlgoAvg, w;
      }
    }
    assert free - rest == free;
  }

  method ChooseWorker(free: set<WorkerId>, repo: WorkerInfoRepository, name: string)
    returns (w: WorkerId, metric: real)
    requires free <= repo.workerRecords.Keys && free != {}
    ensures BestFit(free, repo.workerRecords, name, w, metric) && w in free
  {
    var bestTotalAvg, bestTotalWorker, bestAlgoAvg, bestAlgoWorker := FindBest(free, repo, name);
    var preferTotal := bestTotalAvg > 2.0 * bestAlgoAvg;
    w := if preferTotal then bestTotalWorker else bestAlgoWorker;
    metric := if preferTotal then bestTotalAvg else bestAlgoAvg;
  }

  // Algorithms in turn: the one at next, or the first again past the end.
  method NextAlgorithm(algorithms: seq<Algorithm>, next: nat, ghost i: nat) returns (a: Algorithm, next': nat)
    requires |algorithms| > 0 && next <= |algorithms|
    requires next % |algorithms| == i % |algorithms|
    ensures a == algorithms[i % |algorithms|]
    ensures next' <= |algorithms| && next' % |algorithms| == (i + 1) % |algorithms|
  {
    ghost var k := |algorithms|;
    var p := if next == |algorithms| then 0 else next;
    a := algorithms[p];
    next' := p + 1;
    Quotient(0, p, k);
    Quotient(1, 0, k);
    assert p == i % k;
    NextResidue(i, k);
  }

  lemma NextResidue(i: nat, k: nat)
    requires k > 0
    ensures (i % k + 1) % k == (i + 1) % k
  {
    var q, r := i / k, i % k;
    assert i == k * q + r;
    if r + 1 < k {
      Quotient(q, r + 1, k);
      Quotient(0, r + 1, k);
    } else {
      assert i + 1 == k * (q + 1) + 0;
      Quotient(q + 1, 0, k);
      Quotient(1, 0, k);
    }
  }

  ghost function Assigned(chosen: seq<Choice>): set<WorkerId> { set c <- chosen :: c.worker }

  /** Greedy assignment: each island in turn, with the algorithms in turn, gets the best fit of the workers no earlier
      island got. */
  ghost predicate Greedy(connected: set<WorkerId>, records: Records, algorithms: seq<Algorithm>, chosen: seq<Choice>)
    requires connected <= records.Keys && |algorithms| > 0
  {
    forall i :: 0 <= i < |chosen| ==>
      && chosen[i].algorithm == algorithms[i % |algorithms|]
      && BestFit(connected - Assigned(chosen[..i]), records, chosen[i].algorithm.name, chosen[i].worker, chosen[i].metric)
  }

  method AssignWorkers(connected: set<WorkerId>, repo: WorkerInfoRepository, algorithms: seq<Algorithm>, n: nat)
    returns (chosen: seq<Choice>)
    requires connected <= repo.workerRecords.Keys && (n > 0 ==> |algorithms| > 0) && n <= |connected|
    ensures |chosen| == n && (n > 0 ==> Greedy(connected, repo.workerRecords, algorithms, chosen))
  {
    hide BestFit, Greedy, Assigned;
    ghost var records := repo.workerRecords;
    chosen := [];
    var free := connected;
    var next: nat := 0;
    NothingChosen(connected, records, algorithms);
    for i := 0 to n
      invariant |chosen| == i && free == connected - Assigned(chosen) && |free| == |connected| - i
      invariant n > 0 ==> next <= |algorithms| && next % |algorithms| == i % |algorithms|
      invariant n > 0 ==> Greedy(connected, records, algorithms, chosen)
    {
      assert free != {};
      var algorithm;
      algorithm, next := NextAlgorithm(algorithms, next, i);
      var w, metric := ChooseWorker(free, repo, algorithm.name);
      ghost var before := chosen;
      chosen := chosen + [Choice(w, algorithm, metric)];
      free := free - {w};
      GreedyExtends(connected, records, algorithms, before, chosen[i]);
    }
  }

  lemma NothingChosen(connected: set<WorkerId>, records: Records, algorithms: seq<Algorithm>)
    requires connected <= records.Keys
    ensures connected - Assigned([]) == connected
    ensures |algorithms| > 0 ==> Greedy(connected, records, algorithms, [])
  {
  }

  lemma GreedyExtends(connected: set<WorkerId>, records: Records, algorithms: seq<Algorithm>, before: seq<Choice>,
                      c: Choice)
    requires connected <= records.Keys && |algorithms| > 0 && Greedy(connected, records, algorithms, before)
    requires c.algorithm == algorithms[|before| % |algorithms|]
    requires BestFit(connected - Assigned(before), records, c.algorithm.name, c.worker, c.metric)
    ensures Greedy(connected, records, algorithms, before + [c])
    ensures connected - Assigned(before + [c]) == connected - Assigned(before) - {c.worker}
  {
    hide BestFit, Assigned;
    AssignedExtends(before, c);
    var chosen := before + [c];
    forall i | 0 <= i < |chosen|
      ensures chosen[i].algorithm == algorithms[i % |algorithms|]
      ensures BestFit(connected - Assigned(chosen[..i]), records, chosen[i].algorithm.name, chosen[i].worker,
                      chosen[i].metric)
    {
      assert chosen[..i] == before[..i];
      assert before[..|before|] == before;
    }
  }

  lemma AssignedExtends(before: seq<Choice>, c: Choice)
    ensures Assigned(before + [c]) == Assigned(before) + {c.worker}
  {
    assert c in before + [c];
  }

  /** The chosen workers are connected and pairwise distinct. */
  lemma ChosenAreDistinct(connected: set<WorkerId>, records: Records, algorithms: seq<Algorithm>, chosen: seq<Choice>,
                          i: nat, j: nat)
    requires connected <= records.Keys && |algorithms| > 0 && Greedy(connected, records, algorithms, chosen)
    requires i < j < |chosen|
    ensures chosen[i].worker in connected && chosen[j].worker in connected && chosen[i].worker != chosen[j].worker
  {
    assert chosen[..j][i] == chosen[i];
    assert chosen[i] in chosen[..j];
  }

  ghost function Sum(s: seq<real>): real
  {
    if s == [] then 0.0 else Sum(s[..|s| - 1]) + s[|s| - 1]
  }

  function Metrics(chosen: seq<Choice>): seq<real>
  {
    seq(|chosen|, i requires 0 <= i < |chosen| => chosen[i].metric)
  }

  function Ratio(a: real, b: real): real
    requires b != 0.0
  {
    a / b
  }

  // A worker's share of the whole population.
  function Fraction(metric: real, total: real, n: nat): real
    requires n > 0
  {
    if total > 0.0 then Ratio(metric, total) else Ratio(1.0, n as real)
  }

  function ShareSize(populationSize: nat, fraction: real): nat
    requires fraction >= 0.0
  {
    ShareNotNegative(populationSize as real, fraction);
    (populationSize as real * fraction).Floor
  }

  lemma ShareNotNegative(a: real, b: real)
    requires a >= 0.0 && b >= 0.0
    ensures a * b >= 0.0
  {
  }

  ghost function SumSizes(plan: seq<PlanEntry>): nat
  {
    if plan == [] then 0 else SumSizes(plan[..|plan| - 1]) + plan[|plan| - 1].size
  }

  /** Each size is a multiple of 4 and at least the minimum; all together they miss the population asked for by less
      than one individual an island, and exceed it by at most the minimum and 3 an island. */
  ghost predicate WellSized(plan: seq<PlanEntry>, populationSize: nat, minSize: nat)
  {
    && (forall e <- plan :: e.size % 4 == 0 && e.size >= minSize)
    && (|plan| > 0 ==> populationSize - |plan| < SumSizes(plan) <= populationSize + |plan| * (minSize + 3))
  }

  // A size made of a share: the minimum if the share is less, rounded up to a multiple of 4.
  ghost predicate Rounds(size: nat, share: nat, minSize: nat)
  {
    size % 4 == 0 && Max(minSize, share) <= size < Max(minSize, share) + 4
  }

  ghost function SumNat(s: seq<nat>): nat { if s == [] then 0 else SumNat(s[..|s| - 1]) + s[|s| - 1] }

  lemma OneMore(k: nat, x: nat)
    ensures (k + 1) * x == k * x + x
  {
  }

  lemma {:induction false} RoundedSum(plan: seq<PlanEntry>, shares: seq<nat>, minSize: nat)
    requires |shares| == |plan| && forall i :: 0 <= i < |plan| ==> Rounds(plan[i].size, shares[i], minSize)
    ensures SumNat(shares) <= SumSizes(plan) <= SumNat(shares) + |plan| * (minSize + 3)
    ensures forall e <- plan :: e.size % 4 == 0 && e.size >= minSize
  {
    if plan != [] {
      var k := |plan| - 1;
      RoundedSum(plan[..k], shares[..k], minSize);
      assert Rounds(plan[k].size, shares[k], minSize);
      OneMore(k, minSize + 3);
      assert plan == plan[..k] + [plan[k]];
    }
  }

  lemma Distribute(p: real, a: real, b: real)
    ensures p * (a + b) == p * a + p * b
  {
  }

  // Cutting each share down to a whole number loses less than one each.
  lemma {:induction false} FloorsSum(p: real, fractions: seq<real>, shares: seq<nat>)
    requires |shares| == |fractions| && forall i :: 0 <= i < |shares| ==> shares[i] == (p * fractions[i]).Floor
    ensures SumNat(shares) as real <= p * Sum(fractions)
    ensures |shares| > 0 ==> SumNat(shares) as real > p * Sum(fractions) - |shares| as real
  {
    if shares != [] {
      var k := |shares| - 1;
      FloorsSum(p, fractions[..k], shares[..k]);
      var x := p * fractions[k];
      assert shares[k] as real <= x < shares[k] as real + 1.0;
      Distribute(p, Sum(fractions[..k]), fractions[k]);
    }
  }

  // The share of each island, before rounding.
  ghost predicate Fractions(fractions: seq<real>, metrics: seq<real>, total: real)
  {
    && |fractions| == |metrics|
    && forall i :: 0 <= i < |metrics| ==> fractions[i] == Fraction(metrics[i], total, |metrics|)
  }

  lemma {:induction false} QuotientsSum(metrics: seq<real>, total: real, fractions: seq<real>)
    requires total > 0.0 && |fractions| == |metrics|
    requires forall i :: 0 <= i < |metrics| ==> fractions[i] == Ratio(metrics[i], total)
    ensures Sum(fractions) * total == Sum(metrics)
  {
    if metrics != [] {
      var k := |metrics| - 1;
      QuotientsSum(metrics[..k], total, fractions[..k]);
      var a, b := Sum(fractions[..k]), fractions[k];
      assert b * total == metrics[k];
      assert (a + b) * total == a * total + b * total;
    }
  }

  lemma {:induction false} EqualSum(x: real, fractions: seq<real>)
    requires forall i :: 0 <= i < |fractions| ==> fractions[i] == x
    ensures Sum(fractions) == |fractions| as real * x
  {
    if fractions != [] {
      var k := |fractions| - 1;
      EqualSum(x, fractions[..k]);
      assert (k as real + 1.0) * x == k as real * x + x;
    }
  }

  /** The shares make up the whole, also when all metrics are zero. */
  lemma FractionsSumToOne(metrics: seq<real>, fractions: seq<real>)
    requires |metrics| > 0 && Fractions(fractions, metrics, Sum(metrics))
    ensures Sum(fractions) == 1.0
  {
    hide Sum, Ratio;
    var total, n := Sum(metrics), |metrics|;
    if total > 0.0 {
      QuotientsSum(metrics, total, fractions);
      OnlyOne(Sum(fractions), total);
    } else {
      EqualSum(Ratio(1.0, n as real), fractions);
      EqualParts(n);
    }
  }

  lemma EqualParts(n: nat)
    requires n > 0
    ensures n as real * Ratio(1.0, n as real) == 1.0
  {
  }

  lemma OnlyOne(x: real, total: real)
    requires total > 0.0 && x * total == total
    ensures x == 1.0
  {
    assert (x - 1.0) * total == 0.0;
  }

  lemma SharesAreWellSized(plan: seq<PlanEntry>, shares: seq<nat>, fractions: seq<real>, populationSize: nat,
                           minSize: nat)
    requires |plan| == |shares| == |fractions| && (|plan| > 0 ==> Sum(fractions) == 1.0)
    requires forall i :: 0 <= i < |plan| ==> Rounds(plan[i].size, shares[i], minSize)
    requires forall i :: 0 <= i < |plan| ==> shares[i] == (populationSize as real * fractions[i]).Floor
    ensures WellSized(plan, populationSize, minSize)
  {
    hide Rounds, Sum, SumNat, SumSizes;
    RoundedSum(plan, shares, minSize);
    FloorsSum(populationSize as real, fractions, shares);
  }

  /** A size is in proportion to its metric: it is above the metric's part of the population less one, and unless the
      minimum decides at most 3 above that part. */
  ghost predicate Proportional(size: nat, metric: real, total: real, populationSize: nat, minSize: nat)
  {
    total > 0.0 ==>
      var part := populationSize as real * Ratio(metric, total);
      && size as real > part - 1.0
      && (size > minSize + 3 ==> (size - 3) as real <= part)
  }

  lemma ShareIsProportional(size: nat, metric: real, total: real, populationSize: nat, minSize: nat)
    requires total > 0.0 && metric >= 0.0
    requires Ratio(metric, total) >= 0.0 && Rounds(size, ShareSize(populationSize, Ratio(metric, total)), minSize)
    ensures Proportional(size, metric, total, populationSize, minSize)
  {
  }

  lemma FractionOrder(a: real, b: real, total: real, n: nat, populationSize: nat)
    requires 0.0 <= a <= b && n > 0
    ensures 0.0 <= Fraction(a, total, n) <= Fraction(b, total, n)
    ensures ShareSize(populationSize, Fraction(a, total, n)) <= ShareSize(populationSize, Fraction(b, total, n))
  {
    if total > 0.0 {
      assert b / total - a / total == (b - a) / total >= 0.0;
    }
    var x, y := Fraction(a, total, n), Fraction(b, total, n);
    ShareNotNegative(populationSize as real, y - x);
    Distribute(populationSize as real, x, y - x);
  }

  // The size for a metric.
  function SizeFor(metric: real, total: real, n: nat, populationSize: nat, minSize: nat): nat
    requires metric >= 0.0 && n > 0
  {
    FractionOrder(metric, metric, total, n, populationSize);
    CeilToMultiple(Max(minSize, ShareSize(populationSize, Fraction(metric, total, n))), 4)
  }

  /** A larger metric never gets a smaller population. */
  lemma LargerGetsMore(a: real, b: real, total: real, n: nat, populationSize: nat, minSize: nat)
    requires 0.0 <= a <= b && n > 0
    ensures SizeFor(a, total, n, populationSize, minSize) <= SizeFor(b, total, n, populationSize, minSize)
  {
    FractionOrder(a, b, total, n, populationSize);
    hide ShareSize, CeilToMultiple;
    CeilIsMonotone(Max(minSize, ShareSize(populationSize, Fraction(a, total, n))),
                   Max(minSize, ShareSize(populationSize, Fraction(b, total, n))), 4);
  }

  // The entry made for a choice.
  ghost predicate EntryFor(e: PlanEntry, c: Choice, total: real, n: nat, populationSize: nat, minSize: nat)
  {
    && e.worker == c.worker && e.algorithm == c.algorithm && e.cycleCount == 1
    && c.metric >= 0.0 && n > 0 && e.size == SizeFor(c.metric, total, n, populationSize, minSize)
  }

  method SizeByPerformance(chosen: seq<Choice>, populationSize: nat, minSize: nat) returns (plan: seq<PlanEntry>)
    requires forall c <- chosen :: c.metric >= 0.0
    ensures |plan| == |chosen|
    ensures forall i :: 0 <= i < |plan| ==>
              EntryFor(plan[i], chosen[i], Sum(Metrics(chosen)), |chosen|, populationSize, minSize)
  {
    hide SizeFor;
    var metrics := Metrics(chosen);
    var totalPerformance := 0.0;
    for i := 0 to |chosen|
      invariant totalPerformance == Sum(metrics[..i])
    {
      totalPerformance := totalPerformance + chosen[i].metric;
      assert metrics[..i + 1][..i] == metrics[..i];
    }
    assert metrics[..|chosen|] == metrics;
    plan := [];
    for i := 0 to |chosen|
      invariant |plan| == i
      invariant forall j :: 0 <= j < i ==>
                  EntryFor(plan[j], chosen[j], totalPerformance, |chosen|, populationSize, minSize)
    {
      var c := chosen[i];
      var size := EntrySize(c.metric, totalPerformance, |chosen|, populationSize, minSize);
      plan := plan + [PlanEntry(size, 1, c.worker, c.algorithm)];
    }
  }

  method EntrySize(metric: real, totalPerformance: real, n: nat, populationSize: nat, minSize: nat) returns (size: nat)
    requires metric >= 0.0 && n > 0
    ensures size == SizeFor(metric, totalPerformance, n, populationSize, minSize)
  {
    FractionOrder(metric, metric, totalPerformance, n, populationSize);
    var percentage: real;
    if totalPerformance > 0.0 {
      percentage := metric / totalPerformance;
    } else {
      percentage := 1.0 / n as real;
    }
    var workerPopSize := ShareSize(populationSize, percentage);
    size := Max(minSize, workerPopSize);
    size := CeilToMultiple(size, 4);
  }

  // What the plan by performance promises about the sizes.
  ghost predicate SizedByMetric(plan: seq<PlanEntry>, chosen: seq<Choice>, populationSize: nat, minSize: nat)
  {
    && |plan| == |chosen|
    && (forall i :: 0 <= i < |plan| ==>
          && plan[i].worker == chosen[i].worker && plan[i].algorithm == chosen[i].algorithm && plan[i].cycleCount == 1
          && Proportional(plan[i].size, chosen[i].metric, Sum(Metrics(chosen)), populationSize, minSize))
    && forall i, j :: 0 <= i < |plan| && 0 <= j < |plan| && chosen[i].metric <= chosen[j].metric ==>
         plan[i].size <= plan[j].size
  }

  lemma EntryRounds(e: PlanEntry, c: Choice, total: real, n: nat, populationSize: nat, minSize: nat)
    requires EntryFor(e, c, total, n, populationSize, minSize)
    ensures Fraction(c.metric, total, n) >= 0.0
    ensures Rounds(e.size, ShareSize(populationSize, Fraction(c.metric, total, n)), minSize)
    ensures Proportional(e.size, c.metric, total, populationSize, minSize)
  {
    FractionOrder(c.metric, c.metric, total, n, populationSize);
    if total > 0.0 {
      hide ShareSize, Proportional;
      ShareIsProportional(e.size, c.metric, total, populationSize, minSize);
    }
  }

  /** Sizes by performance: bounded in total, each in proportion, and never less for a larger metric. */
  lemma PerformanceSizes(plan: seq<PlanEntry>, chosen: seq<Choice>, populationSize: nat, minSize: nat)
    requires |plan| == |chosen|
    requires forall i :: 0 <= i < |plan| ==>
               EntryFor(plan[i], chosen[i], Sum(Metrics(chosen)), |chosen|, populationSize, minSize)
    ensures WellSized(plan, populationSize, minSize) && SizedByMetric(plan, chosen, populationSize, minSize)
  {
    hide SizeFor, Sum, Proportional, Rounds, WellSized, Fraction;
    var n := |plan|;
    var total := Sum(Metrics(chosen));
    forall i | 0 <= i < n
      ensures n > 0 && Fraction(chosen[i].metric, total, n) >= 0.0
      ensures Rounds(plan[i].size, ShareSize(populationSize, Fraction(chosen[i].metric, total, n)), minSize)
      ensures Proportional(plan[i].size, chosen[i].metric, total, populationSize, minSize)
    {
      EntryRounds(plan[i], chosen[i], total, n, populationSize, minSize);
    }
    var fractions := seq(n, i requires 0 <= i < n => Fraction(chosen[i].metric, total, n));
    var shares := seq(n, i requires 0 <= i < n => ShareSize(populationSize, fractions[i]));
    if n > 0 {
      FractionsSumToOne(Metrics(chosen), fractions);
    }
    SharesAreWellSized(plan, shares, fractions, populationSize, minSize);
    forall i, j | 0 <= i < n && 0 <= j < n && chosen[i].metric <= chosen[j].metric
      ensures plan[i].size <= plan[j].size
    {
      LargerGetsMore(chosen[i].metric, chosen[j].metric, total, n, populationSize, minSize);
    }
  }

  function EqualShare(populationSize: nat, n: nat): nat
    requires n > 0
  {
    populationSize / n
  }

  lemma EqualSizes(plan: seq<PlanEntry>, size: nat, populationSize: nat, minSize: nat)
    requires |plan| > 0 && forall e <- plan :: e.size == size
    requires size == CeilToMultiple(Max(minSize, EqualShare(populationSize, |plan|)), 4)
    ensures WellSized(plan, populationSize, minSize)
  {
    hide SumSizes, CeilToMultiple, EqualShare;
    EqualSizesSum(plan, size);
    EqualBounds(|plan|, size, populationSize, minSize);
  }

  lemma EqualBounds(n: nat, size: nat, populationSize: nat, minSize: nat)
    requires n > 0
    requires var q := EqualShare(populationSize, n); q <= size <= q + (minSize + 3)
    ensures populationSize - n < n * size <= populationSize + n * (minSize + 3)
  {
    var q := EqualShare(populationSize, n);
    DivisionBound(populationSize, n);
    hide EqualShare;
    MulOrder(q, size, n);
    MulOrder(size, q + (minSize + 3), n);
    Spread(n, q, minSize + 3);
  }

  lemma {:induction false} EqualSizesSum(plan: seq<PlanEntry>, size: nat)
    requires forall e <- plan :: e.size == size
    ensures SumSizes(plan) == |plan| * size
  {
    if plan != [] {
      var k := |plan| - 1;
      EqualSizesSum(plan[..k], size);
      OneMore(k, size);
    }
  }

  // All islands alike, with no preferred worker and the algorithms in turn.
  ghost predicate AllAlike(plan: seq<PlanEntry>, algorithms: seq<Algorithm>)
  {
    && (|plan| > 0 ==> |algorithms| > 0)
    && forall i :: 0 <= i < |plan| ==>
         && plan[i].size == plan[0].size && plan[i].worker == "" && plan[i].cycleCount == 1
         && plan[i].algorithm == algorithms[i % |algorithms|]
  }

  // None stands for undefined behaviour: a division by no islands, or the first of no algorithms.
  method PlanEqually(islandCount: nat, populationSize: nat, algorithms: seq<Algorithm>, minSize: nat)
    returns (r: Option<seq<PlanEntry>>)
    ensures r.None? <==> islandCount == 0 || algorithms == []
    ensures r.Some? ==>
              |r.value| == islandCount && AllAlike(r.value, algorithms) && WellSized(r.value, populationSize, minSize)
  {
    hide WellSized;
    if islandCount == 0 || algorithms == [] {
      return None;
    }
    var islandPop := Max(minSize, populationSize / islandCount);
    islandPop := CeilToMultiple(islandPop, 4);
    var plan := [];
    var next: nat := 0;
    for i := 0 to islandCount
      invariant |plan| == i && next <= |algorithms| && next % |algorithms| == i % |algorithms|
      invariant AllAlike(plan, algorithms) && forall e <- plan :: e.size == islandPop
    {
      var algorithm;
      algorithm, next := NextAlgorithm(algorithms, next, i);
      plan := plan + [PlanEntry(islandPop, 1, "", algorithm)];
    }
    EqualSizes(plan, islandPop, populationSize, minSize);
    return Some(plan);
  }

  // No plan can be made: see PlanEqually.
  predicate Undefined(strategy: Strategy, islandCount: nat, algorithms: seq<Algorithm>)
  {
    if islandCount == 0 then strategy == AllIslandsEqual else algorithms == []
  }

  /** The work plan. Equal shares without preferred workers if there are more islands than workers, or if asked for;
      else the greedy assignment, with sizes in proportion to the metrics. It is undefined exactly for no islands in
      equal shares, and for islands without an algorithm. */
  method GenerateWorkPlan(strategy: Strategy, repo: WorkerInfoRepository, islandCount: nat, populationSize: nat,
                          algorithms: seq<Algorithm>, minIslandPopSize: nat)
    returns (plan: Option<seq<PlanEntry>>, ghost chosen: seq<Choice>)
    requires Known(repo.State())
    ensures plan.None? <==> Undefined(strategy, islandCount, algorithms)
    ensures plan.Some? ==> |plan.value| == islandCount && WellSized(plan.value, populationSize, minIslandPopSize)
    ensures plan.Some? && (islandCount > |repo.connectedWorkers| || strategy == AllIslandsEqual) ==>
              AllAlike(plan.value, algorithms)
    ensures plan.Some? && islandCount <= |repo.connectedWorkers| && strategy == ByPerformance ==>
              && SizedByMetric(plan.value, chosen, populationSize, minIslandPopSize)
              && (islandCount > 0 ==> Greedy(repo.connectedWorkers, repo.workerRecords, algorithms, chosen))
  {
    hide WellSized, AllAlike, SizedByMetric, EntryFor;
    chosen := [];
    var connectedWorkers := repo.connectedWorkers;
    if islandCount > |connectedWorkers| || strategy == AllIslandsEqual {
      plan := PlanEqually(islandCount, populationSize, algorithms, minIslandPopSize);
    } else if islandCount > 0 && algorithms == [] {
      plan := None;
    } else {
      var workersPreprocessed := AssignWorkers(connectedWorkers, repo, algorithms, islandCount);
      MetricsNotNegative(connectedWorkers, repo.workerRecords, algorithms, workersPreprocessed);
      var sized := SizeByPerformance(workersPreprocessed, populationSize, minIslandPopSize);
      PerformanceSizes(sized, workersPreprocessed, populationSize, minIslandPopSize);
      plan := Some(sized);
      chosen := workersPreprocessed;
    }
  }

  lemma MetricsNotNegative(connected: set<WorkerId>, records: Records, algorithms: seq<Algorithm>, chosen: seq<Choice>)
    requires connected <= records.Keys
    requires |chosen| > 0 ==> |algorithms| > 0 && Greedy(connected, records, algorithms, chosen)
    ensures forall c <- chosen :: c.metric >= 0.0
  {
  }
}
