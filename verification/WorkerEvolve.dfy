/** One piece of work at the worker: split among its islands, evolved, merged, and the best selected. */
module WorkerEvolve {
  import opened Common
  import opened PopulationTools
  import opened Protocol
  import opened Splitter

  // What the library provides: evolution of one population, and of an archipelago for a number of cycles.
  datatype Evolution = Evolution(one: Population -> Population, archipelago: (nat, seq<Population>) -> seq<Population>)

  ghost predicate SameSizes(a: seq<Population>, b: seq<Population>)
  {
    |a| == |b| && forall i :: 0 <= i < |a| ==> |a[i]| == |b[i]|
  }

  /** All that is known of evolution: it keeps the number of individuals of every population, and evaluates them. */
  ghost predicate KeepsPopulations(e: Evolution)
  {
    && (forall pop :: |e.one(pop)| == |pop|)
    && (forall cycles, pops :: SameSizes(e.archipelago(cycles, pops), pops)
                               && HaveObjective(Fs(Concat(e.archipelago(cycles, pops)))))
  }

  lemma {:induction false} SameSizesConcat(a: seq<Population>, b: seq<Population>)
    requires SameSizes(a, b)
    ensures |Concat(a)| == |Concat(b)|
  {
    if a != [] {
      SameSizesConcat(a[..|a| - 1], b[..|b| - 1]);
    }
  }

  // Neither the population's size nor the number of islands leaves anybody out of the split.
  predicate NobodyLeftOut(total: nat, minSize: nat, islandCount: nat)
    requires islandCount > 0
  {
    total % 4 == 0 || AssignedPop(BaseSize(total, minSize, islandCount), islandCount) >= total
  }

  // How the result was made: selected from the evolved pool.
  ghost predicate SelectedFrom(prob: Problem, lib: Library, pop: Population, pool: Population, idx: seq<nat>,
                               order: seq<nat>, newPop: Population)
  {
    && HaveObjective(Fs(pool)) && BestOf(prob, Fs(pool), |pop|, lib, idx, order)
    && InRange(idx, |pool|) && BuiltFrom(newPop, Xs(pool), idx, prob.fitness)
  }

  // The whole computation in the archipelago mode: the population split among the islands, the islands evolved for the
  // cycles asked for, what they hold merged into one pool, and the best of it selected.
  ghost predicate Computed(work: Work, prob: Problem, islandCount: nat, minSize: nat, lib: Library, evolution: Evolution,
                           random: (nat, nat) -> Individual, split: seq<Population>, pool: Population, idx: seq<nat>,
                           order: seq<nat>, newPop: Population)
    requires islandCount > 0
  {
    && |split| == islandCount && Filled(split, work.pop, prob.fitness, random)
    && SizesFrom(split, BaseSize(|work.pop|, minSize, islandCount),
                 Leftover(|work.pop|, BaseSize(|work.pop|, minSize, islandCount), islandCount) / 4)
    && pool == Concat(evolution.archipelago(work.cycleCount, split))
    && SelectedFrom(prob, lib, work.pop, pool, idx, order, newPop)
  }

  // Where the core count cannot be detected 8 is used.
  function IslandCount(cores: nat): (n: nat)
    ensures n > 0
  {
    if cores == 0 then 8 else cores
  }

  method ArchipelagoBasedWorker(work: Work, prob: Problem, cores: nat, minSize: nat, lib: Library, evolution: Evolution,
                                random: (nat, nat) -> Individual, fill: nat -> Individual)
    returns (newPop: Population, ghost split: seq<Population>, ghost pool: Population, ghost idx: seq<nat>,
             ghost order: seq<nat>)
    requires OrdersAll(lib) && KeepsPopulations(evolution)
    ensures Computed(work, prob, if cores == 0 then 8 else cores, minSize, lib, evolution, random, split, pool, idx, order,
                     newPop)
    ensures pool != []
    ensures |pool| >= |work.pop| <==> NobodyLeftOut(|work.pop|, minSize, IslandCount(cores))
  {
    hide OrdersAll, BestOf, BuiltFrom, Filled, SizesFrom, BaseSize, Leftover, Concat, HaveObjective, SameSizes;
    var islandCount := cores;
    if islandCount == 0 {
      islandCount := 8;
    }
    var islandPops := Split(work.pop, islandCount, minSize, prob.fitness, random);
    split := islandPops.value;
    PoolSize(work.pop, minSize, split);
    var archi := evolution.archipelago(work.cycleCount, islandPops.value);
    SameSizesConcat(archi, split);
    pool := Concat(archi);
    var allPopulations, allFitnesses := MergePopulations(archi);
    var selected;
    selected, idx, order := SelectBestIntoNewPopulation(prob, allPopulations, allFitnesses, |work.pop|, lib, fill);
    newPop := selected.value;
  }

  lemma PoolSize(pop: Population, minSize: nat, pops: seq<Population>)
    requires |pops| > 0
    requires var base := BaseSize(|pop|, minSize, |pops|);
             SizesFrom(pops, base, Leftover(|pop|, base, |pops|) / 4)
    ensures Concat(pops) != []
    ensures |Concat(pops)| >= |pop| <==> NobodyLeftOut(|pop|, minSize, |pops|)
  {
    AllCopiedIff(pop, minSize, pops);
    SplitArithmetic(pop, minSize, pops);
    assert pops[0] != [];
    ConcatExtends(pops[..|pops| - 1], pops[|pops| - 1]);
    assert pops[..|pops| - 1] + [pops[|pops| - 1]] == pops;
    hide BaseSize, Leftover, SizesFrom, Concat, AssignedPop;
  }

  /** The worker gives back as many individuals as it got, taken from distinct places of the evolved pool, exactly
      when the split leaves nobody out. If somebody is left out, a single-objective result is filled up with the
      pool's first individual, and one for several objectives is short. */
  lemma GivesBackAllIff(prob: Problem, lib: Library, pop: Population, pool: Population, idx: seq<nat>, order: seq<nat>,
                        newPop: Population, minSize: nat, islandCount: nat)
    requires islandCount > 0 && SelectedFrom(prob, lib, pop, pool, idx, order, newPop)
    requires |pool| >= |pop| <==> NobodyLeftOut(|pop|, minSize, islandCount)
    ensures |newPop| == |pop| && Usable(idx, |pool|) <==> NobodyLeftOut(|pop|, minSize, islandCount)
    ensures prob.nobj <= 1 ==> |newPop| == |pop|
    ensures prob.nobj > 1 ==> |newPop| == if |pop| < |pool| then |pop| else |pool|
  {
    UsableIff(prob, Fs(pool), |pop|, lib, idx, order);
    hide BestOf, NobodyLeftOut, HaveObjective, Usable;
  }

  /** The best of the pool are kept: with one objective and no constraints, no individual of the pool that is left out
      is better than one that is given back. */
  lemma KeepsTheBest(prob: Problem, lib: Library, pop: Population, pool: Population, idx: seq<nat>, order: seq<nat>,
                     newPop: Population, chosen: nat, other: nat)
    requires SelectedFrom(prob, lib, pop, pool, idx, order, newPop) && prob.nobj <= 1 && prob.nc == 0
    requires |pop| <= |pool| && chosen in idx && other !in idx && other < |pool|
    ensures chosen < |pool| && pool[chosen].f != [] && pool[other].f != [] && pool[chosen].f[0] <= pool[other].f[0]
  {
    NobodyBetterIsLeftOut(prob, Fs(pool), |pop|, lib, idx, order, chosen, other);
    assert Fs(pool)[chosen] == pool[chosen].f && Fs(pool)[other] == pool[other].f;
  }

  datatype Mode = ArchipelagoBased | SingleThreaded

  /** A piece of work: in the single-threaded mode the library's evolution of the population, in the archipelago mode
      the whole computation above; with the algorithm as evolving leaves it. Whatever the mode, problem, minimum and
      core count, the result is as the protocol needs it. */
  method RunWork(mode: Mode, work: Work, prob: Problem, cores: nat, minSize: nat, lib: Library, evolution: Evolution,
                 random: (nat, nat) -> Individual, fill: nat -> Individual, evolvedAlgo: string)
    returns (result: Work, ghost split: seq<Population>, ghost pool: Population, ghost idx: seq<nat>,
             ghost order: seq<nat>)
    requires OrdersAll(lib) && KeepsPopulations(evolution)
    ensures result.algo == evolvedAlgo && result.preferredWorkerId == "" && result.cycleCount == 1
    ensures mode == SingleThreaded ==> result.pop == evolution.one(work.pop)
    ensures mode == ArchipelagoBased ==>
              Computed(work, prob, IslandCount(cores), minSize, lib, evolution, random, split, pool, idx, order, result.pop)
    ensures Evolved(work, result)
    ensures mode == SingleThreaded || prob.nobj <= 1 ==> |result.pop| == |work.pop|
  {
    hide OrdersAll, SelectedFrom, HaveObjective, SameSizes, BaseSize, Filled, SizesFrom, Concat;
    var newPop;
    split, pool, idx, order := [], [], [], [];
    match mode {
      case ArchipelagoBased =>
        newPop, split, pool, idx, order :=
          ArchipelagoBasedWorker(work, prob, cores, minSize, lib, evolution, random, fill);
        GivesBackAllIff(prob, lib, work.pop, pool, idx, order, newPop, minSize, IslandCount(cores));
      case SingleThreaded =>
        newPop := evolution.one(work.pop);
    }
    result := Work(evolvedAlgo, newPop, "", 1);
  }
}
