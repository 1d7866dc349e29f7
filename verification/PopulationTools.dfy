/** Merging the islands' populations, and selecting the best individuals into a new one. */
module PopulationTools {
  import opened Common
  import opened Splitter

  // Objectives, constraints, and the evaluation of a decision vector.
  datatype Problem = Problem(nobj: nat, nc: nat, fitness: seq<real> -> seq<real>)

  // Library orderings of fitness vectors: by the first objective, for several objectives, and with constraints.
  datatype Library = Library(sortSo: seq<seq<real>> -> seq<nat>, sortMo: seq<seq<real>> -> seq<nat>,
                             sortCon: seq<seq<real>> -> seq<nat>)

  ghost predicate Distinct(idx: seq<nat>) { forall i, j :: 0 <= i < j < |idx| ==> idx[i] != idx[j] }

  ghost predicate InRange(idx: seq<nat>, n: nat) { forall i :: 0 <= i < |idx| ==> idx[i] < n }

  ghost predicate Permutation(idx: seq<nat>, n: nat) { |idx| == n && Distinct(idx) && InRange(idx, n) }

  ghost predicate Ordered(idx: seq<nat>, fitness: seq<seq<real>>)
    requires InRange(idx, |fitness|) && HaveObjective(fitness)
  {
    forall i, j :: 0 <= i < j < |idx| ==> fitness[idx[i]][0] <= fitness[idx[j]][0]
  }

  ghost predicate HaveObjective(fitness: seq<seq<real>>) { forall i :: 0 <= i < |fitness| ==> fitness[i] != [] }

  ghost predicate Sorting(idx: seq<nat>, fitness: seq<seq<real>>)
    requires HaveObjective(fitness)
  {
    Permutation(idx, |fitness|) && Ordered(idx, fitness)
  }

  /** All that is known of the library: each ordering is a permutation, and the first one sorts. Which of several equal
      individuals comes first is left open. */
  ghost predicate OrdersAll(lib: Library)
  {
    && (forall fs | HaveObjective(fs) :: Sorting(lib.sortSo(fs), fs))
    && (forall fs :: Permutation(lib.sortMo(fs), |fs|))
    && (forall fs :: Permutation(lib.sortCon(fs), |fs|))
  }

  function Xs(pop: Population): seq<seq<real>> { seq(|pop|, i requires 0 <= i < |pop| => pop[i].x) }

  function Fs(pop: Population): seq<seq<real>> { seq(|pop|, i requires 0 <= i < |pop| => pop[i].f) }

  method MergePopulations(archi: seq<Population>)
    returns (allPopulations: seq<seq<real>>, allFitnesses: seq<seq<real>>)
    ensures allPopulations == Xs(Concat(archi)) && allFitnesses == Fs(Concat(archi))
    ensures |allPopulations| == |allFitnesses| == |Concat(archi)|
    ensures forall i :: 0 <= i < |Concat(archi)| ==>
              allPopulations[i] == Concat(archi)[i].x && allFitnesses[i] == Concat(archi)[i].f
  {
    hide Concat;
    NothingMerged();
    allPopulations, allFitnesses := [], [];
    for i := 0 to |archi|
      invariant allPopulations == Xs(Concat(archi[..i])) && allFitnesses == Fs(Concat(archi[..i]))
    {
      assert archi[..i + 1] == archi[..i] + [archi[i]];
      ConcatExtends(archi[..i], archi[i]);
      allPopulations := allPopulations + Xs(archi[i]);
      allFitnesses := allFitnesses + Fs(archi[i]);
    }
    assert archi[..|archi|] == archi;
  }

  lemma NothingMerged()
    ensures Concat([]) == [] && Xs([]) == [] && Fs([]) == []
  {
  }

  // A list keeps its first n entries, or is filled up with zeros.
  function Resize(idx: seq<nat>, n: nat): seq<nat>
  {
    if n <= |idx| then idx[..n] else idx + seq(n - |idx|, _ => 0)
  }

  lemma Append(front: seq<nat>, fitness: seq<seq<real>>, last: nat, n: nat)
    requires n <= |fitness| && HaveObjective(fitness) && InRange(front, n) && Distinct(front) && Ordered(front, fitness)
    requires last < n && forall i :: 0 <= i < |front| ==>
               front[i] != last && fitness[front[i]][0] <= fitness[last][0]
    ensures InRange(front + [last], n) && Distinct(front + [last]) && Ordered(front + [last], fitness)
  {
  }

  // Insertion into an ordered list of indices.
  lemma {:induction false} InsertionExists(idx: seq<nat>, fitness: seq<seq<real>>, k: nat) returns (idx': seq<nat>)
    requires k < |fitness| && HaveObjective(fitness) && InRange(idx, k) && Distinct(idx) && Ordered(idx, fitness)
    ensures |idx'| == |idx| + 1 && InRange(idx', k + 1) && Distinct(idx') && Ordered(idx', fitness)
    ensures forall i :: 0 <= i < |idx'| ==> idx'[i] in idx || idx'[i] == k
  {
    if idx == [] || fitness[idx[|idx| - 1]][0] <= fitness[k][0] {
      Append(idx, fitness, k, k + 1);
      idx' := idx + [k];
    } else {
      var m := |idx| - 1;
      var front := InsertionExists(idx[..m], fitness, k);
      forall i | 0 <= i < |front|
        ensures front[i] in idx || front[i] == k
        ensures front[i] != idx[m] && fitness[front[i]][0] <= fitness[idx[m]][0]
      {
        if front[i] != k {
          var p :| 0 <= p < m && idx[..m][p] == front[i];
          assert idx[p] == front[i];
        }
      }
      Append(front, fitness, idx[m], k + 1);
      hide HaveObjective, Ordered, Distinct;
      idx' := front + [idx[m]];
    }
  }

  // There is always a sorting, so there is such a library.
  lemma {:induction false} SortingExists(fitness: seq<seq<real>>, k: nat) returns (idx: seq<nat>)
    requires k <= |fitness| && HaveObjective(fitness)
    ensures Permutation(idx, k) && Ordered(idx, fitness)
  {
    if k == 0 {
      idx := [];
    } else {
      var front := SortingExists(fitness, k - 1);
      hide HaveObjective;
      idx := InsertionExists(front, fitness, k - 1);
    }
  }

  // The best n indices of a single-objective problem.
  method SelectBestSo(prob: Problem, fitness: seq<seq<real>>, n: nat, lib: Library)
    returns (idx: seq<nat>, ghost order: seq<nat>)
    requires OrdersAll(lib) && HaveObjective(fitness)
    ensures idx == Resize(order, n) && Permutation(order, |fitness|)
    ensures if prob.nc == 0 then Sorting(order, fitness) else order == lib.sortCon(fitness)
  {
    if prob.nc == 0 {
      idx := lib.sortSo(fitness);
    } else {
      idx := lib.sortCon(fitness);
    }
    order := idx;
    idx := Resize(idx, n);
  }

  // The order the best are taken in, and whether a short pool is filled up.
  ghost predicate BestOf(prob: Problem, fitness: seq<seq<real>>, n: nat, lib: Library, idx: seq<nat>, order: seq<nat>)
    requires HaveObjective(fitness)
  {
    && Permutation(order, |fitness|)
    && (prob.nobj <= 1 ==> idx == Resize(order, n))
    && (prob.nobj <= 1 && prob.nc == 0 ==> Sorting(order, fitness))
    && (prob.nobj <= 1 && prob.nc > 0 ==> order == lib.sortCon(fitness))
    && (prob.nobj > 1 ==> idx == order[..if n < |order| then n else |order|] && order == lib.sortMo(fitness))
  }

  method BestIndexes(prob: Problem, fitness: seq<seq<real>>, n: nat, lib: Library)
    returns (idx: seq<nat>, ghost order: seq<nat>)
    requires OrdersAll(lib) && HaveObjective(fitness)
    ensures BestOf(prob, fitness, n, lib, idx, order)
  {
    if prob.nobj > 1 {
      var sorted := lib.sortMo(fitness);
      idx := sorted[..if n < |sorted| then n else |sorted|];
      order := sorted;
    } else {
      idx, order := SelectBestSo(prob, fitness, n, lib);
    }
  }

  // Every index a caller may use, and not twice.
  ghost predicate Usable(idx: seq<nat>, n: nat) { Distinct(idx) && InRange(idx, n) }

  /** The n indices asked for are distinct and in range exactly when the pool holds n; otherwise a single-objective
      list is filled up with index 0, and one for several objectives stays short. */
  lemma UsableIff(prob: Problem, fitness: seq<seq<real>>, n: nat, lib: Library, idx: seq<nat>, order: seq<nat>)
    requires HaveObjective(fitness) && BestOf(prob, fitness, n, lib, idx, order)
    ensures |idx| == n && Usable(idx, |fitness|) <==> n <= |fitness|
    ensures prob.nobj <= 1 ==> |idx| == n
    ensures prob.nobj > 1 ==> |idx| == (if n < |fitness| then n else |fitness|) && Usable(idx, |fitness|)
    ensures InRange(idx, |fitness|) <==> fitness != [] || n == 0 || prob.nobj > 1
  {
    if n > |fitness| && prob.nobj <= 1 {
      assert idx[|order|] == 0;
      if fitness != [] {
        HoldsAll(order, |fitness|, 0);
        var j :| 0 <= j < |order| && order[j] == 0;
        assert idx[j] == idx[|order|];
      }
    }
  }

  ghost function Elements(idx: seq<nat>): set<nat> { set k <- idx }

  ghost function Below(n: nat): (r: set<nat>)
    ensures |r| == n && forall k: nat :: k in r <==> k < n
  {
    if n == 0 then {}
    else
      var rest := Below(n - 1);
      assert n - 1 !in rest;
      rest + {n - 1}
  }

  // A permutation holds every index.
  lemma HoldsAll(idx: seq<nat>, n: nat, k: nat)
    requires Permutation(idx, n) && k < n
    ensures k in idx
  {
    DistinctCount(idx);
    SubsetOfSameSize(Elements(idx), Below(n));
    assert k in Below(n);
    assert k in Elements(idx);
  }

  lemma {:induction false} DistinctCount(idx: seq<nat>)
    requires Distinct(idx)
    ensures |Elements(idx)| == |idx|
  {
    if idx != [] {
      var k := |idx| - 1;
      DistinctCount(idx[..k]);
      assert idx == idx[..k] + [idx[k]];
      assert Elements(idx) == Elements(idx[..k]) + {idx[k]};
    }
  }

  lemma SubsetOfSameSize<T>(a: set<T>, b: set<T>)
    requires a <= b && |a| == |b|
    ensures a == b
  {
    assert |b - a| == |b| - |a|;
  }

  lemma NotAmong(order: seq<nat>, n: nat, j: nat)
    requires n <= |order| && j < |order| && order[j] !in order[..n]
    ensures n <= j
  {
  }

  /** Selection takes the best: with one objective and no constraints, nobody left out is better than anybody
      selected. */
  lemma NobodyBetterIsLeftOut(prob: Problem, fitness: seq<seq<real>>, n: nat, lib: Library, idx: seq<nat>,
                              order: seq<nat>, chosen: nat, other: nat)
    requires HaveObjective(fitness) && BestOf(prob, fitness, n, lib, idx, order) && prob.nobj <= 1 && prob.nc == 0
    requires n <= |fitness| && chosen in idx && other !in idx && other < |fitness|
    ensures chosen < |fitness| && fitness[chosen][0] <= fitness[other][0]
  {
    HoldsAll(order, |fitness|, other);
    var i :| 0 <= i < n && idx[i] == chosen;
    var j :| 0 <= j < |order| && order[j] == other;
    assert order[i] == chosen;
    NotAmong(order, n, j);
  }

  // The individuals at these places, evaluated anew.
  ghost predicate BuiltFrom(newPop: Population, allPopulations: seq<seq<real>>, idx: seq<nat>,
                            problem: seq<real> -> seq<real>)
    requires InRange(idx, |allPopulations|)
  {
    && |newPop| == |idx|
    && forall i :: 0 <= i < |idx| ==> newPop[i] == Evaluated(problem, allPopulations[idx[i]])
  }

  method BuildNewPopulation(prob: Problem, allPopulations: seq<seq<real>>, idx: seq<nat>, random: nat -> Individual)
    returns (newPop: Population)
    requires InRange(idx, |allPopulations|)
    ensures BuiltFrom(newPop, allPopulations, idx, prob.fitness)
    ensures forall i :: 0 <= i < |idx| ==>
              newPop[i].x == allPopulations[idx[i]] && newPop[i].f == prob.fitness(allPopulations[idx[i]])
  {
    newPop := seq(|idx|, i requires 0 <= i < |idx| => random(i));
    for i := 0 to |idx|
      invariant |newPop| == |idx|
      invariant forall j :: 0 <= j < i ==> newPop[j] == Evaluated(prob.fitness, allPopulations[idx[j]])
    {
      newPop := newPop[i := Evaluated(prob.fitness, allPopulations[idx[i]])];
    }
  }

  /** The new population, built from the best of the pool. None stands for an index out of range, which is undefined: it
      happens exactly when a single-objective list is filled up from an empty pool. */
  method SelectBestIntoNewPopulation(prob: Problem, allPopulations: seq<seq<real>>, allFitness: seq<seq<real>>, n: nat,
                                     lib: Library, random: nat -> Individual)
    returns (newPop: Option<Population>, ghost idx: seq<nat>, ghost order: seq<nat>)
    requires OrdersAll(lib) && HaveObjective(allFitness) && |allPopulations| == |allFitness|
    ensures BestOf(prob, allFitness, n, lib, idx, order)
    ensures newPop.None? <==> allPopulations == [] && n > 0 && prob.nobj <= 1
    ensures newPop.Some? ==>
              InRange(idx, |allPopulations|) && BuiltFrom(newPop.value, allPopulations, idx, prob.fitness)
  {
    hide BestOf, BuiltFrom;
    var best;
    best, order := BestIndexes(prob, allFitness, n, lib);
    UsableIff(prob, allFitness, n, lib, best, order);
    idx := best;
    if best != [] && allPopulations == [] {
      return None, idx, order;
    }
    var built := BuildNewPopulation(prob, allPopulations, best, random);
    newPop := Some(built);
  }
}
