/** How a worker splits its population among its islands, and what of it is left out. */
module Splitter {
  import opened Common
  import opened NumberUtils

  // What the islands start from: a multiple of 4, never zero.
  function BaseSize(total: nat, minSize: nat, islandCount: nat): nat
    requires islandCount > 0
  {
    var size := Max(minSize, total / islandCount);
    if size - size % 4 == 0 then 4 else size - size % 4
  }

  // What islands of the base size take together.
  function AssignedPop(base: nat, islandCount: nat): nat { base * islandCount }

  // What the base sizes leave over.
  function Leftover(total: nat, base: nat, islandCount: nat): nat
  {
    if AssignedPop(base, islandCount) < total then total - AssignedPop(base, islandCount) else 0
  }

  // An individual with this decision vector, evaluated on the problem.
  function Evaluated(problem: seq<real> -> seq<real>, x: seq<real>): Individual { Individual(x, problem(x)) }

  function Concat(pops: seq<Population>): Population
  {
    if pops == [] then [] else Concat(pops[..|pops| - 1]) + pops[|pops| - 1]
  }

  // The slots hold the population's decision vectors in order, as far as both reach.
  ghost predicate Copied(all: Population, pop: Population, problem: seq<real> -> seq<real>)
  {
    forall k :: 0 <= k < |all| && k < |pop| ==> all[k].x == pop[k].x && all[k].f == problem(pop[k].x)
  }

  ghost predicate SizesFrom(pops: seq<Population>, base: nat, extra: nat)
  {
    forall i :: 0 <= i < |pops| ==> |pops[i]| == if i < extra then base + 4 else base
  }

  // Slot k of the island that starts at this place of the population.
  function Slot(pop: Population, place: nat, i: nat, k: nat, problem: seq<real> -> seq<real>,
                random: (nat, nat) -> Individual): Individual
  {
    if place + k < |pop| then Evaluated(problem, pop[place + k].x) else random(i, k)
  }

  // Each island takes the decision vectors that follow those of the islands before it; past the end its slots stay
  // random.
  ghost predicate Filled(pops: seq<Population>, pop: Population, problem: seq<real> -> seq<real>,
                         random: (nat, nat) -> Individual)
  {
    forall i, k :: 0 <= i < |pops| && 0 <= k < |pops[i]| ==>
      pops[i][k] == Slot(pop, |Concat(pops[..i])|, i, k, problem, random)
  }

  method FillIsland(pop: Population, index: nat, i: nat, currentSize: nat, problem: seq<real> -> seq<real>,
                    random: (nat, nat) -> Individual, ghost place: nat) returns (islandPop: Population, index': nat)
    requires index == if place < |pop| then place else |pop|
    ensures |islandPop| == currentSize
    ensures forall k :: 0 <= k < currentSize ==> islandPop[k] == Slot(pop, place, i, k, problem, random)
    ensures index' == if place + currentSize < |pop| then place + currentSize else |pop|
  {
    islandPop := seq(currentSize, j requires 0 <= j < currentSize => random(i, j));
    index' := index;
    var j := 0;
    while j < currentSize
      invariant 0 <= j <= currentSize == |islandPop| && index <= index' == index + j <= |pop|
      invariant j > 0 ==> index == place
      invariant forall k :: 0 <= k < j ==> islandPop[k] == Slot(pop, place, i, k, problem, random)
      invariant forall k :: j <= k < currentSize ==> islandPop[k] == random(i, k)
    {
      if index' >= |pop| {
        break;
      }
      islandPop := islandPop[j := Evaluated(problem, pop[index'].x)];
      index' := index' + 1;
      j := j + 1;
    }
  }

  // random(i, k) is the random individual the constructor puts into slot k of island i. None stands for the exception.
  method Split(pop: Population, islandCount: nat, minSize: nat, problem: seq<real> -> seq<real>,
               random: (nat, nat) -> Individual) returns (r: Option<seq<Population>>)
    ensures r.None? <==> islandCount == 0
    ensures r.Some? ==>
              var base := BaseSize(|pop|, minSize, islandCount);
              && |r.value| == islandCount && Filled(r.value, pop, problem, random)
              && SizesFrom(r.value, base, Leftover(|pop|, base, islandCount) / 4)
  {
    hide Concat, Slot, Filled;
    var totalPopSize := |pop|;
    if islandCount == 0 {
      return None;
    }
    var baseSize := Max(minSize, totalPopSize / islandCount);
    baseSize := baseSize - baseSize % 4;
    if baseSize == 0 {
      baseSize := 4;
    }
    var assignedPop := baseSize * islandCount;
    var remainingPop := if assignedPop < totalPopSize then totalPopSize - assignedPop else 0;
    ghost var left := remainingPop;

    var islandPops: seq<Population> := [];
    var mainPopIndex: nat := 0;
    NothingFilled(pop, problem, random);
    for i := 0 to islandCount
      invariant |islandPops| == i && SizesFrom(islandPops, baseSize, left / 4)
      invariant remainingPop == if i < left / 4 then left - 4 * i else left % 4
      invariant mainPopIndex == (if |Concat(islandPops)| < |pop| then |Concat(islandPops)| else |pop|)
      invariant Filled(islandPops, pop, problem, random)
    {
      var currentSize := baseSize;
      if remainingPop >= 4 {
        currentSize := currentSize + 4;
        remainingPop := remainingPop - 4;
      }
      var islandPop;
      islandPop, mainPopIndex := FillIsland(pop, mainPopIndex, i, currentSize, problem, random, |Concat(islandPops)|);
      FilledExtends(islandPops, islandPop, pop, problem, random);
      islandPops := islandPops + [islandPop];
    }
    return Some(islandPops);
  }

  lemma NothingFilled(pop: Population, problem: seq<real> -> seq<real>, random: (nat, nat) -> Individual)
    ensures Filled([], pop, problem, random) && Concat([]) == []
  {
  }

  lemma FilledExtends(pops: seq<Population>, p: Population, pop: Population, problem: seq<real> -> seq<real>,
                      random: (nat, nat) -> Individual)
    requires Filled(pops, pop, problem, random)
    requires forall k :: 0 <= k < |p| ==> p[k] == Slot(pop, |Concat(pops)|, |pops|, k, problem, random)
    ensures Filled(pops + [p], pop, problem, random) && Concat(pops + [p]) == Concat(pops) + p
  {
    ConcatExtends(pops, p);
    hide Slot, Concat;
    var pops' := pops + [p];
    forall i, k | 0 <= i < |pops'| && 0 <= k < |pops'[i]|
      ensures pops'[i][k] == Slot(pop, |Concat(pops'[..i])|, i, k, problem, random)
    {
      assert pops'[..i] == pops[..i];
      assert pops[..|pops|] == pops;
    }
  }

  /** End to end, the islands' slots are the population in order, as far as it and they reach: nobody is copied twice,
      skipped or moved. */
  lemma {:induction false} FilledIsCopied(pops: seq<Population>, pop: Population, problem: seq<real> -> seq<real>,
                                          random: (nat, nat) -> Individual)
    requires Filled(pops, pop, problem, random)
    ensures Copied(Concat(pops), pop, problem)
  {
    if pops != [] {
      var n := |pops| - 1;
      var init, last := pops[..n], pops[n];
      assert Filled(init, pop, problem, random) by {
        forall i, k | 0 <= i < n && 0 <= k < |init[i]|
          ensures init[i][k] == Slot(pop, |Concat(init[..i])|, i, k, problem, random)
        {
          assert init[..i] == pops[..i] && init[i] == pops[i];
        }
      }
      FilledIsCopied(init, pop, problem, random);
      CopiedExtends(Concat(init), last, pop, problem);
    }
  }

  lemma ConcatExtends(pops: seq<Population>, p: Population)
    ensures Concat(pops + [p]) == Concat(pops) + p
  {
    assert (pops + [p])[..|pops|] == pops;
  }

  lemma CopiedExtends(all: Population, p: Population, pop: Population, problem: seq<real> -> seq<real>)
    requires Copied(all, pop, problem)
    requires forall k :: 0 <= k < |p| && |all| + k < |pop| ==> p[k] == Evaluated(problem, pop[|all| + k].x)
    ensures Copied(all + p, pop, problem)
  {
    var both := all + p;
    forall k | 0 <= k < |both| && k < |pop| ensures both[k].x == pop[k].x && both[k].f == problem(pop[k].x) {
      if k >= |all| {
        assert p[k - |all|] == Evaluated(problem, pop[|all| + (k - |all|)].x);
      }
    }
  }

  lemma MultipleOfFour(base: nat, n: nat)
    requires base % 4 == 0
    ensures AssignedPop(base, n) % 4 == 0
  {
    assert base * n == 4 * (base / 4 * n) + 0;
    Quotient(base / 4 * n, 0, 4);
  }

  // The islands could take 4 more each than is left over.
  lemma AssignedBound(total: nat, base: nat, islandCount: nat)
    requires islandCount > 0 && total / islandCount < base + 4
    ensures total < AssignedPop(base, islandCount) + 4 * islandCount
  {
    var q := total / islandCount;
    DivisionBound(total, islandCount);
    Spread(islandCount, q, 1);
    MulOrder(q + 1, base + 4, islandCount);
    Spread(islandCount, base, 4);
  }

  // The islands can take all that is left over, 4 at a time.
  lemma LeftoverFits(total: nat, minSize: nat, islandCount: nat)
    requires islandCount > 0
    ensures var base := BaseSize(total, minSize, islandCount);
            && base > 0 && base % 4 == 0 && AssignedPop(base, islandCount) % 4 == 0
            && Leftover(total, base, islandCount) < 4 * islandCount
  {
    var base := BaseSize(total, minSize, islandCount);
    AssignedBound(total, base, islandCount);
    MultipleOfFour(base, islandCount);
    hide AssignedPop;
  }

  lemma {:induction false} ConcatSize(pops: seq<Population>, base: nat, extra: nat)
    requires SizesFrom(pops, base, extra)
    ensures |Concat(pops)| == AssignedPop(base, |pops|) + 4 * (if |pops| < extra then |pops| else extra)
  {
    if pops != [] {
      var k := |pops| - 1;
      ConcatSize(pops[..k], base, extra);
      Spread(base, k, 1);
    }
  }

  /** The arithmetic of the split, for every population size, minimum and island count. The sizes are positive
      multiples of 4, never increase from one island to the next and differ by at most 4. All individuals fit if the
      base sizes suffice; otherwise exactly the remainder of the population's size by 4 is left out, and no slot is
      random. */
  lemma SplitArithmetic(pop: Population, minSize: nat, pops: seq<Population>)
    requires |pops| > 0
    requires var base := BaseSize(|pop|, minSize, |pops|);
             SizesFrom(pops, base, Leftover(|pop|, base, |pops|) / 4)
    ensures forall i :: 0 <= i < |pops| ==> |pops[i]| > 0 && |pops[i]| % 4 == 0
    ensures forall i, j :: 0 <= i < j < |pops| ==> |pops[j]| <= |pops[i]| <= |pops[j]| + 4
    ensures var together := AssignedPop(BaseSize(|pop|, minSize, |pops|), |pops|);
            |Concat(pops)| == if together >= |pop| then together else |pop| - |pop| % 4
  {
    hide BaseSize, Concat, AssignedPop, Leftover;
    var base := BaseSize(|pop|, minSize, |pops|);
    var left := Leftover(|pop|, base, |pops|);
    LeftoverFits(|pop|, minSize, |pops|);
    ConcatSize(pops, base, left / 4);
    TakesLeftover(|pop|, base, |pops|);
    PlusFour(base);
  }

  lemma PlusFour(base: nat)
    requires base % 4 == 0
    ensures (base + 4) % 4 == 0
  {
  }

  lemma TakesLeftover(total: nat, base: nat, islandCount: nat)
    requires AssignedPop(base, islandCount) % 4 == 0 && Leftover(total, base, islandCount) < 4 * islandCount
    ensures var left, together := Leftover(total, base, islandCount), AssignedPop(base, islandCount);
            together + 4 * (if islandCount < left / 4 then islandCount else left / 4)
            == if together >= total then together else total - total % 4
  {
    var together := AssignedPop(base, islandCount);
    hide AssignedPop;
    if together < total {
      var a, b := together / 4, (total - together) / 4;
      assert total == 4 * (a + b) + (total - together) % 4;
    }
  }

  /** Which populations survive the split whole: those whose size is a multiple of 4, and those the base sizes cover. */
  lemma AllCopiedIff(pop: Population, minSize: nat, pops: seq<Population>)
    requires |pops| > 0
    requires var base := BaseSize(|pop|, minSize, |pops|);
             SizesFrom(pops, base, Leftover(|pop|, base, |pops|) / 4)
    ensures |Concat(pops)| >= |pop| <==> |pop| % 4 == 0 || AssignedPop(BaseSize(|pop|, minSize, |pops|), |pops|) >= |pop|
  {
    SplitArithmetic(pop, minSize, pops);
    hide BaseSize, Concat, SizesFrom, AssignedPop;
  }

  /** The minimum is rounded down too: it is kept exactly if it is below 4, a multiple of 4, or the equal share
      reaches the next multiple above it. */
  lemma MinimumKeptIff(total: nat, minSize: nat, islandCount: nat)
    requires islandCount > 0
    ensures BaseSize(total, minSize, islandCount) >= minSize
            <==> minSize < 4 || minSize % 4 == 0 || total / islandCount >= CeilToMultiple(minSize, 4)
  {
    var q := total / islandCount;
  }

  /** The base size is tight: the largest multiple of 4 that is not above the minimum and the equal share, or 4. */
  lemma BaseSizeIsTight(total: nat, minSize: nat, islandCount: nat)
    requires islandCount > 0
    ensures var base, wanted := BaseSize(total, minSize, islandCount), Max(minSize, total / islandCount);
            base % 4 == 0 && if wanted < 4 then base == 4 else wanted - 4 < base <= wanted
  {
  }

  /** No slot is random exactly when the equal share is at least 4 and not below the minimum rounded down. */
  lemma NoRandomSlotIff(pop: Population, minSize: nat, pops: seq<Population>)
    requires |pops| > 0
    requires var base := BaseSize(|pop|, minSize, |pops|);
             SizesFrom(pops, base, Leftover(|pop|, base, |pops|) / 4)
    ensures |Concat(pops)| <= |pop|
            <==> |pop| / |pops| >= 4 && minSize - minSize % 4 <= |pop| / |pops|
  {
    hide BaseSize, Concat, SizesFrom, AssignedPop;
    SplitArithmetic(pop, minSize, pops);
    AssignedFits(|pop|, BaseSize(|pop|, minSize, |pops|), |pops|);
    BaseFits(|pop|, minSize, |pops|);
  }

  lemma BaseFits(total: nat, minSize: nat, islandCount: nat)
    requires islandCount > 0
    ensures BaseSize(total, minSize, islandCount) <= total / islandCount
            <==> total / islandCount >= 4 && minSize - minSize % 4 <= total / islandCount
  {
    RoundedDown(minSize, total / islandCount);
  }

  lemma RoundedDown(minSize: nat, q: nat)
    ensures var wanted := Max(minSize, q);
            var base := if wanted - wanted % 4 == 0 then 4 else wanted - wanted % 4;
            base <= q <==> q >= 4 && minSize - minSize % 4 <= q
  {
  }

  lemma AssignedFits(total: nat, base: nat, islandCount: nat)
    requires islandCount > 0
    ensures AssignedPop(base, islandCount) <= total <==> base <= total / islandCount
  {
    var q := total / islandCount;
    DivisionBound(total, islandCount);
    MulOrder(base, q, islandCount);
    MulOrder(q + 1, base, islandCount);
    Spread(islandCount, q, 1);
  }
}
