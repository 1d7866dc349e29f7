/** From the plan to the last cycle: the planned sizes and workers are those of every state of every run. */
module Conservation {
  import opened Common
  import opened ControllerSpec
  import opened Planner
  import PlanRealised
  import opened Protocol
  import opened ProtocolProperties
  import opened ProtocolSafety

  // The islands made of the plan's entries, in order, before they first evolve.
  ghost predicate BuiltFromPlan(s: System, ids: seq<IslandId>, plan: seq<PlanEntry>)
  {
    && |ids| == |plan| && (forall i <- s.islands :: i in ids)
    && (forall i, j :: 0 <= i < j < |ids| ==> ids[i] != ids[j])
    && forall i :: 0 <= i < |ids| ==>
         && ids[i] in s.islands && s.islands[ids[i]].waitingFor == None
         && |s.islands[ids[i]].pop| == plan[i].size && s.islands[ids[i]].preferred == plan[i].worker
  }

  ghost function TotalPopulation(s: System, ids: seq<IslandId>): nat
    requires forall i :: 0 <= i < |ids| ==> ids[i] in s.islands
  {
    if ids == [] then 0 else TotalPopulation(s, ids[..|ids| - 1]) + |s.islands[ids[|ids| - 1]].pop|
  }

  lemma {:induction false} TotalIsPlanned(s: System, ids: seq<IslandId>, plan: seq<PlanEntry>)
    requires |ids| == |plan|
    requires forall i :: 0 <= i < |ids| ==> ids[i] in s.islands && |s.islands[ids[i]].pop| == plan[i].size
    ensures TotalPopulation(s, ids) == SumSizes(plan)
  {
    if ids != [] {
      TotalIsPlanned(s, ids[..|ids| - 1], plan[..|plan| - 1]);
    }
  }

  /** End to end: over all cycles, for every order of events and however workers come and go, each island has exactly
      its planned number of individuals, so all together stay within the bounds of the plan. */
  lemma PlannedSizesLast(states: seq<System>, acts: seq<Act>, k: nat, ids: seq<IslandId>, plan: seq<PlanEntry>,
                         populationSize: nat, minSize: nat)
    requires Run(states, acts) && SysInv(states[0]) && k < |states|
    requires BuiltFromPlan(states[0], ids, plan) && WellSized(plan, populationSize, minSize)
    ensures forall i :: 0 <= i < |ids| ==> ids[i] in states[k].islands && |states[k].islands[ids[i]].pop| == plan[i].size
    ensures |plan| > 0 ==>
              populationSize - |plan| < TotalPopulation(states[k], ids) <= populationSize + |plan| * (minSize + 3)
  {
    hide Run, SysInv, SumSizes, TotalPopulation;
    forall i | 0 <= i < |ids|
      ensures ids[i] in states[k].islands && |states[k].islands[ids[i]].pop| == plan[i].size
    {
      assert plan[i] in plan;
      IslandKeepsSize(states, acts, k, ids[i]);
    }
    TotalIsPlanned(states[k], ids, plan);
  }

  lemma IslandKeepsSize(states: seq<System>, acts: seq<Act>, k: nat, i: IslandId)
    requires Run(states, acts) && SysInv(states[0]) && k < |states|
    requires i in states[0].islands && states[0].islands[i].waitingFor == None && |states[0].islands[i].pop| % 4 == 0
    ensures i in states[k].islands && |states[k].islands[i].pop| == |states[0].islands[i].pop|
  {
    SizesConserved(states, acts, k, i);
  }

  // Which worker the plan names for each island.
  ghost function Preferred(s: System): PlanRealised.Plan { map i <- s.islands :: s.islands[i].preferred }

  lemma GreedyPlanIsDistinct(s: System, ids: seq<IslandId>, plan: seq<PlanEntry>, chosen: seq<Choice>,
                             connected: set<WorkerId>, records: Records, algorithms: seq<Algorithm>)
    requires BuiltFromPlan(s, ids, plan) && |chosen| == |plan| > 0
    requires forall i :: 0 <= i < |plan| ==> plan[i].worker == chosen[i].worker
    requires connected <= records.Keys && |algorithms| > 0 && Greedy(connected, records, algorithms, chosen)
    ensures PlanRealised.Distinct(Preferred(s)) && Preferred(s).Values <= connected
  {
    hide Greedy;
    var p := Preferred(s);
    forall a <- p ensures p[a] in connected {
      var i :| 0 <= i < |ids| && ids[i] == a;
      ChosenIsConnected(connected, records, algorithms, chosen, i);
    }
    forall a, b | a in p && b in p && a != b ensures p[a] != p[b] {
      var i :| 0 <= i < |ids| && ids[i] == a;
      var j :| 0 <= j < |ids| && ids[j] == b;
      if i < j {
        ChosenAreDistinct(connected, records, algorithms, chosen, i, j);
      } else {
        ChosenAreDistinct(connected, records, algorithms, chosen, j, i);
      }
    }
  }

  lemma ChosenIsConnected(connected: set<WorkerId>, records: Records, algorithms: seq<Algorithm>, chosen: seq<Choice>,
                          i: nat)
    requires connected <= records.Keys && |algorithms| > 0 && Greedy(connected, records, algorithms, chosen)
    requires i < |chosen|
    ensures chosen[i].worker in connected
  {
  }

  /** The performance plan carried out: made from the connected workers when all of them are free and no request is
      open, and none of the chosen ones leaves, it gives each island its chosen worker every time it asks, over all
      cycles. */
  lemma PerformancePlanIsRealised(states: seq<System>, acts: seq<Act>, k: nat, ids: seq<IslandId>, plan: seq<PlanEntry>,
                                  chosen: seq<Choice>, records: Records, algorithms: seq<Algorithm>)
    requires Run(states, acts) && SysInv(states[0]) && k < |states|
    requires BuiltFromPlan(states[0], ids, plan) && |chosen| == |plan| > 0
    requires forall i :: 0 <= i < |plan| ==> plan[i].worker == chosen[i].worker
    requires |algorithms| > 0 && states[0].c.repo.connected <= records.Keys
    requires Greedy(states[0].c.repo.connected, records, algorithms, chosen)
    requires states[0].c.waiting == map[] && states[0].c.alloc == map[]
    requires forall w <- states[0].c.free :: w in states[0].procs && states[0].procs[w].up
    requires forall a <- acts :: PlanRealised.Spares(a, Preferred(states[0]))
    ensures states[k].c.waiting == map[]
    ensures k < |acts| && acts[k].TakeRequest? ==>
              && acts[k].i in ids && states[0].islands[acts[k].i].preferred in states[k].c.free
              && states[k + 1].c.alloc
                 == states[k].c.alloc[states[0].islands[acts[k].i].preferred :=
                      Record(acts[k].i, states[k].islands[acts[k].i].toController[0])]
  {
    hide Run, Greedy, Enabled, Next;
    var s := states[0];
    GreedyPlanIsDistinct(s, ids, plan, chosen, s.c.repo.connected, records, algorithms);
    assert PlanRealised.PlanStart(s, Preferred(s)) by {
      AllFree(s);
      hide SysInv;
      forall i <- Preferred(s) ensures Preferred(s)[i] in s.c.free {
        assert Preferred(s)[i] in Preferred(s).Values;
      }
    }
    hide SysInv, PlanRealised.PlanStart;
    PlanRealised.PlanIsRealised(states, acts, Preferred(s), k);
  }

  lemma AllFree(s: System)
    requires SysInv(s) && s.c.alloc == map[]
    ensures s.c.free == s.c.repo.connected
  {
  }
}
