/** A plan that gives each island its own preferred worker is what the protocol carries out, over all cycles. */
module PlanRealised {
  import opened Common
  import opened WorkerRepo
  import opened ControllerSpec
  import opened ControllerInvariant
  import opened ControllerRuns
  import opened Protocol
  import opened ProtocolProperties
  import opened ProtocolSafety

  // Each island's preferred worker; no two islands share one.
  type Plan = map<IslandId, WorkerId>

  ghost predicate Distinct(plan: Plan)
  {
    forall i, j :: i in plan && j in plan && plan[i] == plan[j] ==> i == j
  }

  /** The islands are those of the plan, all at rest; their workers run and are free; no request is open. */
  ghost predicate PlanStart(s: System, plan: Plan)
  {
    && SysInv(s) && Distinct(plan) && s.islands.Keys == plan.Keys
    && s.c.waiting == map[] && s.c.alloc == map[]
    && forall i <- plan :: s.islands[i].preferred == plan[i] && s.islands[i].waitingFor == None
                           && plan[i] in s.c.free && plan[i] in s.procs && s.procs[plan[i]].up
  }

  // Nobody waits, and whoever is allocated has the island that prefers it.
  ghost predicate AsPlanned(c: State, plan: Plan)
  {
    && c.waiting == map[]
    && (forall w <- c.alloc :: c.alloc[w].islandId in plan && plan[c.alloc[w].islandId] == w)
    && (forall i <- plan :: plan[i] in c.free || plan[i] in c.alloc)
  }

  // The island asks for its worker, and the worker runs.
  ghost predicate Asks(isl: Island, w: WorkerId)
  {
    isl.preferred == w && (isl.waitingFor.Some? ==> isl.waitingFor.value.preferredWorkerId == w)
  }

  ghost predicate IsUp(s: System, w: WorkerId) { w in s.procs && s.procs[w].up }

  ghost predicate Realised(s: System, plan: Plan)
  {
    && AsPlanned(s.c, plan) && s.islands.Keys == plan.Keys
    && (forall i <- plan :: Asks(s.islands[i], plan[i]))
    && (forall i <- plan :: IsUp(s, plan[i]))
  }

  // None of the plan's workers stops.
  ghost predicate Spares(a: Act, plan: Plan) { a.Stop? ==> a.w !in plan.Values }

  // A message the plan survives: a planned worker does not leave, and an island asks for its own worker.
  ghost predicate Suits(e: Event, plan: Plan)
  {
    match e
    case Leave(w) => w !in plan.Values
    case Allocate(i, work) => i in plan && work.preferredWorkerId == plan[i]
    case _ => true
  }

  lemma FreeWhenAsked(c: State, plan: Plan, i: IslandId)
    requires AsPlanned(c, plan) && Distinct(plan) && !Open(c, i) && i in plan
    ensures plan[i] in c.free
  {
    assert plan[i] in c.alloc ==> c.alloc[plan[i]].islandId == i;
  }

  lemma AllocatedAsPlanned(c: State, t: State, plan: Plan, i: IslandId, work: Work)
    requires AsPlanned(c, plan) && Distinct(plan) && i in plan && plan[i] in c.free
    requires t.waiting == c.waiting && t.free == c.free - {plan[i]} && t.alloc == c.alloc[plan[i] := Record(i, work)]
    ensures AsPlanned(t, plan)
  {
  }

  /** Every allocation is to the preferred worker: in a state that is as planned, the island's worker is free when it
      asks, and gets the work. */
  lemma PreferredIsFree(c: State, plan: Plan, i: IslandId, work: Work, p: Pick, now: nat)
    requires Inv(c) && AsPlanned(c, plan) && Distinct(plan) && !Open(c, i)
    requires i in plan && work.preferredWorkerId == plan[i] && PickOk(c, Allocate(i, work), p)
    ensures plan[i] in c.free
    ensures var r := Handle(c, Allocate(i, work), p, now);
            && r.outs == [ToWorker(plan[i], work)] && AsPlanned(r.s, plan)
            && r.s.alloc == c.alloc[plan[i] := Record(i, work)]
  {
    FreeWhenAsked(c, plan, i);
    hide Known, OnePlace, StartedWork, AsPlanned, Distinct, Open, Split, AllocateWorkerToIsland;
    AllocateWorkerStep(c, i, work, p.worker, now);
    AllocatedAsPlanned(c, Handle(c, Allocate(i, work), p, now).s, plan, i, work);
  }

  lemma PlanValue(plan: Plan, i: IslandId)
    requires i in plan
    ensures plan[i] in plan.Values
  {
  }

  lemma LeavesPlan(c: State, plan: Plan, w: WorkerId, p: Pick, now: nat)
    requires Inv(c) && AsPlanned(c, plan) && w !in plan.Values
    ensures AsPlanned(HandleLeave(c, w, p, now).s, plan)
  {
    hide OnePlace, Known, Split;
    forall i <- plan ensures plan[i] != w {
      PlanValue(plan, i);
    }
    assert w !in c.alloc;
    KeysRemoved(c.alloc, w);
  }

  lemma ResultsKeepPlan(c: State, plan: Plan, w: WorkerId, result: Work, p: Pick, now: nat)
    requires Inv(c) && AsPlanned(c, plan) && w in c.alloc
    ensures AsPlanned(HandleResults(c, w, result, p, now).s, plan)
  {
    KeepsDelivered(c, w, result, now);
    hide Inv, OnePlace, Known, Split, FinishedWork;
  }

  lemma HandleKeepsPlan(c: State, plan: Plan, e: Event, p: Pick, now: nat)
    requires Inv(c) && AsPlanned(c, plan) && Distinct(plan) && PickOk(c, e, p) && Legal(c, e) && Suits(e, plan)
    ensures AsPlanned(Handle(c, e, p, now).s, plan)
  {
    hide Inv, AsPlanned, Distinct, HandleLeave, HandleResults, AllocateIslandWork, HandleJoin;
    match e
    case Leave(w) => LeavesPlan(c, plan, w, p, now);
    case Results(w, result) => ResultsKeepPlan(c, plan, w, result, p, now);
    case Allocate(i, work) => PreferredIsFree(c, plan, i, work, p, now);
    case Join(w) => JoinKeepsPlan(c, plan, w, p, now);
  }

  lemma JoinKeepsPlan(c: State, plan: Plan, w: WorkerId, p: Pick, now: nat)
    requires AsPlanned(c, plan)
    ensures AsPlanned(HandleJoin(c, w, p, now).s, plan)
  {
  }

  lemma ReactKeepsPlan(s: System, plan: Plan, e: Event, p: Pick, now: nat, of: Work)
    requires Inv(s.c) && PickOk(s.c, e, p) && Legal(s.c, e) && Suits(e, plan)
    requires Realised(s, plan) && Distinct(plan)
    ensures Realised(React(s, e, p, now, of), plan)
  {
    hide Inv, AsPlanned, Distinct, PickOk, Legal, Suits, Handle;
    HandleKeepsPlan(s.c, plan, e, p, now);
    var r := Handle(s.c, e, p, now);
    var s1 := s.(c := r.s, fault := s.fault || !r.ok);
    var t := React(s, e, p, now, of);
    DeliverFrame(s1, r.outs, of, "", "");
    forall i <- plan ensures Asks(t.islands[i], plan[i]) && IsUp(t, plan[i]) {
      DeliverFrame(s1, r.outs, of, i, plan[i]);
    }
  }

  // A running worker sends no leave message.
  lemma RunningDoesNotLeave(s: System, w: WorkerId)
    requires SysInv(s) && w in s.procs && s.procs[w].outbox != [] && s.procs[w].outbox[0].LeaveMsg?
    ensures !s.procs[w].up
  {
    assert WorkerInv(s.c, w, s.procs[w], s.served);
  }

  lemma MessageKeepsPlan(s: System, plan: Plan, w: WorkerId, p: Pick, now: nat)
    requires SysInv(s) && Enabled(s, TakeMessage(w, p, now)) && Realised(s, plan) && Distinct(plan)
    ensures Realised(Next(s, TakeMessage(w, p, now)), plan)
  {
    hide Inv, WorkerInv, IslandInv, Requests, OpenIslands, PickOk, AsPlanned, Distinct, React, Legal, Settled;
    var proc := s.procs[w];
    var m := proc.outbox[0];
    var s1 := WithProc(s, w, proc.(outbox := proc.outbox[1..]));
    assert Realised(s1, plan);
    if !m.GetDll? {
      MessageSettles(s.c, w, proc, s.served);
      assert Suits(EventOf(w, m), plan) by {
        if m.LeaveMsg? {
          RunningDoesNotLeave(s, w);
          NotPlanned(s, plan, w);
        }
      }
      hide Realised;
      ReactKeepsPlan(s1, plan, EventOf(w, m), p, now, if m.ResultsMsg? then m.of else AnyWork());
    }
  }

  lemma NotPlanned(s: System, plan: Plan, w: WorkerId)
    requires (forall i <- plan :: IsUp(s, plan[i])) && w in s.procs && !s.procs[w].up
    ensures w !in plan.Values
  {
  }

  lemma RequestKeepsPlan(s: System, plan: Plan, i: IslandId, p: Pick, now: nat)
    requires SysInv(s) && Enabled(s, TakeRequest(i, p, now)) && Realised(s, plan) && Distinct(plan)
    ensures Realised(Next(s, TakeRequest(i, p, now)), plan)
  {
    hide Inv, WorkerInv, IslandInv, Requests, OpenIslands, PickOk, AsPlanned, Distinct, React, Legal, SettledIsland;
    var isl := s.islands[i];
    RequestSettles(s.c, i, isl);
    var work := isl.toController[0];
    var s1 := WithIsland(s, i, isl.(toController := isl.toController[1..]));
    assert Asks(isl, plan[i]);
    assert Realised(s1, plan);
    hide Realised;
    ReactKeepsPlan(s1, plan, Allocate(i, work), p, now, work);
  }

  lemma OtherStep(s: System, a: Act, i: IslandId, w: WorkerId)
    requires Enabled(s, a) && !a.TakeRequest? && !a.TakeMessage? && (a.Stop? ==> a.w != w)
    requires i in s.islands && Asks(s.islands[i], w) && IsUp(s, w)
    ensures i in Next(s, a).islands && Asks(Next(s, a).islands[i], w) && IsUp(Next(s, a), w)
  {
    hide PickOk, Evolved;
  }

  lemma OtherKeepsPlan(s: System, plan: Plan, a: Act)
    requires Enabled(s, a) && Realised(s, plan) && Spares(a, plan) && !a.TakeRequest? && !a.TakeMessage?
    ensures Realised(Next(s, a), plan)
  {
    hide AsPlanned, PickOk, Evolved;
    var t := Next(s, a);
    assert t.c == s.c && t.islands.Keys == s.islands.Keys;
    forall i <- plan ensures Asks(t.islands[i], plan[i]) && IsUp(t, plan[i]) {
      OtherStep(s, a, i, plan[i]);
      PlanValue(plan, i);
    }
  }

  lemma StepKeepsPlan(s: System, plan: Plan, a: Act)
    requires SysInv(s) && Enabled(s, a) && Realised(s, plan) && Distinct(plan) && Spares(a, plan)
    ensures Realised(Next(s, a), plan)
  {
    hide SysInv, Enabled, Realised, Distinct, Next;
    match a
    case TakeRequest(i, p, now) => RequestKeepsPlan(s, plan, i, p, now);
    case TakeMessage(w, p, now) => MessageKeepsPlan(s, plan, w, p, now);
    case _ => OtherKeepsPlan(s, plan, a);
  }

  lemma {:induction false} RunKeepsPlan(states: seq<System>, acts: seq<Act>, plan: Plan, k: nat)
    requires Run(states, acts) && PlanStart(states[0], plan) && (forall a <- acts :: Spares(a, plan)) && k < |states|
    ensures SysInv(states[k]) && Realised(states[k], plan)
  {
    if k > 0 {
      RunKeepsPlan(states, acts, plan, k - 1);
      StepKeeps(states[k - 1], acts[k - 1]);
      StepKeepsPlan(states[k - 1], plan, acts[k - 1]);
    }
  }

  /** The plan is realised: for every order of events, over all cycles, and whatever other workers come and go, each
      island that asks is given exactly its preferred worker, and no island ever waits. */
  lemma PlanIsRealised(states: seq<System>, acts: seq<Act>, plan: Plan, k: nat)
    requires Run(states, acts) && PlanStart(states[0], plan) && (forall a <- acts :: Spares(a, plan)) && k < |states|
    ensures states[k].c.waiting == map[]
    ensures forall w <- states[k].c.alloc ::
              var i := states[k].c.alloc[w].islandId; i in plan && plan[i] == w
    ensures k < |acts| && acts[k].TakeRequest? ==>
              var i := acts[k].i;
              var work := states[k].islands[i].toController[0];
              && i in plan && plan[i] in states[k].c.free
              && states[k + 1].c.alloc == states[k].c.alloc[plan[i] := Record(i, work)]
  {
    RunKeepsPlan(states, acts, plan, k);
    if k < |acts| && acts[k].TakeRequest? {
      AllocatesPreferred(states[k], acts[k], plan);
    }
  }

  lemma AllocatesPreferred(s: System, a: Act, plan: Plan)
    requires SysInv(s) && Realised(s, plan) && Distinct(plan) && a.TakeRequest? && Enabled(s, a)
    ensures a.i in plan && plan[a.i] in s.c.free
    ensures Next(s, a).c.alloc == s.c.alloc[plan[a.i] := Record(a.i, s.islands[a.i].toController[0])]
  {
    hide Inv, WorkerInv, IslandInv, Requests, OpenIslands, PickOk, AsPlanned, Distinct, SettledIsland, Open, Handle;
    var i := a.i;
    var isl := s.islands[i];
    RequestSettles(s.c, i, isl);
    var work := isl.toController[0];
    assert Asks(isl, plan[i]);
    PreferredIsFree(s.c, plan, i, work, a.p, a.now);
    var s1 := WithIsland(s, i, isl.(toController := isl.toController[1..]));
    var r := Handle(s.c, Allocate(i, work), a.p, a.now);
    DeliverFrame(s1.(c := r.s, fault := s.fault || !r.ok), r.outs, work, i, "");
  }
}
