/** Where an answer comes from, over whole runs: what an island takes over is what some worker made, since the
    request, of just the work the island had sent. */
module ProtocolAnswers {
  import opened Common
  import opened ControllerSpec
  import opened ControllerInvariant
  import opened ControllerRuns
  import opened Protocol
  import opened ProtocolProperties
  import opened ProtocolSafety
  import RegistrySpec

  // The results the worker has made or sent are of this kind.
  ghost predicate ProcTraced(p: Proc, kind: Work -> bool)
  {
    && (p.thread.Finished? ==> kind(p.thread.result))
    && forall m <- p.outbox :: m.ResultsMsg? ==> kind(m.result)
  }

  // So are all results on their way to island i.
  ghost predicate Traced(s: System, i: IslandId, kind: Work -> bool)
  {
    && (forall w | w in s.procs && w in s.c.alloc && s.c.alloc[w].islandId == i :: ProcTraced(s.procs[w], kind))
    && (i in s.islands ==> forall a <- s.islands[i].fromController :: kind(a.result))
  }

  lemma RestingIsTraced(p: Proc, w: WorkerId, g: Option<Grant>, kind: Work -> bool)
    requires Resting(p)
    ensures ProcTraced(WithGrant(p, w, g), kind)
  {
  }

  lemma GrantTraced(p: Proc, w: WorkerId, g: Option<Grant>, kind: Work -> bool)
    requires ProcTraced(p, kind)
    ensures ProcTraced(WithGrant(p, w, g), kind)
  {
  }

  lemma WorkerTraced(c: State, e: Event, r: Outcome, g: Option<Grant>, w: WorkerId, p: Proc,
                     served: string -> Option<RegistrySpec.File>, i: IslandId, kind: Work -> bool)
    requires Inv(c) && Effect(c, e, r, g) && Settled(c, e, w, p, served)
    requires w in c.alloc && c.alloc[w].islandId == i ==> ProcTraced(p, kind)
    requires w in r.s.alloc && r.s.alloc[w].islandId == i
    ensures ProcTraced(WithGrant(p, w, g), kind)
  {
    hide Inv, Settled, ProcTraced, WithGrant;
    if g.Some? && g.value.worker == w {
      RestingIfFree(c, e, w, p, served);
      RestingIsTraced(p, w, g, kind);
    } else {
      GrantTraced(p, w, g, kind);
    }
  }

  lemma AnswersTraced(c: State, e: Event, of: Work, i: IslandId, isl: Island, kind: Work -> bool)
    requires forall a <- isl.fromController :: kind(a.result)
    requires AnswersTo(c, e, i) ==> kind(e.result)
    ensures forall a <- WithAnswer(c, e, of, i, isl).fromController :: kind(a.result)
  {
  }

  lemma ReactTraced(s: System, e: Event, p: Pick, now: nat, of: Work, i: IslandId, kind: Work -> bool)
    requires PickOk(s.c, e, p) && Ready(s, e, of) && Traced(s, i, kind)
    requires AnswersTo(s.c, e, i) ==> kind(e.result)
    ensures Traced(React(s, e, p, now, of), i, kind)
  {
    hide Inv, PickOk, Legal, ProperResult, InRange, EventInRange, Settled, SettledIsland, Handle, React, Effect, WithGrant,
      WithAnswer, ProcTraced, AnswersTo;
    var g := HandleEffect(s.c, e, p, now);
    DeliverIs(s, e, p, now, of, g);
    var r := Handle(s.c, e, p, now);
    forall w | w in s.procs && w in r.s.alloc && r.s.alloc[w].islandId == i
      ensures ProcTraced(WithGrant(s.procs[w], w, g), kind)
    {
      WorkerTraced(s.c, e, r, g, w, s.procs[w], s.served, i, kind);
    }
    if i in s.islands {
      AnswersTraced(s.c, e, of, i, s.islands[i], kind);
    }
  }

  // Nothing but worker w changes.
  lemma WorkerStepTraced(s: System, w: WorkerId, p: Proc, i: IslandId, kind: Work -> bool)
    requires Traced(s, i, kind) && w in s.procs
    requires w in s.c.alloc && s.c.alloc[w].islandId == i && ProcTraced(s.procs[w], kind) ==> ProcTraced(p, kind)
    ensures Traced(WithProc(s, w, p), i, kind)
  {
    hide ProcTraced;
  }

  lemma MessageTraced(s: System, w: WorkerId, p: Pick, now: nat, i: IslandId, kind: Work -> bool)
    requires SysInv(s) && Enabled(s, TakeMessage(w, p, now)) && Traced(s, i, kind)
    ensures Traced(Next(s, TakeMessage(w, p, now)), i, kind)
  {
    hide SysInv, React, Ready, PickOk, Traced;
    var proc := s.procs[w];
    var m := proc.outbox[0];
    var p1 := proc.(outbox := proc.outbox[1..]);
    if m.GetDll? {
      var p2 := if proc.up then p1.(inbox := p1.inbox + [DllBinary(m.lib, s.served(m.lib))]) else p1;
      WorkerStepTraced(s, w, p2, i, kind);
      assert Next(s, TakeMessage(w, p, now)) == WithProc(s, w, p2);
    } else {
      var of := if m.ResultsMsg? then m.of else AnyWork();
      WorkerStepTraced(s, w, p1, i, kind);
      MessageReady(s, w, of);
      OwnResult(s, w, i, kind);
      ReactTraced(WithProc(s, w, p1), EventOf(w, m), p, now, of, i, kind);
    }
  }

  lemma OwnResult(s: System, w: WorkerId, i: IslandId, kind: Work -> bool)
    requires w in s.procs && s.procs[w].outbox != [] && !s.procs[w].outbox[0].GetDll? && Traced(s, i, kind)
    ensures var e := EventOf(w, s.procs[w].outbox[0]); AnswersTo(s.c, e, i) ==> kind(e.result)
  {
    assert s.procs[w].outbox[0] in s.procs[w].outbox;
  }

  lemma TakeRequestTraced(s: System, j: IslandId, p: Pick, now: nat, i: IslandId, kind: Work -> bool)
    requires SysInv(s) && Enabled(s, TakeRequest(j, p, now)) && Traced(s, i, kind)
    ensures Traced(Next(s, TakeRequest(j, p, now)), i, kind)
  {
    var isl := s.islands[j];
    var work := isl.toController[0];
    var s1 := WithIsland(s, j, isl.(toController := isl.toController[1..]));
    assert Traced(s1, i, kind);
    hide SysInv, React, Ready, PickOk, Traced;
    RequestReady(s, j);
    ReactTraced(s1, Allocate(j, work), p, now, work, i, kind);
  }

  lemma WorkerActTraced(s: System, a: Act, i: IslandId, kind: Work -> bool)
    requires Enabled(s, a) && Traced(s, i, kind) && (a.Finish? || a.Ask? || a.Forward? || a.Stop? || a.Connect?)
    requires a.Finish? && a.w in s.c.alloc && s.c.alloc[a.w].islandId == i ==> kind(a.result)
    ensures Traced(Next(s, a), i, kind)
  {
    hide Traced, Evolved;
    WorkerStepTraced(s, a.w, Next(s, a).procs[a.w], i, kind);
  }

  lemma ReceiveTraced(s: System, w: WorkerId, i: IslandId, kind: Work -> bool)
    requires Enabled(s, Receive(w)) && Traced(s, i, kind)
    ensures Traced(Next(s, Receive(w)), i, kind)
  {
    hide Traced;
    if Next(s, Receive(w)).procs != s.procs {
      WorkerStepTraced(s, w, Next(s, Receive(w)).procs[w], i, kind);
    }
    FaultTraced(s, i, kind);
  }

  lemma FaultTraced(s: System, i: IslandId, kind: Work -> bool)
    requires Traced(s, i, kind)
    ensures Traced(s.(fault := true), i, kind)
  {
  }

  lemma IslandActTraced(s: System, a: Act, i: IslandId, kind: Work -> bool)
    requires Enabled(s, a) && Traced(s, i, kind) && (a.Request? || a.TakeAnswer?)
    ensures Traced(Next(s, a), i, kind)
  {
    hide ProcTraced;
  }

  // Only a thread that finishes adds a result.
  lemma StepTraced(s: System, a: Act, i: IslandId, kind: Work -> bool)
    requires SysInv(s) && Enabled(s, a) && Traced(s, i, kind)
    requires a.Finish? && a.w in s.c.alloc && s.c.alloc[a.w].islandId == i ==> kind(a.result)
    ensures Traced(Next(s, a), i, kind)
  {
    hide SysInv, Enabled, Next, Traced;
    match a
    case TakeMessage(w, p, now) => MessageTraced(s, w, p, now, i, kind);
    case TakeRequest(j, p, now) => TakeRequestTraced(s, j, p, now, i, kind);
    case Receive(w) => ReceiveTraced(s, w, i, kind);
    case Request(_, _) => IslandActTraced(s, a, i, kind);
    case TakeAnswer(_) => IslandActTraced(s, a, i, kind);
    case _ => WorkerActTraced(s, a, i, kind);
  }

  // An island that waits for nothing has no results on their way.
  lemma NothingOnTheWay(s: System, i: IslandId, kind: Work -> bool)
    requires SysInv(s) && i in s.islands && s.islands[i].waitingFor == None
    ensures Traced(s, i, kind)
  {
    assert IslandInv(Requests(s.c), i, s.islands[i]);
    forall w | w in s.c.alloc ensures s.c.alloc[w].islandId != i {
      RecordIsRequest(s.c, w);
    }
    hide Inv, WorkerInv, IslandInv;
  }

  // Island i asked in step m, for this work: its algorithm, population and cycle count at that time.
  ghost predicate AskedAt(states: seq<System>, acts: seq<Act>, m: nat, i: IslandId, work: Work)
    requires |states| == |acts| + 1
  {
    && m < |acts| && acts[m].Request? && acts[m].i == i && i in states[m].islands
    && var isl := states[m].islands[i]; work == Work(isl.algo, acts[m].pop, isl.preferred, isl.cycleCount)
  }

  // In step j a worker that had island i's work finished just this work with this result.
  ghost predicate FinishedAt(states: seq<System>, acts: seq<Act>, j: nat, i: IslandId, work: Work, result: Work)
    requires |states| == |acts| + 1
  {
    && j < |acts| && acts[j].Finish? && acts[j].result == result
    && var w := acts[j].w;
       && w in states[j].procs && states[j].procs[w].thread == Running(work)
       && w in states[j].c.alloc && states[j].c.alloc[w] == Record(i, work)
  }

  ghost predicate FinishedBetween(states: seq<System>, acts: seq<Act>, m: nat, k: nat, i: IslandId, work: Work,
                                  result: Work)
    requires |states| == |acts| + 1
  {
    exists j :: m < j < k && FinishedAt(states, acts, j, i, work, result)
  }

  lemma TracedWeaker(s: System, i: IslandId, kind: Work -> bool, wider: Work -> bool)
    requires Traced(s, i, kind) && forall r :: kind(r) ==> wider(r)
    ensures Traced(s, i, wider)
  {
  }

  // A thread that finishes for the island had the work the island waits for.
  lemma FinishesOwnWork(s: System, w: WorkerId, i: IslandId)
    requires SysInv(s) && w in s.procs && s.procs[w].thread.Running? && i in s.islands
    requires w in s.c.alloc && s.c.alloc[w].islandId == i
    ensures s.islands[i].waitingFor == Some(s.c.alloc[w].work) && s.procs[w].thread == Running(s.c.alloc[w].work)
  {
    assert WorkerInv(s.c, w, s.procs[w], s.served) && IslandInv(Requests(s.c), i, s.islands[i]);
    assert w in s.c.alloc.Keys ==> w in s.c.repo.connected && w !in s.c.free;
    OneEachOfInv(s.c);
    RecordIsRequest(s.c, w);
    hide SysInv, Inv, Requests, Evolved;
    assert i in OpenIslands(Requests(s.c));
  }

  lemma WaitStep(states: seq<System>, acts: seq<Act>, k: nat, i: IslandId, m: nat)
    requires Run(states, acts) && 0 < k < |states| && SysInv(states[k - 1]) && m < k - 1
    requires i in states[k - 1].islands && states[k - 1].islands[i].waitingFor.Some?
    requires var work := states[k - 1].islands[i].waitingFor.value;
             Traced(states[k - 1], i, r => FinishedBetween(states, acts, m, k - 1, i, work, r))
    ensures var work := states[k - 1].islands[i].waitingFor.value;
            Traced(states[k], i, r => FinishedBetween(states, acts, m, k, i, work, r))
  {
    var s, a := states[k - 1], acts[k - 1];
    var work := s.islands[i].waitingFor.value;
    var kind := r => FinishedBetween(states, acts, m, k, i, work, r);
    hide Traced, SysInv, Next;
    TracedWeaker(s, i, r => FinishedBetween(states, acts, m, k - 1, i, work, r), kind);
    if a.Finish? && a.w in s.c.alloc && s.c.alloc[a.w].islandId == i {
      FinishesOwnWork(s, a.w, i);
      assert FinishedAt(states, acts, k - 1, i, work, a.result);
    }
    StepTraced(s, a, i, kind);
  }

  // While an island waits: when it asked, and that all results on their way were made since of what it asked for.
  lemma {:induction false} WaitTraced(states: seq<System>, acts: seq<Act>, k: nat, i: IslandId) returns (m: nat)
    requires Run(states, acts) && SysInv(states[0]) && k < |states|
    requires i in states[0].islands && states[0].islands[i].waitingFor == None
    requires i in states[k].islands && states[k].islands[i].waitingFor.Some?
    ensures m < k && AskedAt(states, acts, m, i, states[k].islands[i].waitingFor.value)
    ensures var work := states[k].islands[i].waitingFor.value;
            Traced(states[k], i, r => FinishedBetween(states, acts, m, k, i, work, r))
  {
    var s, a := states[k - 1], acts[k - 1];
    RunIsSafe(states, acts, k - 1);
    IslandsStay(states, acts, k - 1, i);
    if a.Request? && a.i == i {
      m := k - 1;
      var work := states[k].islands[i].waitingFor.value;
      var kind := r => FinishedBetween(states, acts, m, k, i, work, r);
      NothingOnTheWay(s, i, kind);
      hide Traced, SysInv;
      StepTraced(s, a, i, kind);
    } else {
      OtherSteps(s, a, i);
      assert !(a.TakeAnswer? && a.i == i);
      hide Traced, SysInv, Next;
      m := WaitTraced(states, acts, k - 1, i);
      WaitStep(states, acts, k, i, m);
    }
  }

  lemma {:induction false} IslandsStay(states: seq<System>, acts: seq<Act>, k: nat, i: IslandId)
    requires Run(states, acts) && k < |states| && i in states[0].islands
    ensures i in states[k].islands
  {
    if k > 0 {
      IslandsStay(states, acts, k - 1, i);
      OtherSteps(states[k - 1], acts[k - 1], i);
    }
  }

  /** Every answer is genuine. Over every run, when an island takes an answer in step k: it had asked in some step m,
      with the algorithm, population and cycle count it had then; since then, in some step j, a worker that had the
      island's work finished running exactly that; and the island is left with the population and the algorithm of
      that result. */
  lemma AnswerIsGenuine(states: seq<System>, acts: seq<Act>, k: nat, i: IslandId) returns (m: nat, j: nat)
    requires Run(states, acts) && SysInv(states[0]) && k < |acts| && acts[k] == TakeAnswer(i)
    requires i in states[0].islands && states[0].islands[i].waitingFor == None
    ensures m < j < k && acts[j].Finish? && i in states[k].islands && states[k].islands[i].waitingFor.Some?
    ensures var work := states[k].islands[i].waitingFor.value;
            AskedAt(states, acts, m, i, work) && FinishedAt(states, acts, j, i, work, acts[j].result)
    ensures i in states[k + 1].islands
    ensures var isl := states[k + 1].islands[i];
            isl.pop == acts[j].result.pop && isl.algo == acts[j].result.algo && isl.waitingFor == None
  {
    var s := states[k];
    RunIsSafe(states, acts, k);
    OwnAnswer(s, i);
    m := WaitTraced(states, acts, k, i);
    var work := s.islands[i].waitingFor.value;
    var answer := s.islands[i].fromController[0];
    assert answer in s.islands[i].fromController;
    assert FinishedBetween(states, acts, m, k, i, work, answer.result);
    hide SysInv, Traced, AskedAt, FinishedAt;
    j :| m < j < k && FinishedAt(states, acts, j, i, work, answer.result);
    FinishedWith(states, acts, j, i, work, answer.result);
  }

  lemma FinishedWith(states: seq<System>, acts: seq<Act>, j: nat, i: IslandId, work: Work, result: Work)
    requires |states| == |acts| + 1 && FinishedAt(states, acts, j, i, work, result)
    ensures j < |acts| && acts[j].Finish? && acts[j].result == result
  {
  }
}
