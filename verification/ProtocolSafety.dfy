/** The composed system is safe: every step keeps SysInv, whose parts say that each allocation is accounted for
    exactly once and that each island waits for exactly its own answer. */
module ProtocolSafety {
  import opened Common
  import opened WorkerRepo
  import opened ControllerSpec
  import opened ControllerInvariant
  import opened ControllerRuns
  import opened RegistrySpec
  import opened Protocol

  // Work given to a worker.
  datatype Grant = Grant(worker: WorkerId, record: Record)

  function WorkOut(g: Option<Grant>): seq<Out>
  {
    if g.Some? then [ToWorker(g.value.worker, g.value.record.work)] else []
  }

  function ResultOut(s: State, e: Event): seq<Out>
  {
    if e.Results? && e.worker in s.alloc then [ToIsland(s.alloc[e.worker].islandId, e.result)] else []
  }

  // The allocations once those the message ends are gone.
  function Cleared(s: State, e: Event): map<WorkerId, Record>
  {
    match e
    case Leave(w) => s.alloc - {w}
    case Results(w, _) => s.alloc - {w}
    case _ => s.alloc
  }

  function ConnectedAfter(s: State, e: Event): set<WorkerId>
  {
    match e
    case Join(w) => s.repo.connected + {w}
    case Leave(w) => s.repo.connected - {w}
    case _ => s.repo.connected
  }

  // At most one worker is given work, and it was free.
  ghost predicate Effect(s: State, e: Event, r: Outcome, g: Option<Grant>)
  {
    && r.ok && r.outs == ResultOut(s, e) + WorkOut(g)
    && r.s.repo.connected == ConnectedAfter(s, e)
    && Granted(FreeAt(s, e), Cleared(s, e), r.s, g)
  }

  ghost predicate Granted(free: set<WorkerId>, alloc: map<WorkerId, Record>, t: State, g: Option<Grant>)
  {
    match g
    case None => t.alloc == alloc && t.free == free
    case Some(Grant(v, record)) =>
      v in free && v !in alloc && t.free == free - {v} && t.alloc == alloc[v := record]
  }

  lemma EffectOfReallocate(s: State, i: IslandId, work: Work, first: WorkerId, now: nat) returns (g: Option<Grant>)
    requires Inv(s) && (s.free != {} ==> first in s.free)
    ensures var r := AllocateIslandWork(s, i, work, first, now);
            r.ok && r.outs == WorkOut(g) && Granted(s.free, s.alloc, r.s, g)
            && r.s.repo.connected == s.repo.connected
  {
    hide OnePlace, Known, Split;
    if s.free == {} {
      g := None;
    } else {
      AllocateWorkerStep(s, i, work, first, now);
      g := Some(Grant(Chosen(s.free, work, first), Record(i, work)));
    }
  }

  lemma EffectOfTakeOver(s: State, w: WorkerId, p: Pick, now: nat)
    requires Split(s.repo.connected, s.free + {w}, s.alloc.Keys) && Known(s.repo)
    requires s.free == {} && s.waiting != map[] && p.worker == w && p.island in s.waiting
    ensures var r := AddFreeWorker(s, w, p, now);
            var g := Some(Grant(w, Record(p.island, s.waiting[p.island])));
            r.ok && r.outs == WorkOut(g) && Granted({w}, s.alloc, r.s, g)
            && r.s.repo.connected == s.repo.connected
  {
    FreedAndAllocated(s, w, p, now);
    hide AddFreeWorker, Known, Split;
  }

  lemma EffectOfAddFree(s: State, w: WorkerId, p: Pick, now: nat) returns (g: Option<Grant>)
    requires Split(s.repo.connected, s.free + {w}, s.alloc.Keys) && Known(s.repo)
    requires s.free == {} || s.waiting == map[]
    requires p.worker in s.free + {w} && (s.waiting != map[] ==> p.island in s.waiting)
    ensures var r := AddFreeWorker(s, w, p, now);
            r.ok && r.outs == WorkOut(g) && Granted(s.free + {w}, s.alloc, r.s, g)
            && r.s.repo.connected == s.repo.connected
  {
    hide Known, Split;
    if s.waiting == map[] {
      g := None;
    } else {
      hide AddFreeWorker, Granted, WorkOut;
      assert s.free + {w} == {w};
      EffectOfTakeOver(s, w, p, now);
      g := Some(Grant(w, Record(p.island, s.waiting[p.island])));
    }
  }

  lemma EffectOfJoin(s: State, w: WorkerId, p: Pick, now: nat) returns (g: Option<Grant>)
    requires Inv(s) && w !in s.alloc && PickOk(s, Join(w), p)
    ensures Effect(s, Join(w), HandleJoin(s, w, p, now), g)
  {
    if w in s.free {
      g := None;
      assert s.free + {w} == s.free && s.repo.connected + {w} == s.repo.connected;
    } else {
      SplitJoin(s.repo.connected, s.free, s.alloc.Keys, w);
      KnownMoves(s.repo, w);
      hide OnePlace, Known, Split, Joined, AddFreeWorker, Granted, WorkOut;
      g := EffectOfAddFree(s.(repo := Joined(s.repo, w)), w, p, now);
    }
  }

  lemma WithoutWorkerFields(s: State, w: WorkerId)
    requires Known(s.repo)
    ensures var t := WithoutWorker(s, w);
            && t.alloc == Cleared(s, Leave(w)) && t.free == FreeAt(s, Leave(w))
            && t.repo.connected == ConnectedAfter(s, Leave(w))
  {
    hide Known;
    KnownMoves(s.repo, w);
  }

  lemma EffectOfBusyLeave(s: State, w: WorkerId, p: Pick, now: nat) returns (g: Option<Grant>)
    requires Inv(s) && PickOk(s, Leave(w), p) && w in s.alloc
    ensures Effect(s, Leave(w), HandleLeave(s, w, p, now), g)
  {
    WithoutWorkerFields(s, w);
    KeepsWithoutWorker(s, w);
    hide Inv, Open, Size, AllocateIslandWork, Granted, WorkOut, WithoutWorker, Cleared, ConnectedAfter;
    g := EffectOfReallocate(WithoutWorker(s, w), s.alloc[w].islandId, s.alloc[w].work, p.worker, now);
  }

  lemma EffectOfLeave(s: State, w: WorkerId, p: Pick, now: nat) returns (g: Option<Grant>)
    requires Inv(s) && PickOk(s, Leave(w), p)
    ensures Effect(s, Leave(w), HandleLeave(s, w, p, now), g)
  {
    if w in s.alloc {
      hide Inv, Effect, HandleLeave;
      g := EffectOfBusyLeave(s, w, p, now);
    } else {
      KnownMoves(s.repo, w);
      hide OnePlace, Split, Known, Left;
      g := None;
    }
  }

  lemma DeliveredFields(s: State, w: WorkerId, result: Work, now: nat)
    requires Known(s.repo) && w in s.repo.connected
    ensures var t := Delivered(s, w, result, now);
            t.alloc == Cleared(s, Results(w, result)) && t.repo.connected == s.repo.connected
  {
    hide Known, FinishedWork;
    KnownFinish(s.repo, w, |result.pop|, result.algo, now);
  }

  lemma EffectOfResults(s: State, w: WorkerId, result: Work, p: Pick, now: nat) returns (g: Option<Grant>)
    requires Inv(s) && w in s.alloc && PickOk(s, Results(w, result), p)
    ensures Effect(s, Results(w, result), HandleResults(s, w, result, p, now), g)
  {
    hide Inv, Known, OnePlace, Split, FinishedWork, AddFreeWorker, Granted, WorkOut, Delivered, Cleared, Size;
    BusyIsConnected(s, w);
    KeepsDelivered(s, w, result, now);
    DeliveredFields(s, w, result, now);
    g := EffectOfAddFree(Delivered(s, w, result, now), w, p, now);
  }

  lemma HandleEffect(s: State, e: Event, p: Pick, now: nat) returns (g: Option<Grant>)
    requires Inv(s) && PickOk(s, e, p) && Legal(s, e)
    ensures Effect(s, e, Handle(s, e, p, now), g)
  {
    hide Inv, HandleJoin, HandleLeave, HandleResults, AllocateIslandWork;
    match e
    case Join(w) => g := EffectOfJoin(s, w, p, now);
    case Leave(w) => g := EffectOfLeave(s, w, p, now);
    case Results(w, result) => g := EffectOfResults(s, w, result, p, now);
    case Allocate(i, work) => g := EffectOfReallocate(s, i, work, p.worker, now);
  }

  // What worker w has once the controller gave out g.
  function WithGrant(p: Proc, w: WorkerId, g: Option<Grant>): Proc
  {
    if g.Some? && g.value.worker == w && p.up then p.(inbox := p.inbox + [WorkMsg(g.value.record.work)]) else p
  }

  // What worker w is like when its message e is taken out of the channel, and the other workers then.
  ghost predicate Settled(c: State, e: Event, w: WorkerId, p: Proc, served: string -> Option<File>)
  {
    match e
    case Join(v) => if v == w then w !in c.repo.connected && Resting(p) else WorkerInv(c, w, p, served)
    case Leave(v) => if v == w then p == Proc(false, Idle, [], []) else WorkerInv(c, w, p, served)
    case Results(v, _) => if v == w then w in c.alloc && Resting(p) else WorkerInv(c, w, p, served)
    case Allocate(_, _) => WorkerInv(c, w, p, served)
  }

  // Idle with nothing under way, but for the leave message of a process that is gone.
  ghost predicate Resting(p: Proc)
  {
    p.thread == Idle && p.inbox == [] && p.outbox == if p.up then [] else [LeaveMsg]
  }

  /** Whatever message is handled, each worker stays accounted for: the only worker that gets work is at rest. */
  lemma WorkerStep(c: State, e: Event, r: Outcome, g: Option<Grant>, w: WorkerId, p: Proc,
                   served: string -> Option<File>)
    requires Inv(c) && Effect(c, e, r, g) && Settled(c, e, w, p, served)
    ensures WorkerInv(r.s, w, WithGrant(p, w, g), served)
  {
    hide OnePlace, Known;
    if g.Some? && g.value.worker == w {
      RestingIfFree(c, e, w, p, served);
      GrantToResting(r.s, w, p, g.value.record, served);
    } else if e.Allocate? || e.worker != w {
      SameForOthers(c, e, r, g, w);
      hide Effect, Inv;
      WorkerInvFrame(c, r.s, w, p, served);
    } else {
      FreedUnlessGone(c, e, r, g, w, p, served);
    }
  }

  lemma RestingIfFree(c: State, e: Event, w: WorkerId, p: Proc, served: string -> Option<File>)
    requires Inv(c) && Settled(c, e, w, p, served) && w in FreeAt(c, e)
    ensures Resting(p) && w in ConnectedAfter(c, e)
  {
    hide OnePlace, Known, BusyAs;
  }

  lemma GrantToResting(t: State, w: WorkerId, p: Proc, r: Record, served: string -> Option<File>)
    requires Resting(p) && w in t.repo.connected && w in t.alloc && t.alloc[w] == r
    ensures WorkerInv(t, w, WithGrant(p, w, Some(Grant(w, r))), served)
  {
  }

  lemma SameForOthers(c: State, e: Event, r: Outcome, g: Option<Grant>, w: WorkerId)
    requires Effect(c, e, r, g) && (g.Some? ==> g.value.worker != w) && (e.Allocate? || e.worker != w)
    ensures SameFor(c, r.s, w)
  {
  }

  // The controller's view of w has not changed.
  ghost predicate SameFor(c: State, t: State, w: WorkerId)
  {
    && (w in t.repo.connected <==> w in c.repo.connected) && (w in t.free <==> w in c.free)
    && (w in t.alloc <==> w in c.alloc) && (w in c.alloc ==> t.alloc[w] == c.alloc[w])
  }

  lemma WorkerInvFrame(c: State, t: State, w: WorkerId, p: Proc, served: string -> Option<File>)
    requires SameFor(c, t, w) && WorkerInv(c, w, p, served)
    ensures WorkerInv(t, w, p, served)
  {
    hide BusyAs, Delivering;
  }

  lemma FreedUnlessGone(c: State, e: Event, r: Outcome, g: Option<Grant>, w: WorkerId, p: Proc,
                        served: string -> Option<File>)
    requires Inv(c) && Effect(c, e, r, g) && (g.Some? ==> g.value.worker != w) && Settled(c, e, w, p, served)
    requires !e.Allocate? && e.worker == w
    ensures WorkerInv(r.s, w, p, served)
  {
    hide OnePlace, Known, BusyAs;
  }

  // The island a result goes to.
  ghost predicate AnswersTo(c: State, e: Event, i: IslandId)
  {
    e.Results? && e.worker in c.alloc && c.alloc[e.worker].islandId == i
  }

  ghost function WithAnswer(c: State, e: Event, of: Work, i: IslandId, isl: Island): Island
  {
    if AnswersTo(c, e, i) then isl.(fromController := isl.fromController + [Answer(e.result, of)]) else isl
  }

  // The islands when message e is taken out of its channel.
  ghost predicate SettledIsland(c: State, e: Event, i: IslandId, isl: Island)
  {
    if e.Allocate? && e.island == i then
      && isl.waitingFor == Some(e.work) && isl.toController == [] && isl.fromController == []
      && i !in OpenIslands(Requests(c))
    else IslandInv(Requests(c), i, isl)
  }

  // A result comes with the work it was computed from, which is the one recorded for the worker.
  ghost predicate ProperResult(c: State, e: Event, of: Work)
  {
    e.Results? ==> e.worker in c.alloc && of == c.alloc[e.worker].work && Evolved(of, e.result)
  }

  /** Whatever message is handled, each island waits for exactly its own answer. */
  lemma IslandStep(c: State, e: Event, of: Work, i: IslandId, isl: Island)
    requires Legal(c, e) && OneEach(Requests(c)) && ProperResult(c, e, of) && SettledIsland(c, e, i, isl)
    ensures IslandInv(RequestsAfter(c, e), i, WithAnswer(c, e, of, i, isl))
  {
    hide Requests, Evolved;
    if AnswersTo(c, e, i) {
      AnswerStep(c, e.worker, e.result, isl);
    } else if e.Allocate? && e.island == i {
      assert Record(i, e.work) in RequestsAfter(c, e);
    } else {
      SameRequests(c, e, i);
      hide RequestsAfter, OpenIslands, Legal, OneEach;
    }
  }

  lemma RecordIsRequest(c: State, w: WorkerId)
    requires w in c.alloc
    ensures c.alloc[w] in Requests(c)
  {
  }

  lemma AnswerStep(c: State, w: WorkerId, result: Work, isl: Island)
    requires w in c.alloc && OneEach(Requests(c)) && Evolved(c.alloc[w].work, result)
    requires IslandInv(Requests(c), c.alloc[w].islandId, isl)
    ensures var r := c.alloc[w];
            var isl' := isl.(fromController := isl.fromController + [Answer(result, r.work)]);
            IslandInv(Requests(c) - {r}, r.islandId, isl')
  {
    RecordIsRequest(c, w);
    hide Requests, Evolved;
    var r := c.alloc[w];
    assert r.islandId in OpenIslands(Requests(c));
    assert r.islandId !in OpenIslands(Requests(c) - {r});
  }

  lemma SameRequests(c: State, e: Event, i: IslandId)
    requires Legal(c, e) && !AnswersTo(c, e, i) && !(e.Allocate? && e.island == i)
    ensures i in OpenIslands(RequestsAfter(c, e)) <==> i in OpenIslands(Requests(c))
    ensures forall work :: Record(i, work) in RequestsAfter(c, e) <==> Record(i, work) in Requests(c)
  {
    hide Requests;
    var before, after := Requests(c), RequestsAfter(c, e);
    forall r: Record | r.islandId == i ensures r in before <==> r in after {
    }
  }

  // Sending the messages puts the work and the answer into the channels.
  ghost function Sending(s: System, t: State, e: Event, of: Work, g: Option<Grant>): System
  {
    System(t, map w <- s.procs :: WithGrant(s.procs[w], w, g),
           map i <- s.islands :: WithAnswer(s.c, e, of, i, s.islands[i]), s.served, s.fault)
  }

  lemma SendWork(s: System, w: WorkerId, r: Record)
    ensures s.(procs := Send(s.procs, w, WorkMsg(r.work)))
         == s.(procs := map v <- s.procs :: WithGrant(s.procs[v], v, Some(Grant(w, r))))
  {
  }

  lemma SendNothing(procs: map<WorkerId, Proc>)
    ensures procs == map w <- procs :: WithGrant(procs[w], w, None)
  {
  }

  lemma DeliverIs(s: System, e: Event, p: Pick, now: nat, of: Work, g: Option<Grant>)
    requires PickOk(s.c, e, p) && Effect(s.c, e, Handle(s.c, e, p, now), g)
    ensures React(s, e, p, now, of) == Sending(s, Handle(s.c, e, p, now).s, e, of, g)
  {
    hide Handle, PickOk, Granted, Send;
    var t := s.(c := Handle(s.c, e, p, now).s);
    DeliverResult(t, s.c, e, of, WorkOut(g));
    var islands := map i <- s.islands :: WithAnswer(s.c, e, of, i, s.islands[i]);
    var u := t.(islands := islands);
    DeliverWork(u, of, g);
  }

  lemma DeliverWork(s: System, of: Work, g: Option<Grant>)
    ensures Deliver(s, WorkOut(g), of) == s.(procs := map w <- s.procs :: WithGrant(s.procs[w], w, g))
  {
    if g.None? {
      SendNothing(s.procs);
    } else {
      SendWork(s, g.value.worker, g.value.record);
      var outs := WorkOut(g);
      assert outs[1..] == [];
    }
  }

  lemma DeliverResult(s: System, c: State, e: Event, of: Work, rest: seq<Out>)
    ensures Deliver(s, ResultOut(c, e) + rest, of)
         == Deliver(s.(islands := map i <- s.islands :: WithAnswer(c, e, of, i, s.islands[i])), rest, of)
  {
    var islands := map i <- s.islands :: WithAnswer(c, e, of, i, s.islands[i]);
    if e.Results? && e.worker in c.alloc {
      var i := c.alloc[e.worker].islandId;
      var outs := ResultOut(c, e) + rest;
      assert outs[0] == ToIsland(i, e.result) && outs[1..] == rest;
      if i in s.islands {
        assert islands == s.islands[i := WithAnswer(c, e, of, i, s.islands[i])];
      } else {
        assert islands == s.islands;
      }
    } else {
      assert ResultOut(c, e) + rest == rest;
      assert islands == s.islands;
    }
  }

  // Workers and islands the controller knows exist.
  ghost predicate InRange(c: State, procs: set<WorkerId>, islands: set<IslandId>)
  {
    c.repo.connected <= procs && OpenIslands(Requests(c)) <= islands
  }

  ghost predicate EventInRange(e: Event, procs: set<WorkerId>, islands: set<IslandId>)
  {
    (e.Join? ==> e.worker in procs) && (e.Allocate? ==> e.island in islands)
  }

  lemma StaysInRange(c: State, e: Event, p: Pick, now: nat, g: Option<Grant>,
                     procs: set<WorkerId>, islands: set<IslandId>)
    requires Inv(c) && PickOk(c, e, p) && Legal(c, e) && Effect(c, e, Handle(c, e, p, now), g)
    requires InRange(c, procs, islands) && EventInRange(e, procs, islands)
    ensures InRange(Handle(c, e, p, now).s, procs, islands)
  {
    RequestsStep(c, e, p, now);
    hide Inv, Handle, Requests, Granted;
    OpenAfter(c, e, islands);
  }

  lemma OpenAfter(c: State, e: Event, islands: set<IslandId>)
    requires Legal(c, e) && OpenIslands(Requests(c)) <= islands && (e.Allocate? ==> e.island in islands)
    ensures OpenIslands(RequestsAfter(c, e)) <= islands
  {
    hide Requests;
    forall r <- RequestsAfter(c, e) ensures r.islandId in islands {
      assert r in Requests(c) ==> r.islandId in OpenIslands(Requests(c));
    }
  }

  // All that handling message e relies on.
  ghost predicate Ready(s: System, e: Event, of: Work)
  {
    && !s.fault && Inv(s.c) && Legal(s.c, e) && ProperResult(s.c, e, of)
    && InRange(s.c, s.procs.Keys, s.islands.Keys) && EventInRange(e, s.procs.Keys, s.islands.Keys)
    && (forall w <- s.procs :: Settled(s.c, e, w, s.procs[w], s.served))
    && (forall i <- s.islands :: SettledIsland(s.c, e, i, s.islands[i]))
  }

  lemma ReactKeeps(s: System, e: Event, p: Pick, now: nat, of: Work)
    requires PickOk(s.c, e, p) && Ready(s, e, of)
    ensures SysInv(React(s, e, p, now, of))
  {
    hide Inv, PickOk, Legal, ProperResult, InRange, EventInRange, Settled, SettledIsland, Handle, React, WorkerInv,
      IslandInv, Requests, RequestsAfter, OneEach, Effect, WithGrant, WithAnswer;
    LegalIsSound(s.c, e, p, now);
    var g := HandleEffect(s.c, e, p, now);
    DeliverIs(s, e, p, now, of, g);
    StaysInRange(s.c, e, p, now, g, s.procs.Keys, s.islands.Keys);
    OneEachOfInv(s.c);
    RequestsStep(s.c, e, p, now);
    var r := Handle(s.c, e, p, now);
    forall w <- s.procs ensures WorkerInv(r.s, w, WithGrant(s.procs[w], w, g), s.served) {
      WorkerStep(s.c, e, r, g, w, s.procs[w], s.served);
    }
    forall i <- s.islands ensures IslandInv(RequestsAfter(s.c, e), i, WithAnswer(s.c, e, of, i, s.islands[i])) {
      IslandStep(s.c, e, of, i, s.islands[i]);
    }
    SendingInv(s, e, of, g, r.s);
  }

  lemma OneEachOfInv(c: State)
    requires Inv(c)
    ensures OneEach(Requests(c))
  {
    OpenIffListed(c, "");
  }

  lemma SendingInv(s: System, e: Event, of: Work, g: Option<Grant>, t: State)
    requires !s.fault && Inv(t) && InRange(t, s.procs.Keys, s.islands.Keys)
    requires forall w <- s.procs :: WorkerInv(t, w, WithGrant(s.procs[w], w, g), s.served)
    requires forall i <- s.islands :: IslandInv(Requests(t), i, WithAnswer(s.c, e, of, i, s.islands[i]))
    ensures SysInv(Sending(s, t, e, of, g))
  {
    hide Inv, WorkerInv, IslandInv, Requests, WithGrant, WithAnswer, OpenIslands;
    var u := Sending(s, t, e, of, g);
    assert u.procs.Keys == s.procs.Keys && u.islands.Keys == s.islands.Keys;
  }

  // Taking a message other than a library request out of a worker's channel leaves it settled.
  lemma MessageSettles(c: State, w: WorkerId, p: Proc, served: string -> Option<File>)
    requires Inv(c) && WorkerInv(c, w, p, served) && p.outbox != [] && !p.outbox[0].GetDll?
    ensures Settled(c, EventOf(w, p.outbox[0]), w, p.(outbox := p.outbox[1..]), served)
    ensures Legal(c, EventOf(w, p.outbox[0]))
    ensures p.outbox[0].ResultsMsg? ==> ProperResult(c, EventOf(w, p.outbox[0]), p.outbox[0].of)
  {
    hide OnePlace, Known, Evolved;
    var rest := p.outbox[1..];
    assert p.outbox == [p.outbox[0]] + rest;
    assert |p.outbox| == 2 ==> rest == [p.outbox[1]];
  }

  lemma OtherWorkersSettled(c: State, e: Event, w: WorkerId, v: WorkerId, p: Proc, served: string -> Option<File>)
    requires WorkerInv(c, v, p, served) && (e.Allocate? || e.worker == w != v)
    ensures Settled(c, e, v, p, served)
  {
  }

  lemma MessageReady(s: System, w: WorkerId, of: Work)
    requires SysInv(s) && w in s.procs && s.procs[w].outbox != [] && !s.procs[w].outbox[0].GetDll?
    requires s.procs[w].outbox[0].ResultsMsg? ==> of == s.procs[w].outbox[0].of
    ensures Ready(WithProc(s, w, s.procs[w].(outbox := s.procs[w].outbox[1..])), EventOf(w, s.procs[w].outbox[0]), of)
  {
    hide Inv, Legal, ProperResult, Settled, WorkerInv, IslandInv, Requests, OpenIslands;
    var p := s.procs[w];
    var e := EventOf(w, p.outbox[0]);
    MessageSettles(s.c, w, p, s.served);
    assert ProperResult(s.c, e, of) by {
      NoResultIsProper(s.c, e, of);
    }
    var s1 := WithProc(s, w, p.(outbox := p.outbox[1..]));
    assert s1.procs.Keys == s.procs.Keys;
    forall v <- s1.procs ensures Settled(s.c, e, v, s1.procs[v], s.served) {
      if v != w {
        OtherWorkersSettled(s.c, e, w, v, s.procs[v], s.served);
      }
    }
    forall i <- s.islands ensures SettledIsland(s.c, e, i, s.islands[i]) {
    }
  }

  lemma NoResultIsProper(c: State, e: Event, of: Work)
    requires !e.Results? || ProperResult(c, e, of)
    ensures ProperResult(c, e, of)
  {
  }

  // Taking a request out of an island's channel.
  lemma RequestSettles(c: State, i: IslandId, isl: Island)
    requires Inv(c) && IslandInv(Requests(c), i, isl) && isl.toController != []
    ensures var e := Allocate(i, isl.toController[0]);
            && Legal(c, e) && SettledIsland(c, e, i, isl.(toController := isl.toController[1..]))
            && isl.toController == [e.work] && isl.waitingFor == Some(e.work)
  {
    OpenIffListed(c, i);
    hide Inv, Requests;
  }

  lemma OtherIslandsSettled(c: State, i: IslandId, work: Work, j: IslandId, isl: Island)
    requires IslandInv(Requests(c), j, isl) && i != j
    ensures SettledIsland(c, Allocate(i, work), j, isl)
  {
  }

  lemma RequestReady(s: System, i: IslandId)
    requires SysInv(s) && i in s.islands && s.islands[i].toController != []
    ensures var isl := s.islands[i];
            var work := isl.toController[0];
            Ready(WithIsland(s, i, isl.(toController := isl.toController[1..])), Allocate(i, work), work)
  {
    hide Inv, Legal, Settled, SettledIsland, WorkerInv, IslandInv, Requests, OpenIslands;
    var isl := s.islands[i];
    var e := Allocate(i, isl.toController[0]);
    RequestSettles(s.c, i, isl);
    var s1 := WithIsland(s, i, isl.(toController := isl.toController[1..]));
    assert s1.islands.Keys == s.islands.Keys;
    forall w <- s.procs ensures Settled(s.c, e, w, s.procs[w], s.served) {
      OtherWorkersSettled(s.c, e, w, w, s.procs[w], s.served);
    }
    forall j <- s1.islands ensures SettledIsland(s.c, e, j, s1.islands[j]) {
      if j != i {
        OtherIslandsSettled(s.c, i, e.work, j, s.islands[j]);
      }
    }
  }

  // Nothing but worker w changes.
  lemma WorkerLocal(s: System, w: WorkerId, p: Proc)
    requires SysInv(s) && w in s.procs && WorkerInv(s.c, w, p, s.served)
    ensures SysInv(WithProc(s, w, p))
  {
    hide Inv, WorkerInv, IslandInv, Requests, OpenIslands;
  }

  lemma IslandLocal(s: System, i: IslandId, isl: Island)
    requires SysInv(s) && i in s.islands && IslandInv(Requests(s.c), i, isl)
    ensures SysInv(WithIsland(s, i, isl))
  {
    hide Inv, WorkerInv, IslandInv, Requests, OpenIslands;
  }

  // The controller answers a library request.
  lemma ServeKeeps(c: State, w: WorkerId, p: Proc, served: string -> Option<File>)
    requires Inv(c) && WorkerInv(c, w, p, served) && p.outbox != [] && p.outbox[0].GetDll?
    ensures var p1 := p.(outbox := p.outbox[1..]);
            var lib := p.outbox[0].lib;
            WorkerInv(c, w, if p.up then p1.(inbox := p1.inbox + [DllBinary(lib, served(lib))]) else p1, served)
  {
    hide OnePlace, Known, Evolved;
    var rest := p.outbox[1..];
    assert |p.outbox| == 2 ==> rest == [p.outbox[1]];
  }

  lemma StopKeeps(c: State, w: WorkerId, p: Proc, served: string -> Option<File>)
    requires Inv(c) && WorkerInv(c, w, p, served) && p.up
    ensures WorkerInv(c, w, Proc(false, Idle, [], p.outbox + [LeaveMsg]), served)
  {
    hide OnePlace, Known, Evolved;
  }

  lemma OwnStepKeeps(c: State, w: WorkerId, p: Proc, a: Act, served: string -> Option<File>)
    requires WorkerInv(c, w, p, served)
    requires a.Finish? || a.Ask? ==> p.thread.Running?
    requires a.Finish? ==> Evolved(p.thread.work, a.result)
    requires a.Forward? ==> p.thread.Asking? || p.thread.Finished?
    ensures WorkerInv(c, w, OwnStep(p, a), served)
  {
    hide Evolved, GoneAs;
  }

  lemma ReceiveKeeps(c: State, w: WorkerId, p: Proc, served: string -> Option<File>)
    requires WorkerInv(c, w, p, served) && p.inbox != []
    ensures p.up && w in c.alloc
    ensures p.inbox[0].WorkMsg? ==> p.thread == Idle && p.inbox[0].work == c.alloc[w].work
    ensures p.inbox[0].DllBinary? ==> p.thread.Blocked? && p.inbox[0] == DllBinary(p.thread.lib, served(p.thread.lib))
    ensures WorkerInv(c, w, p.(inbox := p.inbox[1..],
              thread := Running(if p.inbox[0].WorkMsg? then p.inbox[0].work
                                else if p.thread.Blocked? then p.thread.work else AnyWork())), served)
  {
    hide Evolved, GoneAs;
  }

  lemma MessageKeeps(s: System, w: WorkerId, p: Pick, now: nat)
    requires SysInv(s) && Enabled(s, TakeMessage(w, p, now))
    ensures SysInv(Next(s, TakeMessage(w, p, now)))
  {
    hide Inv, WorkerInv, IslandInv, Requests, OpenIslands, React, Ready;
    var proc := s.procs[w];
    var m := proc.outbox[0];
    if m.GetDll? {
      hide PickOk;
      ServeKeeps(s.c, w, proc, s.served);
      var p1 := proc.(outbox := proc.outbox[1..]);
      var p2 := if proc.up then p1.(inbox := p1.inbox + [DllBinary(m.lib, s.served(m.lib))]) else p1;
      WorkerLocal(s, w, p2);
      assert Next(s, TakeMessage(w, p, now)) == WithProc(s, w, p2);
    } else {
      var of := if m.ResultsMsg? then m.of else AnyWork();
      MessageReady(s, w, of);
      ReactKeeps(WithProc(s, w, proc.(outbox := proc.outbox[1..])), EventOf(w, m), p, now, of);
    }
  }

  lemma TakeRequestKeeps(s: System, i: IslandId, p: Pick, now: nat)
    requires SysInv(s) && Enabled(s, TakeRequest(i, p, now))
    ensures SysInv(Next(s, TakeRequest(i, p, now)))
  {
    hide Inv, WorkerInv, IslandInv, Requests, OpenIslands, React, Ready, PickOk;
    var isl := s.islands[i];
    var work := isl.toController[0];
    RequestReady(s, i);
    ReactKeeps(WithIsland(s, i, isl.(toController := isl.toController[1..])), Allocate(i, work), p, now, work);
  }

  // The island gets the result computed from its own open request.
  lemma AnswerKeeps(requests: set<Record>, i: IslandId, isl: Island)
    requires IslandInv(requests, i, isl) && isl.fromController != []
    ensures isl.waitingFor.Some? && isl.fromController[0].of == isl.waitingFor.value
    ensures Evolved(isl.waitingFor.value, isl.fromController[0].result)
    ensures IslandInv(requests, i, isl.(waitingFor := None, fromController := isl.fromController[1..]))
  {
    hide Evolved, OpenIslands;
  }

  // The island's population and algorithm are its own affair.
  lemma IslandInvFrame(requests: set<Record>, i: IslandId, isl: Island, pop: Population, algo: string)
    requires IslandInv(requests, i, isl)
    ensures IslandInv(requests, i, isl.(pop := pop, algo := algo))
  {
    hide Evolved, OpenIslands;
  }

  lemma ApplyIsland(s: System, a: Act)
    requires SysInv(s) && Enabled(s, a) && (a.Request? || a.TakeAnswer?)
    ensures SysInv(Next(s, a))
  {
    hide Inv, WorkerInv, Requests, OpenIslands, Evolved;
    match a
    case Request(i, pop) =>
      var isl := s.islands[i];
      var work := Work(isl.algo, pop, isl.preferred, isl.cycleCount);
      var isl' := isl.(pop := pop, waitingFor := Some(work), toController := isl.toController + [work]);
      assert IslandInv(Requests(s.c), i, isl');
      hide IslandInv;
      IslandLocal(s, i, isl');
    case TakeAnswer(i) =>
      hide IslandInv;
      var isl := s.islands[i];
      AnswerKeeps(Requests(s.c), i, isl);
      var answer := isl.fromController[0];
      var isl1 := isl.(waitingFor := None, fromController := isl.fromController[1..]);
      IslandInvFrame(Requests(s.c), i, isl1, answer.result.pop, answer.result.algo);
      IslandLocal(s, i, isl1.(pop := answer.result.pop, algo := answer.result.algo));
  }

  lemma ApplyWorker(s: System, a: Act)
    requires SysInv(s) && Enabled(s, a) && (a.Finish? || a.Ask? || a.Forward?)
    ensures SysInv(Next(s, a))
  {
    hide Inv, WorkerInv, IslandInv, Requests, OpenIslands, Evolved;
    OwnStepKeeps(s.c, a.w, s.procs[a.w], a, s.served);
    WorkerLocal(s, a.w, OwnStep(s.procs[a.w], a));
  }

  lemma ApplyReceive(s: System, w: WorkerId)
    requires SysInv(s) && Enabled(s, Receive(w))
    ensures SysInv(Next(s, Receive(w)))
  {
    hide Inv, WorkerInv, IslandInv, Requests, OpenIslands;
    var p := s.procs[w];
    ReceiveKeeps(s.c, w, p, s.served);
    var work := if p.inbox[0].WorkMsg? then p.inbox[0].work else p.thread.work;
    WorkerLocal(s, w, p.(inbox := p.inbox[1..], thread := Running(work)));
  }

  lemma ConnectKeeps(c: State, w: WorkerId, p: Proc, served: string -> Option<File>)
    requires WorkerInv(c, w, p, served) && !p.up && p.outbox == []
    ensures WorkerInv(c, w, Proc(true, Idle, [], [JoinMsg]), served)
  {
  }

  lemma ApplyProcess(s: System, a: Act)
    requires SysInv(s) && Enabled(s, a) && (a.Stop? || a.Connect?)
    ensures SysInv(Next(s, a))
  {
    hide WorkerInv, IslandInv, Requests, OpenIslands, Inv;
    match a
    case Stop(w) =>
      StopKeeps(s.c, w, s.procs[w], s.served);
      WorkerLocal(s, w, Proc(false, Idle, [], s.procs[w].outbox + [LeaveMsg]));
    case Connect(w) =>
      ConnectKeeps(s.c, w, s.procs[w], s.served);
      WorkerLocal(s, w, Proc(true, Idle, [], [JoinMsg]));
  }

  /** Every step of any process, in any order, keeps the invariant of the whole system. In particular every message the
      controller ever takes is one it handles soundly, and none faults. */
  lemma StepKeeps(s: System, a: Act)
    requires SysInv(s) && Enabled(s, a)
    ensures SysInv(Next(s, a))
  {
    hide SysInv, Enabled, Next;
    match a
    case Request(_, _) => ApplyIsland(s, a);
    case TakeAnswer(_) => ApplyIsland(s, a);
    case TakeRequest(i, p, now) => TakeRequestKeeps(s, i, p, now);
    case TakeMessage(w, p, now) => MessageKeeps(s, w, p, now);
    case Receive(w) => ApplyReceive(s, w);
    case Finish(_, _) => ApplyWorker(s, a);
    case Ask(_, _) => ApplyWorker(s, a);
    case Forward(_) => ApplyWorker(s, a);
    case Stop(_) => ApplyProcess(s, a);
    case Connect(_) => ApplyProcess(s, a);
  }

  /** Nothing connected and no island at work: the state a system starts in. */
  ghost predicate Start(s: System)
  {
    && !s.fault && s.c.free == {} && s.c.waiting == map[] && s.c.alloc == map[] && s.c.repo.connected == {}
    && (forall w <- s.procs :: s.procs[w] == Proc(false, Idle, [], []))
    && (forall i <- s.islands :: var isl := s.islands[i];
          isl.waitingFor == None && isl.toController == [] && isl.fromController == [])
  }

  lemma StartIsSafe(s: System)
    requires Start(s)
    ensures SysInv(s)
  {
    assert Requests(s.c) == {};
  }

  // A run: states joined by steps.
  ghost predicate Run(states: seq<System>, acts: seq<Act>)
  {
    && |states| == |acts| + 1
    && forall k :: 0 <= k < |acts| ==> Enabled(states[k], acts[k]) && states[k + 1] == Next(states[k], acts[k])
  }

  lemma {:induction false} RunIsSafe(states: seq<System>, acts: seq<Act>, k: nat)
    requires Run(states, acts) && SysInv(states[0]) && k < |states|
    ensures SysInv(states[k])
  {
    if k > 0 {
      RunIsSafe(states, acts, k - 1);
      StepKeeps(states[k - 1], acts[k - 1]);
    }
  }
}
