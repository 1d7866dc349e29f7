/** Whole runs of the controller: every request is answered exactly once with its data intact, the open requests
    drain, and the statistics add up. */
module ControllerRuns {
  import opened Common
  import opened WorkerRepo
  import opened ControllerSpec
  import opened ControllerInvariant

  ghost function WaitingRecords(waiting: map<IslandId, Work>): set<Record>
  {
    set i | i in waiting :: Record(i, waiting[i])
  }

  // The open requests with their data: those of waiting islands and those some worker has.
  ghost function Requests(s: State): set<Record> { WaitingRecords(s.waiting) + s.alloc.Values }

  lemma ValuesAdd(alloc: map<WorkerId, Record>, w: WorkerId, r: Record)
    requires w !in alloc
    ensures alloc[w := r].Values == alloc.Values + {r}
  {
    var m := alloc[w := r];
    assert m[w] == r;
    forall v <- alloc ensures m[v] == alloc[v] {
    }
  }

  lemma ValuesRemove(alloc: map<WorkerId, Record>, waiting: map<IslandId, Work>, w: WorkerId)
    requires OnePlace(alloc, waiting) && w in alloc
    ensures (alloc - {w}).Values == alloc.Values - {alloc[w]}
    ensures alloc[w] !in WaitingRecords(waiting)
  {
    var m := alloc - {w};
    forall v <- m ensures m[v] == alloc[v] && alloc[v] != alloc[w] {
    }
    forall r <- alloc.Values | r != alloc[w] ensures r in m.Values {
      var v :| v in alloc && alloc[v] == r;
      assert m[v] == r;
    }
  }

  lemma WaitingAdd(waiting: map<IslandId, Work>, i: IslandId, work: Work)
    requires i !in waiting
    ensures WaitingRecords(waiting[i := work]) == WaitingRecords(waiting) + {Record(i, work)}
  {
    var m := waiting[i := work];
    assert m[i] == work && forall j <- waiting :: m[j] == waiting[j];
  }

  lemma WaitingRemove(waiting: map<IslandId, Work>, i: IslandId)
    requires i in waiting
    ensures WaitingRecords(waiting) == WaitingRecords(waiting - {i}) + {Record(i, waiting[i])}
  {
    var m := waiting - {i};
    assert forall j <- m :: m[j] == waiting[j];
  }

  // Giving out or queueing a request adds exactly it; handing a waiting one to a worker adds none.
  lemma RequestsOfReallocate(s: State, i: IslandId, work: Work, first: WorkerId, now: nat)
    requires Inv(s) && (s.free != {} ==> first in s.free) && !Open(s, i)
    ensures Requests(AllocateIslandWork(s, i, work, first, now).s) == Requests(s) + {Record(i, work)}
  {
    hide OnePlace, Busy, Known, Split, WaitingRecords;
    if s.free == {} {
      WaitingAdd(s.waiting, i, work);
    } else {
      AllocateWorkerStep(s, i, work, first, now);
      ValuesAdd(s.alloc, Chosen(s.free, work, first), Record(i, work));
    }
  }

  lemma RequestsOfAddFree(s: State, w: WorkerId, p: Pick, now: nat)
    requires Split(s.repo.connected, s.free + {w}, s.alloc.Keys) && Known(s.repo)
    requires s.free == {} || s.waiting == map[]
    requires p.worker in s.free + {w} && (s.waiting != map[] ==> p.island in s.waiting)
    ensures Requests(AddFreeWorker(s, w, p, now).s) == Requests(s)
  {
    hide Known, Split, WaitingRecords;
    if s.waiting != map[] {
      FreedAndAllocated(s, w, p, now);
      WaitingRemove(s.waiting, p.island);
      ValuesAdd(s.alloc, w, Record(p.island, s.waiting[p.island]));
    }
  }

  ghost function RequestsAfter(s: State, e: Event): set<Record>
    requires Legal(s, e)
  {
    match e
    case Allocate(i, work) => Requests(s) + {Record(i, work)}
    case Results(w, _) => Requests(s) - {s.alloc[w]}
    case _ => Requests(s)
  }

  lemma RequestsOfJoin(s: State, w: WorkerId, p: Pick, now: nat)
    requires Inv(s) && w !in s.alloc
    requires p.worker in s.free + {w} && (s.waiting != map[] ==> p.island in s.waiting)
    ensures Requests(HandleJoin(s, w, p, now).s) == Requests(s)
  {
    hide OnePlace, Busy, Known, Split, AddFreeWorker, Joined;
    if w !in s.free {
      SplitJoin(s.repo.connected, s.free, s.alloc.Keys, w);
      KnownMoves(s.repo, w);
      RequestsOfAddFree(s.(repo := Joined(s.repo, w)), w, p, now);
    }
  }

  lemma RequestsWithoutWorker(s: State, w: WorkerId)
    requires OnePlace(s.alloc, s.waiting) && w in s.alloc
    ensures Requests(s) == Requests(WithoutWorker(s, w)) + {s.alloc[w]}
  {
    ValuesRemove(s.alloc, s.waiting, w);
    hide WaitingRecords, OnePlace;
  }

  lemma RequestsDelivered(s: State, w: WorkerId, result: Work, now: nat)
    requires OnePlace(s.alloc, s.waiting) && w in s.alloc
    ensures Requests(Delivered(s, w, result, now)) == Requests(s) - {s.alloc[w]}
  {
    ValuesRemove(s.alloc, s.waiting, w);
    hide WaitingRecords, OnePlace;
  }

  lemma RequestsOfLeave(s: State, w: WorkerId, p: Pick, now: nat)
    requires Inv(s) && (s.free - {w} != {} ==> p.worker in s.free - {w})
    ensures Requests(HandleLeave(s, w, p, now).s) == Requests(s)
  {
    if w !in s.alloc {
      KeysRemoved(s.alloc, w);
    } else {
      RequestsWithoutWorker(s, w);
      KeepsWithoutWorker(s, w);
      hide Inv, AllocateIslandWork, WithoutWorker, Requests;
      RequestsOfReallocate(WithoutWorker(s, w), s.alloc[w].islandId, s.alloc[w].work, p.worker, now);
    }
  }

  lemma RequestsOfResults(s: State, w: WorkerId, result: Work, p: Pick, now: nat)
    requires Inv(s) && w in s.alloc
    requires p.worker in s.free + {w} && (s.waiting != map[] ==> p.island in s.waiting)
    ensures Requests(HandleResults(s, w, result, p, now).s) == Requests(s) - {s.alloc[w]}
  {
    RequestsDelivered(s, w, result, now);
    KeepsDelivered(s, w, result, now);
    hide OnePlace, Busy, Split, Known, AddFreeWorker, FinishedWork, Requests, Delivered;
    RequestsOfAddFree(Delivered(s, w, result, now), w, p, now);
  }

  /** What a message does to the open requests: a request opens one, a result closes the one its worker had, and joins
      and leaves change none of them, whichever worker they are moved to. */
  lemma RequestsStep(s: State, e: Event, p: Pick, now: nat)
    requires Inv(s) && PickOk(s, e, p) && Legal(s, e)
    ensures Requests(Handle(s, e, p, now).s) == RequestsAfter(s, e)
  {
    hide Inv, Requests, HandleJoin, HandleLeave, HandleResults, AllocateIslandWork;
    match e
    case Join(w) => RequestsOfJoin(s, w, p, now);
    case Leave(w) => RequestsOfLeave(s, w, p, now);
    case Results(w, result) => RequestsOfResults(s, w, result, p, now);
    case Allocate(i, work) => RequestsOfReallocate(s, i, work, p.worker, now);
  }

  // One message handled: the message, what iteration yielded, and the time.
  datatype Step = Step(e: Event, p: Pick, now: nat)

  // Every message of the run was legal when it was handled.
  ghost predicate LegalRun(s: State, steps: seq<Step>)
    decreases |steps|, 0
  {
    steps == [] ||
    var init, last := steps[..|steps| - 1], steps[|steps| - 1];
    LegalRun(s, init) && PickOk(After(s, init), last.e, last.p) && Legal(After(s, init), last.e)
  }

  ghost function After(s: State, steps: seq<Step>): State
    requires LegalRun(s, steps)
    decreases |steps|, 1
  {
    if steps == [] then s
    else
      var init, last := steps[..|steps| - 1], steps[|steps| - 1];
      Handle(After(s, init), last.e, last.p, last.now).s
  }

  // Everything sent during the run.
  ghost function Sent(s: State, steps: seq<Step>): seq<Out>
    requires LegalRun(s, steps)
  {
    if steps == [] then []
    else
      var init, last := steps[..|steps| - 1], steps[|steps| - 1];
      Sent(s, init) + Handle(After(s, init), last.e, last.p, last.now).outs
  }

  lemma {:induction false} RunKeepsInv(s: State, steps: seq<Step>)
    requires Inv(s) && LegalRun(s, steps)
    ensures Inv(After(s, steps))
  {
    if steps != [] {
      var init, last := steps[..|steps| - 1], steps[|steps| - 1];
      RunKeepsInv(s, init);
      LegalIsSound(After(s, init), last.e, last.p, last.now);
      hide Inv, Legal, Handle;
    }
  }

  ghost function Received(steps: seq<Step>, i: IslandId): nat
  {
    if steps == [] then 0
    else
      var last := steps[|steps| - 1].e;
      Received(steps[..|steps| - 1], i) + if last.Allocate? && last.island == i then 1 else 0
  }

  ghost function Answered(outs: seq<Out>, i: IslandId): nat
  {
    if outs == [] then 0
    else
      var last := outs[|outs| - 1];
      Answered(outs[..|outs| - 1], i) + if last.ToIsland? && last.island == i then 1 else 0
  }

  lemma {:induction false} AnsweredConcat(a: seq<Out>, b: seq<Out>, i: IslandId)
    ensures Answered(a + b, i) == Answered(a, i) + Answered(b, i)
  {
    if b == [] {
      assert a + b == a;
    } else {
      assert (a + b)[..|a + b| - 1] == a + b[..|b| - 1];
      AnsweredConcat(a, b[..|b| - 1], i);
    }
  }

  // Islands with a request open.
  ghost function OpenIslands(requests: set<Record>): set<IslandId> { set r <- requests :: r.islandId }

  // An island is open at most once.
  ghost predicate OneEach(requests: set<Record>)
  {
    forall q, r :: q in requests && r in requests && q.islandId == r.islandId ==> q == r
  }

  lemma OpenIffListed(s: State, i: IslandId)
    requires OnePlace(s.alloc, s.waiting)
    ensures OneEach(Requests(s))
    ensures Open(s, i) <==> i in OpenIslands(Requests(s))
  {
    if i in s.waiting {
      assert Record(i, s.waiting[i]) in Requests(s);
    } else if Busy(s.alloc, i) {
      var w :| w in s.alloc && s.alloc[w].islandId == i;
      assert s.alloc[w] in Requests(s);
    }
  }

  // Giving out work answers nobody.
  lemma NoAnswers(s: State, w: WorkerId, island: IslandId, work: Work, p: Pick, now: nat, i: IslandId)
    requires s.waiting != map[] ==> p.island in s.waiting
    ensures Answered(AllocateIslandWork(s, island, work, p.worker, now).outs, i) == 0
    ensures Answered(AddFreeWorker(s, w, p, now).outs, i) == 0
  {
  }

  lemma AnswersOfResults(s: State, w: WorkerId, result: Work, p: Pick, now: nat, i: IslandId)
    requires Inv(s) && w in s.alloc && (s.waiting != map[] ==> p.island in s.waiting)
    ensures Answered(HandleResults(s, w, result, p, now).outs, i) == if s.alloc[w].islandId == i then 1 else 0
  {
    KeepsDelivered(s, w, result, now);
    hide Inv, AddFreeWorker, FinishedWork, Delivered;
    var t := Delivered(s, w, result, now);
    var answer := ToIsland(s.alloc[w].islandId, result);
    assert Answered([answer], i) == if s.alloc[w].islandId == i then 1 else 0;
    NoAnswers(t, w, i, result, p, now, i);
    AnsweredConcat([answer], AddFreeWorker(t, w, p, now).outs, i);
  }

  // What is sent: an answer to the island whose work the worker had, and nothing else to any island.
  lemma AnswersOfStep(s: State, e: Event, p: Pick, now: nat, i: IslandId)
    requires Inv(s) && PickOk(s, e, p) && Legal(s, e)
    ensures Answered(Handle(s, e, p, now).outs, i)
         == if e.Results? && s.alloc[e.worker].islandId == i then 1 else 0
  {
    hide Inv, AddFreeWorker, AllocateIslandWork, HandleResults;
    match e
    case Results(w, result) => AnswersOfResults(s, w, result, p, now, i);
    case Join(w) => NoAnswers(s.(repo := Joined(s.repo, w)), w, i, AnyWork(), p, now, i);
    case Leave(w) =>
      if w in s.alloc {
        NoAnswers(WithoutWorker(s, w), w, s.alloc[w].islandId, s.alloc[w].work, p, now, i);
      }
    case Allocate(island, work) => NoAnswers(s, "", island, work, p, now, i);
  }

  ghost function AnyWork(): Work { Work("", [], "", 0) }

  ghost function One(b: bool): nat { if b then 1 else 0 }

  ghost predicate Pending(s: State, i: IslandId) { i in OpenIslands(Requests(s)) }

  // Requests and answers of one step, for one island.
  lemma AccountStep(s: State, e: Event, p: Pick, now: nat, i: IslandId)
    requires Inv(s) && PickOk(s, e, p) && Legal(s, e)
    ensures var r := Handle(s, e, p, now);
            One(Pending(s, i)) + One(e.Allocate? && e.island == i)
            == One(Pending(r.s, i)) + One(e.Results? && s.alloc[e.worker].islandId == i)
    ensures OneEach(Requests(Handle(s, e, p, now).s))
  {
    RequestsStep(s, e, p, now);
    LegalIsSound(s, e, p, now);
    OpenIffListed(s, i);
    OpenIffListed(Handle(s, e, p, now).s, i);
    hide Handle, Inv;
    AccountSets(s, e, i, Requests(s), RequestsAfter(s, e));
  }

  lemma AccountSets(s: State, e: Event, i: IslandId, before: set<Record>, after: set<Record>)
    requires Legal(s, e) && before == Requests(s) && after == RequestsAfter(s, e) && OneEach(before)
    requires e.Allocate? ==> e.island !in OpenIslands(before)
    ensures One(i in OpenIslands(before)) + One(e.Allocate? && e.island == i)
         == One(i in OpenIslands(after)) + One(e.Results? && s.alloc[e.worker].islandId == i)
  {
    match e
    case Results(w, _) =>
      assert s.alloc[w] in before;
      assert i in OpenIslands(before) <==> i in OpenIslands(after) || i == s.alloc[w].islandId;
    case Allocate(j, work) =>
      assert Record(j, work) in after;
      assert i in OpenIslands(after) <==> i in OpenIslands(before) || i == j;
    case Join(_) =>
    case Leave(_) =>
  }

  /** Exactly once. Over every legal run and for every island: the requests received, with the one open at the start if
      any, are the answers sent, with the one open at the end if any. So no request is lost, and none answered twice,
      however often workers join, leave and hand over. */
  lemma {:induction false} ExactlyOnce(s: State, steps: seq<Step>, i: IslandId)
    requires Inv(s) && LegalRun(s, steps)
    ensures Received(steps, i) + One(Pending(s, i))
         == Answered(Sent(s, steps), i) + One(Pending(After(s, steps), i))
  {
    if steps != [] {
      var init, last := steps[..|steps| - 1], steps[|steps| - 1];
      ExactlyOnce(s, init, i);
      RunKeepsInv(s, init);
      var t := After(s, init);
      AccountStep(t, last.e, last.p, last.now, i);
      AnswersOfStep(t, last.e, last.p, last.now, i);
      hide Inv, Legal, Handle, Pending, PickOk;
      AnsweredConcat(Sent(s, init), Handle(t, last.e, last.p, last.now).outs, i);
    }
  }

  // The data of the island's latest request of the run.
  ghost function LastRequest(steps: seq<Step>, i: IslandId): Option<Work>
  {
    if steps == [] then None
    else
      var last := steps[|steps| - 1].e;
      if last.Allocate? && last.island == i then Some(last.work) else LastRequest(steps[..|steps| - 1], i)
  }

  /** Data intact: what is held for an island, waiting or with a worker, is the data of its latest request, through
      any number of leaves and new allocations. */
  lemma {:induction false} DataIntact(s: State, steps: seq<Step>, r: Record)
    requires Inv(s) && LegalRun(s, steps) && r in Requests(After(s, steps))
    ensures LastRequest(steps, r.islandId) == Some(r.work)
            || (LastRequest(steps, r.islandId) == None && r in Requests(s))
  {
    if steps != [] {
      var init, last := steps[..|steps| - 1], steps[|steps| - 1];
      RunKeepsInv(s, init);
      var t := After(s, init);
      RequestsStep(t, last.e, last.p, last.now);
      if r in Requests(t) {
        DataIntact(s, init, r);
        if last.e.Allocate? && last.e.island == r.islandId {
          OpenIffListed(t, r.islandId);
          assert false;
        }
      }
    }
  }

  // Work goes out only to the worker it is then recorded for.
  lemma SentIsRecorded(s: State, e: Event, p: Pick, now: nat, o: Out)
    requires Inv(s) && PickOk(s, e, p) && Legal(s, e)
    requires var r := Handle(s, e, p, now); o in r.outs && o.ToWorker?
    ensures var t := Handle(s, e, p, now).s;
            o.worker in t.alloc && t.alloc[o.worker].work == o.work && t.alloc[o.worker] in Requests(t)
  {
    match e
    case Join(w) =>
      SplitJoin(s.repo.connected, s.free, s.alloc.Keys, w);
      KnownMoves(s.repo, w);
      SentByAddFree(s.(repo := Joined(s.repo, w)), w, p, now, o);
    case Leave(w) =>
      KeepsWithoutWorker(s, w);
      if w in s.alloc {
        SentByAllocate(WithoutWorker(s, w), s.alloc[w].islandId, s.alloc[w].work, p.worker, now, o);
      }
    case Results(w, result) =>
      KeepsDelivered(s, w, result, now);
      SentByAddFree(Delivered(s, w, result, now), w, p, now, o);
    case Allocate(i, work) => SentByAllocate(s, i, work, p.worker, now, o);
  }

  lemma SentByAllocate(s: State, i: IslandId, work: Work, first: WorkerId, now: nat, o: Out)
    requires Inv(s) && (s.free != {} ==> first in s.free)
    requires o in AllocateIslandWork(s, i, work, first, now).outs
    ensures var t := AllocateIslandWork(s, i, work, first, now).s;
            o.ToWorker? && o.worker in t.alloc && t.alloc[o.worker].work == o.work && t.alloc[o.worker] in Requests(t)
  {
    hide OnePlace, Known;
    AllocateWorkerStep(s, i, work, first, now);
  }

  lemma SentByAddFree(s: State, w: WorkerId, p: Pick, now: nat, o: Out)
    requires Split(s.repo.connected, s.free + {w}, s.alloc.Keys) && Known(s.repo)
    requires s.free == {} || s.waiting == map[]
    requires p.worker in s.free + {w} && (s.waiting != map[] ==> p.island in s.waiting)
    requires o in AddFreeWorker(s, w, p, now).outs
    ensures var t := AddFreeWorker(s, w, p, now).s;
            o.ToWorker? && o.worker in t.alloc && t.alloc[o.worker].work == o.work && t.alloc[o.worker] in Requests(t)
  {
    hide Split, Known;
    FreedAndAllocated(s, w, p, now);
  }

  /** A request is always either being worked on or waiting for busy workers: while a worker is connected and any
      request is open, some worker is allocated. */
  lemma SomeoneWorks(s: State)
    requires Inv(s) && s.repo.connected != {} && Size(s) > 0
    ensures s.alloc != map[]
  {
    assert s.free == {} ==> s.repo.connected == s.alloc.Keys;
    assert s.waiting == map[] ==> |s.alloc| > 0;
  }

  ghost predicate ResultsOnly(steps: seq<Step>) { forall k :: 0 <= k < |steps| ==> steps[k].e.Results? }

  lemma {:induction false} NothingReceived(steps: seq<Step>, i: IslandId)
    requires ResultsOnly(steps)
    ensures Received(steps, i) == 0
  {
    if steps != [] {
      NothingReceived(steps[..|steps| - 1], i);
    }
  }

  lemma {:induction false} ResultsShrink(s: State, steps: seq<Step>)
    requires Inv(s) && LegalRun(s, steps) && ResultsOnly(steps)
    ensures Size(After(s, steps)) + |steps| == Size(s)
    ensures After(s, steps).repo.connected == s.repo.connected
  {
    if steps != [] {
      var init, last := steps[..|steps| - 1], steps[|steps| - 1];
      ResultsShrink(s, init);
      RunKeepsInv(s, init);
      var t := After(s, init);
      LegalIsSound(t, last.e, last.p, last.now);
      ResultsKeepConnected(t, last.e, last.p, last.now);
      hide Inv, Legal, PickOk, Handle;
    }
  }

  lemma ResultsKeepConnected(s: State, e: Event, p: Pick, now: nat)
    requires Inv(s) && e.Results? && Legal(s, e) && PickOk(s, e, p)
    ensures Handle(s, e, p, now).s.repo.connected == s.repo.connected
  {
    KeepsDelivered(s, e.worker, e.result, now);
    hide Split, OnePlace, Known;
    if s.waiting != map[] {
      FreedAndAllocated(Delivered(s, e.worker, e.result, now), e.worker, p, now);
    }
  }

  /** Drain. From any state with a connected worker, with no more requests, joins or leaves: as long as fewer results
      than open requests have come in, some worker is still allocated; and once as many have come in, nothing is open,
      and exactly the islands that had a request open got an answer, one each. */
  lemma Drain(s: State, steps: seq<Step>)
    requires Inv(s) && s.repo.connected != {} && LegalRun(s, steps) && ResultsOnly(steps)
    ensures |steps| <= Size(s)
    ensures |steps| < Size(s) ==> After(s, steps).alloc != map[]
    ensures |steps| == Size(s) ==> Requests(After(s, steps)) == {}
    ensures |steps| == Size(s) ==> forall i :: Answered(Sent(s, steps), i) == One(Pending(s, i))
  {
    ResultsShrink(s, steps);
    RunKeepsInv(s, steps);
    hide Inv, LegalRun, After, Sent, Pending, Size, Requests, ResultsOnly;
    if |steps| < Size(s) {
      SomeoneWorks(After(s, steps));
    } else {
      NothingOpen(After(s, steps));
      forall i ensures Answered(Sent(s, steps), i) == One(Pending(s, i)) {
        NothingReceived(steps, i);
        ExactlyOnce(s, steps, i);
        NothingPending(After(s, steps), i);
      }
    }
  }

  lemma NothingOpen(s: State)
    requires Size(s) == 0
    ensures Requests(s) == {}
  {
    assert s.waiting == map[] && s.alloc == map[];
  }

  lemma NothingPending(s: State, i: IslandId)
    requires Requests(s) == {}
    ensures !Pending(s, i)
  {
  }

  // Individuals in the results handled during the run.
  ghost function IndividualsDelivered(steps: seq<Step>): nat
  {
    if steps == [] then 0
    else
      var last := steps[|steps| - 1].e;
      IndividualsDelivered(steps[..|steps| - 1]) + if last.Results? then |last.result.pop| else 0
  }

  lemma StatsOfAddFree(s: State, w: WorkerId, p: Pick, now: nat)
    requires AllBalanced(s.repo) && (s.waiting != map[] ==> p.island in s.waiting)
    ensures var r := AddFreeWorker(s, w, p, now).s.repo; AllBalanced(r) && GrandTotal(r) == GrandTotal(s.repo)
  {
    hide AllBalanced, GrandTotal, StartedWork;
    forall v {
      StatsOfStart(s.repo, v, now);
    }
  }

  lemma StatsOfAllocate(s: State, i: IslandId, work: Work, first: WorkerId, now: nat)
    requires AllBalanced(s.repo)
    ensures var r := AllocateIslandWork(s, i, work, first, now).s.repo;
            AllBalanced(r) && GrandTotal(r) == GrandTotal(s.repo)
  {
    hide AllBalanced, GrandTotal, StartedWork;
    StatsOfStart(s.repo, Chosen(s.free, work, first), now);
  }

  lemma StatsStep(s: State, e: Event, p: Pick, now: nat)
    requires Inv(s) && PickOk(s, e, p) && Legal(s, e) && AllBalanced(s.repo)
    ensures var r := Handle(s, e, p, now).s.repo;
            AllBalanced(r) && if e.Results? then Grows(GrandTotal(s.repo), GrandTotal(r), |e.result.pop|)
                              else GrandTotal(r) == GrandTotal(s.repo)
  {
    hide Inv, AllBalanced, GrandTotal, AddFreeWorker, AllocateIslandWork, Joined, Left, FinishedWork, Grows;
    match e
    case Join(w) =>
      StatsOfJoin(s.repo, w);
      StatsOfAddFree(s.(repo := Joined(s.repo, w)), w, p, now);
    case Leave(w) =>
      StatsOfLeave(s.repo, w);
      if w in s.alloc {
        StatsOfAllocate(WithoutWorker(s, w), s.alloc[w].islandId, s.alloc[w].work, p.worker, now);
      }
    case Results(w, result) =>
      KeepsDelivered(s, w, result, now);
      BusyIsConnected(s, w);
      StatsOfFinish(s.repo, w, |result.pop|, result.algo, now);
      StatsOfAddFree(Delivered(s, w, result, now), w, p, now);
    case Allocate(i, work) => StatsOfAllocate(s, i, work, p.worker, now);
  }

  lemma StatsOfLeave(r: Repo, w: WorkerId)
    requires AllBalanced(r)
    ensures AllBalanced(Left(r, w)) && GrandTotal(Left(r, w)) == GrandTotal(r)
  {
    assert ProcessedBy(Left(r, w)) == ProcessedBy(r);
  }

  /** Statistics conservation over every legal run: each worker's totals stay the sums over its algorithms, leaving and
      rejoining included, and the grand total of processed individuals grows by exactly the sizes of the results as long
      as a counter can hold it, and modulo 2^64 always. */
  lemma {:induction false} StatsConserved(s: State, steps: seq<Step>)
    requires Inv(s) && LegalRun(s, steps) && AllBalanced(s.repo)
    ensures AllBalanced(After(s, steps).repo)
    ensures Grows(GrandTotal(s.repo), GrandTotal(After(s, steps).repo), IndividualsDelivered(steps))
  {
    hide AllBalanced, GrandTotal, Handle, Grows, Inv, Legal, PickOk;
    if steps == [] {
      GrowsNot(GrandTotal(s.repo));
    } else {
      var init, last := steps[..|steps| - 1], steps[|steps| - 1];
      var t := After(s, init);
      StatsConserved(s, init);
      RunKeepsInv(s, init);
      StatsStep(t, last.e, last.p, last.now);
      if last.e.Results? {
        GrowsTwice(GrandTotal(s.repo), GrandTotal(t.repo), GrandTotal(After(s, steps).repo), IndividualsDelivered(init),
                   |last.e.result.pop|);
      }
    }
  }

  ghost predicate GivenWork(outs: seq<Out>, w: WorkerId) { exists o <- outs :: o.ToWorker? && o.worker == w }

  // Giving out work changes a start time only, and that of the worker that gets it.
  ghost predicate OnlyStarts(before: Repo, after: Repo, outs: seq<Out>, w: WorkerId, now: nat)
    requires w in before.records
  {
    && w in after.records && after.records[w].total == before.records[w].total
    && after.records[w].lastStart == if GivenWork(outs, w) then now else before.records[w].lastStart
  }

  lemma StartsOfAllocate(s: State, i: IslandId, work: Work, first: WorkerId, now: nat, w: WorkerId)
    requires w in s.repo.records
    ensures var r := AllocateIslandWork(s, i, work, first, now); OnlyStarts(s.repo, r.s.repo, r.outs, w, now)
  {
    var v := Chosen(s.free, work, first);
    assert ToWorker(v, work) in [ToWorker(v, work)];
  }

  lemma StartsOfAddFree(s: State, v: WorkerId, p: Pick, now: nat, w: WorkerId)
    requires w in s.repo.records && (s.waiting != map[] ==> p.island in s.waiting)
    ensures var r := AddFreeWorker(s, v, p, now); OnlyStarts(s.repo, r.s.repo, r.outs, w, now)
  {
    if s.waiting != map[] {
      var s1 := s.(free := s.free + {v}, waiting := s.waiting - {p.island});
      var u := Chosen(s1.free, s.waiting[p.island], p.worker);
      assert ToWorker(u, s.waiting[p.island]) in [ToWorker(u, s.waiting[p.island])];
    }
  }

  // What one message does to a worker's totals: only its own results change them.
  ghost function TotalAfter(s: State, e: Event, now: nat, w: WorkerId): Stats
    requires w in s.repo.records
  {
    var info := s.repo.records[w];
    if e.Results? && e.worker == w then Plus(info.total, Millis(info.lastStart, now), |e.result.pop|) else info.total
  }

  ghost predicate RecordFollows(s: State, e: Event, now: nat, r: Outcome, w: WorkerId)
    requires w in s.repo.records
  {
    && w in r.s.repo.records && r.s.repo.records[w].total == TotalAfter(s, e, now, w)
    && r.s.repo.records[w].lastStart == if GivenWork(r.outs, w) then now else s.repo.records[w].lastStart
  }

  lemma ResultsFollow(s: State, v: WorkerId, result: Work, p: Pick, now: nat, w: WorkerId)
    requires Inv(s) && v in s.alloc && w in s.repo.records && (s.waiting != map[] ==> p.island in s.waiting)
    ensures RecordFollows(s, Results(v, result), now, HandleResults(s, v, result, p, now), w)
  {
    KeepsDelivered(s, v, result, now);
    hide Inv, AddFreeWorker;
    var t := Delivered(s, v, result, now);
    StartsOfAddFree(t, v, p, now, w);
    var outs := AddFreeWorker(t, v, p, now).outs;
    assert GivenWork([ToIsland(s.alloc[v].islandId, result)] + outs, w) <==> GivenWork(outs, w);
  }

  lemma RecordStep(s: State, e: Event, p: Pick, now: nat, w: WorkerId)
    requires Inv(s) && PickOk(s, e, p) && Legal(s, e) && w in s.repo.records
    ensures RecordFollows(s, e, now, Handle(s, e, p, now), w)
  {
    hide Inv, AddFreeWorker, AllocateIslandWork, HandleResults, GivenWork;
    match e
    case Results(v, result) => ResultsFollow(s, v, result, p, now, w);
    case Join(v) =>
      NobodyGiven(w);
      StartsOfAddFree(s.(repo := Joined(s.repo, v)), v, p, now, w);
    case Leave(v) =>
      NobodyGiven(w);
      if v in s.alloc {
        StartsOfAllocate(WithoutWorker(s, v), s.alloc[v].islandId, s.alloc[v].work, p.worker, now, w);
      }
    case Allocate(i, work) => StartsOfAllocate(s, i, work, p.worker, now, w);
  }

  lemma NobodyGiven(w: WorkerId)
    ensures !GivenWork([], w)
  {
  }

  // Individuals in the results received from this worker.
  ghost function IndividualsFrom(steps: seq<Step>, w: WorkerId): nat
  {
    if steps == [] then 0
    else
      var last := steps[|steps| - 1].e;
      IndividualsFrom(steps[..|steps| - 1], w) + if last.Results? && last.worker == w then |last.result.pop| else 0
  }

  // When this worker was last given work.
  ghost function LastGiven(s: State, steps: seq<Step>, w: WorkerId): nat
    requires LegalRun(s, steps) && w in s.repo.records
  {
    if steps == [] then s.repo.records[w].lastStart
    else
      var init, last := steps[..|steps| - 1], steps[|steps| - 1];
      if GivenWork(Handle(After(s, init), last.e, last.p, last.now).outs, w) then last.now else LastGiven(s, init, w)
  }

  // The time from being given work to each of its results.
  ghost function TimeWorked(s: State, steps: seq<Step>, w: WorkerId): int
    requires LegalRun(s, steps) && w in s.repo.records
  {
    if steps == [] then 0
    else
      var init, last := steps[..|steps| - 1], steps[|steps| - 1];
      TimeWorked(s, init, w)
      + if last.e.Results? && last.e.worker == w then Millis(LastGiven(s, init, w), last.now) else 0
  }

  lemma PlusTwice(t: Stats, a: int, x: nat, b: int, y: nat)
    ensures Plus(Plus(t, a, x), b, y) == Plus(t, a + b, x + y)
  {
    WrapTwice(t.workTime + a, b);
    WrapTwice(t.processed + x, y);
    hide Wrap;
  }

  lemma PlusNothing(t: Stats)
    ensures Plus(t, 0, 0) == t
  {
  }

  /** A worker's totals survive everything: over every legal run, with any leaving and rejoining, its processed
      individuals are those it had plus the sizes of exactly its own results, and its work time is what it had plus
      the times from being given work to those results; both counters wrap at 2^64. */
  lemma {:induction false} TotalsSurvive(s: State, steps: seq<Step>, w: WorkerId)
    requires Inv(s) && LegalRun(s, steps) && w in s.repo.records
    ensures var records := After(s, steps).repo.records;
            && w in records && records[w].lastStart == LastGiven(s, steps, w)
            && records[w].total == Plus(s.repo.records[w].total, TimeWorked(s, steps, w), IndividualsFrom(steps, w))
  {
    hide Inv, Legal, PickOk, Handle, GivenWork, Millis, Plus;
    if steps == [] {
      PlusNothing(s.repo.records[w].total);
    } else {
      var init, last := steps[..|steps| - 1], steps[|steps| - 1];
      var t := After(s, init);
      TotalsSurvive(s, init, w);
      RunKeepsInv(s, init);
      RecordStep(t, last.e, last.p, last.now, w);
      var ms := Millis(LastGiven(s, init, w), last.now);
      if last.e.Results? && last.e.worker == w {
        PlusTwice(s.repo.records[w].total, TimeWorked(s, init, w), IndividualsFrom(init, w), ms, |last.e.result.pop|);
      }
    }
  }

  // Results of this worker under this algorithm name: their individuals, and the time they took.
  ghost function IndividualsUnder(steps: seq<Step>, w: WorkerId, name: string): nat
  {
    if steps == [] then 0
    else
      var last := steps[|steps| - 1].e;
      IndividualsUnder(steps[..|steps| - 1], w, name)
      + if last.Results? && last.worker == w && last.result.algo == name then |last.result.pop| else 0
  }

  ghost function TimeUnder(s: State, steps: seq<Step>, w: WorkerId, name: string): int
    requires LegalRun(s, steps) && w in s.repo.records
  {
    if steps == [] then 0
    else
      var init, last := steps[..|steps| - 1], steps[|steps| - 1];
      TimeUnder(s, init, w, name)
      + if last.e.Results? && last.e.worker == w && last.e.result.algo == name
        then Millis(LastGiven(s, init, w), last.now) else 0
  }

  // Giving out work leaves the counters under every name alone.
  ghost predicate SameUnder(before: Repo, after: Repo, w: WorkerId, name: string)
    requires w in before.records
  {
    w in after.records && UnderName(after.records[w], name) == UnderName(before.records[w], name)
  }

  lemma UnderOfAllocate(s: State, i: IslandId, work: Work, first: WorkerId, now: nat, w: WorkerId, name: string)
    requires w in s.repo.records
    ensures SameUnder(s.repo, AllocateIslandWork(s, i, work, first, now).s.repo, w, name)
  {
  }

  lemma UnderOfAddFree(s: State, v: WorkerId, p: Pick, now: nat, w: WorkerId, name: string)
    requires w in s.repo.records && (s.waiting != map[] ==> p.island in s.waiting)
    ensures SameUnder(s.repo, AddFreeWorker(s, v, p, now).s.repo, w, name)
  {
  }

  // What one message does under a name: only the worker's own results under that name change it.
  ghost function UnderAfter(s: State, e: Event, now: nat, w: WorkerId, name: string): Stats
    requires w in s.repo.records
  {
    var info := s.repo.records[w];
    if e.Results? && e.worker == w && e.result.algo == name then
      Plus(UnderName(info, name), Millis(info.lastStart, now), |e.result.pop|)
    else UnderName(info, name)
  }

  lemma UnderStep(s: State, e: Event, p: Pick, now: nat, w: WorkerId, name: string)
    requires Inv(s) && PickOk(s, e, p) && Legal(s, e) && w in s.repo.records
    ensures var records := Handle(s, e, p, now).s.repo.records;
            w in records && UnderName(records[w], name) == UnderAfter(s, e, now, w, name)
  {
    hide Inv, AddFreeWorker, AllocateIslandWork, Plus, Millis;
    match e
    case Results(v, result) => UnderOfResults(s, v, result, p, now, w, name);
    case Join(v) => UnderOfAddFree(s.(repo := Joined(s.repo, v)), v, p, now, w, name);
    case Leave(v) =>
      if v in s.alloc {
        UnderOfAllocate(WithoutWorker(s, v), s.alloc[v].islandId, s.alloc[v].work, p.worker, now, w, name);
      }
    case Allocate(i, work) => UnderOfAllocate(s, i, work, p.worker, now, w, name);
  }

  lemma UnderOfResults(s: State, v: WorkerId, result: Work, p: Pick, now: nat, w: WorkerId, name: string)
    requires Inv(s) && v in s.alloc && w in s.repo.records && (s.waiting != map[] ==> p.island in s.waiting)
    ensures var records := HandleResults(s, v, result, p, now).s.repo.records;
            w in records && UnderName(records[w], name) == UnderAfter(s, Results(v, result), now, w, name)
  {
    KeepsDelivered(s, v, result, now);
    hide Inv, AddFreeWorker, Plus, Millis;
    UnderOfAddFree(Delivered(s, v, result, now), v, p, now, w, name);
  }

  /** Credit where it is due: over every legal run, what a worker has under an algorithm name grows by its own results
      under exactly that name, in individuals and in time. */
  lemma {:induction false} CreditedByName(s: State, steps: seq<Step>, w: WorkerId, name: string)
    requires Inv(s) && LegalRun(s, steps) && w in s.repo.records
    ensures var records := After(s, steps).repo.records;
            && w in records
            && UnderName(records[w], name)
               == Plus(UnderName(s.repo.records[w], name), TimeUnder(s, steps, w, name),
                       IndividualsUnder(steps, w, name))
  {
    hide Inv, Legal, PickOk, Handle, GivenWork, Millis, Plus, UnderName;
    var before := UnderName(s.repo.records[w], name);
    if steps == [] {
      PlusNothing(before);
    } else {
      var init, last := steps[..|steps| - 1], steps[|steps| - 1];
      CreditedByName(s, init, w, name);
      TotalsSurvive(s, init, w);
      RunKeepsInv(s, init);
      UnderStep(After(s, init), last.e, last.p, last.now, w, name);
      if last.e.Results? && last.e.worker == w && last.e.result.algo == name {
        PlusTwice(before, TimeUnder(s, init, w, name), IndividualsUnder(init, w, name),
                  Millis(LastGiven(s, init, w), last.now), |last.e.result.pop|);
      }
    }
  }

  /** A connected worker's lookup always finds its record: over every legal run, whoever is connected has one. */
  lemma ConnectedHasRecord(s: State, steps: seq<Step>, w: WorkerId)
    requires Inv(s) && LegalRun(s, steps) && w in After(s, steps).repo.connected
    ensures Known(After(s, steps).repo) && Lookup(After(s, steps).repo, w).Some?
  {
    RunKeepsInv(s, steps);
    hide LegalRun, After, OnePlace, Split;
  }
}
