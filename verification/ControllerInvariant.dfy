/** What every message keeps, exactly which messages the controller can take, and what each does to the open requests.
    */
module ControllerInvariant {
  import opened Common
  import opened WorkerRepo
  import opened ControllerSpec

  // Some worker has the island's work.
  ghost predicate Busy(alloc: map<WorkerId, Record>, i: IslandId)
  {
    exists w :: w in alloc && alloc[w].islandId == i
  }

  // No island sits in two places.
  ghost predicate OnePlace(alloc: map<WorkerId, Record>, waiting: map<IslandId, Work>)
  {
    && (forall v, w :: v in alloc && w in alloc && alloc[v].islandId == alloc[w].islandId ==> v == w)
    && (forall w :: w in alloc ==> alloc[w].islandId !in waiting)
  }

  // The connected workers are the free ones and the allocated ones, and no worker is both.
  ghost predicate Split(connected: set<WorkerId>, free: set<WorkerId>, busy: set<WorkerId>)
  {
    connected == free + busy && free !! busy
  }

  ghost predicate Inv(s: State)
  {
    && Split(s.repo.connected, s.free, s.alloc.Keys)
    && Known(s.repo)
    && (s.free == {} || s.waiting == map[])
    && OnePlace(s.alloc, s.waiting)
  }

  // The island has a request open: it waits, or a worker has its work.
  ghost predicate Open(s: State, i: IslandId) { i in s.waiting || Busy(s.alloc, i) }

  // The island has a request open, with this work.
  ghost predicate Holds(s: State, i: IslandId, work: Work)
  {
    (i in s.waiting && s.waiting[i] == work) || exists w :: w in s.alloc && s.alloc[w] == Record(i, work)
  }

  ghost function Size(s: State): nat { |s.waiting| + |s.alloc| }

  /** The messages the transport and the islands allow: a worker does not join while its work is busy, results come
      from allocated workers only, and an island has one request open at a time. */
  ghost predicate Legal(s: State, e: Event)
  {
    match e
    case Join(w) => w !in s.alloc
    case Leave(w) => true
    case Results(w, _) => w in s.alloc
    case Allocate(i, _) => !Open(s, i)
  }

  function Delta(e: Event): int { if e.Allocate? then 1 else if e.Results? then -1 else 0 }

  // The handler returned, kept the invariant, and changed the number of open requests by delta.
  ghost predicate Keeps(s: State, delta: int, r: Outcome)
  {
    r.ok && Inv(r.s) && Size(r.s) == Size(s) + delta
  }

  // Nothing thrown, broken, lost or duplicated.
  ghost predicate Sound(s: State, e: Event, r: Outcome) { Keeps(s, Delta(e), r) }

  /** One allocation: a free worker, the preferred one if it is free, gets the island's work; nothing else moves. */
  lemma AllocateWorkerStep(s: State, island: IslandId, work: Work, first: WorkerId, now: nat)
    requires first in s.free && Known(s.repo)
    requires Split(s.repo.connected, s.free, s.alloc.Keys)
    ensures var r := AllocateWorkerToIsland(s, island, work, first, now);
            var w := Chosen(s.free, work, first);
            && r.ok && r.outs == [ToWorker(w, work)] && w in s.free && w !in s.alloc
            && r.s.free == s.free - {w} && r.s.waiting == s.waiting
            && r.s.alloc == s.alloc[w := Record(island, work)] && |r.s.alloc| == |s.alloc| + 1
            && Split(r.s.repo.connected, r.s.free, r.s.alloc.Keys)
            && Known(r.s.repo) && r.s.repo.connected == s.repo.connected
  {
    var w := Chosen(s.free, work, first);
    SplitTake(s.repo.connected, s.free, s.alloc.Keys, w);
    KnownStart(s.repo, w, now);
    assert s.alloc[w := Record(island, work)].Keys == s.alloc.Keys + {w};
    hide Split, Known, StartedWork;
  }

  lemma KnownStart(r: Repo, w: WorkerId, now: nat)
    requires Known(r) && w in r.connected
    ensures StartedWork(r, w, now).1
    ensures Known(StartedWork(r, w, now).0) && StartedWork(r, w, now).0.connected == r.connected
  {
  }

  lemma KnownFinish(r: Repo, w: WorkerId, size: nat, algo: string, now: nat)
    requires Known(r) && w in r.connected
    ensures FinishedWork(r, w, size, algo, now).1
    ensures Known(FinishedWork(r, w, size, algo, now).0)
    ensures FinishedWork(r, w, size, algo, now).0.connected == r.connected
  {
  }

  lemma BusyIsConnected(s: State, w: WorkerId)
    requires Inv(s) && w in s.alloc
    ensures Known(s.repo) && w in s.repo.connected && w in s.repo.records && w !in s.free
  {
    hide OnePlace;
    assert w in s.alloc.Keys;
  }

  lemma KnownMoves(r: Repo, w: WorkerId)
    requires Known(r)
    ensures Known(Joined(r, w)) && Known(Left(r, w))
    ensures Joined(r, w).connected == r.connected + {w} && Left(r, w).connected == r.connected - {w}
  {
  }

  lemma SplitTake(connected: set<WorkerId>, free: set<WorkerId>, busy: set<WorkerId>, w: WorkerId)
    requires Split(connected, free, busy) && w in free
    ensures Split(connected, free - {w}, busy + {w}) && w !in busy && w in connected
  {
  }

  lemma SplitJoin(connected: set<WorkerId>, free: set<WorkerId>, busy: set<WorkerId>, w: WorkerId)
    requires Split(connected, free, busy) && w !in busy
    ensures Split(connected + {w}, free + {w}, busy)
  {
  }

  lemma SplitLeave(connected: set<WorkerId>, free: set<WorkerId>, busy: set<WorkerId>, w: WorkerId)
    requires Split(connected, free, busy)
    ensures Split(connected - {w}, free - {w}, busy - {w})
    ensures w in busy ==> free - {w} == free
    ensures w !in busy ==> busy - {w} == busy
  {
  }

  lemma SplitFree(connected: set<WorkerId>, free: set<WorkerId>, busy: set<WorkerId>, w: WorkerId)
    requires Split(connected, free, busy) && w in busy
    ensures Split(connected, free + {w}, busy - {w}) && w !in free && w in connected
  {
  }

  lemma OnePlaceAdd(alloc: map<WorkerId, Record>, waiting: map<IslandId, Work>, w: WorkerId, r: Record)
    requires OnePlace(alloc, waiting) && w !in alloc && r.islandId !in waiting && !Busy(alloc, r.islandId)
    ensures OnePlace(alloc[w := r], waiting)
  {
  }

  lemma OnePlaceRemove(alloc: map<WorkerId, Record>, waiting: map<IslandId, Work>, w: WorkerId)
    requires OnePlace(alloc, waiting) && w in alloc
    ensures OnePlace(alloc - {w}, waiting) && !Busy(alloc - {w}, alloc[w].islandId) && alloc[w].islandId !in waiting
    ensures |alloc - {w}| == |alloc| - 1
  {
  }

  lemma OnePlaceWait(alloc: map<WorkerId, Record>, waiting: map<IslandId, Work>, i: IslandId, work: Work)
    requires OnePlace(alloc, waiting) && i !in waiting && !Busy(alloc, i)
    ensures OnePlace(alloc, waiting[i := work]) && |waiting[i := work]| == |waiting| + 1
  {
  }

  lemma OnePlacePop(alloc: map<WorkerId, Record>, waiting: map<IslandId, Work>, i: IslandId)
    requires OnePlace(alloc, waiting) && i in waiting
    ensures OnePlace(alloc, waiting - {i}) && !Busy(alloc, i) && |waiting - {i}| == |waiting| - 1
  {
  }

  // An island without a request open gets a free worker, or waits if there is none.
  lemma KeepsReallocate(s: State, i: IslandId, work: Work, first: WorkerId, now: nat)
    requires Inv(s) && (s.free != {} ==> first in s.free) && !Open(s, i)
    ensures var r := AllocateIslandWork(s, i, work, first, now);
            Keeps(s, 1, r)
  {
    hide OnePlace, Busy, Split, Known;
    if s.free == {} {
      OnePlaceWait(s.alloc, s.waiting, i, work);
    } else {
      AllocateWorkerStep(s, i, work, first, now);
      OnePlaceAdd(s.alloc, s.waiting, Chosen(s.free, work, first), Record(i, work));
    }
  }

  // A worker that becomes free while islands wait takes one of them at once.
  lemma FreedAndAllocated(s: State, w: WorkerId, p: Pick, now: nat)
    requires s.free == {} && p.worker == w
    requires Split(s.repo.connected, s.free + {w}, s.alloc.Keys) && Known(s.repo)
    requires s.waiting != map[] && p.island in s.waiting
    ensures var r := AddFreeWorker(s, w, p, now);
            && r.ok && r.outs == [ToWorker(w, s.waiting[p.island])]
            && r.s.free == {} && r.s.waiting == s.waiting - {p.island}
            && r.s.alloc == s.alloc[w := Record(p.island, s.waiting[p.island])]
            && |r.s.alloc| == |s.alloc| + 1 && w !in s.alloc
            && Split(r.s.repo.connected, r.s.free, r.s.alloc.Keys)
            && Known(r.s.repo) && r.s.repo.connected == s.repo.connected
  {
    var s1 := s.(free := s.free + {w}, waiting := s.waiting - {p.island});
    assert s1.free == {w};
    AllocateWorkerStep(s1, p.island, s.waiting[p.island], w, now);
  }

  // A connected worker that is neither free nor allocated becomes free, or takes a waiting island.
  lemma KeepsAddFree(s: State, w: WorkerId, p: Pick, now: nat)
    requires Split(s.repo.connected, s.free + {w}, s.alloc.Keys) && Known(s.repo)
    requires (s.free == {} || s.waiting == map[]) && OnePlace(s.alloc, s.waiting)
    requires p.worker in s.free + {w} && (s.waiting != map[] ==> p.island in s.waiting)
    ensures var r := AddFreeWorker(s, w, p, now);
            Keeps(s, 0, r)
  {
    hide OnePlace, Busy, Split, Known;
    if s.waiting != map[] {
      FreedAndAllocated(s, w, p, now);
      OnePlacePop(s.alloc, s.waiting, p.island);
      OnePlaceAdd(s.alloc, s.waiting - {p.island}, w, Record(p.island, s.waiting[p.island]));
    }
  }

  lemma KeysRemoved(alloc: map<WorkerId, Record>, w: WorkerId)
    ensures (alloc - {w}).Keys == alloc.Keys - {w}
    ensures w !in alloc ==> alloc - {w} == alloc && alloc.Keys - {w} == alloc.Keys
  {
  }

  lemma KeepsJoin(s: State, w: WorkerId, p: Pick, now: nat)
    requires Inv(s) && w !in s.alloc
    requires p.worker in s.free + {w} && (s.waiting != map[] ==> p.island in s.waiting)
    ensures Keeps(s, 0, HandleJoin(s, w, p, now))
  {
    hide OnePlace, Busy, Split, Known, AddFreeWorker, Joined;
    if w !in s.free {
      SplitJoin(s.repo.connected, s.free, s.alloc.Keys, w);
      KnownMoves(s.repo, w);
      KeepsAddFree(s.(repo := Joined(s.repo, w)), w, p, now);
    }
  }

  lemma KeepsWithoutWorker(s: State, w: WorkerId)
    requires Inv(s)
    ensures Inv(WithoutWorker(s, w))
    ensures w in s.alloc ==> !Open(WithoutWorker(s, w), s.alloc[w].islandId)
    ensures w in s.alloc ==> Size(WithoutWorker(s, w)) == Size(s) - 1
    ensures w !in s.alloc ==> Size(WithoutWorker(s, w)) == Size(s)
    ensures WithoutWorker(s, w).free == s.free - {w}
  {
    SplitLeave(s.repo.connected, s.free, s.alloc.Keys, w);
    KnownMoves(s.repo, w);
    KeysRemoved(s.alloc, w);
    if w in s.alloc {
      OnePlaceRemove(s.alloc, s.waiting, w);
    }
    hide OnePlace, Busy, Split, Known, Left;
  }

  lemma KeepsLeave(s: State, w: WorkerId, p: Pick, now: nat)
    requires Inv(s) && (s.free - {w} != {} ==> p.worker in s.free - {w})
    ensures Keeps(s, 0, HandleLeave(s, w, p, now))
  {
    hide Inv, AllocateIslandWork, WithoutWorker, Size, Open;
    KeepsWithoutWorker(s, w);
    if w in s.alloc {
      KeepsReallocate(WithoutWorker(s, w), s.alloc[w].islandId, s.alloc[w].work, p.worker, now);
    }
  }

  lemma KeepsDelivered(s: State, w: WorkerId, result: Work, now: nat)
    requires Inv(s) && w in s.alloc
    ensures FinishedWork(s.repo, w, |result.pop|, result.algo, now).1
    ensures var t := Delivered(s, w, result, now);
            && Split(t.repo.connected, t.free + {w}, t.alloc.Keys) && Known(t.repo)
            && (t.free == {} || t.waiting == map[]) && OnePlace(t.alloc, t.waiting) && Size(t) == Size(s) - 1
            && t.free == s.free && t.waiting == s.waiting
  {
    hide OnePlace, Busy, Split, Known, FinishedWork;
    OnePlaceRemove(s.alloc, s.waiting, w);
    KeysRemoved(s.alloc, w);
    SplitFree(s.repo.connected, s.free, s.alloc.Keys, w);
    KnownFinish(s.repo, w, |result.pop|, result.algo, now);
  }

  lemma KeepsResults(s: State, w: WorkerId, result: Work, p: Pick, now: nat)
    requires Inv(s) && w in s.alloc
    requires p.worker in s.free + {w} && (s.waiting != map[] ==> p.island in s.waiting)
    ensures Keeps(s, -1, HandleResults(s, w, result, p, now))
  {
    KeepsDelivered(s, w, result, now);
    hide OnePlace, Busy, Split, Known, AddFreeWorker, FinishedWork, Delivered;
    KeepsAddFree(Delivered(s, w, result, now), w, p, now);
  }

  lemma LegalIsSound(s: State, e: Event, p: Pick, now: nat)
    requires Inv(s) && PickOk(s, e, p) && Legal(s, e)
    ensures Sound(s, e, Handle(s, e, p, now))
  {
    hide Keeps, HandleJoin, HandleLeave, HandleResults, AllocateIslandWork;
    match e
    case Join(w) => KeepsJoin(s, w, p, now);
    case Leave(w) => KeepsLeave(s, w, p, now);
    case Results(w, result) => KeepsResults(s, w, result, p, now);
    case Allocate(i, work) => KeepsReallocate(s, i, work, p.worker, now);
  }

  /** Exactly the legal messages are handled soundly: in a state that keeps the invariant, a message either is legal, or
      throws, or breaks the invariant, or loses or duplicates a request. */
  lemma SoundIffLegal(s: State, e: Event, p: Pick, now: nat)
    requires Inv(s) && PickOk(s, e, p)
    ensures Sound(s, e, Handle(s, e, p, now)) <==> Legal(s, e)
  {
    if Legal(s, e) {
      LegalIsSound(s, e, p, now);
    } else {
      hide Inv, Keeps, HandleJoin, HandleLeave, AllocateIslandWork;
      match e
      case Join(w) => JoinOfBusyWorker(s, w, p, now);
      case Results(w, result) => StrayResults(s, w, result, p, now);
      case Allocate(i, work) => SecondRequest(s, i, work, p.worker, now);
    }
  }

  lemma StrayResults(s: State, w: WorkerId, result: Work, p: Pick, now: nat)
    requires w !in s.alloc && (s.waiting != map[] ==> p.island in s.waiting)
    ensures var r := HandleResults(s, w, result, p, now); !r.ok && r.outs == [] && !Keeps(s, -1, r)
  {
  }

  // A busy worker's join puts it among the free ones too, or makes a waiting island's request vanish.
  lemma JoinOfBusyWorker(s: State, w: WorkerId, p: Pick, now: nat)
    requires Inv(s) && w in s.alloc
    requires p.worker in s.free + {w} && (s.waiting != map[] ==> p.island in s.waiting)
    ensures !Keeps(s, 0, HandleJoin(s, w, p, now))
  {
    hide OnePlace, Busy, Known;
    var r := HandleJoin(s, w, p, now);
    assert w !in s.free;
    if s.waiting == map[] {
      assert w in r.s.free && w in r.s.alloc;
    } else {
      hide Split;
      assert s.free + {w} == {w};
      assert |s.waiting - {p.island}| == |s.waiting| - 1;
    }
  }

  // A second request of an island is dropped, or puts the island in two places.
  lemma SecondRequest(s: State, i: IslandId, work: Work, first: WorkerId, now: nat)
    requires Inv(s) && (s.free != {} ==> first in s.free) && Open(s, i)
    ensures !Keeps(s, 1, AllocateIslandWork(s, i, work, first, now))
  {
    hide Known;
    var r := AllocateIslandWork(s, i, work, first, now);
    if i !in s.waiting {
      var v :| v in s.alloc && s.alloc[v].islandId == i;
      if s.free == {} {
        assert i in r.s.waiting && r.s.alloc[v].islandId in r.s.waiting;
      } else {
        var w := Chosen(s.free, work, first);
        assert w !in s.alloc;
        assert r.s.alloc[v].islandId == i && r.s.alloc[w].islandId == i && v != w;
      }
    }
  }
}
