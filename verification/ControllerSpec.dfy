/** The controller's message handlers as functions on values. Where the source takes the first element of an unordered
    container, a Pick says which one that is; all results hold for every pick. */
module ControllerSpec {
  import opened Common
  import opened WorkerRepo

  // Which work a worker is allocated, so it can be allocated again if the worker leaves.
  datatype Record = Record(islandId: IslandId, work: Work)

  datatype State = State(free: set<WorkerId>, waiting: map<IslandId, Work>, alloc: map<WorkerId, Record>, repo: Repo)

  // A message received: from a worker, or from an island.
  datatype Event =
    | Join(worker: WorkerId)
    | Leave(worker: WorkerId)
    | Results(worker: WorkerId, result: Work)
    | Allocate(island: IslandId, work: Work)

  // A message sent.
  datatype Out = ToWorker(worker: WorkerId, work: Work) | ToIsland(island: IslandId, result: Work)

  // The elements iteration yields first.
  datatype Pick = Pick(worker: WorkerId, island: IslandId)

  // ok is false when the handler throws, which ends the server thread.
  datatype Outcome = Outcome(s: State, outs: seq<Out>, ok: bool)

  // Free workers at the moment a handler picks one.
  function FreeAt(s: State, e: Event): set<WorkerId>
  {
    match e
    case Join(w) => s.free + {w}
    case Leave(w) => s.free - {w}
    case Results(w, _) => s.free + {w}
    case Allocate(_, _) => s.free
  }

  predicate PickOk(s: State, e: Event, p: Pick)
  {
    && (FreeAt(s, e) != {} ==> p.worker in FreeAt(s, e))
    && (s.waiting != map[] ==> p.island in s.waiting)
  }

  // The preferred worker if it is free, else the one iteration yields.
  function Chosen(free: set<WorkerId>, work: Work, first: WorkerId): WorkerId
  {
    if work.preferredWorkerId in free then work.preferredWorkerId else first
  }

  function AllocateWorkerToIsland(s: State, island: IslandId, work: Work, first: WorkerId, now: nat): Outcome
  {
    var w := Chosen(s.free, work, first);
    // emplace leaves an existing entry alone
    var alloc := if w in s.alloc then s.alloc else s.alloc[w := Record(island, work)];
    var (repo, ok) := StartedWork(s.repo, w, now);
    Outcome(s.(free := s.free - {w}, alloc := alloc, repo := repo), if ok then [ToWorker(w, work)] else [], ok)
  }

  function AllocateIslandWork(s: State, island: IslandId, work: Work, first: WorkerId, now: nat): Outcome
  {
    if s.free == {} then
      Outcome(if island in s.waiting then s else s.(waiting := s.waiting[island := work]), [], true)
    else
      AllocateWorkerToIsland(s, island, work, first, now)
  }

  function AddFreeWorker(s: State, w: WorkerId, p: Pick, now: nat): Outcome
    requires s.waiting != map[] ==> p.island in s.waiting
  {
    var s1 := s.(free := s.free + {w});
    if s.waiting == map[] then Outcome(s1, [], true)
    else
      AllocateWorkerToIsland(s1.(waiting := s.waiting - {p.island}), p.island, s.waiting[p.island], p.worker, now)
  }

  function HandleJoin(s: State, w: WorkerId, p: Pick, now: nat): Outcome
    requires s.waiting != map[] ==> p.island in s.waiting
  {
    if w in s.free then Outcome(s, [], true)
    else AddFreeWorker(s.(repo := Joined(s.repo, w)), w, p, now)
  }

  // The state once a worker that left is forgotten.
  function WithoutWorker(s: State, w: WorkerId): State
  {
    s.(free := s.free - {w}, repo := Left(s.repo, w), alloc := s.alloc - {w})
  }

  function HandleLeave(s: State, w: WorkerId, p: Pick, now: nat): Outcome
  {
    if w in s.alloc then
      AllocateIslandWork(WithoutWorker(s, w), s.alloc[w].islandId, s.alloc[w].work, p.worker, now)
    else Outcome(WithoutWorker(s, w), [], true)
  }

  // The state once the results of an allocated worker are passed on.
  function Delivered(s: State, w: WorkerId, result: Work, now: nat): State
  {
    s.(repo := FinishedWork(s.repo, w, |result.pop|, result.algo, now).0, alloc := s.alloc - {w})
  }

  function HandleResults(s: State, w: WorkerId, result: Work, p: Pick, now: nat): Outcome
    requires s.waiting != map[] ==> p.island in s.waiting
  {
    if !FinishedWork(s.repo, w, |result.pop|, result.algo, now).1 || w !in s.alloc then
      Outcome(s.(repo := FinishedWork(s.repo, w, |result.pop|, result.algo, now).0), [], false)
    else
      var r := AddFreeWorker(Delivered(s, w, result, now), w, p, now);
      r.(outs := [ToIsland(s.alloc[w].islandId, result)] + r.outs)
  }

  function Handle(s: State, e: Event, p: Pick, now: nat): Outcome
    requires PickOk(s, e, p)
  {
    match e
    case Join(w) => HandleJoin(s, w, p, now)
    case Leave(w) => HandleLeave(s, w, p, now)
    case Results(w, result) => HandleResults(s, w, result, p, now)
    case Allocate(i, work) => AllocateIslandWork(s, i, work, p.worker, now)
  }

  ghost function AnyPick(s: State, e: Event): (p: Pick)
    ensures PickOk(s, e, p)
  {
    var w := if FreeAt(s, e) != {} then var w :| w in FreeAt(s, e); w else "";
    var i := if s.waiting.Keys != {} then var i :| i in s.waiting.Keys; i else "";
    Pick(w, i)
  }
}
