/** Controller, workers and islands composed over FIFO channels. The transport is assumed to behave as follows. A
    stopped worker's connection ends with a leave message, and what the controller sends before it handles that
    message is dropped; a worker connects again only after its leave message was handled, and starts idle. */
module Protocol {
  import opened Common
  import opened ControllerSpec
  import opened ControllerInvariant
  import opened ControllerRuns
  import opened RegistrySpec

  datatype ToWorkerMsg = WorkMsg(work: Work) | DllBinary(lib: string, file: Option<File>)

  // of is the work the result was computed from.
  datatype FromWorkerMsg = JoinMsg | LeaveMsg | ResultsMsg(result: Work, of: Work) | GetDll(lib: string)

  // The worker thread: Asking and Finished have a message for the main loop, Blocked waits for a library.
  datatype Thread =
    | Idle
    | Running(work: Work)
    | Asking(work: Work, lib: string)
    | Blocked(work: Work, lib: string)
    | Finished(result: Work, work: Work)

  datatype Proc = Proc(up: bool, thread: Thread, inbox: seq<ToWorkerMsg>, outbox: seq<FromWorkerMsg>)

  datatype Answer = Answer(result: Work, of: Work)

  datatype Island = Island(algo: string, pop: Population, preferred: WorkerId, cycleCount: nat,
                           waitingFor: Option<Work>, toController: seq<Work>, fromController: seq<Answer>)

  // served: what the controller answers to a request for a library. fault: some process threw or terminated.
  datatype System = System(c: State, procs: map<WorkerId, Proc>, islands: map<IslandId, Island>,
                           served: string -> Option<File>, fault: bool)

  /** What is known of the worker's computation: a population whose size is a multiple of 4 comes back in the same size
      (module WorkerEvolve). */
  ghost predicate Evolved(work: Work, result: Work)
  {
    |work.pop| % 4 == 0 ==> |result.pop| == |work.pop|
  }

  // One thing that happens, somewhere.
  datatype Act =
    | Request(i: IslandId, pop: Population)            // the island, after any migration, sends its work and blocks
    | TakeRequest(i: IslandId, p: Pick, now: nat)      // the controller handles it
    | TakeAnswer(i: IslandId)                          // the island receives the result
    | TakeMessage(w: WorkerId, p: Pick, now: nat)      // the controller handles a worker's message
    | Receive(w: WorkerId)                             // the worker's main loop handles a message
    | Finish(w: WorkerId, result: Work)                // the thread ends with a result
    | Ask(w: WorkerId, lib: string)                    // the thread asks for a library
    | Forward(w: WorkerId)                             // the main loop passes the thread's message on
    | Stop(w: WorkerId)                                // the worker process dies
    | Connect(w: WorkerId)                             // and starts again

  ghost predicate Enabled(s: System, a: Act)
  {
    match a
    case Request(i, pop) => i in s.islands && s.islands[i].waitingFor == None && |pop| == |s.islands[i].pop|
    case TakeRequest(i, p, _) =>
      i in s.islands && s.islands[i].toController != [] && PickOk(s.c, Allocate(i, s.islands[i].toController[0]), p)
    case TakeAnswer(i) => i in s.islands && s.islands[i].fromController != []
    case TakeMessage(w, p, _) =>
      && w in s.procs && s.procs[w].outbox != []
      && (s.procs[w].outbox[0].GetDll? || PickOk(s.c, EventOf(w, s.procs[w].outbox[0]), p))
    case Receive(w) => w in s.procs && s.procs[w].up && s.procs[w].inbox != []
    case Finish(w, result) => w in s.procs && s.procs[w].thread.Running? && Evolved(s.procs[w].thread.work, result)
    case Ask(w, _) => w in s.procs && s.procs[w].thread.Running?
    case Forward(w) => w in s.procs && (s.procs[w].thread.Asking? || s.procs[w].thread.Finished?)
    case Stop(w) => w in s.procs && s.procs[w].up
    case Connect(w) => w in s.procs && !s.procs[w].up && s.procs[w].outbox == []
  }

  function EventOf(w: WorkerId, m: FromWorkerMsg): Event
    requires !m.GetDll?
  {
    match m
    case JoinMsg => Join(w)
    case LeaveMsg => Leave(w)
    case ResultsMsg(result, _) => Results(w, result)
  }

  // A message to a worker whose process is gone is dropped.
  function Send(procs: map<WorkerId, Proc>, w: WorkerId, m: ToWorkerMsg): map<WorkerId, Proc>
  {
    if w in procs && procs[w].up then procs[w := procs[w].(inbox := procs[w].inbox + [m])] else procs
  }

  function DeliverOne(s: System, o: Out, of: Work): System
  {
    match o
    case ToWorker(w, work) => s.(procs := Send(s.procs, w, WorkMsg(work)))
    case ToIsland(i, result) =>
      if i in s.islands then
        var isl := s.islands[i];
        s.(islands := s.islands[i := isl.(fromController := isl.fromController + [Answer(result, of)])])
      else s
  }

  function Deliver(s: System, outs: seq<Out>, of: Work): System
    decreases |outs|
  {
    if outs == [] then s else Deliver(DeliverOne(s, outs[0], of), outs[1..], of)
  }

  // The controller handles e; of goes with the answer, if there is one.
  function React(s: System, e: Event, p: Pick, now: nat, of: Work): System
    requires PickOk(s.c, e, p)
  {
    var r := Handle(s.c, e, p, now);
    Deliver(s.(c := r.s, fault := s.fault || !r.ok), r.outs, of)
  }

  function WithProc(s: System, w: WorkerId, p: Proc): System { s.(procs := s.procs[w := p]) }

  function WithIsland(s: System, i: IslandId, isl: Island): System { s.(islands := s.islands[i := isl]) }

  // Starting a thread over a running one terminates the process.
  function ReceiveMsg(s: System, w: WorkerId): System
    requires w in s.procs && s.procs[w].inbox != []
  {
    var p := s.procs[w];
    var p1 := p.(inbox := p.inbox[1..]);
    match p.inbox[0]
    case WorkMsg(work) =>
      if p.thread.Idle? then WithProc(s, w, p1.(thread := Running(work))) else s.(fault := true)
    case DllBinary(lib, file) =>
      WithProc(s, w, if p.thread.Blocked? then p1.(thread := Running(p.thread.work)) else p1)
  }

  // The thread and the main loop of a worker.
  ghost function OwnStep(p: Proc, a: Act): Proc
    requires a.Finish? || a.Ask? ==> p.thread.Running?
    requires a.Forward? ==> p.thread.Asking? || p.thread.Finished?
  {
    match a
    case Finish(_, result) => p.(thread := Finished(result, p.thread.work))
    case Ask(_, lib) => p.(thread := Asking(p.thread.work, lib))
    case Forward(_) =>
      (match p.thread
       case Asking(work, lib) => p.(thread := Blocked(work, lib), outbox := p.outbox + [GetDll(lib)])
       case Finished(result, work) => p.(thread := Idle, outbox := p.outbox + [ResultsMsg(result, work)]))
    case _ => p
  }

  ghost function Next(s: System, a: Act): System
    requires Enabled(s, a)
  {
    match a
    case Request(i, pop) =>
      var isl := s.islands[i];
      var work := Work(isl.algo, pop, isl.preferred, isl.cycleCount);
      WithIsland(s, i, isl.(pop := pop, waitingFor := Some(work), toController := isl.toController + [work]))
    case TakeRequest(i, p, now) =>
      var isl := s.islands[i];
      var work := isl.toController[0];
      React(WithIsland(s, i, isl.(toController := isl.toController[1..])), Allocate(i, work), p, now, work)
    case TakeAnswer(i) =>
      var isl := s.islands[i];
      var answer := isl.fromController[0];
      WithIsland(s, i, isl.(pop := answer.result.pop, algo := answer.result.algo, waitingFor := None,
                            fromController := isl.fromController[1..]))
    case TakeMessage(w, p, now) =>
      var m := s.procs[w].outbox[0];
      var s1 := WithProc(s, w, s.procs[w].(outbox := s.procs[w].outbox[1..]));
      if m.GetDll? then s1.(procs := Send(s1.procs, w, DllBinary(m.lib, s.served(m.lib))))
      else React(s1, EventOf(w, m), p, now, if m.ResultsMsg? then m.of else AnyWork())
    case Receive(w) => ReceiveMsg(s, w)
    case Finish(w, _) => WithProc(s, w, OwnStep(s.procs[w], a))
    case Ask(w, _) => WithProc(s, w, OwnStep(s.procs[w], a))
    case Forward(w) => WithProc(s, w, OwnStep(s.procs[w], a))
    case Stop(w) => WithProc(s, w, Proc(false, Idle, [], s.procs[w].outbox + [LeaveMsg]))
    case Connect(w) => WithProc(s, w, Proc(true, Idle, [], [JoinMsg]))
  }

  // A busy worker, with this work: exactly one thing accounts for it.
  ghost predicate BusyAs(p: Proc, work: Work, served: string -> Option<File>)
  {
    || (p.thread == Idle && p.inbox == [WorkMsg(work)] && p.outbox == [])
    || (p.thread.Running? && p.thread.work == work && p.inbox == [] && p.outbox == [])
    || (p.thread.Asking? && p.thread.work == work && p.inbox == [] && p.outbox == [])
    || (p.thread.Blocked? && p.thread.work == work && p.inbox == [] && p.outbox == [GetDll(p.thread.lib)])
    || (p.thread.Blocked? && p.thread.work == work && p.outbox == []
        && p.inbox == [DllBinary(p.thread.lib, served(p.thread.lib))])
    || (p.thread.Finished? && p.thread.work == work && p.inbox == [] && p.outbox == [] && Evolved(work, p.thread.result))
    || (p.thread == Idle && p.inbox == [] && Delivering(p.outbox, work) && |p.outbox| == 1)
  }

  // The first message out is the result of this work.
  ghost predicate Delivering(outbox: seq<FromWorkerMsg>, work: Work)
  {
    outbox != [] && outbox[0].ResultsMsg? && outbox[0].of == work && Evolved(work, outbox[0].result)
  }

  // A process that is gone and whose leave message is, or is not, handled yet.
  ghost predicate GoneAs(c: State, w: WorkerId, outbox: seq<FromWorkerMsg>)
  {
    || (outbox == [] && w !in c.repo.connected)
    || (outbox == [JoinMsg, LeaveMsg] && w !in c.repo.connected)
    || (outbox == [LeaveMsg] && w in c.repo.connected)
    || (|outbox| == 2 && outbox[0].GetDll? && outbox[1] == LeaveMsg && w in c.alloc)
    || (|outbox| == 2 && outbox[1] == LeaveMsg && w in c.alloc && Delivering(outbox, c.alloc[w].work))
  }

  ghost predicate WorkerInv(c: State, w: WorkerId, p: Proc, served: string -> Option<File>)
  {
    if p.up then
      || (w !in c.repo.connected && p.thread == Idle && p.inbox == [] && p.outbox == [JoinMsg])
      || (w in c.free && p.thread == Idle && p.inbox == [] && p.outbox == [])
      || (w in c.alloc && BusyAs(p, c.alloc[w].work, served))
    else
      p.thread == Idle && p.inbox == [] && GoneAs(c, w, p.outbox)
  }

  ghost predicate IslandInv(requests: set<Record>, i: IslandId, isl: Island)
  {
    match isl.waitingFor
    case None => isl.toController == [] && isl.fromController == [] && i !in OpenIslands(requests)
    case Some(work) =>
      || (isl.toController == [work] && isl.fromController == [] && i !in OpenIslands(requests))
      || (isl.toController == [] && isl.fromController == [] && Record(i, work) in requests)
      || (isl.toController == [] && |isl.fromController| == 1 && i !in OpenIslands(requests)
          && isl.fromController[0].of == work && Evolved(work, isl.fromController[0].result))
  }

  ghost predicate SysInv(s: System)
  {
    && !s.fault && Inv(s.c)
    && s.c.repo.connected <= s.procs.Keys
    && OpenIslands(Requests(s.c)) <= s.islands.Keys
    && (forall w <- s.procs :: WorkerInv(s.c, w, s.procs[w], s.served))
    && (forall i <- s.islands :: IslandInv(Requests(s.c), i, s.islands[i]))
  }
}
