/** What the invariant of the composed system means for its parties, in every reachable state. */
module ProtocolProperties {
  import opened Common
  import opened ControllerSpec
  import opened ControllerInvariant
  import opened ControllerRuns
  import opened Protocol
  import opened ProtocolSafety

  // The four things that can account for a worker's allocation.
  ghost predicate WorkInFlight(p: Proc) { exists m <- p.inbox :: m.WorkMsg? }

  ghost predicate ThreadBusy(p: Proc) { p.thread != Idle }

  ghost predicate ResultsInFlight(p: Proc) { exists m <- p.outbox :: m.ResultsMsg? }

  ghost predicate LeaveInFlight(p: Proc) { LeaveMsg in p.outbox }

  ghost function Accounts(p: Proc): nat
  {
    One(WorkInFlight(p)) + One(ThreadBusy(p)) + One(ResultsInFlight(p))
  }

  /** One token per allocation. A running worker is allocated exactly when one of three accounts for it, and never
      more than one does: the work on its way to it, its busy thread, or its results on their way back. A stopped
      worker has nothing running or coming; while it is allocated its leave message is on the way, which will free it,
      and then its results may be ahead of that. */
  lemma OneToken(s: System, w: WorkerId)
    requires SysInv(s) && w in s.procs
    ensures var p := s.procs[w];
            && (p.up ==> Accounts(p) == One(w in s.c.alloc) && !LeaveInFlight(p))
            && (!p.up ==> !WorkInFlight(p) && !ThreadBusy(p) && (ResultsInFlight(p) ==> w in s.c.alloc))
            && (!p.up && w in s.c.repo.connected ==> LeaveInFlight(p))
  {
    assert WorkerInv(s.c, w, s.procs[w], s.served);
    assert w in s.c.alloc.Keys ==> w in s.c.repo.connected && w !in s.c.free;
    hide SysInv;
    Token(s, w, s.procs[w]);
  }

  lemma Token(s: System, w: WorkerId, p: Proc)
    requires WorkerInv(s.c, w, p, s.served) && (w in s.c.alloc ==> w in s.c.repo.connected && w !in s.c.free)
    ensures p.up ==> Accounts(p) == One(w in s.c.alloc) && !LeaveInFlight(p)
    ensures !p.up ==> !WorkInFlight(p) && !ThreadBusy(p) && (ResultsInFlight(p) ==> w in s.c.alloc)
    ensures !p.up && w in s.c.repo.connected ==> LeaveInFlight(p)
  {
    hide Evolved;
    assert p.inbox != [] ==> p.inbox[0] in p.inbox;
    assert p.outbox != [] ==> p.outbox[0] in p.outbox;
  }

  /** Work never reaches a worker whose thread is still running, so starting the thread never terminates the process; a
      library only reaches a thread that is blocked on it, and is the one it asked for. */
  lemma Arrivals(s: System, w: WorkerId)
    requires SysInv(s) && w in s.procs && s.procs[w].inbox != []
    ensures var p := s.procs[w];
            && |p.inbox| == 1 && w in s.c.alloc
            && match p.inbox[0] {
                 case WorkMsg(work) => p.thread == Idle && work == s.c.alloc[w].work
                 case DllBinary(lib, file) => p.thread.Blocked? && p.thread.lib == lib && file == s.served(lib)
               }
  {
    assert WorkerInv(s.c, w, s.procs[w], s.served);
  }

  /** The answer an island receives is the result computed from the request it waits on. */
  lemma OwnAnswer(s: System, i: IslandId)
    requires SysInv(s) && i in s.islands && s.islands[i].fromController != []
    ensures var isl := s.islands[i];
            && |isl.fromController| == 1 && isl.waitingFor == Some(isl.fromController[0].of)
            && Evolved(isl.fromController[0].of, isl.fromController[0].result)
  {
    assert IslandInv(Requests(s.c), i, s.islands[i]);
    hide Requests, OpenIslands, Evolved;
  }

  // Delivering messages leaves everything else alone.
  lemma {:induction false} DeliverFrame(s: System, outs: seq<Out>, of: Work, i: IslandId, w: WorkerId)
    ensures var t := Deliver(s, outs, of);
            && t.c == s.c && t.served == s.served && t.procs.Keys == s.procs.Keys && t.islands.Keys == s.islands.Keys
            && (i in s.islands ==>
                  t.islands[i] == s.islands[i].(fromController := t.islands[i].fromController))
            && (w in s.procs ==> t.procs[w] == s.procs[w].(inbox := t.procs[w].inbox))
    decreases |outs|
  {
    if outs != [] {
      DeliverFrame(DeliverOne(s, outs[0], of), outs[1..], of, i, w);
    }
  }

  /** A fault shows: the system faults exactly when a handler throws, which ends the controller's thread, or when work
      arrives at a worker whose thread is not idle, which terminates the process. */
  lemma FaultShows(s: System, a: Act)
    requires Enabled(s, a) && !s.fault
    ensures Next(s, a).fault <==>
            match a
            case TakeRequest(i, p, now) => !Handle(s.c, Allocate(i, s.islands[i].toController[0]), p, now).ok
            case TakeMessage(w, p, now) =>
              var m := s.procs[w].outbox[0];
              !m.GetDll? && !Handle(s.c, EventOf(w, m), p, now).ok
            case Receive(w) => s.procs[w].inbox[0].WorkMsg? && !s.procs[w].thread.Idle?
            case _ => false
  {
    hide Handle, PickOk;
    match a
    case TakeRequest(i, p, now) =>
      var isl := s.islands[i];
      var work := isl.toController[0];
      var s1 := WithIsland(s, i, isl.(toController := isl.toController[1..]));
      var r := Handle(s.c, Allocate(i, work), p, now);
      DeliverFault(s1.(c := r.s, fault := !r.ok), r.outs, work);
    case TakeMessage(w, p, now) =>
      var m := s.procs[w].outbox[0];
      var s1 := WithProc(s, w, s.procs[w].(outbox := s.procs[w].outbox[1..]));
      if !m.GetDll? {
        var r := Handle(s.c, EventOf(w, m), p, now);
        DeliverFault(s1.(c := r.s, fault := !r.ok), r.outs, if m.ResultsMsg? then m.of else AnyWork());
      }
    case _ =>
  }

  lemma {:induction false} DeliverFault(s: System, outs: seq<Out>, of: Work)
    ensures Deliver(s, outs, of).fault == s.fault
    decreases |outs|
  {
    if outs != [] {
      DeliverFault(DeliverOne(s, outs[0], of), outs[1..], of);
    }
  }

  // What a step leaves of island i that is not its own.
  lemma OtherSteps(s: System, a: Act, i: IslandId)
    requires Enabled(s, a) && i in s.islands
    ensures Next(s, a).islands.Keys == s.islands.Keys
    ensures var isl, isl' := s.islands[i], Next(s, a).islands[i];
            && isl'.preferred == isl.preferred
            && (!(a.Request? && a.i == i) && !(a.TakeAnswer? && a.i == i) ==>
                  isl'.pop == isl.pop && isl'.waitingFor == isl.waitingFor)
  {
    hide PickOk, Handle;
    match a
    case TakeRequest(j, p, now) =>
      var isl := s.islands[j];
      var work := isl.toController[0];
      var s1 := WithIsland(s, j, isl.(toController := isl.toController[1..]));
      ReactFrame(s1, Allocate(j, work), p, now, work, i);
    case TakeMessage(w, p, now) =>
      var m := s.procs[w].outbox[0];
      var s1 := WithProc(s, w, s.procs[w].(outbox := s.procs[w].outbox[1..]));
      if !m.GetDll? {
        ReactFrame(s1, EventOf(w, m), p, now, if m.ResultsMsg? then m.of else AnyWork(), i);
      }
    case _ =>
  }

  lemma ReactFrame(s: System, e: Event, p: Pick, now: nat, of: Work, i: IslandId)
    requires PickOk(s.c, e, p) && i in s.islands
    ensures var t := React(s, e, p, now, of);
            && t.islands.Keys == s.islands.Keys
            && t.islands[i] == s.islands[i].(fromController := t.islands[i].fromController)
  {
    hide Handle, PickOk;
    var r := Handle(s.c, e, p, now);
    DeliverFrame(s.(c := r.s, fault := s.fault || !r.ok), r.outs, of, i, "");
  }

  // An island that waits has not changed its population since it asked.
  ghost predicate AskedWithPop(isl: Island)
  {
    isl.waitingFor.Some? ==> isl.waitingFor.value.pop == isl.pop
  }

  lemma SizeStep(s: System, a: Act, i: IslandId)
    requires SysInv(s) && Enabled(s, a) && i in s.islands && AskedWithPop(s.islands[i])
    requires |s.islands[i].pop| % 4 == 0
    ensures i in Next(s, a).islands && AskedWithPop(Next(s, a).islands[i])
    ensures |Next(s, a).islands[i].pop| == |s.islands[i].pop|
  {
    OtherSteps(s, a, i);
    if a.TakeAnswer? && a.i == i {
      OwnAnswer(s, i);
    }
    hide SysInv, React, ReceiveMsg;
  }

  /** Sizes are conserved over all cycles: an island whose population size is a multiple of 4 has that size in every
      state of every run, whichever workers its work goes to, leave and come back. */
  lemma {:induction false} SizesConserved(states: seq<System>, acts: seq<Act>, k: nat, i: IslandId)
    requires Run(states, acts) && SysInv(states[0]) && k < |states|
    requires i in states[0].islands && AskedWithPop(states[0].islands[i]) && |states[0].islands[i].pop| % 4 == 0
    ensures i in states[k].islands && AskedWithPop(states[k].islands[i])
    ensures |states[k].islands[i].pop| == |states[0].islands[i].pop|
  {
    if k > 0 {
      SizesConserved(states, acts, k - 1, i);
      RunIsSafe(states, acts, k - 1);
      hide SysInv, Next, AskedWithPop, Enabled;
      SizeStep(states[k - 1], acts[k - 1], i);
    }
  }
}
