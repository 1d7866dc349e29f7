/** The composed system answers: while some worker process is up it cannot get stuck, and each new request, library
    request, crash or connection allows it a bounded number of steps only. */
module ProtocolLiveness {
  import opened Common
  import opened Sums
  import opened ControllerSpec
  import opened ControllerInvariant
  import opened ControllerRuns
  import opened Protocol
  import ProtocolProperties
  import opened ProtocolSafety

  // Steps the system takes by itself.
  predicate Internal(a: Act) { !a.Request? && !a.Ask? && !a.Stop? && !a.Connect? }

  ghost predicate CanMove(s: System) { exists a :: Internal(a) && Enabled(s, a) }

  ghost predicate Waits(s: System, i: IslandId) { i in s.islands && s.islands[i].waitingFor.Some? }

  lemma MessageMoves(s: System, w: WorkerId)
    requires w in s.procs && s.procs[w].outbox != []
    ensures CanMove(s)
  {
    var m := s.procs[w].outbox[0];
    var p := Pick("", "");
    if !m.GetDll? {
      p := AnyPick(s.c, EventOf(w, m));
    }
    hide PickOk;
    assert Enabled(s, TakeMessage(w, p, 0));
  }

  lemma RequestMoves(s: System, i: IslandId)
    requires i in s.islands && s.islands[i].toController != []
    ensures CanMove(s)
  {
    var p := AnyPick(s.c, Allocate(i, s.islands[i].toController[0]));
    hide PickOk;
    assert Enabled(s, TakeRequest(i, p, 0));
  }

  // Whatever accounts for the worker's allocation can take its next step.
  lemma BusyMoves(s: System, w: WorkerId)
    requires w in s.procs && w in s.c.alloc && w !in s.c.free && w in s.c.repo.connected
    requires WorkerInv(s.c, w, s.procs[w], s.served)
    ensures CanMove(s)
  {
    var p := s.procs[w];
    if p.outbox != [] {
      MessageMoves(s, w);
    } else if p.inbox != [] {
      assert Enabled(s, Receive(w));
    } else if p.thread.Running? {
      assert Enabled(s, Finish(w, p.thread.work));
    } else {
      assert Enabled(s, Forward(w));
    }
  }

  lemma ConnectedMoves(s: System, v: WorkerId)
    requires SysInv(s) && s.c.free == {} && v in s.procs && s.procs[v].up
    ensures CanMove(s)
  {
    assert WorkerInv(s.c, v, s.procs[v], s.served);
    assert v in s.c.alloc.Keys ==> v in s.c.repo.connected;
    hide SysInv, BusyAs;
    if v in s.c.alloc {
      BusyMoves(s, v);
    } else {
      MessageMoves(s, v);
    }
  }

  /** No deadlock: while a worker process is up and an island waits for its answer, some step other than a new
      request, a library request, a crash or a connection is possible. */
  lemma NoDeadlock(s: System, i: IslandId, v: WorkerId)
    requires SysInv(s) && Waits(s, i) && v in s.procs && s.procs[v].up
    ensures CanMove(s)
  {
    var isl := s.islands[i];
    assert IslandInv(Requests(s.c), i, isl);
    if isl.toController != [] {
      RequestMoves(s, i);
    } else if isl.fromController != [] {
      assert Enabled(s, TakeAnswer(i));
    } else {
      OpenRequestMoves(s, i, isl.waitingFor.value, v);
    }
  }

  lemma OpenRequestMoves(s: System, i: IslandId, work: Work, v: WorkerId)
    requires SysInv(s) && Record(i, work) in Requests(s.c) && v in s.procs && s.procs[v].up
    ensures CanMove(s)
  {
    if i in s.c.waiting {
      ConnectedMoves(s, v);
    } else {
      var w :| w in s.c.alloc && s.c.alloc[w] == Record(i, work);
      assert w in s.c.repo.connected && w !in s.c.free && w in s.procs.Keys;
      hide Inv, IslandInv, WorkerInv;
      BusyMoves(s, w);
    }
  }

  // How far a message or a thread is from the answer, in steps.
  function InWeight(m: ToWorkerMsg): nat { if m.WorkMsg? then 7 else 1 }

  function OutWeight(m: FromWorkerMsg): nat
  {
    match m
    case JoinMsg => 1
    case LeaveMsg => 10
    case ResultsMsg(_, _) => 4
    case GetDll(_) => 2
  }

  function InboxWeight(ms: seq<ToWorkerMsg>): nat
  {
    if ms == [] then 0 else InboxWeight(ms[..|ms| - 1]) + InWeight(ms[|ms| - 1])
  }

  function OutboxWeight(ms: seq<FromWorkerMsg>): nat
  {
    if ms == [] then 0 else OutboxWeight(ms[..|ms| - 1]) + OutWeight(ms[|ms| - 1])
  }

  function ThreadWeight(t: Thread): nat
  {
    match t
    case Idle => 0
    case Running(_) => 6
    case Asking(_, _) => 9
    case Blocked(_, _) => 6
    case Finished(_, _) => 5
  }

  function ProcWeight(p: Proc): nat
  {
    InboxWeight(p.inbox) + OutboxWeight(p.outbox) + ThreadWeight(p.thread)
  }

  function IslandWeight(isl: Island): nat { 9 * |isl.toController| + 3 * |isl.fromController| }

  ghost function ProcsWeight(procs: map<WorkerId, Proc>): nat { Total(map w <- procs :: ProcWeight(procs[w])) }

  ghost function IslandsWeight(islands: map<IslandId, Island>): nat
  {
    Total(map i <- islands :: IslandWeight(islands[i]))
  }

  /** Bounds the steps the system can take by itself. */
  ghost function Measure(s: System): nat
  {
    ProcsWeight(s.procs) + IslandsWeight(s.islands) + 8 * |s.c.waiting|
  }

  lemma {:induction false} OutboxFront(m: FromWorkerMsg, rest: seq<FromWorkerMsg>)
    ensures OutboxWeight([m] + rest) == OutWeight(m) + OutboxWeight(rest)
  {
    var ms := [m] + rest;
    if rest == [] {
      assert ms == [m];
    } else {
      assert ms[..|ms| - 1] == [m] + rest[..|rest| - 1];
      OutboxFront(m, rest[..|rest| - 1]);
    }
  }

  lemma InboxBack(ms: seq<ToWorkerMsg>, m: ToWorkerMsg)
    ensures InboxWeight(ms + [m]) == InboxWeight(ms) + InWeight(m)
  {
    assert (ms + [m])[..|ms + [m]| - 1] == ms;
  }

  lemma OutboxBack(ms: seq<FromWorkerMsg>, m: FromWorkerMsg)
    ensures OutboxWeight(ms + [m]) == OutboxWeight(ms) + OutWeight(m)
  {
    assert (ms + [m])[..|ms + [m]| - 1] == ms;
  }

  lemma ProcsChange(procs: map<WorkerId, Proc>, w: WorkerId, p: Proc)
    requires w in procs
    ensures ProcsWeight(procs[w := p]) == ProcsWeight(procs) - ProcWeight(procs[w]) + ProcWeight(p)
  {
    var m := map v <- procs :: ProcWeight(procs[v]);
    var procs' := procs[w := p];
    assert (map v <- procs' :: ProcWeight(procs'[v])) == m[w := ProcWeight(p)];
    TotalUpdate(m, w, ProcWeight(p));
  }

  lemma IslandsChange(islands: map<IslandId, Island>, i: IslandId, isl: Island)
    requires i in islands
    ensures IslandsWeight(islands[i := isl]) == IslandsWeight(islands) - IslandWeight(islands[i]) + IslandWeight(isl)
  {
    var m := map j <- islands :: IslandWeight(islands[j]);
    var islands' := islands[i := isl];
    assert (map j <- islands' :: IslandWeight(islands'[j])) == m[i := IslandWeight(isl)];
    TotalUpdate(m, i, IslandWeight(isl));
  }

  lemma GrantWeight(procs: map<WorkerId, Proc>, g: Option<Grant>)
    ensures ProcsWeight(map w <- procs :: WithGrant(procs[w], w, g)) <= ProcsWeight(procs) + 7 * One(g.Some?)
  {
    var procs' := map w <- procs :: WithGrant(procs[w], w, g);
    if g.Some? && g.value.worker in procs {
      var w := g.value.worker;
      var p := WithGrant(procs[w], w, g);
      assert procs' == procs[w := p];
      InboxBack(procs[w].inbox, WorkMsg(g.value.record.work));
      ProcsChange(procs, w, p);
    } else {
      assert procs' == procs;
    }
  }

  lemma AnswerWeight(c: State, e: Event, of: Work, islands: map<IslandId, Island>)
    ensures IslandsWeight(map i <- islands :: WithAnswer(c, e, of, i, islands[i]))
         <= IslandsWeight(islands) + 3 * One(e.Results?)
  {
    var islands' := map i <- islands :: WithAnswer(c, e, of, i, islands[i]);
    if e.Results? && e.worker in c.alloc && c.alloc[e.worker].islandId in islands {
      var i := c.alloc[e.worker].islandId;
      var isl := WithAnswer(c, e, of, i, islands[i]);
      assert islands' == islands[i := isl];
      IslandsChange(islands, i, isl);
    } else {
      assert islands' == islands;
    }
  }

  // What the message adds to those waiting.
  ghost function Queued(c: State, e: Event): nat { One(e.Allocate? || (e.Leave? && e.worker in c.alloc)) }

  // A request that is given out no longer waits.
  lemma WaitingAfter(c: State, e: Event, p: Pick, now: nat, g: Option<Grant>)
    requires Inv(c) && PickOk(c, e, p) && Legal(c, e) && Effect(c, e, Handle(c, e, p, now), g)
    ensures |Handle(c, e, p, now).s.waiting| == |c.waiting| + Queued(c, e) - One(g.Some?)
  {
    LegalIsSound(c, e, p, now);
    hide Inv, PickOk, Handle;
    ClearedSize(c, e);
    GrantedSize(FreeAt(c, e), Cleared(c, e), Handle(c, e, p, now).s, g);
    hide Granted, Cleared;
  }

  lemma ClearedSize(c: State, e: Event)
    requires Legal(c, e)
    ensures |Cleared(c, e)| == |c.alloc| - One(e.Results? || (e.Leave? && e.worker in c.alloc))
  {
    if e.Leave? || e.Results? {
      KeysRemoved(c.alloc, e.worker);
      assert |(c.alloc - {e.worker}).Keys| == |c.alloc - {e.worker}|;
    }
  }

  lemma GrantedSize(free: set<WorkerId>, alloc: map<WorkerId, Record>, t: State, g: Option<Grant>)
    requires Granted(free, alloc, t, g)
    ensures |t.alloc| == |alloc| + One(g.Some?)
  {
  }

  // The weight of the message in its channel.
  function EventWeight(e: Event): nat
  {
    match e
    case Join(_) => 1
    case Leave(_) => 10
    case Results(_, _) => 4
    case Allocate(_, _) => 9
  }

  // Handling a message adds less than the message weighed.
  lemma ReactShrinks(s: System, e: Event, p: Pick, now: nat, of: Work)
    requires Inv(s.c) && PickOk(s.c, e, p) && Legal(s.c, e)
    ensures Measure(React(s, e, p, now, of)) < Measure(s) + EventWeight(e)
  {
    hide Inv, PickOk, Legal, Handle, React, Effect, ProcsWeight, IslandsWeight, WithGrant, WithAnswer;
    var g := HandleEffect(s.c, e, p, now);
    DeliverIs(s, e, p, now, of, g);
    WaitingAfter(s.c, e, p, now, g);
    GrantWeight(s.procs, g);
    AnswerWeight(s.c, e, of, s.islands);
  }

  lemma MessageShrinks(s: System, w: WorkerId, p: Pick, now: nat)
    requires SysInv(s) && Enabled(s, TakeMessage(w, p, now))
    ensures Measure(Next(s, TakeMessage(w, p, now))) < Measure(s)
  {
    hide Inv, WorkerInv, IslandInv, Requests, OpenIslands, React, Ready, PickOk, ProcsWeight, IslandsWeight, OutboxWeight,
      InboxWeight, WithGrant, Settled, Legal;
    var proc := s.procs[w];
    var m := proc.outbox[0];
    var p1 := proc.(outbox := proc.outbox[1..]);
    OutboxFront(m, proc.outbox[1..]);
    assert proc.outbox == [m] + proc.outbox[1..];
    var s1 := WithProc(s, w, p1);
    ProcsChange(s.procs, w, p1);
    if m.GetDll? {
      var answer := DllBinary(m.lib, s.served(m.lib));
      InboxBack(p1.inbox, answer);
      ProcsChange(s1.procs, w, p1.(inbox := p1.inbox + [answer]));
    } else {
      MessageSettles(s.c, w, proc, s.served);
      ReactShrinks(s1, EventOf(w, m), p, now, if m.ResultsMsg? then m.of else AnyWork());
    }
  }

  lemma RequestShrinks(s: System, i: IslandId, p: Pick, now: nat)
    requires SysInv(s) && Enabled(s, TakeRequest(i, p, now))
    ensures Measure(Next(s, TakeRequest(i, p, now))) < Measure(s)
  {
    hide Inv, WorkerInv, IslandInv, Requests, OpenIslands, React, PickOk, ProcsWeight, IslandsWeight, Settled,
      SettledIsland, Legal;
    var isl := s.islands[i];
    var isl1 := isl.(toController := isl.toController[1..]);
    RequestSettles(s.c, i, isl);
    IslandsChange(s.islands, i, isl1);
    ReactShrinks(WithIsland(s, i, isl1), Allocate(i, isl.toController[0]), p, now, isl.toController[0]);
  }

  lemma WorkerShrinks(s: System, a: Act)
    requires SysInv(s) && Enabled(s, a) && (a.Finish? || a.Forward?)
    ensures Measure(Next(s, a)) < Measure(s)
  {
    hide Inv, WorkerInv, IslandInv, Requests, OpenIslands, ProcsWeight, IslandsWeight, OutboxWeight, InboxWeight;
    var p := s.procs[a.w];
    var p' := OwnStep(p, a);
    if a.Forward? {
      OutboxBack(p.outbox, p'.outbox[|p'.outbox| - 1]);
    }
    ProcsChange(s.procs, a.w, p');
  }

  lemma ReceiveShrinks(s: System, w: WorkerId)
    requires SysInv(s) && Enabled(s, Receive(w))
    ensures Measure(Next(s, Receive(w))) < Measure(s)
  {
    hide Inv, WorkerInv, IslandInv, Requests, OpenIslands, ProcsWeight, IslandsWeight, OutboxWeight;
    var p := s.procs[w];
    ReceiveKeeps(s.c, w, p, s.served);
    OneMessage(s, w);
    assert p.inbox[..|p.inbox| - 1] == [] && p.inbox[1..] == [];
    var work := if p.inbox[0].WorkMsg? then p.inbox[0].work else p.thread.work;
    ProcsChange(s.procs, w, p.(inbox := p.inbox[1..], thread := Running(work)));
  }

  lemma OneMessage(s: System, w: WorkerId)
    requires w in s.procs && WorkerInv(s.c, w, s.procs[w], s.served) && s.procs[w].inbox != []
    ensures |s.procs[w].inbox| == 1
  {
  }

  lemma AnswerShrinks(s: System, i: IslandId)
    requires SysInv(s) && Enabled(s, TakeAnswer(i))
    ensures Measure(Next(s, TakeAnswer(i))) < Measure(s)
  {
    hide Inv, WorkerInv, IslandInv, Requests, OpenIslands, ProcsWeight, IslandsWeight;
    IslandsChange(s.islands, i, Next(s, TakeAnswer(i)).islands[i]);
  }

  /** Every step the system takes by itself brings it closer to rest. */
  lemma StepShrinks(s: System, a: Act)
    requires SysInv(s) && Enabled(s, a) && Internal(a)
    ensures Measure(Next(s, a)) < Measure(s)
  {
    hide SysInv, Enabled, Next, Measure;
    match a
    case TakeRequest(i, p, now) => RequestShrinks(s, i, p, now);
    case TakeAnswer(i) => AnswerShrinks(s, i);
    case TakeMessage(w, p, now) => MessageShrinks(s, w, p, now);
    case Receive(w) => ReceiveShrinks(s, w);
    case Finish(_, _) => WorkerShrinks(s, a);
    case Forward(_) => WorkerShrinks(s, a);
  }

  // The rest of the world adds a bounded amount: a request, a library request, a crash, or a connection.
  lemma ExternalAdds(s: System, a: Act)
    requires Enabled(s, a) && !Internal(a)
    ensures Measure(Next(s, a)) <= Measure(s) + 10
  {
    hide ProcsWeight, IslandsWeight, InboxWeight, OutboxWeight;
    match a
    case Request(i, pop) => IslandsChange(s.islands, i, Next(s, a).islands[i]);
    case Ask(w, lib) => ProcsChange(s.procs, w, OwnStep(s.procs[w], a));
    case Stop(w) =>
      OutboxBack(s.procs[w].outbox, LeaveMsg);
      NothingWeighs();
      ProcsChange(s.procs, w, Next(s, a).procs[w]);
    case Connect(w) =>
      NothingWeighs();
      OutboxBack([], JoinMsg);
      assert [] + [JoinMsg] == [JoinMsg];
      ProcsChange(s.procs, w, Next(s, a).procs[w]);
  }

  lemma NothingWeighs()
    ensures InboxWeight([]) == 0 && OutboxWeight([]) == 0
  {
  }

  ghost function InternalSteps(acts: seq<Act>): nat
  {
    if acts == [] then 0
    else InternalSteps(acts[..|acts| - 1]) + if Internal(acts[|acts| - 1]) then 1 else 0
  }

  /** Over every run the system takes at most Measure steps of its own, and 10 more for each request, library request,
      crash and connection: it cannot go on by itself for ever. */
  lemma {:induction false} StepsBounded(states: seq<System>, acts: seq<Act>)
    requires Run(states, acts) && SysInv(states[0])
    ensures InternalSteps(acts) + Measure(states[|acts|]) <= Measure(states[0]) + 10 * (|acts| - InternalSteps(acts))
  {
    if acts != [] {
      var k := |acts| - 1;
      StepsBounded(states[..k + 1], acts[..k]);
      RunIsSafe(states, acts, k);
      hide SysInv, Measure, Next, Enabled;
      if Internal(acts[k]) {
        StepShrinks(states[k], acts[k]);
      } else {
        ExternalAdds(states[k], acts[k]);
      }
    }
  }

  // A worker process that does not stop stays up.
  lemma {:induction false} StaysUp(states: seq<System>, acts: seq<Act>, v: WorkerId, k: nat)
    requires Run(states, acts) && v in states[0].procs && states[0].procs[v].up && k < |states|
    requires forall a <- acts :: a.Stop? ==> a.w != v
    ensures v in states[k].procs && states[k].procs[v].up
  {
    if k > 0 {
      StaysUp(states, acts, v, k - 1);
      UpAfterStep(states[k - 1], acts[k - 1], v);
    }
  }

  lemma UpAfterStep(s: System, a: Act, v: WorkerId)
    requires Enabled(s, a) && v in s.procs && s.procs[v].up && (a.Stop? ==> a.w != v)
    ensures v in Next(s, a).procs && Next(s, a).procs[v].up
  {
    hide PickOk, Handle;
    match a
    case TakeRequest(j, p, now) =>
      var isl := s.islands[j];
      var work := isl.toController[0];
      UpAfterReact(WithIsland(s, j, isl.(toController := isl.toController[1..])), Allocate(j, work), p, now, work, v);
    case TakeMessage(w, p, now) =>
      var m := s.procs[w].outbox[0];
      var s1 := WithProc(s, w, s.procs[w].(outbox := s.procs[w].outbox[1..]));
      if !m.GetDll? {
        UpAfterReact(s1, EventOf(w, m), p, now, if m.ResultsMsg? then m.of else AnyWork(), v);
      }
    case _ =>
  }

  lemma UpAfterReact(s: System, e: Event, p: Pick, now: nat, of: Work, v: WorkerId)
    requires PickOk(s.c, e, p) && v in s.procs && s.procs[v].up
    ensures var t := React(s, e, p, now, of); v in t.procs && t.procs[v].up
  {
    hide Handle, PickOk;
    var r := Handle(s.c, e, p, now);
    ProtocolProperties.DeliverFrame(s.(c := r.s, fault := s.fault || !r.ok), r.outs, of, "", v);
  }

  /** The system comes to rest with every island answered. Over every run, with any requests, library requests,
      crashes and connections of others, in which some worker process stays up: the system takes a bounded number of
      steps of its own, and wherever it cannot take another, no island waits. While others keep asking, an island may
      be overtaken (module ControllerFairness). */
  lemma AllAnswered(states: seq<System>, acts: seq<Act>, v: WorkerId)
    requires Run(states, acts) && SysInv(states[0])
    requires v in states[0].procs && states[0].procs[v].up && forall a <- acts :: a.Stop? ==> a.w != v
    ensures InternalSteps(acts) <= Measure(states[0]) + 10 * (|acts| - InternalSteps(acts))
    ensures !CanMove(states[|acts|]) ==> forall i :: !Waits(states[|acts|], i)
  {
    var k := |acts|;
    StepsBounded(states, acts);
    RunIsSafe(states, acts, k);
    StaysUp(states, acts, v, k);
    hide SysInv, Measure, CanMove, Waits, InternalSteps;
    if !CanMove(states[k]) {
      forall i ensures !Waits(states[k], i) {
        if Waits(states[k], i) {
          NoDeadlock(states[k], i, v);
        }
      }
    }
  }

  lemma RunPrepend(s: System, a: Act, states: seq<System>, acts: seq<Act>)
    requires Run(states, acts) && Enabled(s, a) && states[0] == Next(s, a)
    ensures Run([s] + states, [a] + acts)
  {
    hide Enabled, Next;
    var ss, aa := [s] + states, [a] + acts;
    forall k | 0 <= k < |aa| ensures Enabled(ss[k], aa[k]) && ss[k + 1] == Next(ss[k], aa[k]) {
      if k > 0 {
        assert ss[k] == states[k - 1] && aa[k] == acts[k - 1] && ss[k + 1] == states[k];
      }
    }
  }

  // Handling a message of a stopped worker takes it out of the channel and nothing more of the worker.
  lemma StaysStopped(s: System, w: WorkerId, p: Pick)
    requires Enabled(s, TakeMessage(w, p, 0)) && !s.procs[w].up
    ensures var t := Next(s, TakeMessage(w, p, 0));
            w in t.procs && !t.procs[w].up && t.procs[w].outbox == s.procs[w].outbox[1..]
  {
    hide PickOk, Handle;
    var m := s.procs[w].outbox[0];
    var s1 := WithProc(s, w, s.procs[w].(outbox := s.procs[w].outbox[1..]));
    if !m.GetDll? {
      var e := EventOf(w, m);
      var r := Handle(s1.c, e, p, 0);
      ProtocolProperties.DeliverFrame(s1.(c := r.s, fault := s1.fault || !r.ok), r.outs,
                                      if m.ResultsMsg? then m.of else AnyWork(), "", w);
    }
  }

  // The controller handles the next message a stopped worker left behind.
  lemma NextLeftBehind(s: System, w: WorkerId) returns (a: Act)
    requires SysInv(s) && w in s.procs && !s.procs[w].up && s.procs[w].outbox != []
    ensures Enabled(s, a) && SysInv(Next(s, a))
    ensures var t := Next(s, a);
            w in t.procs && !t.procs[w].up && |t.procs[w].outbox| < |s.procs[w].outbox|
  {
    var m := s.procs[w].outbox[0];
    var p := Pick("", "");
    if !m.GetDll? {
      p := AnyPick(s.c, EventOf(w, m));
    }
    hide PickOk, SysInv;
    a := TakeMessage(w, p, 0);
    assert Enabled(s, a);
    StaysStopped(s, w, p);
    StepKeeps(s, a);
    hide Next;
  }

  lemma Reconnects(s: System, w: WorkerId)
    requires w in s.procs && !s.procs[w].up && s.procs[w].outbox == []
    ensures Enabled(s, Connect(w)) && Run([s, Next(s, Connect(w))], [Connect(w)])
    ensures var t := Next(s, Connect(w)); w in t.procs && t.procs[w] == Proc(true, Idle, [], [JoinMsg])
  {
  }

  /** A worker can always come back: from every reachable state with its process stopped, there is a run in which the
      controller handles what it left behind and it connects again. */
  lemma {:induction false} CanRejoin(s: System, w: WorkerId) returns (states: seq<System>, acts: seq<Act>)
    requires SysInv(s) && w in s.procs && !s.procs[w].up
    ensures Run(states, acts) && states[0] == s
    ensures var t := states[|acts|]; w in t.procs && t.procs[w] == Proc(true, Idle, [], [JoinMsg])
    decreases |s.procs[w].outbox|
  {
    hide SysInv, Enabled, Next;
    if s.procs[w].outbox == [] {
      Reconnects(s, w);
      states, acts := [s, Next(s, Connect(w))], [Connect(w)];
    } else {
      var a := NextLeftBehind(s, w);
      var rest, more := CanRejoin(Next(s, a), w);
      RunPrepend(s, a, rest, more);
      hide Run;
      states, acts := [s] + rest, [a] + more;
    }
  }

  /** Any process may do what is its to do: a running one can stop, an island at rest can ask with any population of its
      size, and a running thread can ask for any library and end with any result of the right size. */
  lemma FreeToAct(s: System, w: WorkerId, i: IslandId, pop: Population, lib: string, result: Work)
    ensures w in s.procs && s.procs[w].up ==>
              var t := Next(s, Stop(w)).procs[w]; !t.up && LeaveMsg in t.outbox
    ensures i in s.islands && s.islands[i].waitingFor == None && |pop| == |s.islands[i].pop| ==>
              Enabled(s, Request(i, pop)) && Next(s, Request(i, pop)).islands[i].waitingFor.Some?
    ensures w in s.procs && s.procs[w].thread.Running? ==>
              && Enabled(s, Ask(w, lib))
              && (Evolved(s.procs[w].thread.work, result) ==> Enabled(s, Finish(w, result)))
  {
  }
}
