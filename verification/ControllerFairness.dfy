/** Which waiting island comes next: the controller takes any of them, so an island can be overtaken without bound,
    and is sure to be next only when it waits alone. */
module ControllerFairness {
  import opened Common
  import opened WorkerRepo
  import opened ControllerSpec
  import opened ControllerInvariant
  import opened ControllerRuns

  // Results handled during a run; each answers one island.
  ghost function ResultsHandled(steps: seq<Step>): nat
  {
    if steps == [] then 0
    else ResultsHandled(steps[..|steps| - 1]) + if steps[|steps| - 1].e.Results? then 1 else 0
  }

  // Where the worker is busy, the island waits, and another island has no request open.
  ghost predicate Crowded(s: State, w: WorkerId, i: IslandId, j: IslandId)
  {
    Inv(s) && w in s.alloc && i in s.waiting && !Open(s, j)
  }

  // The other island asks, has to wait, and is taken when the worker is done; now its former island can ask.
  lemma Overtake(s: State, w: WorkerId, i: IslandId, j: IslandId, work: Work, now: nat)
    requires Crowded(s, w, i, j)
    ensures var ask, done := Allocate(j, work), Results(w, work);
            var p := Pick(w, j);
            && PickOk(s, ask, AnyPick(s, ask)) && Legal(s, ask)
            && var t := Handle(s, ask, AnyPick(s, ask), now).s;
               && PickOk(t, done, p) && Legal(t, done)
               && Crowded(Handle(t, done, p, now).s, w, i, s.alloc[w].islandId)
  {
    var ask, done := Allocate(j, work), Results(w, work);
    var p := Pick(w, j);
    assert s.free == {};
    LegalIsSound(s, ask, AnyPick(s, ask), now);
    var t := s.(waiting := s.waiting[j := work]);
    assert Handle(s, ask, AnyPick(s, ask), now).s == t;
    LegalIsSound(t, done, p, now);
    TakesOther(t, w, i, j, work, now);
  }

  lemma TakesOther(t: State, w: WorkerId, i: IslandId, j: IslandId, work: Work, now: nat)
    requires Inv(t) && t.free == {} && w in t.alloc && i in t.waiting && j in t.waiting && i != j
    ensures var u := Handle(t, Results(w, work), Pick(w, j), now).s;
            w in u.alloc && i in u.waiting && !Open(u, t.alloc[w].islandId)
  {
    KeepsDelivered(t, w, work, now);
    var d := Delivered(t, w, work, now);
    hide Known, Split, FinishedWork;
    OnePlaceRemove(t.alloc, t.waiting, w);
    FreedAndAllocated(d, w, Pick(w, j), now);
    hide AddFreeWorker;
  }

  /** No bound on overtaking: from every reachable state where an island waits, a worker is busy and some other island
      has no request open, and for every n, there is a run in which n results are handled and the island waits
      throughout. */
  lemma {:induction false} OvertakenAtWill(s: State, w: WorkerId, i: IslandId, j: IslandId, n: nat)
    returns (steps: seq<Step>, j': IslandId)
    requires Crowded(s, w, i, j)
    ensures LegalRun(s, steps) && ResultsHandled(steps) == n
    ensures Crowded(After(s, steps), w, i, j')
    ensures Received(steps, i) == 0 && Answered(Sent(s, steps), i) == 0
  {
    if n == 0 {
      steps, j' := [], j;
    } else {
      var init, k := OvertakenAtWill(s, w, i, j, n - 1);
      var t := After(s, init);
      Overtake(t, w, i, k, AnyWork(), 0);
      var ask := Step(Allocate(k, AnyWork()), AnyPick(t, Allocate(k, AnyWork())), 0);
      var done := Step(Results(w, AnyWork()), Pick(w, k), 0);
      steps, j' := init + [ask] + [done], t.alloc[w].islandId;
      TwoMore(s, init, ask, done, i);
      StillUnanswered(s, steps, i);
    }
  }

  lemma TwoMore(s: State, init: seq<Step>, a: Step, b: Step, i: IslandId)
    requires LegalRun(s, init) && PickOk(After(s, init), a.e, a.p) && Legal(After(s, init), a.e)
    requires var t := Handle(After(s, init), a.e, a.p, a.now).s; PickOk(t, b.e, b.p) && Legal(t, b.e)
    requires a.e.Allocate? && a.e.island != i && b.e.Results?
    ensures var steps := init + [a] + [b];
            && LegalRun(s, steps) && ResultsHandled(steps) == ResultsHandled(init) + 1
            && Received(steps, i) == Received(init, i)
            && After(s, steps) == Handle(Handle(After(s, init), a.e, a.p, a.now).s, b.e, b.p, b.now).s
  {
    hide Handle, PickOk, Legal;
    var one := init + [a];
    var two := one + [b];
    assert one[..|one| - 1] == init && two[..|two| - 1] == one;
  }

  // An island that waits at both ends, and sent no request, got no answer.
  lemma StillUnanswered(s: State, steps: seq<Step>, i: IslandId)
    requires Inv(s) && LegalRun(s, steps) && Received(steps, i) == 0
    requires i in s.waiting && i in After(s, steps).waiting
    ensures Answered(Sent(s, steps), i) == 0
  {
    RunKeepsInv(s, steps);
    ExactlyOnce(s, steps, i);
    OpenIffListed(s, i);
    OpenIffListed(After(s, steps), i);
  }

  /** An island is sure to be next exactly when it waits alone: a busy worker's results give it the worker whatever
      iteration yields first, if and only if no other island waits. */
  lemma NextForSureIff(s: State, w: WorkerId, i: IslandId, result: Work, now: nat)
    requires Inv(s) && w in s.alloc && i in s.waiting
    ensures (forall p | PickOk(s, Results(w, result), p) ::
               i !in Handle(s, Results(w, result), p, now).s.waiting)
            <==> s.waiting.Keys == {i}
  {
    var e := Results(w, result);
    assert s.free == {};
    forall p | PickOk(s, e, p)
      ensures Handle(s, e, p, now).s.waiting == s.waiting - {p.island}
    {
      NextWaiting(s, w, p, result, now);
    }
    if s.waiting.Keys != {i} {
      var j :| j in s.waiting.Keys && j != i;
      var p := Pick(w, j);
      assert PickOk(s, e, p);
      assert i in Handle(s, e, p, now).s.waiting;
    }
  }

  lemma NextWaiting(s: State, w: WorkerId, p: Pick, result: Work, now: nat)
    requires Inv(s) && w in s.alloc && s.waiting != map[] && PickOk(s, Results(w, result), p)
    ensures Handle(s, Results(w, result), p, now).s.waiting == s.waiting - {p.island}
  {
    KeepsDelivered(s, w, result, now);
    hide Known, Split, FinishedWork, OnePlace;
    assert s.free + {w} == {w};
    FreedAndAllocated(Delivered(s, w, result, now), w, p, now);
    hide AddFreeWorker;
  }
}
