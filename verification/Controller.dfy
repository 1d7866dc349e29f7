/** The controller class: its three containers, one method a handler, each proved to do what ControllerSpec says for
    some choice of the elements that iteration yields first. */
module ControllerClass {
  import opened Common
  import opened WorkerRepo
  import opened ControllerSpec

  class DistributedController {
    var freeWorkersPool: set<WorkerId>
    var islandsWaitingForAlloc: map<IslandId, Work>
    var workAllocationMap: map<WorkerId, Record>
    const workerInfo: WorkerInfoRepository
    ghost var sent: seq<Out>      // everything sent through the two sockets

    ghost function Now(): State
      reads this, workerInfo
    {
      State(freeWorkersPool, islandsWaitingForAlloc, workAllocationMap, workerInfo.State())
    }

    constructor (records: map<WorkerId, WorkerInfo>)
      ensures Now() == State({}, map[], map[], Repo({}, records)) && sent == [] && fresh(workerInfo)
    {
      freeWorkersPool := {};
      islandsWaitingForAlloc := map[];
      workAllocationMap := map[];
      workerInfo := new WorkerInfoRepository(records);
      sent := [];
    }

    // True when the state, what was sent and the return value are those of the outcome.
    twostate predicate Did(r: Outcome, ok: bool)
      reads this, workerInfo
    {
      Now() == r.s && sent == old(sent) + r.outs && ok == r.ok
    }

    method AllocateWorker(island: IslandId, work: Work, now: nat) returns (ok: bool, ghost first: WorkerId)
      requires freeWorkersPool != {}
      modifies this, workerInfo
      ensures first in old(freeWorkersPool)
      ensures Did(AllocateWorkerToIsland(old(Now()), island, work, first, now), ok)
    {
      var workerId :| workerId in freeWorkersPool;
      first := workerId;
      if work.preferredWorkerId in freeWorkersPool {
        workerId := work.preferredWorkerId;
      }
      freeWorkersPool := freeWorkersPool - {workerId};
      if workerId !in workAllocationMap {
        workAllocationMap := workAllocationMap[workerId := Record(island, work)];
      }
      ok := workerInfo.WorkerStartedWork(workerId, now);
      if ok {
        sent := sent + [ToWorker(workerId, work)];
      }
    }

    method AllocateIsland(island: IslandId, work: Work, now: nat) returns (ok: bool, ghost first: WorkerId)
      modifies this, workerInfo
      ensures old(freeWorkersPool) != {} ==> first in old(freeWorkersPool)
      ensures Did(AllocateIslandWork(old(Now()), island, work, first, now), ok)
    {
      if freeWorkersPool == {} {
        if island !in islandsWaitingForAlloc {
          islandsWaitingForAlloc := islandsWaitingForAlloc[island := work];
        }
        ok, first := true, "";
      } else {
        ok, first := AllocateWorker(island, work, now);
      }
    }

    method PopWaitingIsland() returns (island: IslandId, work: Work)
      requires islandsWaitingForAlloc != map[]
      modifies this`islandsWaitingForAlloc
      ensures island in old(islandsWaitingForAlloc) && work == old(islandsWaitingForAlloc)[island]
      ensures islandsWaitingForAlloc == old(islandsWaitingForAlloc) - {island}
    {
      assert islandsWaitingForAlloc.Keys != {};
      island :| island in islandsWaitingForAlloc.Keys;
      work := islandsWaitingForAlloc[island];
      islandsWaitingForAlloc := islandsWaitingForAlloc - {island};
    }

    method AddFree(w: WorkerId, now: nat) returns (ok: bool, ghost p: Pick)
      modifies this, workerInfo
      ensures p.worker in old(freeWorkersPool) + {w}
      ensures old(islandsWaitingForAlloc) != map[] ==> p.island in old(islandsWaitingForAlloc)
      ensures Did(AddFreeWorker(old(Now()), w, p, now), ok)
    {
      freeWorkersPool := freeWorkersPool + {w};
      ok, p := true, Pick(w, "");
      if islandsWaitingForAlloc != map[] {
        var island, work := PopWaitingIsland();
        ghost var first;
        ok, first := AllocateWorker(island, work, now);
        p := Pick(first, island);
      }
    }

    method WorkerJoin(w: WorkerId, now: nat) returns (ok: bool, ghost p: Pick)
      modifies this, workerInfo
      ensures PickOk(old(Now()), Join(w), p)
      ensures Did(Handle(old(Now()), Join(w), p, now), ok)
    {
      if w in freeWorkersPool {
        ok, p := true, AnyPick(Now(), Join(w));
        return;
      }
      workerInfo.WorkerJoined(w);
      ok, p := AddFree(w, now);
    }

    method WorkerLeave(w: WorkerId, now: nat) returns (ok: bool, ghost p: Pick)
      modifies this, workerInfo
      ensures PickOk(old(Now()), Leave(w), p)
      ensures Did(Handle(old(Now()), Leave(w), p, now), ok)
    {
      ok, p := true, AnyPick(Now(), Leave(w));
      freeWorkersPool := freeWorkersPool - {w};
      workerInfo.WorkerLeft(w);
      if w in workAllocationMap {
        var record := workAllocationMap[w];
        workAllocationMap := workAllocationMap - {w};
        ghost var first;
        ok, first := AllocateIsland(record.islandId, record.work, now);
        p := p.(worker := first);
      }
    }

    method WorkResults(w: WorkerId, result: Work, now: nat) returns (ok: bool, ghost p: Pick)
      modifies this, workerInfo
      ensures PickOk(old(Now()), Results(w, result), p)
      ensures Did(Handle(old(Now()), Results(w, result), p, now), ok)
    {
      p := AnyPick(Now(), Results(w, result));
      ok := workerInfo.WorkerFinishedWork(w, |result.pop|, result.algo, now);
      if !ok || w !in workAllocationMap {
        return false, p;
      }
      sent := sent + [ToIsland(workAllocationMap[w].islandId, result)];
      workAllocationMap := workAllocationMap - {w};
      ok, p := AddFree(w, now);
    }

    method IslandRequest(island: IslandId, work: Work, now: nat) returns (ok: bool, ghost p: Pick)
      modifies this, workerInfo
      ensures PickOk(old(Now()), Allocate(island, work), p)
      ensures Did(Handle(old(Now()), Allocate(island, work), p, now), ok)
    {
      p := AnyPick(Now(), Allocate(island, work));
      ghost var first;
      ok, first := AllocateIsland(island, work, now);
      p := p.(worker := first);
    }
  }
}
