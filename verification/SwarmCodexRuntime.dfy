/** The slot bookkeeping of src/dispatch/swarm-codex-runtime.ts on its own maps, step by step. */
module SwarmCodexRuntime {
  import opened Wrappers
  import opened RepoSlots

  /** `activeByCwd`, `waitersByCwd` and `cwdByAgent`; a parked promise is named by its spawn call.
      `spawns` records where each spawn call is suspended. */
  class Slots {
    const concurrencyPerRepo: int
    var activeByCwd: map<string, nat>
    var waitersByCwd: map<string, seq<nat>>
    var cwdByAgent: map<string, string>
    ghost var spawns: map<nat, Spawn>

    ghost function Now(): State
      reads this
    {
      State(activeByCwd, waitersByCwd, cwdByAgent, spawns)
    }

    constructor (limit: Option<int>)
      ensures Now() == EMPTY && fresh(this)
      ensures concurrencyPerRepo == if limit.Some? then limit.value else 1
    {
      concurrencyPerRepo := if limit.Some? then limit.value else 1;
      activeByCwd, waitersByCwd, cwdByAgent, spawns := map[], map[], map[], map[];
    }

    /** `waitForRepoSlot` from its start or a resumption up to the next await: true once the slot is taken. */
    method WaitForRepoSlot(id: nat, cwd: string) returns (acquired: bool)
      requires id !in spawns || spawns[id] == Spawn(cwd, Woken)
      modifies this
      ensures Now() == TryEnter(old(Now()), concurrencyPerRepo, id, cwd)
      ensures acquired == (spawns[id].phase == Holding)
    {
      if concurrencyPerRepo <= 0 {
        spawns := spawns[id := Spawn(cwd, Holding)];
        return true;
      }
      var active := if cwd in activeByCwd then activeByCwd[cwd] else 0;
      if active >= concurrencyPerRepo {
        var queue := if cwd in waitersByCwd then waitersByCwd[cwd] else [];
        waitersByCwd := waitersByCwd[cwd := queue + [id]];
        spawns := spawns[id := Spawn(cwd, Parked)];
        return false;
      }
      activeByCwd := activeByCwd[cwd := active + 1];
      spawns := spawns[id := Spawn(cwd, Holding)];
      return true;
    }

    /** `releaseRepoSlot`: the woken spawn, if any, resumes later. */
    method ReleaseRepoSlot(cwd: string) returns (wake: Option<nat>)
      requires cwd in waitersByCwd ==> waitersByCwd[cwd] != []
      modifies this
      ensures Now() == Release(old(Now()), cwd)
      ensures wake == if old(Now()).Queue(cwd) == [] then None else Some(old(Now()).Queue(cwd)[0])
    {
      var active := if cwd in activeByCwd then activeByCwd[cwd] else 0;
      var next := if active > 0 then active - 1 else 0;
      if next == 0 {
        activeByCwd := activeByCwd - {cwd};
      } else {
        activeByCwd := activeByCwd[cwd := next];
      }
      wake := None;
      if cwd in waitersByCwd {
        var queue := waitersByCwd[cwd];
        wake := Some(queue[0]);
        queue := queue[1..];
        waitersByCwd := if |queue| == 0 then waitersByCwd - {cwd} else waitersByCwd[cwd := queue];
        spawns := spawns[wake.value := Spawn(cwd, Woken)];
      }
    }

    /** `spawn` after its runtime started the agent. */
    method RecordSpawn(id: nat, cwd: string, agent: string)
      requires Enabled(Now(), SpawnOk(id, agent)) && cwd == spawns[id].cwd
      modifies this
      ensures Now() == Next(old(Now()), concurrencyPerRepo, SpawnOk(id, agent))
    {
      cwdByAgent := cwdByAgent[agent := cwd];
      spawns := spawns - {id};
    }

    /** `spawn`'s catch branch. */
    method FailSpawn(id: nat, cwd: string) returns (wake: Option<nat>)
      requires Enabled(Now(), SpawnFail(id)) && cwd == spawns[id].cwd && QueuesMatch(Now())
      modifies this
      ensures Now() == Next(old(Now()), concurrencyPerRepo, SpawnFail(id))
    {
      spawns := spawns - {id};
      wake := ReleaseRepoSlot(cwd);
    }

    /** The `onStopped` callback. */
    method OnStopped(agent: string) returns (wake: Option<nat>)
      requires QueuesMatch(Now())
      modifies this
      ensures Now() == Next(old(Now()), concurrencyPerRepo, Stopped(agent))
    {
      wake := None;
      if agent in cwdByAgent {
        var agentCwd := cwdByAgent[agent];
        cwdByAgent := cwdByAgent - {agent};
        wake := ReleaseRepoSlot(agentCwd);
      }
    }

    /** The synchronous end of `stopAll`: wakes every waiter of every queue and forgets all bookkeeping. */
    method StopAll() returns (woken: set<nat>)
      requires QueuesMatch(Now())
      modifies this
      ensures Now() == Next(old(Now()), concurrencyPerRepo, RepoSlots.StopAll)
      ensures woken == set id | id in old(spawns) && old(spawns)[id].phase == Parked
    {
      cwdByAgent, activeByCwd, woken := map[], map[], {};
      var cwds := waitersByCwd.Keys;
      while cwds != {}
        invariant cwds <= waitersByCwd.Keys && waitersByCwd == old(waitersByCwd)
        invariant forall id :: id in woken <==>
                    id in old(spawns) && old(spawns)[id].phase == Parked && old(spawns)[id].cwd !in cwds
        decreases cwds
      {
        var cwd :| cwd in cwds;
        var queue := waitersByCwd[cwd];
        woken := woken + set id | id in queue;
        assert forall id :: id in queue <==> id in old(Now()).Queue(cwd);
        cwds := cwds - {cwd};
      }
      waitersByCwd := map[];
      spawns := WakeAll(spawns);
    }
  }
}
