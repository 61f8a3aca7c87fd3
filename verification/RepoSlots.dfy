/**
 The per-repository slot semaphore of src/dispatch/swarm-codex-runtime.ts as a state machine.
 Each step runs between two awaits of the source, so steps of different spawns interleave freely.
 */
module RepoSlots {
  import opened Wrappers

  /** Where a spawn is suspended: parked in a queue, resolved but not yet resumed, or past acquisition. */
  datatype Phase = Parked | Woken | Holding

  datatype Spawn = Spawn(cwd: string, phase: Phase)

  /** The runtime's maps, and the spawn calls in progress. */
  datatype State = State(
    active: map<string, nat>,
    waiters: map<string, seq<nat>>,
    cwdByAgent: map<string, string>,
    spawns: map<nat, Spawn>)
  {
    function Active(cwd: string): nat {
      if cwd in active then active[cwd] else 0
    }

    function Queue(cwd: string): seq<nat> {
      if cwd in waiters then waiters[cwd] else []
    }
  }

  datatype Step =
    | Arrive(id: nat, cwd: string)
    | Resume(id: nat)
    | SpawnOk(id: nat, agent: string)
    | SpawnFail(id: nat)
    | Stopped(agent: string)
    | StopAll

  const EMPTY := State(map[], map[], map[], map[])

  function Park(s: State, id: nat, cwd: string): State {
    s.(waiters := s.waiters[cwd := s.Queue(cwd) + [id]], spawns := s.spawns[id := Spawn(cwd, Parked)])
  }

  function Take(s: State, id: nat, cwd: string): State {
    s.(active := s.active[cwd := s.Active(cwd) + 1], spawns := s.spawns[id := Spawn(cwd, Holding)])
  }

  /** One pass of the waiting loop: park behind a full repository, else take a slot. A limit of zero or
      less lets every spawn through without counting it. */
  function TryEnter(s: State, limit: int, id: nat, cwd: string): State {
    if limit <= 0 then s.(spawns := s.spawns[id := Spawn(cwd, Holding)])
    else if s.Active(cwd) >= limit then Park(s, id, cwd)
    else Take(s, id, cwd)
  }

  /** Give a slot back, never below zero, and wake the longest-parked waiter. */
  function Release(s: State, cwd: string): State {
    var next := if s.Active(cwd) > 0 then s.Active(cwd) - 1 else 0;
    var queue := s.Queue(cwd);
    State(
      if next == 0 then s.active - {cwd} else s.active[cwd := next],
      if |queue| <= 1 then s.waiters - {cwd} else s.waiters[cwd := queue[1..]],
      s.cwdByAgent,
      if queue == [] then s.spawns else s.spawns[queue[0] := Spawn(cwd, Woken)])
  }

  function WakeAll(spawns: map<nat, Spawn>): map<nat, Spawn> {
    map id | id in spawns :: if spawns[id].phase == Parked then Spawn(spawns[id].cwd, Woken) else spawns[id]
  }

  predicate Enabled(s: State, e: Step) {
    match e
    case Arrive(id, cwd) => id !in s.spawns
    case Resume(id) => id in s.spawns && s.spawns[id].phase == Woken
    case SpawnOk(id, _) => id in s.spawns && s.spawns[id].phase == Holding
    case SpawnFail(id) => id in s.spawns && s.spawns[id].phase == Holding
    case Stopped(_) => true
    case StopAll => true
  }

  function Next(s: State, limit: int, e: Step): State
    requires Enabled(s, e)
  {
    match e
    case Arrive(id, cwd) => TryEnter(s, limit, id, cwd)
    case Resume(id) => TryEnter(s, limit, id, s.spawns[id].cwd)
    case SpawnOk(id, agent) =>
      s.(cwdByAgent := s.cwdByAgent[agent := s.spawns[id].cwd], spawns := s.spawns - {id})
    case SpawnFail(id) => Release(s.(spawns := s.spawns - {id}), s.spawns[id].cwd)
    case Stopped(agent) =>
      if agent !in s.cwdByAgent then s
      else Release(s.(cwdByAgent := s.cwdByAgent - {agent}), s.cwdByAgent[agent])
    case StopAll => State(map[], map[], map[], WakeAll(s.spawns))
  }

  // ---- counting ----

  /** The keys that hold a given value. */
  ghost function Holders<K, V>(m: map<K, V>, v: V): set<K> {
    set k | k in m && m[k] == v
  }

  lemma HoldersAfterUpdate<K, V>(m: map<K, V>, k: K, v: V, w: V)
    ensures |Holders(m[k := v], w)|
         == |Holders(m, w)| - (if k in m && m[k] == w then 1 else 0) + (if v == w then 1 else 0)
  {
    if v == w {
      assert Holders(m[k := v], w) == Holders(m, w) + {k};
    } else {
      assert Holders(m[k := v], w) == Holders(m, w) - {k};
    }
  }

  lemma HoldersAfterRemoval<K, V>(m: map<K, V>, k: K, w: V)
    ensures |Holders(m - {k}, w)| == |Holders(m, w)| - (if k in m && m[k] == w then 1 else 0)
  {
    assert Holders(m - {k}, w) == Holders(m, w) - {k};
  }

  ghost function Count(s: State, cwd: string, phase: Phase): nat {
    |Holders(s.spawns, Spawn(cwd, phase))|
  }

  /** The slots really in use: spawns past acquisition and agents still mapped to the repository. */
  ghost function InUse(s: State, cwd: string): nat {
    Count(s, cwd, Holding) + |Holders(s.cwdByAgent, cwd)|
  }

  // ---- invariants ----

  ghost predicate NoIdTwice(queue: seq<nat>) {
    forall i, j :: 0 <= i < j < |queue| ==> queue[i] != queue[j]
  }

  /** Each queue holds exactly the spawns parked on its repository, each once. */
  ghost predicate QueuesMatch(s: State) {
    && (forall cwd :: cwd in s.waiters ==> s.waiters[cwd] != [])
    && (forall cwd :: NoIdTwice(s.Queue(cwd)))
    && (forall cwd, id :: id in s.Queue(cwd) <==> id in s.spawns && s.spawns[id] == Spawn(cwd, Parked))
  }

  ghost predicate Bounded(s: State, limit: int) {
    forall cwd :: s.Active(cwd) <= limit
  }

  /** If anyone is parked, the repository is full, counting the wakes already on their way. */
  ghost predicate NoLostWakeup(s: State, limit: int) {
    forall cwd :: s.Queue(cwd) != [] ==> s.Active(cwd) + Count(s, cwd, Woken) >= limit
  }

  ghost predicate Inv(s: State, limit: int) {
    QueuesMatch(s) && Bounded(s, limit) && NoLostWakeup(s, limit)
  }

  /** No slot is counted that is not in use. */
  ghost predicate NeverOvercounts(s: State) {
    forall cwd :: s.Active(cwd) <= InUse(s, cwd)
  }

  /** Every slot in use is counted, and no other. */
  ghost predicate Conserved(s: State) {
    forall cwd :: s.Active(cwd) == InUse(s, cwd)
  }

  // ---- the invariants are kept by every step ----

  lemma ParkKeepsQueues(s: State, id: nat, cwd: string)
    requires QueuesMatch(s) && (id !in s.spawns || s.spawns[id] == Spawn(cwd, Woken))
    ensures QueuesMatch(Park(s, id, cwd))
  {
    var t := Park(s, id, cwd);
    assert forall c :: c != cwd ==> t.Queue(c) == s.Queue(c);
    assert id !in s.Queue(cwd);
    forall c, k ensures k in t.Queue(c) <==> k in t.spawns && t.spawns[k] == Spawn(c, Parked) {
      assert k in s.Queue(c) <==> k in s.spawns && s.spawns[k] == Spawn(c, Parked);
      if c == cwd { assert k in t.Queue(c) <==> k in s.Queue(c) || k == id; }
    }
  }

  lemma TakeKeepsQueues(s: State, id: nat, cwd: string)
    requires QueuesMatch(s) && (id !in s.spawns || s.spawns[id] == Spawn(cwd, Woken))
    ensures QueuesMatch(Take(s, id, cwd))
  {
    var t := Take(s, id, cwd);
    assert forall c :: t.Queue(c) == s.Queue(c);
    forall c, k ensures k in t.Queue(c) <==> k in t.spawns && t.spawns[k] == Spawn(c, Parked) {
      assert k in s.Queue(c) <==> k in s.spawns && s.spawns[k] == Spawn(c, Parked);
    }
  }

  lemma TryEnterKeeps(s: State, limit: int, id: nat, cwd: string)
    requires limit >= 1 && Inv(s, limit)
    requires id !in s.spawns || s.spawns[id] == Spawn(cwd, Woken)
    ensures Inv(TryEnter(s, limit, id, cwd), limit)
  {
    hide QueuesMatch;
    var t := TryEnter(s, limit, id, cwd);
    forall c ensures Count(t, c, Woken) == Count(s, c, Woken) - (if c == cwd && id in s.spawns then 1 else 0) {
      HoldersAfterUpdate(s.spawns, id, t.spawns[id], Spawn(c, Woken));
    }
    assert forall c :: c != cwd ==> t.Queue(c) == s.Queue(c) && t.Active(c) == s.Active(c);
    if s.Active(cwd) >= limit {
      ParkKeepsQueues(s, id, cwd);
    } else {
      TakeKeepsQueues(s, id, cwd);
      assert t.Queue(cwd) == s.Queue(cwd);
    }
  }

  lemma ReleaseMember(s: State, cwd: string, c: string, k: nat)
    requires QueuesMatch(s)
    ensures var t := Release(s, cwd); k in t.Queue(c) <==> k in t.spawns && t.spawns[k] == Spawn(c, Parked)
  {
    var queue := s.Queue(cwd);
    assert k in s.Queue(c) <==> k in s.spawns && s.spawns[k] == Spawn(c, Parked);
    if queue != [] {
      assert queue[0] in s.Queue(cwd);
      assert queue == [queue[0]] + queue[1..];
    }
  }

  lemma ReleaseQueue(s: State, cwd: string, c: string)
    ensures Release(s, cwd).Queue(c) == if c == cwd && s.Queue(c) != [] then s.Queue(c)[1..] else s.Queue(c)
  {}

  lemma ReleaseQueueShape(s: State, cwd: string, c: string)
    requires QueuesMatch(s)
    ensures NoIdTwice(Release(s, cwd).Queue(c))
    ensures c in Release(s, cwd).waiters ==> Release(s, cwd).waiters[c] != []
  {
    ReleaseQueue(s, cwd, c);
    assert NoIdTwice(s.Queue(c));
  }

  lemma ReleaseKeepsQueues(s: State, cwd: string)
    requires QueuesMatch(s)
    ensures QueuesMatch(Release(s, cwd))
  {
    hide Release, NoIdTwice;
    var t := Release(s, cwd);
    forall c ensures NoIdTwice(t.Queue(c)) && (c in t.waiters ==> t.waiters[c] != []) {
      ReleaseQueueShape(s, cwd, c);
    }
    forall c, k ensures k in t.Queue(c) <==> k in t.spawns && t.spawns[k] == Spawn(c, Parked) {
      ReleaseMember(s, cwd, c, k);
    }
  }

  lemma ReleaseKeeps(s: State, limit: int, cwd: string)
    requires limit >= 1 && Inv(s, limit)
    ensures Inv(Release(s, cwd), limit)
  {
    var t, queue := Release(s, cwd), s.Queue(cwd);
    ReleaseKeepsQueues(s, cwd);
    forall c ensures c != cwd ==> t.Active(c) == s.Active(c) && t.Queue(c) == s.Queue(c) { ReleaseQueue(s, cwd, c); }
    ReleaseQueue(s, cwd, cwd);
    if queue != [] {
      assert queue[0] in s.Queue(cwd);
      forall c ensures Count(t, c, Woken) == Count(s, c, Woken) + (if c == cwd then 1 else 0) {
        HoldersAfterUpdate(s.spawns, queue[0], Spawn(cwd, Woken), Spawn(c, Woken));
      }
    }
  }

  /** Forgetting a spawn that neither is parked nor woken changes no queue and no wake. */
  lemma ForgetKeeps(s: State, limit: int, id: nat, agents: map<string, string>)
    requires Inv(s, limit) && id in s.spawns && s.spawns[id].phase == Holding
    ensures Inv(s.(spawns := s.spawns - {id}, cwdByAgent := agents), limit)
  {
    var t := s.(spawns := s.spawns - {id}, cwdByAgent := agents);
    assert forall c :: t.Queue(c) == s.Queue(c) && t.Active(c) == s.Active(c);
    forall c ensures Count(t, c, Woken) == Count(s, c, Woken) {
      HoldersAfterRemoval(s.spawns, id, Spawn(c, Woken));
    }
  }

  lemma AgentsDoNotMatter(s: State, limit: int, agents: map<string, string>)
    requires Inv(s, limit)
    ensures Inv(s.(cwdByAgent := agents), limit)
  {
    var t := s.(cwdByAgent := agents);
    assert forall c :: t.Queue(c) == s.Queue(c) && t.Active(c) == s.Active(c);
    assert forall c :: Count(t, c, Woken) == Count(s, c, Woken);
  }

  lemma StopAllKeeps(s: State, limit: int)
    requires limit >= 1
    ensures Inv(Next(s, limit, StopAll), limit)
  {}

  /** No lost wake-up, the bound and the queues survive every step of every interleaving, `stopAll` included. */
  lemma StepKeeps(s: State, limit: int, e: Step)
    requires limit >= 1 && Inv(s, limit) && Enabled(s, e)
    ensures Inv(Next(s, limit, e), limit)
  {
    match e
    case Arrive(id, cwd) => TryEnterKeeps(s, limit, id, cwd);
    case Resume(id) => TryEnterKeeps(s, limit, id, s.spawns[id].cwd);
    case SpawnOk(id, agent) => ForgetKeeps(s, limit, id, s.cwdByAgent[agent := s.spawns[id].cwd]);
    case SpawnFail(id) =>
      ForgetKeeps(s, limit, id, s.cwdByAgent);
      ReleaseKeeps(s.(spawns := s.spawns - {id}), limit, s.spawns[id].cwd);
    case Stopped(agent) =>
      if agent in s.cwdByAgent {
        AgentsDoNotMatter(s, limit, s.cwdByAgent - {agent});
        ReleaseKeeps(s.(cwdByAgent := s.cwdByAgent - {agent}), limit, s.cwdByAgent[agent]);
      }
    case StopAll => StopAllKeeps(s, limit);
  }

  // ---- slots counted against slots in use ----

  /** Agent ids are fresh when a spawn completes. */
  predicate Fresh(s: State, e: Step) {
    e.SpawnOk? ==> e.agent !in s.cwdByAgent
  }

  lemma ReleaseKeepsUse(s: State, cwd: string, c: string)
    requires QueuesMatch(s)
    ensures InUse(Release(s, cwd), c) == InUse(s, c)
  {
    var queue := s.Queue(cwd);
    if queue != [] {
      assert queue[0] in s.Queue(cwd);
      HoldersAfterUpdate(s.spawns, queue[0], Spawn(cwd, Woken), Spawn(c, Holding));
    }
  }

  /** A slot counted is a slot in use, and after the step still is; the same for equality. */
  ghost predicate UseKept(s: State, t: State, c: string) {
    && (s.Active(c) <= InUse(s, c) ==> t.Active(c) <= InUse(t, c))
    && (s.Active(c) == InUse(s, c) ==> t.Active(c) == InUse(t, c))
  }

  lemma EnterUse(s: State, limit: int, id: nat, cwd: string, c: string)
    requires limit >= 1 && (id !in s.spawns || s.spawns[id] == Spawn(cwd, Woken))
    ensures UseKept(s, TryEnter(s, limit, id, cwd), c)
  {
    HoldersAfterUpdate(s.spawns, id, TryEnter(s, limit, id, cwd).spawns[id], Spawn(c, Holding));
  }

  lemma SpawnFailUse(s: State, limit: int, id: nat, c: string)
    requires Inv(s, limit) && Enabled(s, SpawnFail(id))
    ensures UseKept(s, Next(s, limit, SpawnFail(id)), c)
  {
    var mid := s.(spawns := s.spawns - {id});
    HoldersAfterRemoval(s.spawns, id, Spawn(c, Holding));
    ForgetKeeps(s, limit, id, s.cwdByAgent);
    ReleaseKeepsUse(mid, s.spawns[id].cwd, c);
    assert mid.Active(c) == s.Active(c);
  }

  lemma StoppedUse(s: State, limit: int, agent: string, c: string)
    requires Inv(s, limit)
    ensures UseKept(s, Next(s, limit, Stopped(agent)), c)
  {
    if agent in s.cwdByAgent {
      var mid := s.(cwdByAgent := s.cwdByAgent - {agent});
      HoldersAfterRemoval(s.cwdByAgent, agent, c);
      AgentsDoNotMatter(s, limit, mid.cwdByAgent);
      ReleaseKeepsUse(mid, s.cwdByAgent[agent], c);
      assert mid.Active(c) == s.Active(c);
    }
  }

  /** Every step with fresh agent ids, short of `stopAll`, keeps the count of a repository's slots honest. */
  lemma StepUse(s: State, limit: int, e: Step, c: string)
    requires limit >= 1 && Inv(s, limit) && Enabled(s, e) && Fresh(s, e) && !e.StopAll?
    ensures UseKept(s, Next(s, limit, e), c)
  {
    match e
    case Arrive(id, cwd) => EnterUse(s, limit, id, cwd, c);
    case Resume(id) => EnterUse(s, limit, id, s.spawns[id].cwd, c);
    case SpawnOk(id, agent) =>
      HoldersAfterRemoval(s.spawns, id, Spawn(c, Holding));
      HoldersAfterUpdate(s.cwdByAgent, agent, s.spawns[id].cwd, c);
    case SpawnFail(id) => SpawnFailUse(s, limit, id, c);
    case Stopped(agent) => StoppedUse(s, limit, agent, c);
  }

  /** Recording a spawn keeps the count exactly when the agent id is fresh: a reused id loses a slot. */
  lemma FreshExactly(s: State, limit: int, id: nat, agent: string)
    requires limit >= 1 && Inv(s, limit) && Conserved(s) && Enabled(s, SpawnOk(id, agent))
    ensures Conserved(Next(s, limit, SpawnOk(id, agent))) <==> agent !in s.cwdByAgent
  {
    var e, t := SpawnOk(id, agent), Next(s, limit, SpawnOk(id, agent));
    if agent !in s.cwdByAgent {
      forall c ensures t.Active(c) == InUse(t, c) { StepUse(s, limit, e, c); }
    } else {
      var c := s.cwdByAgent[agent];
      HoldersAfterRemoval(s.spawns, id, Spawn(c, Holding));
      HoldersAfterUpdate(s.cwdByAgent, agent, s.spawns[id].cwd, c);
      assert t.Active(c) == s.Active(c) == InUse(s, c);
    }
  }

  // ---- runs ----

  /** The state after a sequence of steps from the empty runtime; a step that is not enabled cannot happen. */
  function Exec(limit: int, es: seq<Step>): State {
    if es == [] then EMPTY
    else
      var s := Exec(limit, es[..|es| - 1]);
      if Enabled(s, es[|es| - 1]) then Next(s, limit, es[|es| - 1]) else s
  }

  ghost predicate FreshRun(limit: int, es: seq<Step>) {
    es == [] || (FreshRun(limit, es[..|es| - 1]) && Fresh(Exec(limit, es[..|es| - 1]), es[|es| - 1]))
  }

  /** In every interleaving, `stopAll` included: whoever is parked waits behind a full repository, counting
      wakes on their way; the count never passes the limit; the queues hold exactly the parked spawns. */
  lemma {:induction false} RunKeeps(limit: int, es: seq<Step>)
    requires limit >= 1
    ensures Inv(Exec(limit, es), limit)
  {
    if es != [] {
      var s, e := Exec(limit, es[..|es| - 1]), es[|es| - 1];
      RunKeeps(limit, es[..|es| - 1]);
      if Enabled(s, e) { StepKeeps(s, limit, e); }
    }
  }

  /** With fresh agent ids no slot is counted that is not in use; without `stopAll` the count is exact. */
  lemma {:induction false} RunConserves(limit: int, es: seq<Step>)
    requires limit >= 1 && FreshRun(limit, es)
    ensures NeverOvercounts(Exec(limit, es))
    ensures StopAll !in es ==> Conserved(Exec(limit, es))
  {
    if es == [] {
      assert forall c :: Holders(EMPTY.spawns, Spawn(c, Holding)) == {} && Holders(EMPTY.cwdByAgent, c) == {};
    } else {
      var front, e := es[..|es| - 1], es[|es| - 1];
      var s := Exec(limit, front);
      assert es == front + [e];
      RunConserves(limit, front);
      RunKeeps(limit, front);
      if Enabled(s, e) && !e.StopAll? {
        var t := Next(s, limit, e);
        forall c ensures t.Active(c) <= InUse(t, c) && (Conserved(s) ==> t.Active(c) == InUse(t, c)) {
          StepUse(s, limit, e, c);
        }
      }
    }
  }

  /** Wherever a run without `stopAll` gives a slot back, at least one is counted: the clamp never acts. */
  lemma ClampNeverActs(limit: int, es: seq<Step>, e: Step, cwd: string)
    requires limit >= 1 && FreshRun(limit, es) && StopAll !in es
    requires var s := Exec(limit, es);
             || (e.SpawnFail? && Enabled(s, e) && cwd == s.spawns[e.id].cwd)
             || (e.Stopped? && e.agent in s.cwdByAgent && cwd == s.cwdByAgent[e.agent])
    ensures Exec(limit, es).Active(cwd) >= 1
  {
    var s := Exec(limit, es);
    RunConserves(limit, es);
    if e.SpawnFail? {
      assert e.id in Holders(s.spawns, Spawn(cwd, Holding));
    } else {
      assert e.agent in Holders(s.cwdByAgent, cwd);
    }
  }

  /** A spawn waits only while the repository is full: with a waiter parked and no wake on its way,
      exactly `limit` spawns and agents are using it. */
  lemma WaitsOnlyWhileFull(limit: int, es: seq<Step>, cwd: string)
    requires limit >= 1 && FreshRun(limit, es) && StopAll !in es
    requires Count(Exec(limit, es), cwd, Parked) > 0 && Count(Exec(limit, es), cwd, Woken) == 0
    ensures InUse(Exec(limit, es), cwd) == limit
  {
    var s := Exec(limit, es);
    RunKeeps(limit, es);
    RunConserves(limit, es);
    var id :| id in Holders(s.spawns, Spawn(cwd, Parked));
    assert id in s.Queue(cwd);
  }

  lemma ExecAppend(limit: int, es: seq<Step>, e: Step)
    requires Enabled(Exec(limit, es), e)
    ensures Exec(limit, es + [e]) == Next(Exec(limit, es), limit, e)
  {
    assert (es + [e])[..|es|] == es;
  }

  /** Waiters are not served in arrival order: a newcomer between a wake and its resumption sends the
      longest-parked waiter (1) back behind one that came later (2). */
  lemma BargingOvertakes() returns (before: seq<Step>, after: seq<Step>)
    ensures before <= after && StopAll !in after
    ensures Exec(1, before).Queue("r") == [1, 2] && Exec(1, after).Queue("r") == [2, 1]
  {
    ExecAppend(1, [], Arrive(0, "r"));
    var s1 := Take(EMPTY, 0, "r");
    assert [] + [Arrive(0, "r")] == [Arrive(0, "r")];
    before := [Arrive(0, "r")];
    ExecAppend(1, before, Arrive(1, "r"));
    before := before + [Arrive(1, "r")];
    var s2 := Park(s1, 1, "r");
    ExecAppend(1, before, Arrive(2, "r"));
    before := before + [Arrive(2, "r")];
    var s3 := Park(s2, 2, "r");
    assert Exec(1, before) == s3;
    ExecAppend(1, before, SpawnFail(0));
    after := before + [SpawnFail(0)];
    ExecAppend(1, after, Arrive(3, "r"));
    after := after + [Arrive(3, "r")];
    ExecAppend(1, after, Resume(1));
    after := after + [Resume(1)];
  }

  lemma UnlimitedStep(s: State, limit: int, e: Step)
    requires limit <= 0 && s.active == map[] && s.waiters == map[] && Enabled(s, e)
    ensures Next(s, limit, e).active == map[] && Next(s, limit, e).waiters == map[]
    ensures forall id :: id in Next(s, limit, e).spawns && id !in s.spawns ==>
              Next(s, limit, e).spawns[id].phase == Holding
  {}

  /** A limit of zero or less means none: over every run nobody is ever parked and no slot is counted. */
  lemma {:induction false} UnlimitedNeverParks(limit: int, es: seq<Step>)
    requires limit <= 0
    ensures Exec(limit, es).active == map[] && Exec(limit, es).waiters == map[]
  {
    if es != [] {
      var s, e := Exec(limit, es[..|es| - 1]), es[|es| - 1];
      UnlimitedNeverParks(limit, es[..|es| - 1]);
      if Enabled(s, e) { UnlimitedStep(s, limit, e); }
      hide Next;
    }
  }

  // ---- agents ----

  /** Where the agent runs: in the directory of the spawn that last reported it, until it stopped or all were. */
  function RunsIn(limit: int, es: seq<Step>, agent: string): Option<string> {
    if es == [] then None
    else
      var front, e := es[..|es| - 1], es[|es| - 1];
      var s := Exec(limit, front);
      if e.SpawnOk? && e.agent == agent && Enabled(s, e) then Some(s.spawns[e.id].cwd)
      else if e == Stopped(agent) || e.StopAll? then None
      else RunsIn(limit, front, agent)
  }

  /** Over every run, an agent is mapped to a repository exactly while it runs there. */
  lemma {:induction false} MappedExactly(limit: int, es: seq<Step>, agent: string)
    ensures var agents := Exec(limit, es).cwdByAgent;
            RunsIn(limit, es, agent) == if agent in agents then Some(agents[agent]) else None
  {
    if es != [] {
      MappedExactly(limit, es[..|es| - 1], agent);
      var s, e := Exec(limit, es[..|es| - 1]), es[|es| - 1];
      if Enabled(s, e) { AgentStep(s, limit, e, agent); }
      hide Next;
    }
  }

  lemma AgentStep(s: State, limit: int, e: Step, agent: string)
    requires Enabled(s, e)
    ensures var agents := Next(s, limit, e).cwdByAgent;
            (if agent in agents then Some(agents[agent]) else None) ==
            if e.SpawnOk? && e.agent == agent then Some(s.spawns[e.id].cwd)
            else if e == Stopped(agent) || e.StopAll? then None
            else if agent in s.cwdByAgent then Some(s.cwdByAgent[agent]) else None
  {}

  // ---- draining ----

  /** The steps that can still happen once no spawn arrives and nothing is stopped wholesale. */
  predicate Draining(s: State, e: Step) {
    && Enabled(s, e)
    && !e.Arrive? && !e.StopAll?
    && (e.Stopped? ==> e.agent in s.cwdByAgent)
  }

  /** Whenever anything is left, some draining step can be taken: nobody waits for a wake that was lost. */
  lemma SomethingDrains(limit: int, es: seq<Step>) returns (e: Step)
    requires limit >= 1 && FreshRun(limit, es)
    requires Exec(limit, es).spawns != map[] || Exec(limit, es).cwdByAgent != map[]
    ensures Draining(Exec(limit, es), e)
  {
    var s := Exec(limit, es);
    RunKeeps(limit, es);
    RunConserves(limit, es);
    if agent :| agent in s.cwdByAgent {
      e := Stopped(agent);
    } else {
      var id :| id in s.spawns;
      match s.spawns[id].phase
      case Woken => e := Resume(id);
      case Holding => e := SpawnFail(id);
      case Parked =>
        assert id in Holders(s.spawns, Spawn(s.spawns[id].cwd, Parked));
        e := FullRepositoryDrains(s, limit, s.spawns[id].cwd);
    }
  }

  lemma FullRepositoryDrains(s: State, limit: int, cwd: string) returns (e: Step)
    requires limit >= 1 && Inv(s, limit) && NeverOvercounts(s) && Count(s, cwd, Parked) > 0
    ensures Draining(s, e)
  {
    var id :| id in Holders(s.spawns, Spawn(cwd, Parked));
    assert id in s.Queue(cwd);
    if Count(s, cwd, Woken) > 0 {
      var woken :| woken in Holders(s.spawns, Spawn(cwd, Woken));
      e := Resume(woken);
    } else if Count(s, cwd, Holding) > 0 {
      var holder :| holder in Holders(s.spawns, Spawn(cwd, Holding));
      e := SpawnFail(holder);
    } else {
      var agent :| agent in Holders(s.cwdByAgent, cwd);
      e := Stopped(agent);
    }
  }

  ghost function Phases(spawns: map<nat, Spawn>): map<nat, Phase> {
    map id | id in spawns :: spawns[id].phase
  }

  /** What a spawn still has ahead: to be woken, to take a slot, to become an agent, and to stop. */
  function Weight(phase: Phase): nat {
    match phase
    case Parked => 3
    case Woken => 4
    case Holding => 3
  }

  ghost function LeftIn(spawns: map<nat, Spawn>): nat {
    var p := Phases(spawns);
    3 * |Holders(p, Parked)| + 4 * |Holders(p, Woken)| + 3 * |Holders(p, Holding)|
  }

  ghost function Left(s: State): nat {
    LeftIn(s.spawns) + 2 * |s.cwdByAgent|
  }

  lemma LeftAfterUpdate(m: map<nat, Spawn>, id: nat, v: Spawn)
    ensures LeftIn(m[id := v]) == LeftIn(m) - (if id in m then Weight(m[id].phase) else 0) + Weight(v.phase)
  {
    var p := Phases(m);
    assert Phases(m[id := v]) == p[id := v.phase];
    HoldersAfterUpdate(p, id, v.phase, Parked);
    HoldersAfterUpdate(p, id, v.phase, Woken);
    HoldersAfterUpdate(p, id, v.phase, Holding);
  }

  lemma LeftAfterRemoval(m: map<nat, Spawn>, id: nat)
    requires id in m
    ensures LeftIn(m - {id}) == LeftIn(m) - Weight(m[id].phase)
  {
    var p := Phases(m);
    assert Phases(m - {id}) == p - {id};
    HoldersAfterRemoval(p, id, Parked);
    HoldersAfterRemoval(p, id, Woken);
    HoldersAfterRemoval(p, id, Holding);
  }

  lemma ReleaseLeft(s: State, cwd: string)
    requires QueuesMatch(s)
    ensures Left(Release(s, cwd)) <= Left(s) + 1
  {
    hide LeftIn;
    if s.Queue(cwd) != [] {
      var head := s.Queue(cwd)[0];
      assert head in s.Queue(cwd);
      LeftAfterUpdate(s.spawns, head, Spawn(cwd, Woken));
    }
  }

  lemma AgentsAfterRemoval(agents: map<string, string>, agent: string)
    requires agent in agents
    ensures |agents - {agent}| == |agents| - 1
  {
    assert (agents - {agent}).Keys == agents.Keys - {agent};
  }

  lemma SpawnFailDrains(s: State, limit: int, id: nat)
    requires Inv(s, limit) && Enabled(s, SpawnFail(id))
    ensures Left(Next(s, limit, SpawnFail(id))) < Left(s)
  {
    hide LeftIn;
    LeftAfterRemoval(s.spawns, id);
    ForgetKeeps(s, limit, id, s.cwdByAgent);
    ReleaseLeft(s.(spawns := s.spawns - {id}), s.spawns[id].cwd);
  }

  lemma StoppedDrains(s: State, limit: int, agent: string)
    requires Inv(s, limit) && agent in s.cwdByAgent
    ensures Left(Next(s, limit, Stopped(agent))) < Left(s)
  {
    hide LeftIn;
    AgentsAfterRemoval(s.cwdByAgent, agent);
    AgentsDoNotMatter(s, limit, s.cwdByAgent - {agent});
    ReleaseLeft(s.(cwdByAgent := s.cwdByAgent - {agent}), s.cwdByAgent[agent]);
  }

  lemma ResumeDrains(s: State, limit: int, id: nat)
    requires Enabled(s, Resume(id))
    ensures Left(Next(s, limit, Resume(id))) < Left(s)
  {
    hide LeftIn;
    LeftAfterUpdate(s.spawns, id, Next(s, limit, Resume(id)).spawns[id]);
  }

  lemma SpawnOkDrains(s: State, limit: int, id: nat, agent: string)
    requires Enabled(s, SpawnOk(id, agent))
    ensures Left(Next(s, limit, SpawnOk(id, agent))) < Left(s)
  {
    hide LeftIn;
    LeftAfterRemoval(s.spawns, id);
    assert (s.cwdByAgent[agent := s.spawns[id].cwd]).Keys == s.cwdByAgent.Keys + {agent};
  }

  /** Every draining step leaves less to do, whoever barges in front of whom. */
  lemma DrainingDecreases(s: State, limit: int, e: Step)
    requires limit >= 1 && Inv(s, limit) && Draining(s, e)
    ensures Left(Next(s, limit, e)) < Left(s)
  {
    hide Left, Next, Inv;
    match e
    case Resume(id) => ResumeDrains(s, limit, id);
    case SpawnOk(id, agent) => SpawnOkDrains(s, limit, id, agent);
    case SpawnFail(id) => SpawnFailDrains(s, limit, id);
    case Stopped(agent) => StoppedDrains(s, limit, agent);
  }

  /** A run of draining steps. */
  ghost predicate DrainRun(s: State, limit: int, es: seq<Step>)
    decreases |es|
  {
    es == [] || (Draining(s, es[0]) && DrainRun(Next(s, limit, es[0]), limit, es[1..]))
  }

  /** Once spawns stop arriving, every continuation of every run is bounded. */
  lemma {:induction false} DrainsInBoundedTime(s: State, limit: int, es: seq<Step>)
    requires limit >= 1 && Inv(s, limit) && DrainRun(s, limit, es)
    ensures |es| <= Left(s)
    decreases |es|
  {
    if es != [] {
      DrainingDecreases(s, limit, es[0]);
      StepKeeps(s, limit, es[0]);
      DrainsInBoundedTime(Next(s, limit, es[0]), limit, es[1..]);
    }
  }

  /** Nothing can drain any more exactly when no spawn is in progress and no agent is mapped; then nobody is
      parked and no slot is counted. */
  lemma {:induction false} DrainedExactly(limit: int, es: seq<Step>)
    requires limit >= 1 && FreshRun(limit, es)
    ensures var s := Exec(limit, es);
            && ((forall e :: !Draining(s, e)) <==> s.spawns == map[] && s.cwdByAgent == map[])
            && ((forall e :: !Draining(s, e)) ==> forall cwd :: s.Queue(cwd) == [] && s.Active(cwd) == 0)
  {
    var s := Exec(limit, es);
    if s.spawns != map[] || s.cwdByAgent != map[] {
      var e := SomethingDrains(limit, es);
    } else {
      RunKeeps(limit, es);
      RunConserves(limit, es);
      NothingLeft(s);
    }
    hide Exec;
  }

  lemma QueueHeadWaits(s: State, cwd: string)
    requires QueuesMatch(s)
    ensures s.Queue(cwd) == [] || s.Queue(cwd)[0] in s.spawns
  {
    if s.Queue(cwd) != [] { assert s.Queue(cwd)[0] in s.Queue(cwd); }
  }

  lemma NothingLeft(s: State)
    requires s.spawns == map[] && s.cwdByAgent == map[] && QueuesMatch(s) && NeverOvercounts(s)
    ensures forall cwd :: s.Queue(cwd) == [] && s.Active(cwd) == 0
  {
    forall cwd ensures s.Queue(cwd) == [] && s.Active(cwd) == 0 {
      QueueHeadWaits(s, cwd);
      assert Holders(s.spawns, Spawn(cwd, Holding)) == {} && Holders(s.cwdByAgent, cwd) == {};
      assert s.Active(cwd) <= InUse(s, cwd);
    }
  }

  /** Drained to the end, every run ends after at most as many steps as were left, with nobody parked and no slot
      counted. */
  lemma {:induction false} EveryoneIsServed(limit: int, es: seq<Step>, fs: seq<Step>)
    requires limit >= 1 && FreshRun(limit, es + fs) && DrainRun(Exec(limit, es), limit, fs)
    requires forall e :: !Draining(Exec(limit, es + fs), e)
    ensures |fs| <= Left(Exec(limit, es))
    ensures forall cwd :: Exec(limit, es + fs).Queue(cwd) == [] && Exec(limit, es + fs).Active(cwd) == 0
  {
    RunKeeps(limit, es);
    DrainsInBoundedTime(Exec(limit, es), limit, fs);
    DrainedExactly(limit, es + fs);
    hide Exec, DrainRun, FreshRun, Inv, Left, Draining, State.Queue, State.Active;
  }
}
