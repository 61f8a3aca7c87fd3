/**
 The loadout hand-over of src/dispatch/openhive-runtime.ts: `resolveTarget` knows the dispatch but not the
 stream, `createStream` the stream but not the dispatch; a queue per target carries loadouts across.
 Concurrent spawns interleave between the callbacks.
 */
module LoadoutHandover {
  import opened Wrappers
  import Keys

  datatype Target = Target(server: string, agent: string)

  /** A materialised loadout: one per resolution of a dispatch. */
  datatype Loadout = Loadout(task: string, serial: nat)

  function TargetKey(t: Target): string {
    t.server + ":" + t.agent
  }

  /** `pending` and `byStream` are the runtime's maps. The rest records history: which target each loadout was
      pushed for, which target each stream was created for, and which loadouts `closeStream` let go. */
  datatype State = State(
    pending: map<string, seq<Loadout>>,
    byStream: map<string, Loadout>,
    home: map<Loadout, Target>,
    target: map<string, Target>,
    released: set<Loadout>)
  {
    function Queue(t: Target): seq<Loadout> {
      if TargetKey(t) in pending then pending[TargetKey(t)] else []
    }
  }

  const EMPTY := State(map[], map[], map[], map[], {})

  datatype Event =
    | Resolved(t: Target, task: string, loadout: Option<Loadout>)
    | Created(t: Target, task: string, stream: string)
    | CreateFailed(t: Target, task: string)
    | ClosedStream(stream: string)

  function Push(s: State, t: Target, loadout: Loadout): State {
    s.(pending := s.pending[TargetKey(t) := s.Queue(t) + [loadout]], home := s.home[loadout := t])
  }

  /** A new stream takes the oldest loadout queued for its target, if there is one. */
  function Take(s: State, t: Target, stream: string): State {
    var queue := s.Queue(t);
    State(
      if |queue| <= 1 then s.pending - {TargetKey(t)} else s.pending[TargetKey(t) := queue[1..]],
      if queue == [] then s.byStream else s.byStream[stream := queue[0]],
      s.home,
      s.target[stream := t],
      s.released)
  }

  function Close(s: State, stream: string): State {
    s.(byStream := s.byStream - {stream},
       released := if stream in s.byStream then s.released + {s.byStream[stream]} else s.released)
  }

  /** Loadouts and stream ids are new when they first appear. */
  predicate Enabled(s: State, e: Event) {
    match e
    case Resolved(_, task, loadout) => loadout.Some? ==> loadout.value.task == task && loadout.value !in s.home
    case Created(t, _, stream) => stream !in s.target
    case CreateFailed(_, _) => true
    case ClosedStream(_) => true
  }

  function Next(s: State, e: Event): State {
    match e
    case Resolved(_, _, None) => s
    case Resolved(t, _, Some(loadout)) => Push(s, t, loadout)
    case Created(t, _, stream) => Take(s, t, stream)
    case CreateFailed(_, _) => s
    case ClosedStream(stream) => Close(s, stream)
  }

  function Exec(es: seq<Event>): State {
    if es == [] then EMPTY
    else
      var s := Exec(es[..|es| - 1]);
      if Enabled(s, es[|es| - 1]) then Next(s, es[|es| - 1]) else s
  }

  /** The runtime's own maps. */
  class Runtime {
    var pendingByTarget: map<string, seq<Loadout>>
    var loadoutByStream: map<string, Loadout>

    constructor ()
      ensures pendingByTarget == map[] && loadoutByStream == map[]
    {
      pendingByTarget, loadoutByStream := map[], map[];
    }

    /** `resolveTarget` once the agent is known, for either lifecycle. */
    method ResolveTarget(t: Target, task: string, loadout: Option<Loadout>, ghost s: State)
      requires s.pending == pendingByTarget && s.byStream == loadoutByStream
      modifies this
      ensures pendingByTarget == Next(s, Resolved(t, task, loadout)).pending
      ensures loadoutByStream == Next(s, Resolved(t, task, loadout)).byStream
    {
      if loadout.Some? {
        var key := TargetKey(t);
        var queue := if key in pendingByTarget then pendingByTarget[key] else [];
        pendingByTarget := pendingByTarget[key := queue + [loadout.value]];
      }
    }

    /** `createStream` after the manager created the stream. */
    method CreateStream(t: Target, task: string, stream: string, ghost s: State)
      requires s.pending == pendingByTarget && s.byStream == loadoutByStream
      requires forall key :: key in pendingByTarget ==> pendingByTarget[key] != []
      modifies this
      ensures pendingByTarget == Next(s, Created(t, task, stream)).pending
      ensures loadoutByStream == Next(s, Created(t, task, stream)).byStream
    {
      var key := TargetKey(t);
      if key in pendingByTarget {
        var queue := pendingByTarget[key];
        var loadout := queue[0];
        queue := queue[1..];
        pendingByTarget := if |queue| == 0 then pendingByTarget - {key} else pendingByTarget[key := queue];
        loadoutByStream := loadoutByStream[stream := loadout];
      }
    }

    /** `closeStream`. */
    method CloseStream(stream: string, ghost s: State)
      requires s.pending == pendingByTarget && s.byStream == loadoutByStream
      modifies this
      ensures pendingByTarget == Next(s, ClosedStream(stream)).pending
      ensures loadoutByStream == Next(s, ClosedStream(stream)).byStream
    {
      loadoutByStream := loadoutByStream - {stream};
    }
  }

  // ---- target keys ----

  /** Keys tell targets apart when server ids hold no colon. */
  lemma TargetKeyInjective(a: Target, b: Target)
    requires ':' !in a.server && ':' !in b.server && TargetKey(a) == TargetKey(b)
    ensures a == b
  {
    Keys.PartsToldApart(a.server, a.agent, b.server, b.agent);
  }

  // ---- where every loadout is ----

  ghost predicate NoneTwice(queue: seq<Loadout>) {
    forall i, j :: 0 <= i < j < |queue| ==> queue[i] != queue[j]
  }

  /** A stream holds the loadout. */
  ghost predicate Bound(s: State, l: Loadout) {
    exists stream :: stream in s.byStream && s.byStream[stream] == l
  }

  /** The target's queue holds loadouts resolved for it, none twice. */
  ghost predicate QueueRight(s: State, u: Target) {
    NoneTwice(s.Queue(u)) && forall m :: m in s.Queue(u) ==> m in s.home && s.home[m] == u
  }

  ghost predicate QueuesRight(s: State, targets: set<Target>) {
    && (forall key :: key in s.pending ==> s.pending[key] != [])
    && (forall t :: t in targets ==> QueueRight(s, t))
  }

  ghost predicate StreamsRight(s: State) {
    && (forall stream :: stream in s.byStream ==>
          && stream in s.target
          && s.byStream[stream] in s.home
          && s.home[s.byStream[stream]] == s.target[stream])
    && (forall a, b :: a in s.byStream && b in s.byStream && s.byStream[a] == s.byStream[b] ==> a == b)
  }

  /** The loadout waits in its target's queue, or is held by a stream, or was released, and only one of these. */
  ghost predicate Placed(s: State, l: Loadout)
    requires l in s.home
  {
    var waits := l in s.Queue(s.home[l]);
    || (waits && !Bound(s, l) && l !in s.released)
    || (!waits && Bound(s, l) && l !in s.released)
    || (!waits && !Bound(s, l) && l in s.released)
  }

  ghost predicate OnePlace(s: State) {
    (forall l :: l in s.released ==> l in s.home) && (forall l :: l in s.home ==> Placed(s, l))
  }

  ghost predicate Inv(s: State, targets: set<Target>) {
    && (forall l :: l in s.home ==> s.home[l] in targets)
    && QueuesRight(s, targets) && StreamsRight(s) && OnePlace(s)
  }

  /** A family of targets whose keys differ. */
  ghost predicate KeysDiffer(targets: set<Target>) {
    forall a, b :: a in targets && b in targets && TargetKey(a) == TargetKey(b) ==> a == b
  }

  predicate Within(e: Event, targets: set<Target>) {
    e.ClosedStream? || e.t in targets
  }

  lemma PushQueue(s: State, t: Target, l: Loadout, u: Target)
    requires TargetKey(u) == TargetKey(t) ==> u == t
    ensures Push(s, t, l).Queue(u) == if u == t then s.Queue(u) + [l] else s.Queue(u)
  {}

  lemma AppendNoneTwice(queue: seq<Loadout>, l: Loadout)
    requires NoneTwice(queue) && l !in queue
    ensures NoneTwice(queue + [l])
  {}

  lemma PushKeepsQueue(s: State, t: Target, l: Loadout, u: Target)
    requires (TargetKey(u) == TargetKey(t) ==> u == t) && QueueRight(s, u) && l !in s.home
    ensures QueueRight(Push(s, t, l), u)
  {
    PushQueue(s, t, l, u);
    AppendNoneTwice(s.Queue(u), l);
    hide TargetKey, NoneTwice, State.Queue;
  }

  lemma PushKeepsQueues(s: State, targets: set<Target>, t: Target, l: Loadout)
    requires KeysDiffer(targets) && t in targets && QueuesRight(s, targets) && l !in s.home
    ensures QueuesRight(Push(s, t, l), targets)
  {
    var n := Push(s, t, l);
    forall u | u in targets ensures QueueRight(n, u) { PushKeepsQueue(s, t, l, u); }
    hide TargetKey, NoneTwice, State.Queue;
  }

  lemma PushPlaced(s: State, targets: set<Target>, t: Target, l: Loadout, m: Loadout)
    requires KeysDiffer(targets) && t in targets && Inv(s, targets) && l !in s.home && m in Push(s, t, l).home
    ensures Placed(Push(s, t, l), m)
  {
    var n := Push(s, t, l);
    PushQueue(s, t, l, n.home[m]);
    assert Bound(n, m) <==> Bound(s, m);
    if m == l {
      assert l in n.Queue(t);
    } else {
      assert Placed(s, m);
    }
  }

  lemma PushKeepsStreams(s: State, t: Target, l: Loadout)
    requires StreamsRight(s) && l !in s.home
    ensures StreamsRight(Push(s, t, l))
  {}

  lemma PushKeeps(s: State, targets: set<Target>, t: Target, l: Loadout)
    requires KeysDiffer(targets) && t in targets && Inv(s, targets) && l !in s.home
    ensures Inv(Push(s, t, l), targets)
  {
    PushKeepsQueues(s, targets, t, l);
    PushKeepsStreams(s, t, l);
    forall m | m in Push(s, t, l).home ensures Placed(Push(s, t, l), m) { PushPlaced(s, targets, t, l, m); }
    hide QueuesRight, StreamsRight, TargetKey, Placed;
  }

  lemma TakeQueue(s: State, t: Target, stream: string, u: Target)
    requires TargetKey(u) == TargetKey(t) ==> u == t
    ensures Take(s, t, stream).Queue(u) == if u == t && s.Queue(u) != [] then s.Queue(u)[1..] else s.Queue(u)
  {}

  lemma TakeKeepsQueues(s: State, targets: set<Target>, t: Target, stream: string)
    requires KeysDiffer(targets) && t in targets && QueuesRight(s, targets)
    ensures QueuesRight(Take(s, t, stream), targets)
  {
    var n := Take(s, t, stream);
    forall u | u in targets
      ensures NoneTwice(n.Queue(u)) && forall m :: m in n.Queue(u) ==> m in n.home && n.home[m] == u
    {
      TakeQueue(s, t, stream, u);
      assert NoneTwice(s.Queue(u));
    }
  }

  lemma TakeBound(s: State, t: Target, stream: string, l: Loadout)
    requires stream !in s.byStream
    ensures Bound(Take(s, t, stream), l) <==> Bound(s, l) || (s.Queue(t) != [] && l == s.Queue(t)[0])
  {
    var n, queue := Take(s, t, stream), s.Queue(t);
    if queue != [] { assert n.byStream[stream] == queue[0]; }
    if a :| a in s.byStream && s.byStream[a] == l { assert n.byStream[a] == l; }
    hide State.Queue, TargetKey;
  }

  lemma TailWithoutHead(queue: seq<Loadout>, l: Loadout)
    requires NoneTwice(queue) && queue != []
    ensures l in queue[1..] <==> l in queue && l != queue[0]
  {
    assert queue == [queue[0]] + queue[1..];
  }

  /** The head of the queue moves to the stream; every other loadout stays where it is. */
  lemma TakePlaced(s: State, targets: set<Target>, t: Target, stream: string, l: Loadout)
    requires KeysDiffer(targets) && t in targets && Inv(s, targets) && stream !in s.target && l in s.home
    ensures Placed(Take(s, t, stream), l)
  {
    var queue := s.Queue(t);
    TakeQueue(s, t, stream, s.home[l]);
    TakeBound(s, t, stream, l);
    assert Placed(s, l) && NoneTwice(queue);
    if queue != [] {
      assert queue[0] in queue;
      TailWithoutHead(queue, l);
    }
    hide State.Queue, TargetKey, NoneTwice, Bound;
  }

  lemma TakeKeepsStreams(s: State, targets: set<Target>, t: Target, stream: string)
    requires KeysDiffer(targets) && t in targets && Inv(s, targets) && stream !in s.target
    ensures StreamsRight(Take(s, t, stream))
  {
    var queue := s.Queue(t);
    if queue != [] {
      assert queue[0] in queue;
      assert Placed(s, queue[0]);
    }
  }

  lemma TakeKeeps(s: State, targets: set<Target>, t: Target, stream: string)
    requires KeysDiffer(targets) && t in targets && Inv(s, targets) && stream !in s.target
    ensures Inv(Take(s, t, stream), targets)
  {
    TakeKeepsQueues(s, targets, t, stream);
    TakeKeepsStreams(s, targets, t, stream);
    forall l | l in s.home ensures Placed(Take(s, t, stream), l) { TakePlaced(s, targets, t, stream, l); }
    hide QueuesRight, StreamsRight, TargetKey, Placed;
  }

  lemma ClosePlaced(s: State, targets: set<Target>, stream: string, l: Loadout)
    requires Inv(s, targets) && l in s.home
    ensures Placed(Close(s, stream), l)
  {
    var n := Close(s, stream);
    assert n.Queue(s.home[l]) == s.Queue(s.home[l]);
    assert Placed(s, l);
    if a :| a in s.byStream && s.byStream[a] == l && a != stream { assert n.byStream[a] == l; }
  }

  lemma CloseKeepsQueues(s: State, targets: set<Target>, stream: string)
    requires QueuesRight(s, targets)
    ensures QueuesRight(Close(s, stream), targets)
  {
    assert forall t :: Close(s, stream).Queue(t) == s.Queue(t);
  }

  lemma CloseKeepsStreams(s: State, stream: string)
    requires StreamsRight(s)
    ensures StreamsRight(Close(s, stream))
    ensures stream in s.byStream ==> s.byStream[stream] in s.home
  {}

  lemma CloseKeeps(s: State, targets: set<Target>, stream: string)
    requires Inv(s, targets)
    ensures Inv(Close(s, stream), targets)
  {
    CloseKeepsQueues(s, targets, stream);
    CloseKeepsStreams(s, stream);
    forall l | l in s.home ensures Placed(Close(s, stream), l) { ClosePlaced(s, targets, stream, l); }
    hide QueuesRight, StreamsRight, TargetKey, Placed;
  }

  // ---- runs ----

  predicate AllWithin(es: seq<Event>, targets: set<Target>) {
    forall e :: e in es ==> Within(e, targets)
  }

  /** When no two targets share a key: in every interleaving each loadout is queued for the target it was
      resolved for, or held by exactly one stream of that target, or released, and nowhere else. */
  lemma {:induction false} RunKeeps(targets: set<Target>, es: seq<Event>)
    requires KeysDiffer(targets) && AllWithin(es, targets)
    ensures Inv(Exec(es), targets)
  {
    if es != [] {
      var front, e := es[..|es| - 1], es[|es| - 1];
      var s := Exec(front);
      RunKeeps(targets, front);
      assert e in es;
      if Enabled(s, e) {
        match e
        case Resolved(t, _, None) =>
        case Resolved(t, _, Some(l)) => PushKeeps(s, targets, t, l);
        case Created(t, _, stream) => TakeKeeps(s, targets, t, stream);
        case CreateFailed(_, _) =>
        case ClosedStream(stream) => CloseKeeps(s, targets, stream);
      }
    }
  }

  lemma ExecAppend(es: seq<Event>, e: Event)
    ensures Exec(es + [e]) == if Enabled(Exec(es), e) then Next(Exec(es), e) else Exec(es)
  {
    assert (es + [e])[..|es|] == es;
  }

  /** Two targets with one key have a run that hands a loadout to a stream of the other. */
  lemma SharedKeyMisdelivers(a: Target, b: Target) returns (es: seq<Event>)
    requires TargetKey(a) == TargetKey(b) && a != b
    ensures AllWithin(es, {a, b}) && !StreamsRight(Exec(es))
  {
    var l := Loadout("task", 0);
    var e1, e2 := Resolved(a, "task", Some(l)), Created(b, "task", "stream");
    ExecAppend([], e1);
    ExecAppend([] + [e1], e2);
    es := [] + [e1] + [e2];
    var s := Push(EMPTY, a, l);
    assert s.Queue(b) == [l];
    assert Exec(es) == Take(s, b, "stream");
  }

  /** The hand-over is sound over all runs of a family of targets exactly when their keys differ. */
  lemma SoundExactly(targets: set<Target>)
    ensures KeysDiffer(targets) <==> forall es :: AllWithin(es, targets) ==> Inv(Exec(es), targets)
  {
    if KeysDiffer(targets) {
      forall es | AllWithin(es, targets) ensures Inv(Exec(es), targets) { RunKeeps(targets, es); }
    } else {
      var a, b :| a in targets && b in targets && TargetKey(a) == TargetKey(b) && a != b;
      var es := SharedKeyMisdelivers(a, b);
      assert AllWithin(es, targets) && !Inv(Exec(es), targets);
    }
  }

  // ---- order ----

  /** The loadouts pushed for a target, in resolve order. */
  ghost function Pushed(es: seq<Event>, t: Target): seq<Loadout> {
    if es == [] then []
    else
      var front, e := es[..|es| - 1], es[|es| - 1];
      if e.Resolved? && e.t == t && e.loadout.Some? && Enabled(Exec(front), e)
      then Pushed(front, t) + [e.loadout.value] else Pushed(front, t)
  }

  /** The loadouts taken by streams of a target, in creation order. */
  ghost function Taken(es: seq<Event>, t: Target): seq<Loadout> {
    if es == [] then []
    else
      var front, e := es[..|es| - 1], es[|es| - 1];
      if e.Created? && e.t == t && Enabled(Exec(front), e) && Exec(front).Queue(t) != []
      then Taken(front, t) + [Exec(front).Queue(t)[0]] else Taken(front, t)
  }

  /** Streams take loadouts in resolve order: what was pushed is what was taken, then what still waits. */
  lemma {:induction false} TakenInResolveOrder(targets: set<Target>, es: seq<Event>, t: Target)
    requires KeysDiffer(targets) && AllWithin(es, targets) && t in targets
    ensures Pushed(es, t) == Taken(es, t) + Exec(es).Queue(t)
  {
    if es != [] {
      var front, e := es[..|es| - 1], es[|es| - 1];
      var s := Exec(front);
      TakenInResolveOrder(targets, front, t);
      assert e in es;
      if Enabled(s, e) {
        match e
        case Resolved(u, _, Some(l)) => PushQueue(s, u, l, t);
        case Created(u, _, stream) => TakeQueue(s, u, stream, t);
        case _ => assert Next(s, e).Queue(t) == s.Queue(t);
      }
    }
  }

  // ---- what the events alone say ----

  /** The tasks resolved for a target, in order. */
  function ResolvedTasks(es: seq<Event>, t: Target): seq<string> {
    if es == [] then []
    else
      var e := es[|es| - 1];
      ResolvedTasks(es[..|es| - 1], t) + if e.Resolved? && e.t == t then [e.task] else []
  }

  /** Those of them that carried a loadout. */
  function LoadedTasks(es: seq<Event>, t: Target): seq<string> {
    if es == [] then []
    else
      var e := es[|es| - 1];
      LoadedTasks(es[..|es| - 1], t) + if e.Resolved? && e.t == t && e.loadout.Some? then [e.task] else []
  }

  /** The tasks of the streams created for a target, in order. */
  function CreatedTasks(es: seq<Event>, t: Target): seq<string> {
    if es == [] then []
    else
      var e := es[|es| - 1];
      CreatedTasks(es[..|es| - 1], t) + if e.Created? && e.t == t then [e.task] else []
  }

  /** The tasks whose creation was tried, successful or not, in order. */
  function TriedTasks(es: seq<Event>, t: Target): seq<string> {
    if es == [] then []
    else
      var e := es[|es| - 1];
      TriedTasks(es[..|es| - 1], t) + if (e.Created? || e.CreateFailed?) && e.t == t then [e.task] else []
  }

  /** How many creations for the target found a loadout, by counting. */
  function Takes(es: seq<Event>, t: Target): nat {
    if es == [] then 0
    else
      var front, e := es[..|es| - 1], es[|es| - 1];
      Takes(front, t) + if e.Created? && e.t == t && Takes(front, t) < |LoadedTasks(front, t)| then 1 else 0
  }

  function Failures(es: seq<Event>, t: Target): nat {
    if es == [] then 0
    else Failures(es[..|es| - 1], t) + if es[|es| - 1].CreateFailed? && es[|es| - 1].t == t then 1 else 0
  }

  /** Loadouts and streams are new wherever the run says so. */
  ghost predicate Proper(es: seq<Event>) {
    es == [] || (Proper(es[..|es| - 1]) && Enabled(Exec(es[..|es| - 1]), es[|es| - 1]))
  }

  function TasksOf(loadouts: seq<Loadout>): seq<string> {
    seq(|loadouts|, i requires 0 <= i < |loadouts| => loadouts[i].task)
  }

  /** The history of the queue read off the events. */
  lemma {:induction false} CountsMatch(targets: set<Target>, es: seq<Event>, t: Target)
    requires KeysDiffer(targets) && AllWithin(es, targets) && t in targets && Proper(es)
    ensures TasksOf(Pushed(es, t)) == LoadedTasks(es, t) && |Taken(es, t)| == Takes(es, t)
  {
    if es != [] {
      var front, e := es[..|es| - 1], es[|es| - 1];
      CountsMatch(targets, front, t);
      TakenInResolveOrder(targets, front, t);
      assert |TasksOf(Pushed(front, t))| == |LoadedTasks(front, t)|;
      hide Exec, Next, TargetKey, State.Queue, KeysDiffer;
      if e.Resolved? && e.t == t && e.loadout.Some? {
        assert TasksOf(Pushed(front, t) + [e.loadout.value]) == TasksOf(Pushed(front, t)) + [e.task];
      }
    }
  }

  /** The head of the queue is the loadout at the place counted. */
  lemma {:induction false} HeadCounted(targets: set<Target>, es: seq<Event>, t: Target)
    requires KeysDiffer(targets) && AllWithin(es, targets) && t in targets && Proper(es)
    ensures var queue, k := Exec(es).Queue(t), Takes(es, t);
            && (queue != [] <==> k < |LoadedTasks(es, t)|)
            && (queue != [] ==> queue[0].task == LoadedTasks(es, t)[k])
  {
    TakenInResolveOrder(targets, es, t);
    CountsMatch(targets, es, t);
    hide Exec, KeysDiffer, AllWithin, State.Queue, Pushed, Taken, LoadedTasks, Takes, Proper;
    var pushed, taken, queue := Pushed(es, t), Taken(es, t), Exec(es).Queue(t);
    assert |TasksOf(pushed)| == |pushed| == |taken| + |queue|;
    if queue != [] {
      assert pushed[|taken|] == queue[0];
      assert TasksOf(pushed)[|taken|] == queue[0].task;
    }
  }

  lemma {:induction false} HeadTaken(es: seq<Event>, t: Target, task: string, stream: string)
    requires Enabled(Exec(es), Created(t, task, stream)) && StreamsRight(Exec(es))
    ensures var s, queue := Exec(es + [Created(t, task, stream)]), Exec(es).Queue(t);
            && (stream in s.byStream <==> queue != [])
            && (stream in s.byStream ==> s.byStream[stream] == queue[0])
  {
    ExecAppend(es, Created(t, task, stream));
    hide Exec, State.Queue;
  }

  /** Whose loadout a new stream gets: the one at the place counted, or none if no more were pushed. */
  lemma {:induction false} StreamTakes(targets: set<Target>, es: seq<Event>, t: Target, task: string, stream: string)
    requires KeysDiffer(targets) && AllWithin(es, targets) && t in targets && Proper(es)
    requires Enabled(Exec(es), Created(t, task, stream))
    ensures var s, k := Exec(es + [Created(t, task, stream)]), Takes(es, t);
            && (stream in s.byStream <==> k < |LoadedTasks(es, t)|)
            && (stream in s.byStream ==> s.byStream[stream].task == LoadedTasks(es, t)[k])
  {
    RunKeeps(targets, es);
    HeadCounted(targets, es, t);
    HeadTaken(es, t, task, stream);
    hide Exec, KeysDiffer, AllWithin, State.Queue, OnePlace, QueuesRight, StreamsRight, LoadedTasks, Takes, Proper;
  }

  // ---- whose loadout ----

  ghost predicate Holds(s: State, stream: string, task: string) {
    stream in s.byStream && s.byStream[stream].task == task
  }

  lemma {:induction false} StreamHolds(targets: set<Target>, es: seq<Event>, t: Target, task: string, stream: string)
    requires KeysDiffer(targets) && AllWithin(es, targets) && t in targets && Proper(es)
    requires Enabled(Exec(es), Created(t, task, stream)) && Takes(es, t) < |LoadedTasks(es, t)|
    ensures Holds(Exec(es + [Created(t, task, stream)]), stream, LoadedTasks(es, t)[Takes(es, t)])
  {
    StreamTakes(targets, es, t, task, stream);
    hide Exec, KeysDiffer, AllWithin, Takes, Proper, Enabled, LoadedTasks;
  }

  /** Every stream created for the target got its own dispatch's loadout. */
  ghost predicate EachGotItsOwn(es: seq<Event>, t: Target) {
    es == [] ||
    var e := es[|es| - 1];
    EachGotItsOwn(es[..|es| - 1], t) && (e.Created? && e.t == t ==> Holds(Exec(es), e.stream, e.task))
  }

  /** Every dispatch resolved for the target carried a loadout. */
  predicate AllLoaded(es: seq<Event>, t: Target) {
    forall e :: e in es && e.Resolved? && e.t == t ==> e.loadout.Some?
  }

  /** At every point the streams created are those of the first dispatches resolved, in that order. */
  predicate InResolveOrder(es: seq<Event>, t: Target) {
    es == [] || (InResolveOrder(es[..|es| - 1], t) && CreatedTasks(es, t) <= ResolvedTasks(es, t))
  }

  lemma {:induction false} LoadedAreResolved(es: seq<Event>, t: Target)
    requires AllLoaded(es, t)
    ensures LoadedTasks(es, t) == ResolvedTasks(es, t)
  {
    if es != [] {
      LoadedAreResolved(es[..|es| - 1], t);
      assert es[|es| - 1] in es;
    }
  }

  lemma PrefixStep(a: seq<string>, b: seq<string>, x: string)
    requires a <= b
    ensures a + [x] <= b <==> |a| < |b| && b[|a|] == x
  {}

  /** While creations keep resolve order, each of them takes one loadout. */
  lemma {:induction false} OrderedTakesAll(es: seq<Event>, t: Target)
    requires AllLoaded(es, t) && InResolveOrder(es, t)
    ensures Takes(es, t) == |CreatedTasks(es, t)|
  {
    if es != [] {
      var front, e := es[..|es| - 1], es[|es| - 1];
      OrderedTakesAll(front, t);
      LoadedAreResolved(front, t);
    }
  }

  lemma {:induction false} OrderedPrefix(es: seq<Event>, t: Target)
    requires InResolveOrder(es, t)
    ensures CreatedTasks(es, t) <= ResolvedTasks(es, t)
  {}

  lemma {:induction false} OwnKeepsOrder(targets: set<Target>, es: seq<Event>, t: Target, task: string, stream: string)
    requires KeysDiffer(targets) && AllWithin(es, targets) && t in targets && Proper(es) && AllLoaded(es, t)
    requires InResolveOrder(es, t) && Enabled(Exec(es), Created(t, task, stream))
    ensures Holds(Exec(es + [Created(t, task, stream)]), stream, task)
            <==> CreatedTasks(es, t) + [task] <= ResolvedTasks(es, t)
  {
    OrderedTakesAll(es, t);
    LoadedAreResolved(es, t);
    StreamTakes(targets, es, t, task, stream);
    OrderedPrefix(es, t);
    PrefixStep(CreatedTasks(es, t), ResolvedTasks(es, t), task);
    hide Exec, KeysDiffer, AllWithin, AllLoaded, Proper, Enabled, InResolveOrder, CreatedTasks, ResolvedTasks, Takes;
  }

  /** When every dispatch to a target carries a loadout, each stream of the target gets its own dispatch's exactly
      when streams are created in resolve order. */
  lemma {:induction false} EachGetsItsOwnExactly(targets: set<Target>, es: seq<Event>, t: Target)
    requires KeysDiffer(targets) && AllWithin(es, targets) && t in targets && Proper(es) && AllLoaded(es, t)
    ensures EachGotItsOwn(es, t) <==> InResolveOrder(es, t)
  {
    if es != [] {
      var front, e := es[..|es| - 1], es[|es| - 1];
      EachGetsItsOwnExactly(targets, front, t);
      if InResolveOrder(front, t) {
        if e.Created? && e.t == t {
          OwnKeepsOrder(targets, front, t, e.task, e.stream);
          assert es == front + [e];
          assert e == Created(t, e.task, e.stream);
        } else {
          OrderedPrefix(front, t);
        }
      }
      hide Exec, KeysDiffer, AllWithin, AllLoaded, Proper, Enabled, Holds;
    }
  }

  /** A stream keeps its loadout until it is closed. */
  lemma {:induction false} KeptUntilClosed(es: seq<Event>, i: nat, stream: string, task: string)
    requires i <= |es| && stream in Exec(es[..i]).target && Holds(Exec(es[..i]), stream, task)
    requires forall j :: i <= j < |es| ==> es[j] != ClosedStream(stream)
    ensures stream in Exec(es).target && Holds(Exec(es), stream, task)
    decreases |es|
  {
    if i == |es| {
      assert es[..i] == es;
    } else {
      assert es[..|es| - 1][..i] == es[..i];
      KeptUntilClosed(es[..|es| - 1], i, stream, task);
    }
  }

  // ---- failures, and dispatches without a loadout ----

  /** At every point the creations tried are those of the first dispatches resolved, in that order. */
  predicate TriedInResolveOrder(es: seq<Event>, t: Target) {
    es == [] || (TriedInResolveOrder(es[..|es| - 1], t) && TriedTasks(es, t) <= ResolvedTasks(es, t))
  }

  lemma {:induction false} TriesCounted(es: seq<Event>, t: Target)
    requires AllLoaded(es, t) && TriedInResolveOrder(es, t)
    ensures Takes(es, t) + Failures(es, t) == |TriedTasks(es, t)|
  {
    if es != [] {
      var front := es[..|es| - 1];
      TriesCounted(front, t);
      LoadedAreResolved(front, t);
    }
  }

  lemma {:induction false} TryAppended(es: seq<Event>, t: Target, task: string, stream: string)
    requires TriedInResolveOrder(es + [Created(t, task, stream)], t)
    ensures TriedInResolveOrder(es, t) && TriedTasks(es, t) <= ResolvedTasks(es, t)
    ensures TriedTasks(es, t) + [task] <= ResolvedTasks(es, t)
  {
    var all := es + [Created(t, task, stream)];
    assert all[..|all| - 1] == es;
  }

  lemma {:induction false} PlaceCounted(es: seq<Event>, t: Target, task: string, stream: string)
    requires AllLoaded(es, t) && TriedInResolveOrder(es + [Created(t, task, stream)], t)
    ensures var k, f := |TriedTasks(es, t)|, Failures(es, t);
            && f <= k < |ResolvedTasks(es, t)| && ResolvedTasks(es, t)[k] == task
            && Takes(es, t) == k - f && LoadedTasks(es, t) == ResolvedTasks(es, t)
  {
    TryAppended(es, t, task, stream);
    TriesCounted(es, t);
    LoadedAreResolved(es, t);
    PrefixStep(TriedTasks(es, t), ResolvedTasks(es, t), task);
    hide AllLoaded, Takes, Failures, LoadedTasks, TriedInResolveOrder, TriedTasks, ResolvedTasks;
  }

  /** Failed creations leave their loadouts behind: in a run that is otherwise in order, every later stream gets
      the loadout of the dispatch resolved as many places before its own as creations have failed. */
  lemma {:induction false} FailuresShift(targets: set<Target>, es: seq<Event>, t: Target, task: string, stream: string)
    requires KeysDiffer(targets) && AllWithin(es, targets) && t in targets && Proper(es) && AllLoaded(es, t)
    requires Enabled(Exec(es), Created(t, task, stream))
    requires TriedInResolveOrder(es + [Created(t, task, stream)], t)
    ensures var k, f := |TriedTasks(es, t)|, Failures(es, t);
            && f <= k < |ResolvedTasks(es, t)| && ResolvedTasks(es, t)[k] == task
            && Holds(Exec(es + [Created(t, task, stream)]), stream, ResolvedTasks(es, t)[k - f])
  {
    hide Exec, KeysDiffer, AllWithin, AllLoaded, Takes, Proper, Enabled, Failures, LoadedTasks, TriedInResolveOrder;
    hide TriedTasks, ResolvedTasks, Holds;
    PlaceCounted(es, t, task, stream);
    StreamHolds(targets, es, t, task, stream);
  }

  /** A stream of a dispatch that carried no loadout takes another dispatch's exactly when more were pushed than
      taken. */
  lemma {:induction false} UnloadedTakesAnothersExactly(targets: set<Target>, es: seq<Event>, t: Target, task: string,
                                                        stream: string)
    requires KeysDiffer(targets) && AllWithin(es, targets) && t in targets && Proper(es)
    requires Enabled(Exec(es), Created(t, task, stream)) && task !in LoadedTasks(es, t)
    ensures var s := Exec(es + [Created(t, task, stream)]);
            (stream in s.byStream && s.byStream[stream].task != task) <==> Takes(es, t) < |LoadedTasks(es, t)|
  {
    StreamTakes(targets, es, t, task, stream);
    var s, k, loaded := Exec(es + [Created(t, task, stream)]), Takes(es, t), LoadedTasks(es, t);
    if k < |loaded| { assert s.byStream[stream].task == loaded[k] && loaded[k] in loaded; }
    hide Exec, KeysDiffer, AllWithin, Proper, Enabled, Takes, LoadedTasks;
  }
}
