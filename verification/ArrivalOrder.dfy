/**
 Whether the slots of src/dispatch/swarm-codex-runtime.ts are taken in arrival order: they are, per repository,
 except for newcomers that slip in between a wake and its resumption.
 */
module ArrivalOrder {
  import opened Wrappers
  import opened RepoSlots

  /** The step takes a slot of the repository for `e.id`. */
  predicate Takes(s: State, limit: int, e: Step, cwd: string) {
    && Enabled(s, e) && s.Active(cwd) < limit
    && ((e.Arrive? && e.cwd == cwd) || (e.Resume? && s.spawns[e.id].cwd == cwd))
  }

  /** The spawns that came to the repository, in order. */
  function Arrived(limit: int, es: seq<Step>, cwd: string): seq<nat> {
    if es == [] then []
    else
      var front, e := es[..|es| - 1], es[|es| - 1];
      Arrived(limit, front, cwd)
      + if e.Arrive? && e.cwd == cwd && Enabled(Exec(limit, front), e) then [e.id] else []
  }

  /** The spawns that took a slot of it, in order. */
  function Acquired(limit: int, es: seq<Step>, cwd: string): seq<nat> {
    if es == [] then []
    else
      var front, e := es[..|es| - 1], es[|es| - 1];
      Acquired(limit, front, cwd) + if Takes(Exec(limit, front), limit, e, cwd) then [e.id] else []
  }

  function Without(line: seq<nat>, id: nat): seq<nat> {
    if line == [] then [] else if line[0] == id then line[1..] else [line[0]] + Without(line[1..], id)
  }

  function NextLine(s: State, limit: int, e: Step, cwd: string, line: seq<nat>): seq<nat> {
    if !Enabled(s, e) then line
    else if Takes(s, limit, e, cwd) then Without(line, e.id)
    else if e.Arrive? && e.cwd == cwd then line + [e.id]
    else line
  }

  /** Who came and still waits, parked or woken, in arrival order; going back to the queue loses no place here. */
  function Line(limit: int, es: seq<Step>, cwd: string): seq<nat> {
    if es == [] then []
    else NextLine(Exec(limit, es[..|es| - 1]), limit, es[|es| - 1], cwd, Line(limit, es[..|es| - 1], cwd))
  }

  predicate Waits(s: State, cwd: string, id: nat) {
    id in s.spawns && s.spawns[id].cwd == cwd && s.spawns[id].phase != Holding
  }

  ghost predicate LineRight(s: State, cwd: string, line: seq<nat>) {
    NoIdTwice(line) && forall id :: id in line <==> Waits(s, cwd, id)
  }

  lemma WaitsAfter(s: State, limit: int, e: Step, cwd: string, id: nat)
    requires limit >= 1 && QueuesMatch(s) && Enabled(s, e)
    ensures Waits(Next(s, limit, e), cwd, id) <==>
            || (Waits(s, cwd, id) && !(Takes(s, limit, e, cwd) && e.id == id))
            || (e == Arrive(id, cwd) && s.Active(cwd) >= limit)
  {
    match e
    case SpawnFail(k) =>
      var c := s.spawns[k].cwd;
      assert s.(spawns := s.spawns - {k}).Queue(c) == s.Queue(c);
      if s.Queue(c) != [] { assert s.Queue(c)[0] in s.Queue(c); }
    case Stopped(agent) =>
      if agent in s.cwdByAgent {
        var c := s.cwdByAgent[agent];
        assert s.(cwdByAgent := s.cwdByAgent - {agent}).Queue(c) == s.Queue(c);
        if s.Queue(c) != [] { assert s.Queue(c)[0] in s.Queue(c); }
      }
    case _ =>
  }

  lemma {:induction false} WithoutMember(line: seq<nat>, id: nat, k: nat)
    requires NoIdTwice(line)
    ensures k in Without(line, id) <==> k in line && k != id
  {
    if line != [] {
      assert line == [line[0]] + line[1..];
      if line[0] != id { WithoutMember(line[1..], id, k); }
    }
  }

  lemma {:induction false} WithoutNoTwice(line: seq<nat>, id: nat)
    requires NoIdTwice(line)
    ensures NoIdTwice(Without(line, id))
  {
    if line != [] && line[0] != id {
      var rest := Without(line[1..], id);
      WithoutNoTwice(line[1..], id);
      forall i | 0 <= i < |rest| ensures rest[i] != line[0] { WithoutMember(line[1..], id, rest[i]); }
    }
  }

  lemma LineStep(s: State, limit: int, e: Step, cwd: string, line: seq<nat>)
    requires limit >= 1 && QueuesMatch(s) && Enabled(s, e) && LineRight(s, cwd, line)
    ensures LineRight(Next(s, limit, e), cwd, NextLine(s, limit, e, cwd, line))
  {
    hide QueuesMatch, Next, Without;
    var after := NextLine(s, limit, e, cwd, line);
    if Takes(s, limit, e, cwd) {
      WithoutNoTwice(line, e.id);
    } else if e.Arrive? {
      assert e.id !in line;
    }
    forall id ensures id in after <==> Waits(Next(s, limit, e), cwd, id) {
      WaitsAfter(s, limit, e, cwd, id);
      if Takes(s, limit, e, cwd) { WithoutMember(line, e.id, id); }
    }
  }

  lemma {:induction false} LineMatches(limit: int, es: seq<Step>, cwd: string)
    requires limit >= 1
    ensures LineRight(Exec(limit, es), cwd, Line(limit, es, cwd))
  {
    if es != [] {
      var s, e := Exec(limit, es[..|es| - 1]), es[|es| - 1];
      LineMatches(limit, es[..|es| - 1], cwd);
      RunKeeps(limit, es[..|es| - 1]);
      if Enabled(s, e) { LineStep(s, limit, e, cwd, Line(limit, es[..|es| - 1], cwd)); }
      hide LineRight, Next, QueuesMatch, Bounded, NoLostWakeup;
    }
  }

  // ---- overtaking ----

  /** The step takes a slot while someone who came earlier still waits. */
  predicate Overtakes(s: State, limit: int, e: Step, cwd: string, line: seq<nat>) {
    Takes(s, limit, e, cwd) && line != [] && line[0] != e.id
  }

  /** A newcomer finds a free slot while a wake is on its way. */
  ghost predicate Barges(s: State, limit: int, e: Step, cwd: string) {
    e.Arrive? && e.cwd == cwd && Takes(s, limit, e, cwd) && Count(s, cwd, Woken) > 0
  }

  /** A woken spawn takes a slot before one that came earlier. */
  predicate OutOfTurn(s: State, limit: int, e: Step, cwd: string, line: seq<nat>) {
    e.Resume? && Takes(s, limit, e, cwd) && line != [] && line[0] != e.id
  }

  /** A free slot behind a non-empty line means that a wake is on its way. */
  lemma FreeMeansWoken(s: State, limit: int, cwd: string, line: seq<nat>)
    requires Inv(s, limit) && LineRight(s, cwd, line) && s.Active(cwd) < limit
    ensures line != [] <==> Count(s, cwd, Woken) > 0
  {
    if line != [] {
      var id := line[0];
      assert id in line;
      if s.spawns[id].phase == Parked {
        assert id in s.Queue(cwd);
      } else {
        assert id in Holders(s.spawns, Spawn(cwd, Woken));
      }
    } else if Count(s, cwd, Woken) > 0 {
      var id :| id in Holders(s.spawns, Spawn(cwd, Woken));
      assert Waits(s, cwd, id);
    }
  }

  /** After any run: a step overtakes exactly when it is a newcomer finding a free slot while a wake is on its
      way, or a woken spawn resumed out of turn. */
  lemma {:induction false} OvertakesExactly(limit: int, es: seq<Step>, e: Step, cwd: string)
    requires limit >= 1
    ensures var s, line := Exec(limit, es), Line(limit, es, cwd);
            Overtakes(s, limit, e, cwd, line) <==> Barges(s, limit, e, cwd) || OutOfTurn(s, limit, e, cwd, line)
  {
    var s, line := Exec(limit, es), Line(limit, es, cwd);
    RunKeeps(limit, es);
    LineMatches(limit, es, cwd);
    hide Exec, Line, Inv, Count;
    if Takes(s, limit, e, cwd) {
      FreeMeansWoken(s, limit, cwd, line);
      if e.Arrive? && line != [] { assert line[0] in line; }
    }
  }

  ghost predicate NoneOvertakes(limit: int, es: seq<Step>, cwd: string) {
    es == [] ||
    var front := es[..|es| - 1];
    && NoneOvertakes(limit, front, cwd)
    && !Overtakes(Exec(limit, front), limit, es[|es| - 1], cwd, Line(limit, front, cwd))
  }

  lemma TakerIsFirst(s: State, limit: int, e: Step, cwd: string, line: seq<nat>)
    requires LineRight(s, cwd, line) && Takes(s, limit, e, cwd) && !Overtakes(s, limit, e, cwd, line)
    ensures if e.Arrive? then line == [] else line == [e.id] + Without(line, e.id)
    ensures e.Arrive? ==> Without(line, e.id) == []
  {
    if e.Arrive? {
      assert e.id !in line;
    } else {
      assert e.id in line;
      assert line == [line[0]] + line[1..];
    }
  }

  lemma {:induction false} InOrderSplits(limit: int, es: seq<Step>, cwd: string)
    requires limit >= 1 && NoneOvertakes(limit, es, cwd)
    ensures Arrived(limit, es, cwd) == Acquired(limit, es, cwd) + Line(limit, es, cwd)
  {
    if es != [] {
      var front, e := es[..|es| - 1], es[|es| - 1];
      var line := Line(limit, front, cwd);
      InOrderSplits(limit, front, cwd);
      LineMatches(limit, front, cwd);
      if Takes(Exec(limit, front), limit, e, cwd) {
        TakerIsFirst(Exec(limit, front), limit, e, cwd, line);
      }
      hide Exec, Takes, Without;
    }
  }

  /** The place at which the two orders part. */
  ghost predicate Parted(acquired: seq<nat>, arrived: seq<nat>) {
    exists k :: 0 <= k < |acquired| && k < |arrived| && acquired[k] != arrived[k]
  }

  lemma PartedGrows(acquired: seq<nat>, arrived: seq<nat>, more: seq<nat>, more': seq<nat>)
    requires Parted(acquired, arrived)
    ensures Parted(acquired + more, arrived + more')
  {
    var k :| 0 <= k < |acquired| && k < |arrived| && acquired[k] != arrived[k];
    assert (acquired + more)[k] != (arrived + more')[k];
  }

  lemma PartsAt(acquired: seq<nat>, line: seq<nat>, id: nat, more: seq<nat>)
    requires line != [] && line[0] != id
    ensures Parted(acquired + [id], acquired + line + more)
  {
    assert (acquired + [id])[|acquired|] != (acquired + line + more)[|acquired|];
  }

  lemma {:induction false} OvertakingParts(limit: int, es: seq<Step>, cwd: string)
    requires limit >= 1 && !NoneOvertakes(limit, es, cwd)
    ensures Parted(Acquired(limit, es, cwd), Arrived(limit, es, cwd))
  {
    var front, e := es[..|es| - 1], es[|es| - 1];
    var s := Exec(limit, front);
    var arrives := if e.Arrive? && e.cwd == cwd && Enabled(s, e) then [e.id] else [];
    if NoneOvertakes(limit, front, cwd) {
      InOrderSplits(limit, front, cwd);
      PartsAt(Acquired(limit, front, cwd), Line(limit, front, cwd), e.id, arrives);
    } else {
      OvertakingParts(limit, front, cwd);
      PartedGrows(Acquired(limit, front, cwd), Arrived(limit, front, cwd),
                  if Takes(s, limit, e, cwd) then [e.id] else [], arrives);
    }
    hide Exec, Line, Parted;
  }

  /** Over every run, slots of a repository are taken in arrival order exactly when no step overtakes; then who
      came is who took a slot, followed by who waits. */
  lemma {:induction false} ArrivalOrderExactly(limit: int, es: seq<Step>, cwd: string)
    requires limit >= 1
    ensures Acquired(limit, es, cwd) <= Arrived(limit, es, cwd) <==> NoneOvertakes(limit, es, cwd)
    ensures NoneOvertakes(limit, es, cwd) ==>
              Arrived(limit, es, cwd) == Acquired(limit, es, cwd) + Line(limit, es, cwd)
  {
    if NoneOvertakes(limit, es, cwd) {
      InOrderSplits(limit, es, cwd);
    } else {
      OvertakingParts(limit, es, cwd);
    }
    hide NoneOvertakes, Arrived, Acquired, Line;
  }

  // ---- when woken spawns resume in the order they were woken ----

  /** The repository in which the step gives a slot back. */
  function ReleasedIn(s: State, e: Step): Option<string> {
    if e.SpawnFail? && Enabled(s, e) then Some(s.spawns[e.id].cwd)
    else if e.Stopped? && e.agent in s.cwdByAgent then Some(s.cwdByAgent[e.agent])
    else None
  }

  function NextWoke(s: State, e: Step, cwd: string, woke: seq<nat>): seq<nat> {
    if ReleasedIn(s, e) == Some(cwd) && s.Queue(cwd) != [] then woke + [s.Queue(cwd)[0]]
    else if e.Resume? && Enabled(s, e) && s.spawns[e.id].cwd == cwd then Without(woke, e.id)
    else woke
  }

  /** The spawns woken one by one and not yet resumed, in the order of their wakes. */
  function Woke(limit: int, es: seq<Step>, cwd: string): seq<nat> {
    if es == [] then []
    else NextWoke(Exec(limit, es[..|es| - 1]), es[|es| - 1], cwd, Woke(limit, es[..|es| - 1], cwd))
  }

  /** Woken spawns of the repository resume in the order of their wakes, as resolved promises do. */
  predicate InWakeOrder(limit: int, es: seq<Step>, cwd: string) {
    es == [] ||
    var front, e := es[..|es| - 1], es[|es| - 1];
    var s, woke := Exec(limit, front), Woke(limit, front, cwd);
    && InWakeOrder(limit, front, cwd)
    && (e.Resume? && Enabled(s, e) && s.spawns[e.id].cwd == cwd ==> woke != [] && woke[0] == e.id)
  }

  ghost predicate NoneBarges(limit: int, es: seq<Step>, cwd: string) {
    es == [] ||
    (NoneBarges(limit, es[..|es| - 1], cwd) && !Barges(Exec(limit, es[..|es| - 1]), limit, es[|es| - 1], cwd))
  }

  /** Every wake has its slot waiting, and the line is the woken spawns followed by the parked ones. */
  ghost predicate Seated(s: State, limit: int, cwd: string, line: seq<nat>, woke: seq<nat>) {
    line == woke + s.Queue(cwd) && s.Active(cwd) + |woke| <= limit
  }

  lemma ReleaseEffect(s: State, limit: int, e: Step, cwd: string)
    requires Enabled(s, e) && ReleasedIn(s, e) == Some(cwd)
    ensures var n, queue := Next(s, limit, e), s.Queue(cwd);
            && n.Queue(cwd) == (if queue == [] then [] else queue[1..])
            && n.Active(cwd) == if s.Active(cwd) > 0 then s.Active(cwd) - 1 else 0
  {
    var mid := if e.SpawnFail? then s.(spawns := s.spawns - {e.id}) else s.(cwdByAgent := s.cwdByAgent - {e.agent});
    assert mid.Queue(cwd) == s.Queue(cwd) && mid.Active(cwd) == s.Active(cwd);
  }

  lemma NoEffect(s: State, limit: int, e: Step, cwd: string)
    requires Enabled(s, e) && !e.StopAll? && ReleasedIn(s, e) != Some(cwd)
    requires !(e.Arrive? && e.cwd == cwd) && !(e.Resume? && s.spawns[e.id].cwd == cwd)
    ensures Next(s, limit, e).Queue(cwd) == s.Queue(cwd) && Next(s, limit, e).Active(cwd) == s.Active(cwd)
  {}

  lemma EnterEffect(s: State, limit: int, id: nat, cwd: string)
    requires limit >= 1
    ensures var n := TryEnter(s, limit, id, cwd);
            && n.Queue(cwd) == (if s.Active(cwd) >= limit then s.Queue(cwd) + [id] else s.Queue(cwd))
            && n.Active(cwd) == if s.Active(cwd) >= limit then s.Active(cwd) else s.Active(cwd) + 1
  {}

  lemma SeatedArrive(s: State, limit: int, id: nat, cwd: string, line: seq<nat>, woke: seq<nat>)
    requires limit >= 1 && Inv(s, limit) && Enabled(s, Arrive(id, cwd)) && !Barges(s, limit, Arrive(id, cwd), cwd)
    requires LineRight(s, cwd, line) && Seated(s, limit, cwd, line, woke)
    ensures var e := Arrive(id, cwd);
            && !Overtakes(s, limit, e, cwd, line)
            && Seated(TryEnter(s, limit, id, cwd), limit, cwd, NextLine(s, limit, e, cwd, line), woke)
  {
    EnterEffect(s, limit, id, cwd);
    if s.Active(cwd) < limit { FreeMeansWoken(s, limit, cwd, line); }
    hide Inv, LineRight, Count, TryEnter, State.Queue, State.Active;
    assert woke + s.Queue(cwd) + [id] == woke + (s.Queue(cwd) + [id]);
  }

  lemma SeatedResume(s: State, limit: int, id: nat, cwd: string, line: seq<nat>, woke: seq<nat>)
    requires limit >= 1 && Enabled(s, Resume(id)) && s.spawns[id].cwd == cwd
    requires Seated(s, limit, cwd, line, woke) && woke != [] && woke[0] == id
    ensures var e := Resume(id);
            && !Overtakes(s, limit, e, cwd, line)
            && Seated(TryEnter(s, limit, id, cwd), limit, cwd, NextLine(s, limit, e, cwd, line), Without(woke, id))
  {
    EnterEffect(s, limit, id, cwd);
    hide TryEnter, State.Queue, State.Active;
    assert line[1..] == woke[1..] + s.Queue(cwd);
  }

  lemma SeatedRelease(s: State, limit: int, e: Step, cwd: string, line: seq<nat>, woke: seq<nat>)
    requires Enabled(s, e) && ReleasedIn(s, e) == Some(cwd) && s.Active(cwd) >= 1
    requires Seated(s, limit, cwd, line, woke)
    ensures Seated(Next(s, limit, e), limit, cwd, line, NextWoke(s, e, cwd, woke))
  {
    ReleaseEffect(s, limit, e, cwd);
    var queue := s.Queue(cwd);
    hide Next, State.Queue, State.Active;
    if queue != [] { assert woke + [queue[0]] + queue[1..] == woke + queue; }
  }

  /** Without newcomers that barge, a step in wake order overtakes nobody and leaves everyone seated. */
  lemma SeatedStep(s: State, limit: int, e: Step, cwd: string, line: seq<nat>, woke: seq<nat>)
    requires limit >= 1 && Inv(s, limit) && Enabled(s, e) && !e.StopAll?
    requires LineRight(s, cwd, line) && Seated(s, limit, cwd, line, woke) && !Barges(s, limit, e, cwd)
    requires e.Resume? && s.spawns[e.id].cwd == cwd ==> woke != [] && woke[0] == e.id
    requires ReleasedIn(s, e) == Some(cwd) ==> s.Active(cwd) >= 1
    ensures !Overtakes(s, limit, e, cwd, line)
    ensures Seated(Next(s, limit, e), limit, cwd, NextLine(s, limit, e, cwd, line), NextWoke(s, e, cwd, woke))
  {
    hide Inv, LineRight, Count, TryEnter, Release, State.Queue, State.Active, Without;
    if e.Arrive? && e.cwd == cwd {
      SeatedArrive(s, limit, e.id, cwd, line, woke);
    } else if e.Resume? && s.spawns[e.id].cwd == cwd {
      SeatedResume(s, limit, e.id, cwd, line, woke);
    } else if ReleasedIn(s, e) == Some(cwd) {
      SeatedRelease(s, limit, e, cwd, line, woke);
    } else {
      NoEffect(s, limit, e, cwd);
    }
  }

  lemma {:induction false} SeatedRun(limit: int, es: seq<Step>, cwd: string)
    requires limit >= 1 && FreshRun(limit, es) && StopAll !in es
    requires InWakeOrder(limit, es, cwd) && NoneBarges(limit, es, cwd)
    ensures NoneOvertakes(limit, es, cwd)
    ensures Seated(Exec(limit, es), limit, cwd, Line(limit, es, cwd), Woke(limit, es, cwd))
  {
    if es != [] {
      var front, e := es[..|es| - 1], es[|es| - 1];
      var s := Exec(limit, front);
      assert es == front + [e];
      SeatedRun(limit, front, cwd);
      RunKeeps(limit, front);
      LineMatches(limit, front, cwd);
      if Enabled(s, e) {
        if ReleasedIn(s, e) == Some(cwd) { ClampNeverActs(limit, front, e, cwd); }
        SeatedStep(s, limit, e, cwd, Line(limit, front, cwd), Woke(limit, front, cwd));
      }
      hide Inv, LineRight, Next, Seated, NextLine, Count;
    }
  }

  lemma {:induction false} BargersOvertake(limit: int, es: seq<Step>, cwd: string)
    requires limit >= 1 && !NoneBarges(limit, es, cwd)
    ensures !NoneOvertakes(limit, es, cwd)
  {
    var front, e := es[..|es| - 1], es[|es| - 1];
    if NoneBarges(limit, front, cwd) {
      OvertakesExactly(limit, front, e, cwd);
    } else {
      BargersOvertake(limit, front, cwd);
    }
    hide Exec, Barges, Overtakes, Line;
  }

  /** When woken spawns resume in the order of their wakes, short of `stopAll`: slots are taken in arrival order
      exactly when no newcomer ever finds a free slot while a wake is on its way. */
  lemma {:induction false} BargingExactly(limit: int, es: seq<Step>, cwd: string)
    requires limit >= 1 && FreshRun(limit, es) && StopAll !in es && InWakeOrder(limit, es, cwd)
    ensures Acquired(limit, es, cwd) <= Arrived(limit, es, cwd) <==> NoneBarges(limit, es, cwd)
  {
    ArrivalOrderExactly(limit, es, cwd);
    if NoneBarges(limit, es, cwd) {
      SeatedRun(limit, es, cwd);
    } else {
      BargersOvertake(limit, es, cwd);
    }
    hide Exec, NoneBarges, NoneOvertakes, Arrived, Acquired, Line, Seated;
  }
}
