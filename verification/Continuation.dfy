/**
 The continuation policy of src/dispatch/setup.ts over the counters of src/dispatch/delivery-tracker.ts: one
 budget of turns for a session, and one of thread-driven turns for a dispatch until it completes or dies.
 */
module Continuation {

  datatype Limits = Limits(maxTurns: int, maxThreadTurns: int)

  /** A question of the orchestrator about a task, or the end of the task. `codex` says whether any attempt of
      the dispatch went to a local codex worker. */
  datatype Event =
    | Ask(task: string, turnCount: int, codex: bool, pending: int)
    | Clear(task: string)

  function Count(counts: map<string, nat>, task: string): nat {
    if task in counts then counts[task] else 0
  }

  predicate Continues(limits: Limits, counts: map<string, nat>, e: Event)
    requires e.Ask?
  {
    && e.turnCount < limits.maxTurns
    && !e.codex
    && (e.pending > 0 ==> Count(counts, e.task) < limits.maxThreadTurns)
  }

  /** A turn granted because of the thread. */
  predicate ThreadDriven(limits: Limits, counts: map<string, nat>, e: Event) {
    e.Ask? && e.pending > 0 && Continues(limits, counts, e)
  }

  function Next(limits: Limits, counts: map<string, nat>, e: Event): map<string, nat> {
    if e.Clear? then counts - {e.task}
    else if ThreadDriven(limits, counts, e) then counts[e.task := Count(counts, e.task) + 1]
    else counts
  }

  function Exec(limits: Limits, counts: map<string, nat>, es: seq<Event>): map<string, nat> {
    if es == [] then counts else Next(limits, Exec(limits, counts, es[..|es| - 1]), es[|es| - 1])
  }

  class DeliveryTracker {
    var threadDrivenCounts: map<string, nat>

    constructor ()
      ensures threadDrivenCounts == map[]
    {
      threadDrivenCounts := map[];
    }

    method Increment(task: string) returns (next: nat)
      modifies this
      ensures next == Count(old(threadDrivenCounts), task) + 1
      ensures threadDrivenCounts == old(threadDrivenCounts)[task := next]
    {
      var current := if task in threadDrivenCounts then threadDrivenCounts[task] else 0;
      next := current + 1;
      threadDrivenCounts := threadDrivenCounts[task := next];
    }

    method ClearCount(task: string)
      modifies this
      ensures forall limits :: threadDrivenCounts == Next(limits, old(threadDrivenCounts), Clear(task))
    {
      threadDrivenCounts := threadDrivenCounts - {task};
    }

    /** `continuationPolicy`. */
    method Policy(limits: Limits, task: string, turnCount: int, codex: bool, pending: int)
      returns (continues: bool)
      modifies this
      ensures var e := Ask(task, turnCount, codex, pending);
              && continues == Continues(limits, old(threadDrivenCounts), e)
              && threadDrivenCounts == Next(limits, old(threadDrivenCounts), e)
    {
      if turnCount >= limits.maxTurns {
        return false;
      }
      if codex {
        return false;
      }
      if pending > 0 {
        var threadCount := if task in threadDrivenCounts then threadDrivenCounts[task] else 0;
        if threadCount >= limits.maxThreadTurns {
          return false;
        }
        var _ := Increment(task);
        return true;
      }
      return turnCount < limits.maxTurns;
    }
  }

  // ---- the thread budget ----

  /** The thread-driven turns granted to a task since it last ended. */
  function Granted(limits: Limits, es: seq<Event>, task: string): nat {
    if es == [] then 0
    else
      var front, e := es[..|es| - 1], es[|es| - 1];
      if e.task != task then Granted(limits, front, task)
      else if e.Clear? then 0
      else if ThreadDriven(limits, Exec(limits, map[], front), e) then Granted(limits, front, task) + 1
      else Granted(limits, front, task)
  }

  /** Over every interleaving of tasks, the counter is the number of thread-driven turns since the task last
      ended, and never passes the limit. */
  lemma {:induction false} ThreadBudget(limits: Limits, es: seq<Event>, task: string)
    ensures Count(Exec(limits, map[], es), task) == Granted(limits, es, task)
    ensures Granted(limits, es, task) <= if limits.maxThreadTurns > 0 then limits.maxThreadTurns else 0
  {
    if es != [] { ThreadBudget(limits, es[..|es| - 1], task); }
  }

  /** Messages in the thread never lengthen a session: with them pending a turn is granted exactly when it would
      be without them and the thread budget is not spent. */
  lemma PendingOnlyShortens(limits: Limits, es: seq<Event>, e: Event)
    requires e.Ask? && e.pending > 0
    ensures var counts := Exec(limits, map[], es);
            Continues(limits, counts, e) <==>
            Continues(limits, counts, e.(pending := 0)) && Granted(limits, es, e.task) < limits.maxThreadTurns
  {
    ThreadBudget(limits, es, e.task);
  }

  // ---- one session ----

  /** What the policy sees at the end of a turn, and what other tasks did meanwhile. */
  datatype Turn = Turn(codex: bool, pending: int, others: seq<Event>)

  predicate OthersOnly(turns: seq<Turn>, task: string) {
    forall turn, e :: turn in turns && e in turn.others ==> e.task != task
  }

  /** How many turns a session is granted: its turn count rises by one with each. */
  function Session(limits: Limits, counts: map<string, nat>, task: string, turnCount: int, turns: seq<Turn>): nat
    decreases |turns|
  {
    if turns == [] then 0
    else
      var now := Exec(limits, counts, turns[0].others);
      var e := Ask(task, turnCount, turns[0].codex, turns[0].pending);
      if Continues(limits, now, e) then 1 + Session(limits, Next(limits, now, e), task, turnCount + 1, turns[1..])
      else 0
  }

  function Left(limit: int, used: int): nat {
    if used < limit then limit - used else 0
  }

  /** Whatever the thread and the other tasks do, a session ends within `maxTurns`. */
  lemma {:induction false} SessionEnds(limits: Limits, counts: map<string, nat>, task: string, turnCount: int,
                                       turns: seq<Turn>)
    ensures Session(limits, counts, task, turnCount, turns) <= Left(limits.maxTurns, turnCount)
    decreases |turns|
  {
    if turns != [] {
      var now := Exec(limits, counts, turns[0].others);
      var e := Ask(task, turnCount, turns[0].codex, turns[0].pending);
      SessionEnds(limits, Next(limits, now, e), task, turnCount + 1, turns[1..]);
    }
  }

  lemma {:induction false} OthersKeepCount(limits: Limits, counts: map<string, nat>, es: seq<Event>, task: string)
    requires forall e :: e in es ==> e.task != task
    ensures Count(Exec(limits, counts, es), task) == Count(counts, task)
  {
    if es != [] {
      OthersKeepCount(limits, counts, es[..|es| - 1], task);
      assert es[|es| - 1] in es;
    }
  }

  function Least(a: nat, b: nat): nat {
    if a < b then a else b
  }

  /** A session whose thread never falls silent gets exactly the smaller of what the two budgets leave. */
  lemma {:induction false} BusyThreadExactly(limits: Limits, counts: map<string, nat>, task: string,
                                             turnCount: int, turns: seq<Turn>)
    requires OthersOnly(turns, task) && forall turn :: turn in turns ==> turn.pending > 0 && !turn.codex
    requires |turns| >= Left(limits.maxTurns, turnCount)
    ensures Session(limits, counts, task, turnCount, turns) ==
            Least(Left(limits.maxTurns, turnCount), Left(limits.maxThreadTurns, Count(counts, task)))
    decreases |turns|
  {
    if turns != [] {
      assert turns[0] in turns;
      var now := Exec(limits, counts, turns[0].others);
      OthersKeepCount(limits, counts, turns[0].others, task);
      var e := Ask(task, turnCount, turns[0].codex, turns[0].pending);
      if Continues(limits, now, e) {
        BusyThreadExactly(limits, Next(limits, now, e), task, turnCount + 1, turns[1..]);
      }
    }
  }

  /** A silent session gets exactly what the turn budget leaves. */
  lemma {:induction false} SilentThreadExactly(limits: Limits, counts: map<string, nat>, task: string,
                                               turnCount: int, turns: seq<Turn>)
    requires forall turn :: turn in turns ==> turn.pending <= 0 && !turn.codex
    requires |turns| >= Left(limits.maxTurns, turnCount)
    ensures Session(limits, counts, task, turnCount, turns) == Left(limits.maxTurns, turnCount)
    decreases |turns|
  {
    if turns != [] {
      assert turns[0] in turns;
      var now := Exec(limits, counts, turns[0].others);
      var e := Ask(task, turnCount, turns[0].codex, turns[0].pending);
      if Continues(limits, now, e) {
        SilentThreadExactly(limits, Next(limits, now, e), task, turnCount + 1, turns[1..]);
      }
    }
  }

  /** The turns among the first that had messages pending. */
  function Busy(turns: seq<Turn>): nat {
    if turns == [] then 0 else (if turns[0].pending > 0 then 1 else 0) + Busy(turns[1..])
  }

  /** Turn `i` leaves both budgets something and has no codex worker behind it. */
  predicate GoesOn(limits: Limits, used: nat, turnCount: int, turns: seq<Turn>, i: nat)
    requires i < |turns|
  {
    && turnCount + i < limits.maxTurns
    && !turns[i].codex
    && (turns[i].pending > 0 ==> used + Busy(turns[..i]) < limits.maxThreadTurns)
  }

  lemma GoesOnShifts(limits: Limits, used: nat, turnCount: int, turns: seq<Turn>, i: nat)
    requires i < |turns| - 1
    ensures GoesOn(limits, used, turnCount, turns, i + 1) <==>
            GoesOn(limits, used + (if turns[0].pending > 0 then 1 else 0), turnCount + 1, turns[1..], i)
  {
    assert turns[..i + 1][1..] == turns[1..][..i] && turns[..i + 1][0] == turns[0];
  }

  lemma GoesOnUpTo(limits: Limits, used: nat, turnCount: int, turns: seq<Turn>, used': nat, turnCount': int,
                   rest: seq<Turn>, g: nat)
    requires 0 < g <= |turns| == |rest| + 1 && GoesOn(limits, used, turnCount, turns, 0)
    requires forall i: nat, j: nat :: j == i + 1 && j < |turns| ==>
               (GoesOn(limits, used, turnCount, turns, j) <==> GoesOn(limits, used', turnCount', rest, i))
    ensures (forall i :: 0 <= i < g ==> GoesOn(limits, used, turnCount, turns, i)) <==>
            (forall i :: 0 <= i < g - 1 ==> GoesOn(limits, used', turnCount', rest, i))
  {
    hide GoesOn;
    if forall i :: 0 <= i < g ==> GoesOn(limits, used, turnCount, turns, i) {
      forall i: nat | i < g - 1 ensures GoesOn(limits, used', turnCount', rest, i) {
        assert GoesOn(limits, used, turnCount, turns, i + 1);
      }
    }
    if forall i :: 0 <= i < g - 1 ==> GoesOn(limits, used', turnCount', rest, i) {
      forall i: nat | i < g ensures GoesOn(limits, used, turnCount, turns, i) {
        if i > 0 { assert GoesOn(limits, used', turnCount', rest, i - 1); }
      }
    }
  }

  /** For any mixture of turns: a session is granted exactly the turns before the first that uses up a budget or has
      a codex worker behind it. */
  lemma {:induction false} SessionExactly(limits: Limits, counts: map<string, nat>, task: string, turnCount: int,
                                          turns: seq<Turn>, g: nat)
    requires OthersOnly(turns, task) && g <= |turns|
    ensures Session(limits, counts, task, turnCount, turns) == g <==>
            && (forall i :: 0 <= i < g ==> GoesOn(limits, Count(counts, task), turnCount, turns, i))
            && (g < |turns| ==> !GoesOn(limits, Count(counts, task), turnCount, turns, g))
    decreases |turns|
  {
    if turns != [] {
      var used := Count(counts, task);
      var now := Exec(limits, counts, turns[0].others);
      var e := Ask(task, turnCount, turns[0].codex, turns[0].pending);
      assert turns[0] in turns;
      OthersKeepCount(limits, counts, turns[0].others, task);
      assert turns[..0] == [];
      assert GoesOn(limits, used, turnCount, turns, 0) <==> Continues(limits, now, e);
      if Continues(limits, now, e) && g > 0 {
        var rest, turnCount', used' := turns[1..], turnCount + 1, Count(Next(limits, now, e), task);
        SessionExactly(limits, Next(limits, now, e), task, turnCount', rest, g - 1);
        forall i: nat, j: nat | j == i + 1 && j < |turns|
          ensures GoesOn(limits, used, turnCount, turns, j) <==> GoesOn(limits, used', turnCount', rest, i)
        {
          GoesOnShifts(limits, used, turnCount, turns, i);
        }
        GoesOnUpTo(limits, used, turnCount, turns, used', turnCount', rest, g);
        hide GoesOn, Next, Exec, Continues;
      }
    }
  }
}
