/**
 Single-flight creation, as src/dispatch/mail-transport.ts and src/dispatch/dispatch-conversation.ts both do it:
 a caller that finds no known id joins the creation in flight for its key, or starts one; whoever started it
 removes the in-flight entry when it resumes. One step runs from one await to the next.
 */
module SingleFlight {
  import opened Wrappers

  datatype Outcome = Pending | Done(id: string) | Rejected

  /** `creator` is the caller that started the creation; `live` until that caller has resumed. */
  datatype Creation = Creation(key: string, creator: nat, outcome: Outcome, live: bool)

  datatype Caller =
    | Waiting(creation: nat)
    | Got(key: string, id: string)
    | Failed(key: string)

  /** `known` is the cache, or the rows that have an id. */
  datatype State = State(
    known: map<string, string>,
    inFlight: map<string, nat>,
    creations: seq<Creation>,
    callers: seq<Caller>)

  datatype Event =
    | Call(key: string)
    | Settle(creation: nat, answer: Option<string>)
    | Resume(caller: nat)
    | Write(key: string, id: string)

  /** An empty id reads as none. */
  predicate Known(s: State, key: string) {
    key in s.known && s.known[key] != ""
  }

  function Enter(s: State, key: string): State {
    if Known(s, key) then s.(callers := s.callers + [Got(key, s.known[key])])
    else if key in s.inFlight then s.(callers := s.callers + [Waiting(s.inFlight[key])])
    else State(s.known, s.inFlight[key := |s.creations|],
               s.creations + [Creation(key, |s.callers|, Pending, true)],
               s.callers + [Waiting(|s.creations|)])
  }

  /** A successful creation records its id and resolves with it in one step. */
  function Finish(s: State, p: nat, answer: Option<string>): State
    requires p < |s.creations|
  {
    match answer
    case None => s.(creations := s.creations[p := s.creations[p].(outcome := Rejected)])
    case Some(id) => s.(known := s.known[s.creations[p].key := id],
                        creations := s.creations[p := s.creations[p].(outcome := Done(id))])
  }

  function Wake(s: State, c: nat): State
    requires c < |s.callers| && s.callers[c].Waiting? && s.callers[c].creation < |s.creations|
  {
    var p := s.callers[c].creation;
    var creation := s.creations[p];
    var woken := s.(callers := s.callers[c :=
      if creation.outcome.Done? then Got(creation.key, creation.outcome.id) else Failed(creation.key)]);
    if creation.creator != c then woken
    else woken.(inFlight := s.inFlight - {creation.key}, creations := s.creations[p := creation.(live := false)])
  }

  predicate Enabled(s: State, e: Event) {
    match e
    case Settle(p, _) => p < |s.creations| && s.creations[p].outcome.Pending?
    case Resume(c) =>
      && c < |s.callers| && s.callers[c].Waiting?
      && s.callers[c].creation < |s.creations|
      && !s.creations[s.callers[c].creation].outcome.Pending?
    case _ => true
  }

  function Next(s: State, e: Event): State
    requires Enabled(s, e)
  {
    match e
    case Call(key) => Enter(s, key)
    case Settle(p, answer) => Finish(s, p, answer)
    case Resume(c) => Wake(s, c)
    case Write(key, id) => if key in s.known then s else s.(known := s.known[key := id])
  }

  function Init(known: map<string, string>): State {
    State(known, map[], [], [])
  }

  function Step(s: State, e: Event): State {
    if Enabled(s, e) then Next(s, e) else s
  }

  function Exec(s0: State, es: seq<Event>): State {
    if es == [] then s0 else Step(Exec(s0, es[..|es| - 1]), es[|es| - 1])
  }

  // ---- the in-flight map ----

  /** The entry and the creation of a key belong together. */
  ghost predicate EntryRight(s: State, key: string) {
    key in s.inFlight ==>
      var p := s.inFlight[key];
      p < |s.creations| && s.creations[p].key == key && s.creations[p].live
  }

  /** A live creation holds its key's entry, and its creator still waits for it. */
  ghost predicate CreationRight(s: State, p: nat)
    requires p < |s.creations|
  {
    var creation := s.creations[p];
    && (creation.outcome.Pending? ==> creation.live)
    && creation.creator < |s.callers|
    && (creation.live ==>
          && creation.key in s.inFlight && s.inFlight[creation.key] == p
          && s.callers[creation.creator] == Waiting(p))
  }

  ghost predicate CallerRight(s: State, c: nat)
    requires c < |s.callers|
  {
    s.callers[c].Waiting? ==>
      var p := s.callers[c].creation;
      p < |s.creations| && (s.creations[p].creator == c ==> s.creations[p].live)
  }

  ghost predicate FlightRight(s: State) {
    && (forall key :: EntryRight(s, key))
    && (forall p :: 0 <= p < |s.creations| ==> CreationRight(s, p))
    && (forall c :: 0 <= c < |s.callers| ==> CallerRight(s, c))
  }

  lemma EnterKeepsFlight(s: State, key: string)
    requires FlightRight(s)
    ensures FlightRight(Enter(s, key))
  {
    var n := Enter(s, key);
    forall k ensures EntryRight(n, k) { assert EntryRight(s, k); }
    forall p | 0 <= p < |n.creations| ensures CreationRight(n, p) {
      if p < |s.creations| { assert CreationRight(s, p); }
    }
    forall c | 0 <= c < |n.callers| ensures CallerRight(n, c) {
      if c < |s.callers| { assert CallerRight(s, c); }
      assert EntryRight(s, key);
      if key in s.inFlight { assert CreationRight(s, s.inFlight[key]); }
    }
  }

  lemma FinishKeepsFlight(s: State, p: nat, answer: Option<string>)
    requires FlightRight(s) && p < |s.creations|
    ensures FlightRight(Finish(s, p, answer))
  {
    var n := Finish(s, p, answer);
    forall k ensures EntryRight(n, k) { assert EntryRight(s, k); }
    forall q | 0 <= q < |n.creations| ensures CreationRight(n, q) { assert CreationRight(s, q); }
    forall c | 0 <= c < |n.callers| ensures CallerRight(n, c) { assert CallerRight(s, c); }
  }

  lemma WakeKeepsFlight(s: State, c: nat)
    requires FlightRight(s) && Enabled(s, Resume(c))
    ensures FlightRight(Wake(s, c))
  {
    var n, p := Wake(s, c), s.callers[c].creation;
    assert CallerRight(s, c) && CreationRight(s, p);
    forall k ensures EntryRight(n, k) { assert EntryRight(s, k); }
    forall q | 0 <= q < |n.creations| ensures CreationRight(n, q) { assert CreationRight(s, q); }
    forall d | 0 <= d < |n.callers| ensures CallerRight(n, d) { assert CallerRight(s, d); }
  }

  lemma WriteKeepsFlight(s: State, key: string, id: string)
    requires FlightRight(s)
    ensures FlightRight(Next(s, Write(key, id)))
  {
    var n := Next(s, Write(key, id));
    forall k ensures EntryRight(n, k) { assert EntryRight(s, k); }
    forall p | 0 <= p < |n.creations| ensures CreationRight(n, p) { assert CreationRight(s, p); }
    forall c | 0 <= c < |n.callers| ensures CallerRight(n, c) { assert CallerRight(s, c); }
  }

  lemma StepKeepsFlight(s: State, e: Event)
    requires FlightRight(s)
    ensures FlightRight(Step(s, e))
  {
    hide FlightRight;
    if Enabled(s, e) {
      match e
      case Call(key) => EnterKeepsFlight(s, key);
      case Settle(p, answer) => FinishKeepsFlight(s, p, answer);
      case Resume(c) => WakeKeepsFlight(s, c);
      case Write(key, id) => WriteKeepsFlight(s, key, id);
    }
  }

  lemma {:induction false} RunKeepsFlight(known: map<string, string>, es: seq<Event>)
    ensures FlightRight(Exec(Init(known), es))
  {
    if es != [] {
      RunKeepsFlight(known, es[..|es| - 1]);
      StepKeepsFlight(Exec(Init(known), es[..|es| - 1]), es[|es| - 1]);
    }
  }

  /** In every interleaving at most one creation per key is in flight, and when no caller waits any more the
      in-flight map is empty: no entry outlives its creator. */
  lemma OneInFlight(known: map<string, string>, es: seq<Event>)
    ensures var s := Exec(Init(known), es);
            && (forall p, q :: (0 <= p < |s.creations| && 0 <= q < |s.creations|
                                && s.creations[p].outcome.Pending? && s.creations[q].outcome.Pending?
                                && s.creations[p].key == s.creations[q].key) ==> p == q)
            && ((forall c :: 0 <= c < |s.callers| ==> !s.callers[c].Waiting?) ==> s.inFlight == map[])
  {
    var s := Exec(Init(known), es);
    RunKeepsFlight(known, es);
    forall p, q | 0 <= p < |s.creations| && 0 <= q < |s.creations|
      && s.creations[p].outcome.Pending? && s.creations[q].outcome.Pending?
      && s.creations[p].key == s.creations[q].key
      ensures p == q
    {
      assert CreationRight(s, p) && CreationRight(s, q);
    }
    forall key | key in s.inFlight
      ensures exists c :: 0 <= c < |s.callers| && s.callers[c].Waiting?
    {
      assert EntryRight(s, key) && CreationRight(s, s.inFlight[key]);
      assert s.callers[s.creations[s.inFlight[key]].creator].Waiting?;
    }
  }

  // ---- what callers get ----

  /** A call gets the known id, or waits for a creation of its own key. */
  lemma CallEnters(s: State, key: string)
    requires FlightRight(s)
    ensures var n, c := Step(s, Call(key)), |s.callers|;
            && |n.callers| == c + 1
            && (if key in s.known && s.known[key] != "" then n.callers[c] == Got(key, s.known[key])
                else n.callers[c].Waiting?
                     && n.callers[c].creation < |n.creations| && n.creations[n.callers[c].creation].key == key)
  {
    assert EntryRight(s, key);
  }

  /** A creation settles as it was answered, and then for good. */
  lemma CreationStep(s: State, e: Event, p: nat)
    requires p < |s.creations|
    ensures var n := Step(s, e);
            && p < |n.creations| && n.creations[p].key == s.creations[p].key
            && n.creations[p].outcome ==
               if !(s.creations[p].outcome.Pending? && e.Settle? && e.creation == p) then s.creations[p].outcome
               else if e.answer.Some? then Done(e.answer.value) else Rejected
  {}

  /** The caller still waits, or has what its creation came to. */
  predicate HasOutcome(caller: Caller, p: nat, creation: Creation) {
    match creation.outcome
    case Pending => caller == Waiting(p)
    case Done(id) => caller == Waiting(p) || caller == Got(creation.key, id)
    case Rejected => caller == Waiting(p) || caller == Failed(creation.key)
  }

  lemma WaiterStep(s: State, e: Event, c: nat, p: nat)
    requires c < |s.callers| && p < |s.creations| && HasOutcome(s.callers[c], p, s.creations[p])
    ensures var n := Step(s, e);
            && c < |n.callers| && p < |n.creations| && HasOutcome(n.callers[c], p, n.creations[p])
            && (s.callers[c] == Waiting(p) && e == Resume(c) && !s.creations[p].outcome.Pending? ==>
                  n.callers[c] != Waiting(p))
  {
    CreationStep(s, e, p);
  }

  /** Whoever waited for a creation gets its id if it succeeds and fails if it is rejected, over any continuation. */
  lemma {:induction false} WaitersGetOutcome(s0: State, es: seq<Event>, i: nat, c: nat)
    requires FlightRight(s0) && i <= |es|
    requires c < |Exec(s0, es[..i]).callers| && Exec(s0, es[..i]).callers[c].Waiting?
    ensures var n, p := Exec(s0, es), Exec(s0, es[..i]).callers[c].creation;
            c < |n.callers| && p < |n.creations| && HasOutcome(n.callers[c], p, n.creations[p])
    decreases |es|
  {
    if i == |es| {
      assert es[..i] == es;
      RunKeepsFlightFrom(s0, es);
      assert CallerRight(Exec(s0, es), c);
    } else {
      var front := es[..|es| - 1];
      assert front[..i] == es[..i];
      WaitersGetOutcome(s0, front, i, c);
      WaiterStep(Exec(s0, front), es[|es| - 1], c, Exec(s0, es[..i]).callers[c].creation);
      hide Step, HasOutcome, FlightRight;
    }
  }

  lemma {:induction false} RunKeepsFlightFrom(s0: State, es: seq<Event>)
    requires FlightRight(s0)
    ensures FlightRight(Exec(s0, es))
  {
    if es != [] {
      RunKeepsFlightFrom(s0, es[..|es| - 1]);
      StepKeepsFlight(Exec(s0, es[..|es| - 1]), es[|es| - 1]);
    }
  }

  // ---- created once ----

  /** A finished creation leaves its key known, and no other creation of that key is pending or finished. */
  ghost predicate DoneRight(s: State, p: nat)
    requires p < |s.creations|
  {
    s.creations[p].outcome.Done? ==>
      && Known(s, s.creations[p].key)
      && forall q :: 0 <= q < |s.creations| && q != p && s.creations[q].key == s.creations[p].key
                     ==> s.creations[q].outcome.Rejected?
  }

  ghost predicate AllDoneRight(s: State) {
    forall p :: 0 <= p < |s.creations| ==> DoneRight(s, p)
  }

  lemma FinishKeepsDone(s: State, p: nat, answer: Option<string>)
    requires FlightRight(s) && AllDoneRight(s) && Enabled(s, Settle(p, answer)) && answer != Some("")
    ensures AllDoneRight(Finish(s, p, answer))
  {
    var n := Finish(s, p, answer);
    assert CreationRight(s, p);
    forall q | 0 <= q < |n.creations| ensures DoneRight(n, q) {
      assert DoneRight(s, q);
      forall r | 0 <= r < |s.creations| && r != p && s.creations[r].key == s.creations[p].key
        ensures s.creations[r].outcome.Rejected?
      {
        assert CreationRight(s, r) && DoneRight(s, r);
      }
    }
  }

  lemma StepKeepsDone(s: State, e: Event)
    requires FlightRight(s) && AllDoneRight(s)
    requires e.Settle? && Enabled(s, e) ==> e.answer != Some("")
    ensures AllDoneRight(Step(s, e))
  {
    if Enabled(s, e) {
      match e
      case Settle(p, answer) => FinishKeepsDone(s, p, answer);
      case _ =>
        var n := Step(s, e);
        forall q | 0 <= q < |n.creations| ensures DoneRight(n, q) {
          if q < |s.creations| { assert DoneRight(s, q); }
        }
    }
  }

  /** No creation of the run succeeds with an empty id. */
  ghost predicate AnswersNonEmpty(s0: State, es: seq<Event>) {
    es == [] ||
    var front, e := es[..|es| - 1], es[|es| - 1];
    AnswersNonEmpty(s0, front) && (e.Settle? && Enabled(Exec(s0, front), e) ==> e.answer != Some(""))
  }

  lemma {:induction false} RunKeepsDone(known: map<string, string>, es: seq<Event>)
    requires AnswersNonEmpty(Init(known), es)
    ensures AllDoneRight(Exec(Init(known), es))
  {
    if es != [] {
      var front, e := es[..|es| - 1], es[|es| - 1];
      RunKeepsDone(known, front);
      RunKeepsFlight(known, front);
      StepKeepsDone(Exec(Init(known), front), e);
    }
  }

  /** No key has two creations that succeeded. */
  ghost predicate CreatedOnce(s: State) {
    forall p, q :: (0 <= p < |s.creations| && 0 <= q < |s.creations| && s.creations[p].key == s.creations[q].key
                    && s.creations[p].outcome.Done? && s.creations[q].outcome.Done?) ==> p == q
  }

  lemma CreatedOnceWhenNonEmpty(known: map<string, string>, es: seq<Event>)
    requires AnswersNonEmpty(Init(known), es)
    ensures CreatedOnce(Exec(Init(known), es))
  {
    RunKeepsDone(known, es);
    var s := Exec(Init(known), es);
    forall p, q | 0 <= p < |s.creations| && 0 <= q < |s.creations| && s.creations[p].key == s.creations[q].key
      && s.creations[p].outcome.Done? && s.creations[q].outcome.Done?
      ensures p == q
    {
      assert DoneRight(s, p) && DoneRight(s, q);
    }
  }

  // ---- everyone gets the same id ----

  /** Every creation that finds its key already known answers with the known id. */
  ghost predicate FirstWins(s0: State, es: seq<Event>) {
    es == [] ||
    var front, e := es[..|es| - 1], es[|es| - 1];
    var s := Exec(s0, front);
    && FirstWins(s0, front)
    && (e.Settle? && e.answer.Some? && Enabled(s, e) && s.creations[e.creation].key in s.known ==>
          e.answer.value == s.known[s.creations[e.creation].key])
  }

  /** Creations and callers hold the id known for their key. */
  ghost predicate Agree(s: State) {
    && (forall p :: 0 <= p < |s.creations| && s.creations[p].outcome.Done? ==>
          s.creations[p].key in s.known && s.known[s.creations[p].key] == s.creations[p].outcome.id)
    && (forall c :: 0 <= c < |s.callers| && s.callers[c].Got? ==>
          s.callers[c].key in s.known && s.known[s.callers[c].key] == s.callers[c].id)
  }

  lemma StepKeepsKnown(s0: State, es: seq<Event>, key: string)
    requires es != [] && FirstWins(s0, es) && key in Exec(s0, es[..|es| - 1]).known
    ensures key in Exec(s0, es).known && Exec(s0, es).known[key] == Exec(s0, es[..|es| - 1]).known[key]
  {}

  lemma StepAgrees(s: State, e: Event, n: State)
    requires Agree(s) && Enabled(s, e) && n == Next(s, e)
    requires forall key :: key in s.known ==> key in n.known && n.known[key] == s.known[key]
    ensures Agree(n)
  {
    match e
    case Call(key) =>
    case Settle(p, answer) =>
    case Resume(c) =>
    case Write(key, id) =>
  }

  lemma {:induction false} RunAgrees(s0: State, es: seq<Event>)
    requires Agree(s0) && FirstWins(s0, es)
    ensures Agree(Exec(s0, es))
  {
    if es != [] {
      var front, e := es[..|es| - 1], es[|es| - 1];
      var s := Exec(s0, front);
      RunAgrees(s0, front);
      forall key | key in s.known
        ensures key in Exec(s0, es).known && Exec(s0, es).known[key] == s.known[key]
      {
        StepKeepsKnown(s0, es, key);
      }
      if Enabled(s, e) { StepAgrees(s, e, Exec(s0, es)); }
    }
  }

  /** A known id never changes, over any continuation of a run. */
  lemma {:induction false} KnownForever(s0: State, es: seq<Event>, i: nat, key: string)
    requires FirstWins(s0, es) && i <= |es| && key in Exec(s0, es[..i]).known
    ensures key in Exec(s0, es).known && Exec(s0, es).known[key] == Exec(s0, es[..i]).known[key]
    decreases |es|
  {
    if i == |es| {
      assert es[..i] == es;
    } else {
      var front := es[..|es| - 1];
      assert front[..i] == es[..i];
      KnownForever(s0, front, i, key);
      StepKeepsKnown(s0, es, key);
    }
  }

  lemma ExecAppend(s0: State, es: seq<Event>, e: Event)
    ensures Exec(s0, es + [e]) == Step(Exec(s0, es), e)
  {
    assert (es + [e])[..|es|] == es;
  }

  lemma {:induction false} ExecSplits(s0: State, es: seq<Event>, fs: seq<Event>)
    ensures Exec(s0, es + fs) == Exec(Exec(s0, es), fs)
  {
    if fs == [] {
      assert es + fs == es;
    } else {
      ExecSplits(s0, es, fs[..|fs| - 1]);
      assert (es + fs)[..|es + fs| - 1] == es + fs[..|fs| - 1];
    }
  }

  /** One caller alone with a key: it creates, the creation answers, the caller returns. */
  function Round(s: State, key: string, id: string): seq<Event> {
    [Call(key), Settle(|s.creations|, Some(id)), Resume(|s.callers|)]
  }

  lemma {:induction false} ExecThree(s: State, e1: Event, e2: Event, e3: Event)
    ensures Exec(s, [e1, e2, e3]) == Step(Step(Step(s, e1), e2), e3)
  {
    ExecAppend(s, [], e1);
    ExecAppend(s, [e1], e2);
    ExecAppend(s, [e1, e2], e3);
    assert [] + [e1] == [e1] && [e1] + [e2] == [e1, e2] && [e1, e2] + [e3] == [e1, e2, e3];
    hide Step;
  }

  lemma {:induction false} RoundGives(s: State, key: string, id: string)
    requires !Known(s, key) && key !in s.inFlight
    ensures Exec(s, Round(s, key, id)) ==
            State(s.known[key := id], s.inFlight, s.creations + [Creation(key, |s.callers|, Done(id), false)],
                  s.callers + [Got(key, id)])
  {
    var p, c := |s.creations|, |s.callers|;
    ExecThree(s, Call(key), Settle(p, Some(id)), Resume(c));
    hide Exec;
    var s1 := State(s.known, s.inFlight[key := p], s.creations + [Creation(key, c, Pending, true)],
                    s.callers + [Waiting(p)]);
    var s2 := State(s.known[key := id], s.inFlight[key := p], s.creations + [Creation(key, c, Done(id), true)],
                    s.callers + [Waiting(p)]);
    assert Step(s, Call(key)) == s1;
    assert Step(s1, Settle(p, Some(id))) == s2;
    assert s.inFlight[key := p] - {key} == s.inFlight;
  }

  /** An empty id reads as none, so the next caller creates again. */
  lemma EmptyIdRound(s: State, key: string, second: string) returns (es: seq<Event>)
    requires !Known(s, key) && key !in s.inFlight
    ensures es == Round(s, key, "") + Round(Exec(s, Round(s, key, "")), key, second)
    ensures !CreatedOnce(Exec(s, es))
    ensures Exec(s, es).callers == s.callers + [Got(key, "")] + [Got(key, second)]
  {
    RoundGives(s, key, "");
    var m := Exec(s, Round(s, key, ""));
    RoundGives(m, key, second);
    es := Round(s, key, "") + Round(m, key, second);
    ExecSplits(s, Round(s, key, ""), Round(m, key, second));
    var n, p := Exec(s, es), |s.creations|;
    assert n.creations[p].outcome.Done? && n.creations[p + 1].outcome.Done?;
  }
}
