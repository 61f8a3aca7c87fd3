/**
 The writers of a dispatch row: the orchestrator's event bridge (src/dispatch/setup.ts), the mail-completion
 observer (src/dispatch/mail-completion.ts), the cancel route, the agent's report, and the task source. Each
 runs without an await, so each is one step.
 */
module DispatchLifecycle {
  import opened Wrappers
  import opened AttemptHistory
  import opened Finalize

  datatype Status = Queued | Running | Complete | Failed | Cancelled

  predicate Terminal(status: Status) {
    status.Complete? || status.Failed? || status.Cancelled?
  }

  datatype Row = Row(
    status: Status,
    outcome: Option<Outcome>,
    lease: Option<string>,
    attempt: int,
    turnCount: int,
    history: seq<Attempt>,
    conversation: Option<string>)

  datatype Hint = Hint(transport: Transport, agentId: Option<string>)

  /** `finals` logs the ids that a guarded writer ended, in order. */
  datatype State = State(rows: map<string, Row>, hints: map<string, Hint>, finals: seq<string>)

  // ---- replies ----

  /** What JSON.parse makes of a reply: a non-object, or an object with its status in lower case and its error,
      where they are strings. */
  datatype Parsed = Scalar | Object(status: Option<string>, error: Option<string>)

  datatype Reply = Absent | Text(blank: bool, json: Option<Parsed>) | Structured(parsed: Parsed) | Other

  datatype Verdict = Skip | Ends(status: Status)

  function ClassifyParsed(parsed: Parsed): Verdict {
    match parsed
    case Scalar => Ends(Complete)
    case Object(status, error) =>
      if status.Some? && status.value in {"failed", "error", "errored"} then Ends(Failed)
      else if status.Some? && status.value in {"completed", "complete", "success", "ok"} then Ends(Complete)
      else if error.Some? && error.value != "" then Ends(Failed)
      else Ends(Complete)
  }

  function Classify(reply: Reply): (v: Verdict)
    ensures v.Skip? <==> reply.Absent? || (reply.Text? && reply.blank)
    ensures v.Ends? ==> v.status in {Complete, Failed}
  {
    match reply
    case Absent => Skip
    case Text(blank, json) =>
      if blank then Skip else if json.Some? then ClassifyParsed(json.value) else Ends(Complete)
    case Structured(parsed) => ClassifyParsed(parsed)
    case Other => Ends(Complete)
  }

  // ---- events ----

  const DISPATCHER := "openhive:dispatcher"

  datatype Action = Start | CompleteTask | FailTask

  datatype Event =
    | Dispatched(id: string, number: Option<int>, agentId: Option<string>, via: Option<Via>, now: string)
    | Completed(id: string, record: Option<(int, int)>, cascade: seq<Artifact>, now: string)
    | Dead(id: string, attempts: Option<int>, lastError: Option<string>, cascade: seq<Artifact>, now: string)
    | Retrying(id: string, number: Option<int>, error: Option<string>, nextAt: Option<string>, now: string)
    | CancelledByReconcile(id: string)
    | MailTurn(conversation: string, participant: string, id: string, reply: Reply, agent: Option<Outcome>,
               cascade: seq<Artifact>)
    | CancelRoute(id: string)
    | Report(id: string, status: Status, reported: Option<Option<Outcome>>, cascade: seq<Artifact>)
    | Claim(id: string, token: string)
    | MarkDelivery(id: string, hint: Hint)
    | Release(id: string, fence: Option<string>)
    | Transition(id: string, action: Action, fence: Option<string>)

  /** The last two write whatever the row's status is. */
  predicate Guarded(e: Event) {
    !e.Release? && !e.Transition?
  }

  predicate Open(s: State, id: string) {
    id in s.rows && !Terminal(s.rows[id].status)
  }

  function SetRow(s: State, id: string, row: Row): State {
    s.(rows := s.rows[id := row])
  }

  /** End an open dispatch. */
  function End(s: State, id: string, status: Status, outcome: Option<Outcome>): State
    requires id in s.rows
  {
    SetRow(s, id, s.rows[id].(status := status, outcome := outcome)).(finals := s.finals + [id])
  }

  function StartedAt(history: seq<Attempt>, attempt: int, now: string): string {
    if At(history, attempt).Some? then At(history, attempt).value.startedAt else now
  }

  function NonEmpty(text: Option<string>): Option<string> {
    if text == Some("") then None else text
  }

  /** What the `dispatched` event and the adapter's hint say of a delivery. */
  function DeliveryOf(s: State, id: string, agentId: Option<string>, via: Option<Via>): Delivery {
    var hint := if id in s.hints then Some(s.hints[id]) else None;
    Delivery(if hint.Some? then Some(hint.value.transport) else None,
             NonEmpty(if agentId.Some? then agentId else if hint.Some? then hint.value.agentId else None),
             via)
  }

  function DispatchedHistory(h: seq<Attempt>, number: int, delivery: Delivery, now: string): seq<Attempt> {
    var started := Upsert(h, Entry(number, StartedAt(h, number, now), AttemptRunning, None, None, None));
    if delivery == Delivery(None, None, None) then started else RecordDelivery(started, number, delivery, now)
  }

  function OnDispatched(s: State, id: string, number: int, agentId: Option<string>, via: Option<Via>, now: string)
    : State
  {
    var claimed := s.(hints := s.hints - {id});
    if id !in s.rows then claimed
    else
      var row := s.rows[id];
      SetRow(claimed, id,
             row.(history := DispatchedHistory(row.history, number, DeliveryOf(s, id, agentId, via), now)))
  }

  function OnCompleted(s: State, id: string, record: Option<(int, int)>, cascade: seq<Artifact>, now: string)
    : State
  {
    if !Open(s, id) then s
    else
      var n, h := End(s, id, Complete, FinalOutcome(None, cascade)), s.rows[id].history;
      if record.None? then n
      else
        var (attempt, turn) := record.value;
        SetRow(n, id, n.rows[id].(attempt := attempt, turnCount := turn, history := Upsert(h,
          Entry(attempt, StartedAt(h, attempt, now), AttemptCompleted, Some(now), None, None))))
  }

  function OnDead(s: State, id: string, attempts: Option<int>, lastError: Option<string>, cascade: seq<Artifact>,
                  now: string): State
  {
    if !Open(s, id) then s
    else
      var n, h := End(s, id, Failed, FinalOutcome(None, cascade)), s.rows[id].history;
      var attempt := if attempts.Some? then attempts.value else 0;
      SetRow(n, id, n.rows[id].(attempt := attempt, turnCount := 0, history := if attempt == 0 then h else
        Upsert(h, Entry(attempt, StartedAt(h, attempt, now), AttemptFailed, Some(now), Some(lastError), None))))
  }

  function OnRetrying(s: State, id: string, number: Option<int>, error: Option<string>, nextAt: Option<string>,
                      now: string): State
  {
    if number.None? || id !in s.rows then s
    else
      var row, n := s.rows[id], number.value;
      SetRow(s, id, row.(attempt := n, turnCount := 0, history := Upsert(row.history,
        Entry(n, StartedAt(row.history, n, now), AttemptRetrying, Some(now), Some(error), Some(nextAt)))))
  }

  function OnMailTurn(s: State, e: Event): State
    requires e.MailTurn?
  {
    if e.conversation == "" || e.participant in {"", DISPATCHER} then s
    else if !Open(s, e.id) || s.rows[e.id].conversation != Some(e.conversation) then s
    else
      match Classify(e.reply)
      case Skip => s
      case Ends(status) => End(s, e.id, status, FinalOutcome(e.agent, e.cascade))
  }

  /** `running`, `complete` and `failed` can be reported; anything else is refused. The outcome may be left out
      or null. */
  function OnReport(s: State, id: string, status: Status, agent: Option<Option<Outcome>>, cascade: seq<Artifact>)
    : State
  {
    if !Open(s, id) then s
    else if status.Complete? || status.Failed? then End(s, id, status, FinalOutcome(Over(agent, None), cascade))
    else if status.Running? then
      SetRow(s, id, s.rows[id].(status := Running, outcome := Over(agent, s.rows[id].outcome)))
    else s
  }

  /** No fence, or an empty one, matches every row. */
  predicate FenceMatches(row: Row, fence: Option<string>) {
    NonEmpty(fence).None? || row.lease == fence
  }

  function TargetStatus(action: Action): Status {
    match action case Start => Running case CompleteTask => Complete case FailTask => Failed
  }

  function Next(s: State, e: Event): State {
    match e
    case Dispatched(id, number, agentId, via, now) => OnDispatched(s, id, Over(number, 1), agentId, via, now)
    case Completed(id, record, cascade, now) => OnCompleted(s, id, record, cascade, now)
    case Dead(id, attempts, lastError, cascade, now) => OnDead(s, id, attempts, lastError, cascade, now)
    case Retrying(id, number, error, nextAt, now) => OnRetrying(s, id, number, error, nextAt, now)
    case MailTurn(_, _, _, _, _, _) => OnMailTurn(s, e)
    case CancelledByReconcile(id) => if Open(s, id) then End(s, id, Cancelled, s.rows[id].outcome) else s
    case CancelRoute(id) => if Open(s, id) then End(s, id, Cancelled, s.rows[id].outcome) else s
    case Report(id, status, agent, cascade) => OnReport(s, id, status, agent, cascade)
    case Claim(id, token) =>
      if id in s.rows && s.rows[id].status.Queued?
      then SetRow(s, id, s.rows[id].(status := Running, lease := Some(token))) else s
    case MarkDelivery(id, hint) => s.(hints := s.hints[id := hint])
    case Release(id, fence) =>
      if id in s.rows && FenceMatches(s.rows[id], fence)
      then SetRow(s, id, s.rows[id].(status := Queued, lease := None)) else s
    case Transition(id, action, fence) =>
      if id in s.rows && FenceMatches(s.rows[id], fence)
      then SetRow(s, id, s.rows[id].(status := TargetStatus(action))) else s
  }

  function Exec(s0: State, es: seq<Event>): State {
    if es == [] then s0 else Next(Exec(s0, es[..|es| - 1]), es[|es| - 1])
  }

  // ---- terminal rows ----

  /** The one way a terminal row changes status: the task source writes it with a matching fence or with none. */
  ghost predicate Overwrites(s: State, e: Event, id: string)
    requires id in s.rows
  {
    && !Guarded(e) && e.id == id && FenceMatches(s.rows[id], e.fence)
    && s.rows[id].status != if e.Release? then Queued else TargetStatus(e.action)
  }

  /** Over all writers: a terminal dispatch changes status in a step exactly when the task source releases or
      transitions it unfenced, or with the lease the row still carries. */
  lemma TerminalChangesExactly(s: State, e: Event, id: string)
    requires id in s.rows && Terminal(s.rows[id].status)
    ensures id in Next(s, e).rows
    ensures Next(s, e).rows[id].status != s.rows[id].status <==> Overwrites(s, e, id)
  {
    hide Upsert, RecordDelivery, FinalOutcome, At;
  }

  /** The step leaves every terminal row its status. */
  ghost predicate Harmless(s: State, e: Event) {
    !Guarded(e) && e.id in s.rows && Terminal(s.rows[e.id].status) ==> !Overwrites(s, e, e.id)
  }

  /** A harmless step ends at most one dispatch, an open one, and leaves terminal rows their status and outcome. */
  lemma HarmlessStep(s: State, e: Event, id: string)
    requires Harmless(s, e)
    ensures id in s.rows <==> id in Next(s, e).rows
    ensures id in s.rows && Terminal(s.rows[id].status) ==>
              && Next(s, e).rows[id].status == s.rows[id].status
              && Next(s, e).rows[id].outcome == s.rows[id].outcome
    ensures Next(s, e).finals == s.finals ||
            (Next(s, e).finals == s.finals + [e.id] && Open(s, e.id) && !Open(Next(s, e), e.id))
  {
    hide Upsert, RecordDelivery, FinalOutcome, At, DispatchedHistory, DeliveryOf, StartedAt;
  }

  ghost predicate HarmlessRun(s0: State, es: seq<Event>) {
    es == [] || (HarmlessRun(s0, es[..|es| - 1]) && Harmless(Exec(s0, es[..|es| - 1]), es[|es| - 1]))
  }

  /** Orchestrator events, mail replies, cancellations, reports and claims are harmless in any order. */
  lemma {:induction false} GuardedIsHarmless(s0: State, es: seq<Event>)
    requires forall e :: e in es ==> Guarded(e)
    ensures HarmlessRun(s0, es)
  {
    if es != [] {
      GuardedIsHarmless(s0, es[..|es| - 1]);
      assert es[|es| - 1] in es;
    }
  }

  /** No step of the run changes the status of a row that was terminal before it. */
  ghost predicate Stable(s0: State, es: seq<Event>) {
    es == [] ||
    var s, n := Exec(s0, es[..|es| - 1]), Exec(s0, es);
    && Stable(s0, es[..|es| - 1])
    && forall id :: id in s.rows && Terminal(s.rows[id].status) ==>
                      id in n.rows && n.rows[id].status == s.rows[id].status
  }

  /** A run of all writers leaves terminal dispatches alone exactly when each release and transition in it is
      harmless. */
  lemma {:induction false} StableExactly(s0: State, es: seq<Event>)
    ensures Stable(s0, es) <==> HarmlessRun(s0, es)
  {
    if es != [] {
      var front, e := es[..|es| - 1], es[|es| - 1];
      var s := Exec(s0, front);
      StableExactly(s0, front);
      if Harmless(s, e) {
        forall id | id in s.rows && Terminal(s.rows[id].status)
          ensures id in Next(s, e).rows && Next(s, e).rows[id].status == s.rows[id].status
        {
          HarmlessStep(s, e, id);
        }
      } else {
        TerminalChangesExactly(s, e, e.id);
      }
      hide Next, Overwrites;
    }
  }

  /** Once terminal, a dispatch keeps its status and its outcome over the rest of the run. */
  lemma {:induction false} TerminalStays(s0: State, es: seq<Event>, i: nat, id: string)
    requires HarmlessRun(s0, es) && i <= |es|
    requires id in Exec(s0, es[..i]).rows && Terminal(Exec(s0, es[..i]).rows[id].status)
    ensures id in Exec(s0, es).rows
    ensures Exec(s0, es).rows[id].status == Exec(s0, es[..i]).rows[id].status
    ensures Exec(s0, es).rows[id].outcome == Exec(s0, es[..i]).rows[id].outcome
    decreases |es|
  {
    if i == |es| {
      assert es[..i] == es;
    } else {
      var front := es[..|es| - 1];
      assert front[..i] == es[..i];
      TerminalStays(s0, front, i, id);
      HarmlessStep(Exec(s0, front), es[|es| - 1], id);
      hide Next, Harmless;
    }
  }

  ghost predicate Ended(s: State) {
    && (forall i, j :: 0 <= i < j < |s.finals| ==> s.finals[i] != s.finals[j])
    && (forall id :: id in s.finals ==> id in s.rows && Terminal(s.rows[id].status))
  }

  lemma StepEndsOnce(s: State, e: Event)
    requires Ended(s) && Harmless(s, e)
    ensures Ended(Next(s, e))
  {
    var n := Next(s, e);
    HarmlessStep(s, e, e.id);
    forall id | id in n.finals ensures id in n.rows && Terminal(n.rows[id].status) { HarmlessStep(s, e, id); }
    hide Next, Harmless;
  }

  /** Each dispatch is finalised at most once, whichever writers race for it. */
  lemma {:induction false} FinalisedOnce(s0: State, es: seq<Event>)
    requires HarmlessRun(s0, es) && Ended(s0)
    ensures Ended(Exec(s0, es))
  {
    if es != [] {
      FinalisedOnce(s0, es[..|es| - 1]);
      StepEndsOnce(Exec(s0, es[..|es| - 1]), es[|es| - 1]);
      hide Next, Harmless, Ended;
    }
  }

  /** The user cancels a claimed dispatch and the orchestrator gives its claim back with the fence it holds: the
      cancelled dispatch is queued again, and can end a second time. */
  lemma ReleaseRevivesCancelled(s: State, id: string, token: string)
    requires Open(s, id) && s.rows[id].lease == Some(token)
    ensures var cancelled := Next(s, CancelRoute(id));
            var revived := Next(cancelled, Release(id, Some(token)));
            && cancelled.rows[id].status.Cancelled?
            && revived.rows[id].status.Queued?
            && Next(revived, CancelRoute(id)).finals == s.finals + [id] + [id]
  {
    var cancelled := Next(s, CancelRoute(id));
    assert FenceMatches(cancelled.rows[id], Some(token));
    hide OnDispatched, OnCompleted, OnDead, OnRetrying, OnMailTurn, OnReport;
  }

  // ---- fences ----

  /** The claim is answered with success. */
  predicate Won(s: State, e: Event) {
    e.Claim? && e.id in s.rows && s.rows[e.id].status.Queued?
  }

  /** The token of the last claim of the dispatch that was won and not given back since. */
  ghost function LeaseHeld(s0: State, es: seq<Event>, id: string): Option<string>
    requires id in s0.rows
  {
    if es == [] then s0.rows[id].lease
    else
      var front, e := es[..|es| - 1], es[|es| - 1];
      var held := LeaseHeld(s0, front, id);
      if e.Claim? && e.id == id && Won(Exec(s0, front), e) then Some(e.token)
      else if e.Release? && e.id == id && (NonEmpty(e.fence).None? || e.fence == held) then None
      else held
  }

  /** Nothing but a claim won and a release sets the lease of a row. */
  lemma LeaseStep(s: State, e: Event, id: string)
    requires id in s.rows
    ensures id in Next(s, e).rows
    ensures Next(s, e).rows[id].lease ==
            if e.Claim? && e.id == id && Won(s, e) then Some(e.token)
            else if e.Release? && e.id == id && FenceMatches(s.rows[id], e.fence) then None
            else s.rows[id].lease
  {
    hide Upsert, RecordDelivery, FinalOutcome, At, DispatchedHistory, DeliveryOf, StartedAt, Classify;
  }

  lemma {:induction false} LeaseIsHeld(s0: State, es: seq<Event>, id: string)
    requires id in s0.rows
    ensures id in Exec(s0, es).rows && Exec(s0, es).rows[id].lease == LeaseHeld(s0, es, id)
  {
    if es != [] {
      LeaseIsHeld(s0, es[..|es| - 1], id);
      LeaseStep(Exec(s0, es[..|es| - 1]), es[|es| - 1], id);
      hide Next;
    }
  }

  /** After any run, giving a claim on a terminal dispatch back is harmless exactly when it is fenced with
      something else than the token of the last claim that was won and not given back. */
  lemma {:induction false} ReleaseHarmlessExactly(s0: State, es: seq<Event>, id: string, fence: Option<string>)
    requires id in s0.rows && id in Exec(s0, es).rows && Terminal(Exec(s0, es).rows[id].status)
    ensures Harmless(Exec(s0, es), Release(id, fence)) <==>
            NonEmpty(fence).Some? && fence != LeaseHeld(s0, es, id)
  {
    LeaseIsHeld(s0, es, id);
    hide Exec, LeaseHeld;
  }

  /** Every release and transition of the run carries a fence, and not the token held. */
  ghost predicate StaleFences(s0: State, es: seq<Event>) {
    es == [] ||
    var front, e := es[..|es| - 1], es[|es| - 1];
    && StaleFences(s0, front)
    && (!Guarded(e) && e.id in s0.rows ==> NonEmpty(e.fence).Some? && e.fence != LeaseHeld(s0, front, e.id))
  }

  /** Such a run leaves every terminal dispatch alone. */
  lemma {:induction false} StaleFencesAreHarmless(s0: State, es: seq<Event>)
    requires StaleFences(s0, es)
    ensures HarmlessRun(s0, es)
  {
    if es != [] {
      var front, e := es[..|es| - 1], es[|es| - 1];
      StaleFencesAreHarmless(s0, front);
      if !Guarded(e) {
        if e.id in s0.rows {
          LeaseIsHeld(s0, front, e.id);
        } else {
          NoNewRow(s0, front, e.id);
        }
      }
      hide Exec, LeaseHeld;
    }
  }

  lemma {:induction false} NoNewRow(s0: State, es: seq<Event>, id: string)
    requires id !in s0.rows
    ensures id !in Exec(s0, es).rows
  {
    if es != [] {
      NoNewRow(s0, es[..|es| - 1], id);
      RowsStep(Exec(s0, es[..|es| - 1]), es[|es| - 1], id);
      hide Next;
    }
  }

  lemma RowsStep(s: State, e: Event, id: string)
    requires id !in s.rows
    ensures id !in Next(s, e).rows
  {
    hide Upsert, RecordDelivery, FinalOutcome, At, DispatchedHistory, DeliveryOf, StartedAt, Classify;
  }

  // ---- attempts ----

  /** An attempt of the old history is in the new one, with the same start. */
  ghost predicate StartKept(was: seq<Attempt>, now: seq<Attempt>, attempt: int) {
    At(was, attempt).Some? ==>
      At(now, attempt).Some? && At(now, attempt).value.startedAt == At(was, attempt).value.startedAt
  }

  lemma UpsertKeepsStart(history: seq<Attempt>, e: Entry, now: string, attempt: int)
    requires e.startedAt == StartedAt(history, e.attempt, now)
    ensures StartKept(history, Upsert(history, e), attempt)
  {
    var prior := At(history, e.attempt);
    PutAt(history, Merge(if prior.Some? then prior.value else Bare(e.attempt, e.startedAt, e.status), e), attempt);
    hide At, Put;
  }

  lemma DeliveryKeepsStart(history: seq<Attempt>, number: int, d: Delivery, now: string, attempt: int)
    ensures StartKept(history, RecordDelivery(history, number, d, now), attempt)
  {
    var prior := At(history, number);
    PutAt(history, MergeDelivery(if prior.Some? then prior.value else Bare(number, now, AttemptRunning), d), attempt);
    if prior.Some? { assert prior.value.attempt == number; }
    hide At, Put;
  }

  lemma DispatchedKeepsStart(history: seq<Attempt>, number: int, d: Delivery, now: string, attempt: int)
    ensures StartKept(history, DispatchedHistory(history, number, d, now), attempt)
  {
    var e := Entry(number, StartedAt(history, number, now), AttemptRunning, None, None, None);
    UpsertKeepsStart(history, e, now, attempt);
    DeliveryKeepsStart(Upsert(history, e), number, d, now, attempt);
    hide At, Upsert, RecordDelivery;
  }

  predicate WritesHistory(e: Event) {
    e.Dispatched? || e.Completed? || e.Dead? || e.Retrying?
  }

  lemma OthersKeepHistory(s: State, e: Event, id: string)
    requires id in s.rows && (!WritesHistory(e) || e.id != id)
    ensures id in Next(s, e).rows && Next(s, e).rows[id].history == s.rows[id].history
  {
    hide Upsert, DispatchedHistory, DeliveryOf, StartedAt, FinalOutcome, At, Classify;
  }

  lemma BridgeKeepsStart(s: State, e: Event, attempt: int)
    requires WritesHistory(e) && e.id in s.rows
    ensures e.id in Next(s, e).rows && StartKept(s.rows[e.id].history, Next(s, e).rows[e.id].history, attempt)
  {
    var h := s.rows[e.id].history;
    match e
    case Dispatched(id, number, agentId, via, now) =>
      DispatchedKeepsStart(h, Over(number, 1), DeliveryOf(s, id, agentId, via), now, attempt);
    case Completed(_, record, _, now) =>
      if record.Some? {
        var n := record.value.0;
        UpsertKeepsStart(h, Entry(n, StartedAt(h, n, now), AttemptCompleted, Some(now), None, None), now, attempt);
      }
    case Dead(_, attempts, lastError, _, now) =>
      var n := Over(attempts, 0);
      UpsertKeepsStart(h, Entry(n, StartedAt(h, n, now), AttemptFailed, Some(now), Some(lastError), None), now,
                       attempt);
    case Retrying(_, number, error, nextAt, now) =>
      var n := Over(number, 0);
      UpsertKeepsStart(h, Entry(n, StartedAt(h, n, now), AttemptRetrying, Some(now), Some(error), Some(nextAt)),
                       now, attempt);
    hide Upsert, FinalOutcome, At, DispatchedHistory, DeliveryOf, StartedAt;
  }

  lemma StepKeepsStart(s: State, e: Event, id: string, attempt: int)
    requires id in s.rows
    ensures id in Next(s, e).rows && StartKept(s.rows[id].history, Next(s, e).rows[id].history, attempt)
  {
    if WritesHistory(e) && e.id == id {
      BridgeKeepsStart(s, e, attempt);
    } else {
      OthersKeepHistory(s, e, id);
    }
    hide Next, At;
  }

  /** The start of an attempt already in the history never changes, and the attempt never leaves, over any run of
      all writers, from any history. */
  lemma {:induction false} StartNeverMoves(s0: State, es: seq<Event>, i: nat, id: string, attempt: int)
    requires i <= |es| && id in Exec(s0, es[..i]).rows
    ensures id in Exec(s0, es).rows
    ensures StartKept(Exec(s0, es[..i]).rows[id].history, Exec(s0, es).rows[id].history, attempt)
    decreases |es|
  {
    if i == |es| {
      assert es[..i] == es;
    } else {
      var front := es[..|es| - 1];
      assert front[..i] == es[..i];
      StartNeverMoves(s0, front, i, id, attempt);
      StepKeepsStart(Exec(s0, front), es[|es| - 1], id, attempt);
      hide Next, At;
    }
  }

  lemma StepKeepsOrder(s: State, e: Event, id: string)
    requires id in s.rows && InOrder(s.rows[id].history)
    ensures id in Next(s, e).rows && InOrder(Next(s, e).rows[id].history)
  {
    hide InOrder, At, Put, IndexOf, FinalOutcome, Classify;
    forall h: seq<Attempt>, a: Attempt | InOrder(h) ensures InOrder(Put(h, a)) { PutInOrder(h, a); }
  }

  /** The history stays in attempt order with no number twice. */
  lemma {:induction false} HistoryInOrder(s0: State, es: seq<Event>, id: string)
    requires id in s0.rows && InOrder(s0.rows[id].history)
    ensures id in Exec(s0, es).rows && InOrder(Exec(s0, es).rows[id].history)
  {
    if es != [] {
      HistoryInOrder(s0, es[..|es| - 1], id);
      StepKeepsOrder(Exec(s0, es[..|es| - 1]), es[|es| - 1], id);
    }
  }
}
