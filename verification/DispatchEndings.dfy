/** Which event ended a dispatch, how, and what each event leaves in its record: read off the events themselves. */
module DispatchEndings {
  import opened Wrappers
  import opened AttemptHistory
  import opened Finalize
  import opened DispatchLifecycle

  // ---- what an event says ----

  /** A reply in an object states failure by its status, or, with no status that states success, by its error. */
  predicate StatesFailure(parsed: Parsed) {
    && parsed.Object?
    && ((parsed.status.Some? && parsed.status.value in {"failed", "error", "errored"})
        || (parsed.error.Some? && parsed.error.value != ""
            && !(parsed.status.Some? && parsed.status.value in {"completed", "complete", "success", "ok"})))
  }

  predicate ReplyFails(reply: Reply) {
    match reply
    case Absent => false
    case Text(blank, json) => !blank && json.Some? && StatesFailure(json.value)
    case Structured(parsed) => StatesFailure(parsed)
    case Other => false
  }

  /** A reply that is there and not blank states success unless it states failure. */
  predicate ReplyStates(reply: Reply, status: Status) {
    && !reply.Absent? && !(reply.Text? && reply.blank)
    && status == if ReplyFails(reply) then Failed else Complete
  }

  /** The event says that dispatch `id` ended with this status, and what is to be kept as its outcome. */
  predicate Says(row: Row, e: Event, id: string, status: Status, outcome: Option<Outcome>) {
    e.id == id &&
    match e
    case Completed(_, _, cascade, _) => status == Complete && outcome == FinalOutcome(None, cascade)
    case Dead(_, _, _, cascade, _) => status == Failed && outcome == FinalOutcome(None, cascade)
    case CancelledByReconcile(_) => status == Cancelled && outcome == row.outcome
    case CancelRoute(_) => status == Cancelled && outcome == row.outcome
    case Report(_, reported, given, cascade) =>
      && status == reported && reported in {Complete, Failed}
      && outcome == FinalOutcome(if given.Some? then given.value else None, cascade)
    case MailTurn(conversation, participant, _, reply, agent, cascade) =>
      && conversation != "" && row.conversation == Some(conversation)
      && participant != "" && participant != "openhive:dispatcher"
      && ReplyStates(reply, status) && outcome == FinalOutcome(agent, cascade)
    case Transition(_, action, fence) =>
      && FenceMatches(row, fence) && outcome == row.outcome
      && ((action.CompleteTask? && status == Complete) || (action.FailTask? && status == Failed))
    case _ => false
  }

  /** The row is open and the event says how it ended. */
  predicate Ends(s: State, e: Event, id: string, status: Status, outcome: Option<Outcome>) {
    Open(s, id) && Says(s.rows[id], e, id, status, outcome)
  }

  /** Where an open row goes when no event ends it. */
  function Onward(row: Row, e: Event, id: string): Status {
    if e.Claim? && e.id == id && row.status == Queued then Running
    else if e.Report? && e.id == id && e.status == Running then Running
    else if e.Release? && e.id == id && FenceMatches(row, e.fence) then Queued
    else if e.Transition? && e.id == id && e.action.Start? && FenceMatches(row, e.fence) then Running
    else row.status
  }

  lemma ReplyClassified(reply: Reply, status: Status)
    ensures Classify(reply) == DispatchLifecycle.Ends(status) <==> ReplyStates(reply, status)
  {}

  lemma {:induction false} OpenStep(s: State, e: Event, id: string, status: Status, outcome: Option<Outcome>)
    requires Open(s, id)
    ensures id in Next(s, e).rows
    ensures Terminal(status) ==>
              (Next(s, e).rows[id].status == status && Next(s, e).rows[id].outcome == outcome
               <==> Ends(s, e, id, status, outcome))
  {
    if e.MailTurn? {
      ReplyClassified(e.reply, Complete);
      ReplyClassified(e.reply, Failed);
    }
    hide Upsert, RecordDelivery, FinalOutcome, At, DispatchedHistory, DeliveryOf, StartedAt, Classify, ReplyFails;
  }

  lemma {:induction false} OpenGoesOn(s: State, e: Event, id: string)
    requires Open(s, id) && forall status, outcome :: !Ends(s, e, id, status, outcome)
    ensures id in Next(s, e).rows && Next(s, e).rows[id].status == Onward(s.rows[id], e, id)
    ensures Next(s, e).rows[id].outcome ==
            if e.Report? && e.id == id && e.status == Running && e.reported.Some? then e.reported.value
            else s.rows[id].outcome
  {
    var n := Next(s, e);
    if Terminal(n.rows[id].status) { OpenStep(s, e, id, n.rows[id].status, n.rows[id].outcome); }
    hide Upsert, RecordDelivery, FinalOutcome, At, DispatchedHistory, DeliveryOf, StartedAt, Classify, Says;
  }

  /** An event leaves the rows of other dispatches as they are. */
  lemma OtherRowsStay(s: State, e: Event, id: string)
    requires id in s.rows && e.id != id
    ensures id in Next(s, e).rows && Next(s, e).rows[id] == s.rows[id]
  {
    hide Upsert, RecordDelivery, FinalOutcome, At, DispatchedHistory, DeliveryOf, StartedAt, Classify;
  }

  // ---- over runs ----

  ghost predicate EndedAt(s0: State, es: seq<Event>, k: int, id: string, status: Status, outcome: Option<Outcome>) {
    0 <= k < |es| && Ends(Exec(s0, es[..k]), es[k], id, status, outcome)
  }

  ghost predicate EndedIn(s0: State, es: seq<Event>, id: string, status: Status, outcome: Option<Outcome>) {
    exists k :: EndedAt(s0, es, k, id, status, outcome)
  }

  lemma EndedAppend(s0: State, es: seq<Event>, e: Event, id: string, status: Status, outcome: Option<Outcome>)
    ensures EndedIn(s0, es + [e], id, status, outcome) <==>
            EndedIn(s0, es, id, status, outcome) || Ends(Exec(s0, es), e, id, status, outcome)
  {
    var all := es + [e];
    forall k | 0 <= k <= |es| ensures all[..k] == es[..k] {}
    assert all[..|es|] == es;
    hide Exec, Ends;
    if k :| EndedAt(s0, all, k, id, status, outcome) {
      if k < |es| { assert EndedAt(s0, es, k, id, status, outcome); }
    }
    if k :| EndedAt(s0, es, k, id, status, outcome) { assert EndedAt(s0, all, k, id, status, outcome); }
    if Ends(Exec(s0, es), e, id, status, outcome) { assert EndedAt(s0, all, |es|, id, status, outcome); }
  }

  /** Over every harmless run, an open dispatch ends with a status and outcome exactly when an event said so while it
      was open: completed as complete, dead as failed, a cancellation as cancelled, a report as reported, a reply as
      it states. */
  lemma {:induction false} EndsAsSaid(s0: State, es: seq<Event>, id: string, status: Status, outcome: Option<Outcome>)
    requires HarmlessRun(s0, es) && Open(s0, id) && Terminal(status)
    ensures id in Exec(s0, es).rows
    ensures Exec(s0, es).rows[id].status == status && Exec(s0, es).rows[id].outcome == outcome <==>
            EndedIn(s0, es, id, status, outcome)
  {
    if es == [] {
      assert Exec(s0, es) == s0;
    } else {
      var front, e := es[..|es| - 1], es[|es| - 1];
      var s := Exec(s0, front);
      assert es == front + [e];
      EndsAsSaid(s0, front, id, status, outcome);
      EndedAppend(s0, front, e, id, status, outcome);
      if Open(s, id) {
        OpenStep(s, e, id, status, outcome);
      } else {
        HarmlessStep(s, e, id);
      }
      hide Next, Says, EndedIn, Harmless;
    }
  }

  // ---- attempts and turns ----

  /** An attempt as one event leaves it: its start, what the event says, and the rest as it was. */
  ghost predicate Left(prior: Option<Attempt>, after: Option<Attempt>, n: int, status: AttemptStatus, now: string,
                       endedAt: Option<string>, error: Option<string>, nextRetryAt: Option<string>)
  {
    && after.Some?
    && after.value.attempt == n && after.value.status == status
    && after.value.startedAt == (if prior.Some? then prior.value.startedAt else now)
    && after.value.endedAt == endedAt && after.value.error == error && after.value.nextRetryAt == nextRetryAt
  }

  ghost predicate SameDelivery(prior: Option<Attempt>, after: Option<Attempt>)
    requires after.Some?
  {
    && after.value.transport == (if prior.Some? then prior.value.transport else None)
    && after.value.agentId == (if prior.Some? then prior.value.agentId else None)
    && after.value.via == (if prior.Some? then prior.value.via else None)
  }

  function ErrorOf(a: Option<Attempt>): Option<string> {
    if a.Some? then a.value.error else None
  }

  function EndOf(a: Option<Attempt>): Option<string> {
    if a.Some? then a.value.endedAt else None
  }

  function RetryOf(a: Option<Attempt>): Option<string> {
    if a.Some? then a.value.nextRetryAt else None
  }

  /** Merging an entry changes what the entry gives, in the attempt of its number, and nothing else. */
  lemma UpsertLeaves(history: seq<Attempt>, e: Entry, now: string, n: int)
    requires e.startedAt == StartedAt(history, e.attempt, now)
    ensures var prior, after := At(history, e.attempt), At(Upsert(history, e), e.attempt);
            && Left(prior, after, e.attempt, e.status, now,
                    if e.endedAt.Some? then e.endedAt else EndOf(prior),
                    if e.error.Some? then e.error.value else ErrorOf(prior),
                    if e.nextRetryAt.Some? then e.nextRetryAt.value else RetryOf(prior))
            && SameDelivery(prior, after)
    ensures n != e.attempt ==> At(Upsert(history, e), n) == At(history, n)
  {
    var prior := At(history, e.attempt);
    var merged := Merge(if prior.Some? then prior.value else Bare(e.attempt, e.startedAt, e.status), e);
    PutAt(history, merged, e.attempt);
    PutAt(history, merged, n);
    hide At, Put;
  }

  /** Recording a delivery sets what is known of it and keeps everything else. */
  lemma DeliveryLeaves(history: seq<Attempt>, number: int, d: Delivery, now: string, n: int)
    requires At(history, number).Some?
    ensures var prior, after := At(history, number), At(RecordDelivery(history, number, d, now), number);
            && Left(prior, after, number, prior.value.status, now, EndOf(prior), ErrorOf(prior), RetryOf(prior))
            && after.value.transport == (if d.transport.Some? then d.transport else prior.value.transport)
            && after.value.agentId == (if d.agentId.Some? then d.agentId else prior.value.agentId)
            && after.value.via == (if d.via.Some? then d.via else prior.value.via)
    ensures n != number ==> At(RecordDelivery(history, number, d, now), n) == At(history, n)
  {
    var prior := At(history, number);
    PutAt(history, MergeDelivery(prior.value, d), number);
    PutAt(history, MergeDelivery(prior.value, d), n);
    assert prior.value.attempt == number;
    hide Put;
  }

  /** A retried attempt is closed with its error and the time of the next one, on any row. */
  lemma RetryingRecorded(s: State, e: Event, n: int)
    requires e.Retrying? && e.number.Some? && e.id in s.rows
    ensures var row, h := Next(s, e).rows[e.id], s.rows[e.id].history;
            && row.attempt == e.number.value && row.turnCount == 0
            && Left(At(h, e.number.value), At(row.history, e.number.value), e.number.value, AttemptRetrying, e.now,
                    Some(e.now), e.error, e.nextAt)
            && SameDelivery(At(h, e.number.value), At(row.history, e.number.value))
            && (n != e.number.value ==> At(row.history, n) == At(h, n))
  {
    var h, k := s.rows[e.id].history, e.number.value;
    UpsertLeaves(h, Entry(k, StartedAt(h, k, e.now), AttemptRetrying, Some(e.now), Some(e.error), Some(e.nextAt)),
                 e.now, n);
    hide At, Upsert, StartedAt;
  }

  /** A completed dispatch closes the attempt the orchestrator tracks and keeps its error, if the dispatch was open. */
  lemma CompletedRecorded(s: State, e: Event, n: int)
    requires e.Completed? && Open(s, e.id)
    ensures var row, h := Next(s, e).rows[e.id], s.rows[e.id].history;
            match e.record
            case None => row.history == h && row.attempt == s.rows[e.id].attempt
                         && row.turnCount == s.rows[e.id].turnCount
            case Some((k, turn)) =>
              && row.attempt == k && row.turnCount == turn
              && Left(At(h, k), At(row.history, k), k, AttemptCompleted, e.now, Some(e.now), ErrorOf(At(h, k)),
                      RetryOf(At(h, k)))
              && SameDelivery(At(h, k), At(row.history, k))
              && (n != k ==> At(row.history, n) == At(h, n))
  {
    var h := s.rows[e.id].history;
    if e.record.Some? {
      var k := e.record.value.0;
      UpsertLeaves(h, Entry(k, StartedAt(h, k, e.now), AttemptCompleted, Some(e.now), None, None), e.now, n);
    }
    hide At, Upsert, StartedAt, FinalOutcome;
  }

  /** A dead dispatch closes its last attempt with the last error, if the dispatch was open. */
  lemma DeadRecorded(s: State, e: Event, n: int)
    requires e.Dead? && Open(s, e.id)
    ensures var row, h, k := Next(s, e).rows[e.id], s.rows[e.id].history, Over(e.attempts, 0);
            && row.attempt == k && row.turnCount == 0
            && (k == 0 ==> row.history == h)
            && (k != 0 ==>
                  && Left(At(h, k), At(row.history, k), k, AttemptFailed, e.now, Some(e.now), e.lastError,
                          RetryOf(At(h, k)))
                  && SameDelivery(At(h, k), At(row.history, k))
                  && (n != k ==> At(row.history, n) == At(h, n)))
  {
    var h, k := s.rows[e.id].history, Over(e.attempts, 0);
    UpsertLeaves(h, Entry(k, StartedAt(h, k, e.now), AttemptFailed, Some(e.now), Some(e.lastError), None), e.now, n);
    hide At, Upsert, StartedAt, FinalOutcome;
  }

  /** A dispatched attempt runs, keeps what was recorded of it, and is delivered as the event and the adapter's hint
      say, the event's agent before the hint's. */
  lemma DispatchedRecorded(s: State, e: Event, n: int)
    requires e.Dispatched? && e.id in s.rows
    ensures var row, h, k := Next(s, e).rows[e.id], s.rows[e.id].history, Over(e.number, 1);
            var prior, after := At(h, k), At(row.history, k);
            && row.attempt == s.rows[e.id].attempt && row.turnCount == s.rows[e.id].turnCount
            && Left(prior, after, k, AttemptRunning, e.now, EndOf(prior), ErrorOf(prior), RetryOf(prior))
            && (e.id in s.hints ==> after.value.transport == Some(s.hints[e.id].transport))
            && (e.agentId.Some? && e.agentId.value != "" ==> after.value.agentId == e.agentId)
            && ((e.agentId.None? && e.id in s.hints && NonEmpty(s.hints[e.id].agentId).Some?)
                ==> after.value.agentId == s.hints[e.id].agentId)
            && (e.via.Some? ==> after.value.via == e.via)
            && (e.id !in s.hints && e.agentId.None? && e.via.None? ==> SameDelivery(prior, after))
            && (n != k ==> At(row.history, n) == At(h, n))
  {
    var h, k := s.rows[e.id].history, Over(e.number, 1);
    var started := Entry(k, StartedAt(h, k, e.now), AttemptRunning, None, None, None);
    UpsertLeaves(h, started, e.now, n);
    var d := DeliveryOf(s, e.id, e.agentId, e.via);
    DeliveryLeaves(Upsert(h, started), k, d, e.now, n);
    hide At, Upsert, RecordDelivery, StartedAt;
  }

  // ---- hints ----

  /** The adapter's last hint that no `dispatched` event has taken since. */
  function LatestHint(es: seq<Event>, id: string): Option<Hint> {
    if es == [] then None
    else
      var e := es[|es| - 1];
      if e.MarkDelivery? && e.id == id then Some(e.hint)
      else if e.Dispatched? && e.id == id then None
      else LatestHint(es[..|es| - 1], id)
  }

  lemma HintStep(s: State, e: Event, id: string)
    ensures var hints := Next(s, e).hints;
            if e.MarkDelivery? && e.id == id then id in hints && hints[id] == e.hint
            else if e.Dispatched? && e.id == id then id !in hints
            else (id in hints <==> id in s.hints) && (id in hints ==> hints[id] == s.hints[id])
  {
    hide Upsert, RecordDelivery, FinalOutcome, At, DispatchedHistory, DeliveryOf, StartedAt, Classify;
  }

  /** The hint at hand is always the last one marked and not yet taken: none is taken twice. */
  lemma {:induction false} HintIsLatest(s0: State, es: seq<Event>, id: string)
    requires s0.hints == map[]
    ensures var hints := Exec(s0, es).hints;
            LatestHint(es, id) == if id in hints then Some(hints[id]) else None
  {
    if es != [] {
      HintIsLatest(s0, es[..|es| - 1], id);
      HintStep(Exec(s0, es[..|es| - 1]), es[|es| - 1], id);
      hide Next;
    }
  }
}
