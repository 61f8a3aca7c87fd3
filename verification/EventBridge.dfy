/** The handlers themselves, on the tables they update: each performs its step of the dispatch lifecycle. */
module EventBridge {
  import opened Wrappers
  import opened AttemptHistory
  import opened Finalize
  import opened DispatchLifecycle

  class Bridge {
    var rows: map<string, Row>
    var hints: map<string, Hint>
    ghost var finals: seq<string>

    constructor (rows: map<string, Row>)
      ensures this.rows == rows && hints == map[] && finals == []
    {
      this.rows, hints, finals := rows, map[], [];
    }

    ghost function Abstract(): State
      reads this
    {
      State(rows, hints, finals)
    }

    /** `claimDelivery`: read and clear. */
    method ClaimDelivery(id: string) returns (hint: Option<Hint>)
      modifies `hints
      ensures hint == if id in old(hints) then Some(old(hints)[id]) else None
      ensures hints == old(hints) - {id}
    {
      hint := None;
      if id in hints {
        hint := Some(hints[id]);
        hints := hints - {id};
      }
    }

    /** `upsertDispatchAttempt`. */
    method UpsertDispatchAttempt(id: string, entry: Entry)
      modifies `rows
      ensures id !in old(rows) ==> rows == old(rows)
      ensures id in old(rows) ==>
                rows == old(rows)[id := old(rows)[id].(history := Upsert(old(rows)[id].history, entry))]
    {
      if id in rows {
        var history := rows[id].history;
        var i := IndexOf(history, entry.attempt);
        if i < |history| {
          history := history[i := Merge(history[i], entry)];
        } else {
          history := history + [Merge(Bare(entry.attempt, entry.startedAt, entry.status), entry)];
        }
        rows := rows[id := rows[id].(history := SortByAttempt(history))];
      }
    }

    /** `recordAttemptDelivery`. */
    method RecordAttemptDelivery(id: string, attempt: int, delivery: Delivery, now: string)
      modifies `rows
      ensures id !in old(rows) ==> rows == old(rows)
      ensures id in old(rows) ==>
                rows == old(rows)[id := old(rows)[id].(
                  history := RecordDelivery(old(rows)[id].history, attempt, delivery, now))]
    {
      if id in rows {
        var history := rows[id].history;
        var i := IndexOf(history, attempt);
        if i < |history| {
          history := history[i := MergeDelivery(history[i], delivery)];
        } else {
          history := history + [MergeDelivery(Bare(attempt, now, AttemptRunning), delivery)];
        }
        rows := rows[id := rows[id].(history := SortByAttempt(history))];
      }
    }

    /** `updateDispatchStatus`; an outcome left out stays. */
    method UpdateDispatchStatus(id: string, status: Status, outcome: Option<Option<Outcome>>)
      modifies `rows
      ensures id !in old(rows) ==> rows == old(rows)
      ensures id in old(rows) ==>
                rows == old(rows)[id := old(rows)[id].(
                  status := status, outcome := Over(outcome, old(rows)[id].outcome))]
    {
      if id in rows {
        rows := rows[id := rows[id].(status := status, outcome := Over(outcome, rows[id].outcome))];
      }
    }

    /** `finalizeDispatch`. */
    method FinalizeDispatch(id: string, status: Status, agent: Option<Outcome>, cascade: seq<Artifact>)
      requires id in rows
      modifies `rows, `finals
      ensures Abstract() == End(old(Abstract()), id, status, FinalOutcome(agent, cascade))
    {
      var reported := if agent.Some? && agent.value.artifacts.Some? then agent.value.artifacts.value else [];
      var artifacts := DedupByKindRef(reported + cascade);
      var merged := if agent.Some? then agent.value else Outcome(map[], None);
      if artifacts != [] {
        merged := merged.(artifacts := Some(artifacts));
      }
      var outcome := if merged == Outcome(map[], None) then None else Some(merged);
      UpdateDispatchStatus(id, status, Some(outcome));
      finals := finals + [id];
    }

    /** Pair the event with the adapter's hint and record what is known of the delivery. */
    method PairDelivery(id: string, attempt: int, agentId: Option<string>, via: Option<Via>, now: string)
      modifies `rows, `hints
      ensures hints == old(hints) - {id}
      ensures var delivery := DeliveryOf(old(Abstract()), id, agentId, via);
              if id !in old(rows) || delivery == Delivery(None, None, None) then rows == old(rows)
              else rows == old(rows)[id := old(rows)[id].(
                history := RecordDelivery(old(rows)[id].history, attempt, delivery, now))]
    {
      var hint := ClaimDelivery(id);
      var transport := if hint.Some? then Some(hint.value.transport) else None;
      var agent := NonEmpty(if agentId.Some? then agentId else if hint.Some? then hint.value.agentId else None);
      if transport.Some? || agent.Some? || via.Some? {
        RecordAttemptDelivery(id, attempt, Delivery(transport, agent, via), now);
      }
      hide RecordDelivery;
    }

    method OnDispatched(id: string, number: Option<int>, agentId: Option<string>, via: Option<Via>, now: string)
      modifies this
      ensures Abstract() == Next(old(Abstract()), Dispatched(id, number, agentId, via, now))
    {
      var attempt := Over(number, 1);
      var started := if id in rows then StartedAt(rows[id].history, attempt, now) else now;
      UpsertDispatchAttempt(id, Entry(attempt, started, AttemptRunning, None, None, None));
      ghost var middle := Abstract();
      assert DeliveryOf(middle, id, agentId, via) == DeliveryOf(old(Abstract()), id, agentId, via);
      PairDelivery(id, attempt, agentId, via, now);
      hide Upsert, RecordDelivery, At, DeliveryOf, StartedAt;
    }

    method OnCompleted(id: string, record: Option<(int, int)>, cascade: seq<Artifact>, now: string)
      modifies this
      ensures Abstract() == Next(old(Abstract()), Completed(id, record, cascade, now))
    {
      if id in rows && !Terminal(rows[id].status) {
        var history := rows[id].history;
        FinalizeDispatch(id, Complete, None, cascade);
        if record.Some? {
          var (attempt, turn) := record.value;
          rows := rows[id := rows[id].(attempt := attempt, turnCount := turn)];
          UpsertDispatchAttempt(id, Entry(attempt, StartedAt(history, attempt, now), AttemptCompleted, Some(now),
                                          None, None));
        }
      }
      hide Upsert, At, FinalOutcome;
    }

    method OnDead(id: string, attempts: Option<int>, lastError: Option<string>, cascade: seq<Artifact>, now: string)
      modifies this
      ensures Abstract() == Next(old(Abstract()), Dead(id, attempts, lastError, cascade, now))
    {
      if id in rows && !Terminal(rows[id].status) {
        var history := rows[id].history;
        FinalizeDispatch(id, Failed, None, cascade);
        rows := rows[id := rows[id].(attempt := Over(attempts, 0), turnCount := 0)];
        if attempts.Some? && attempts.value != 0 {
          UpsertDispatchAttempt(id, Entry(attempts.value, StartedAt(history, attempts.value, now), AttemptFailed,
                                          Some(now), Some(lastError), None));
        }
      }
      hide Upsert, At, FinalOutcome;
    }

    method OnRetrying(id: string, number: Option<int>, error: Option<string>, nextAt: Option<string>, now: string)
      modifies this
      ensures Abstract() == Next(old(Abstract()), Retrying(id, number, error, nextAt, now))
    {
      if number.Some? && id in rows {
        var attempt := number.value;
        rows := rows[id := rows[id].(attempt := attempt, turnCount := 0)];
        UpsertDispatchAttempt(id, Entry(attempt, StartedAt(rows[id].history, attempt, now), AttemptRetrying,
                                        Some(now), Some(error), Some(nextAt)));
      }
      hide Upsert, At;
    }

    /** The `cancelled` event, and the cancel route, whose other answers change nothing. */
    method Cancel(id: string)
      modifies this
      ensures Abstract() == Next(old(Abstract()), CancelledByReconcile(id))
      ensures Abstract() == Next(old(Abstract()), CancelRoute(id))
    {
      if id in rows && !Terminal(rows[id].status) {
        UpdateDispatchStatus(id, Cancelled, None);
        finals := finals + [id];
      }
    }

    /** `findRunningDispatchByConversation`: of the open dispatches of the conversation, the one updated last;
        `newestFirst` lists the rows by their time of update. */
    method FindRunningByConversation(conversation: string, newestFirst: seq<string>) returns (found: Option<string>)
      requires forall id :: id in rows ==> id in newestFirst
      ensures found.None? <==> forall id :: Open(Abstract(), id) ==> rows[id].conversation != Some(conversation)
      ensures found.Some? ==>
                && Open(Abstract(), found.value) && rows[found.value].conversation == Some(conversation)
                && IsFirst(newestFirst, found.value, conversation)
    {
      for i := 0 to |newestFirst|
        invariant forall j :: 0 <= j < i ==> !Matches(newestFirst[j], conversation)
      {
        var id := newestFirst[i];
        if id in rows && !Terminal(rows[id].status) && rows[id].conversation == Some(conversation) {
          return Some(id);
        }
      }
      assert forall id :: Matches(id, conversation) ==> id in rows && id in newestFirst;
      return None;
    }

    ghost predicate Matches(id: string, conversation: string)
      reads this
    {
      Open(Abstract(), id) && rows[id].conversation == Some(conversation)
    }

    /** No match stands before this one. */
    ghost predicate IsFirst(newestFirst: seq<string>, id: string, conversation: string)
      reads this
    {
      exists i :: 0 <= i < |newestFirst| && newestFirst[i] == id
                  && forall j :: 0 <= j < i ==> !Matches(newestFirst[j], conversation)
    }

    /** The mail-completion observer; `id` is the dispatch it settled on, if any is open in the conversation. */
    method OnTurn(conversation: string, participant: string, reply: Reply, agent: Option<Outcome>,
                  cascade: seq<Artifact>, newestFirst: seq<string>) returns (ghost id: string)
      requires forall id :: id in rows ==> id in newestFirst
      modifies this
      ensures Abstract() == Next(old(Abstract()), MailTurn(conversation, participant, id, reply, agent, cascade))
      ensures (exists d :: old(Matches(d, conversation))) && conversation != "" && participant !in {"", DISPATCHER}
              ==> old(Matches(id, conversation)) && old(IsFirst(newestFirst, id, conversation))
    {
      id := "";
      if conversation == "" || participant in {"", DISPATCHER} {
        return;
      }
      var found := FindRunningByConversation(conversation, newestFirst);
      if found.None? {
        return;
      }
      id := found.value;
      var verdict := Classify(reply);
      if verdict.Ends? {
        FinalizeDispatch(found.value, verdict.status, agent, cascade);
      }
      hide FinalOutcome, Classify;
    }
  }
}
