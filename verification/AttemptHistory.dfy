/** The `attempts_history` of a dispatch row, as src/db/dal/dispatches.ts merges, sorts and stores it. */
module AttemptHistory {
  import opened Wrappers

  datatype AttemptStatus = AttemptRunning | AttemptCompleted | AttemptFailed | AttemptRetrying

  datatype Transport = Acp | Mail | Codex

  datatype Via = Spawn | Route

  datatype Attempt = Attempt(
    attempt: int,
    startedAt: string,
    status: AttemptStatus,
    endedAt: Option<string>,
    error: Option<string>,
    nextRetryAt: Option<string>,
    transport: Option<Transport>,
    agentId: Option<string>,
    via: Option<Via>)

  /** An entry to merge. `error` and `nextRetryAt` may be left out, given, or given as undefined. */
  datatype Entry = Entry(
    attempt: int,
    startedAt: string,
    status: AttemptStatus,
    endedAt: Option<string>,
    error: Option<Option<string>>,
    nextRetryAt: Option<Option<string>>)

  datatype Delivery = Delivery(transport: Option<Transport>, agentId: Option<string>, via: Option<Via>)

  function Over<T>(given: Option<T>, prior: T): T {
    if given.Some? then given.value else prior
  }

  function Either<T>(given: Option<T>, prior: Option<T>): Option<T> {
    if given.Some? then given else prior
  }

  /** A record with nothing but what every attempt has. */
  function Bare(attempt: int, startedAt: string, status: AttemptStatus): Attempt {
    Attempt(attempt, startedAt, status, None, None, None, None, None, None)
  }

  function Merge(a: Attempt, e: Entry): Attempt {
    a.(attempt := e.attempt, startedAt := e.startedAt, status := e.status, endedAt := Either(e.endedAt, a.endedAt),
       error := Over(e.error, a.error), nextRetryAt := Over(e.nextRetryAt, a.nextRetryAt))
  }

  function MergeDelivery(a: Attempt, d: Delivery): Attempt {
    a.(transport := Either(d.transport, a.transport), agentId := Either(d.agentId, a.agentId),
       via := Either(d.via, a.via))
  }

  /** `findIndex`; the length when there is none. */
  function IndexOf(history: seq<Attempt>, attempt: int): (i: nat)
    ensures i <= |history|
    ensures i < |history| ==> history[i].attempt == attempt
  {
    if history == [] || history[0].attempt == attempt then 0 else 1 + IndexOf(history[1..], attempt)
  }

  /** `find`. */
  function At(history: seq<Attempt>, attempt: int): Option<Attempt> {
    var i := IndexOf(history, attempt);
    if i < |history| then Some(history[i]) else None
  }

  function Insert(a: Attempt, sorted: seq<Attempt>): seq<Attempt> {
    if sorted == [] || a.attempt <= sorted[0].attempt then [a] + sorted else [sorted[0]] + Insert(a, sorted[1..])
  }

  /** The stable sort by attempt number. */
  function SortByAttempt(history: seq<Attempt>): seq<Attempt> {
    if history == [] then [] else Insert(history[0], SortByAttempt(history[1..]))
  }

  /** Put a record in the place of the first one with its number, or at the end, and sort. */
  function Put(history: seq<Attempt>, a: Attempt): seq<Attempt> {
    var i := IndexOf(history, a.attempt);
    SortByAttempt(if i < |history| then history[i := a] else history + [a])
  }

  function Upsert(history: seq<Attempt>, e: Entry): seq<Attempt> {
    var prior := At(history, e.attempt);
    Put(history, Merge(if prior.Some? then prior.value else Bare(e.attempt, e.startedAt, e.status), e))
  }

  function RecordDelivery(history: seq<Attempt>, attempt: int, d: Delivery, now: string): seq<Attempt> {
    var prior := At(history, attempt);
    Put(history, MergeDelivery(if prior.Some? then prior.value else Bare(attempt, now, AttemptRunning), d))
  }

  // ---- the sort ----

  ghost predicate Sorted(history: seq<Attempt>) {
    forall i, j :: 0 <= i < j < |history| ==> history[i].attempt <= history[j].attempt
  }

  lemma {:induction false} InsertMember(a: Attempt, sorted: seq<Attempt>, b: Attempt)
    ensures b in Insert(a, sorted) <==> b == a || b in sorted
  {
    if sorted != [] && a.attempt > sorted[0].attempt {
      InsertMember(a, sorted[1..], b);
      assert sorted == [sorted[0]] + sorted[1..];
    }
  }

  lemma {:induction false} InsertSorts(a: Attempt, sorted: seq<Attempt>)
    requires Sorted(sorted)
    ensures Sorted(Insert(a, sorted))
  {
    if sorted != [] && a.attempt > sorted[0].attempt {
      var rest := Insert(a, sorted[1..]);
      InsertSorts(a, sorted[1..]);
      forall i | 0 <= i < |rest| ensures sorted[0].attempt <= rest[i].attempt {
        InsertMember(a, sorted[1..], rest[i]);
      }
    }
  }

  lemma {:induction false} SortSorts(history: seq<Attempt>)
    ensures Sorted(SortByAttempt(history))
  {
    if history != [] {
      SortSorts(history[1..]);
      InsertSorts(history[0], SortByAttempt(history[1..]));
    }
  }

  lemma {:induction false} InsertAt(a: Attempt, sorted: seq<Attempt>, attempt: int)
    requires Sorted(sorted)
    ensures At(Insert(a, sorted), attempt) == if attempt == a.attempt then Some(a) else At(sorted, attempt)
  {
    if sorted != [] && a.attempt > sorted[0].attempt {
      InsertAt(a, sorted[1..], attempt);
      assert ([sorted[0]] + Insert(a, sorted[1..]))[1..] == Insert(a, sorted[1..]);
    } else {
      assert ([a] + sorted)[1..] == sorted;
    }
  }

  /** The sort keeps, for every attempt number, the first record with it. */
  lemma {:induction false} SortAt(history: seq<Attempt>, attempt: int)
    ensures At(SortByAttempt(history), attempt) == At(history, attempt)
  {
    if history != [] {
      SortAt(history[1..], attempt);
      SortSorts(history[1..]);
      InsertAt(history[0], SortByAttempt(history[1..]), attempt);
    }
  }

  // ---- the history as a map from attempt numbers ----

  lemma {:induction false} ReplaceAt(history: seq<Attempt>, a: Attempt, attempt: int)
    requires IndexOf(history, a.attempt) < |history|
    ensures At(history[IndexOf(history, a.attempt) := a], attempt)
            == if attempt == a.attempt then Some(a) else At(history, attempt)
  {
    var i := IndexOf(history, a.attempt);
    if i == 0 {
      assert history[0 := a][1..] == history[1..];
    } else {
      ReplaceAt(history[1..], a, attempt);
      assert history[i := a][1..] == history[1..][i - 1 := a];
    }
  }

  lemma {:induction false} AppendAt(history: seq<Attempt>, a: Attempt, attempt: int)
    requires IndexOf(history, a.attempt) == |history|
    ensures At(history + [a], attempt) == if attempt == a.attempt then Some(a) else At(history, attempt)
  {
    if history != [] {
      AppendAt(history[1..], a, attempt);
      assert (history + [a])[1..] == history[1..] + [a];
    }
  }

  /** Whatever the history held, sorted or not: afterwards the record is what `find` finds for its number, and
      every other number finds what it found before. */
  lemma PutAt(history: seq<Attempt>, a: Attempt, attempt: int)
    ensures At(Put(history, a), attempt) == if attempt == a.attempt then Some(a) else At(history, attempt)
  {
    var i := IndexOf(history, a.attempt);
    if i < |history| {
      ReplaceAt(history, a, attempt);
      SortAt(history[i := a], attempt);
    } else {
      AppendAt(history, a, attempt);
      SortAt(history + [a], attempt);
    }
  }

  /** In attempt order, with no number twice. */
  ghost predicate InOrder(history: seq<Attempt>) {
    forall i, j :: 0 <= i < j < |history| ==> history[i].attempt < history[j].attempt
  }

  lemma {:induction false} InsertInOrder(a: Attempt, sorted: seq<Attempt>)
    requires InOrder(sorted) && IndexOf(sorted, a.attempt) == |sorted|
    ensures InOrder(Insert(a, sorted))
  {
    if sorted != [] {
      assert a.attempt != sorted[0].attempt;
      if a.attempt > sorted[0].attempt {
        var rest := Insert(a, sorted[1..]);
        InsertInOrder(a, sorted[1..]);
        forall i | 0 <= i < |rest| ensures sorted[0].attempt < rest[i].attempt {
          InsertMember(a, sorted[1..], rest[i]);
        }
      }
    }
  }

  lemma {:induction false} SortInOrder(history: seq<Attempt>)
    requires InOrder(history)
    ensures SortByAttempt(history) == history
  {
    if history != [] {
      SortInOrder(history[1..]);
      assert history == [history[0]] + history[1..];
    }
  }

  lemma {:induction false} AppendSorts(history: seq<Attempt>, a: Attempt)
    requires InOrder(history) && IndexOf(history, a.attempt) == |history|
    ensures SortByAttempt(history + [a]) == Insert(a, history)
  {
    if history == [] {
      assert [] + [a] == [a];
    } else {
      AppendSorts(history[1..], a);
      assert (history + [a])[1..] == history[1..] + [a];
      assert history == [history[0]] + history[1..];
      if a.attempt <= history[0].attempt {
        assert a.attempt < history[0].attempt;
        assert history[1..] != [] ==> a.attempt <= history[1].attempt;
        assert Insert(a, history[1..]) == [a] + history[1..];
        assert Insert(history[0], [a] + history[1..]) == [a] + Insert(history[0], ([a] + history[1..])[1..]);
      }
    }
  }

  lemma PutInOrder(history: seq<Attempt>, a: Attempt)
    requires InOrder(history)
    ensures InOrder(Put(history, a))
  {
    var i := IndexOf(history, a.attempt);
    if i < |history| {
      SortInOrder(history[i := a]);
    } else {
      AppendSorts(history, a);
      InsertInOrder(a, history);
    }
  }
}
