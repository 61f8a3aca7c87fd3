/**
 src/dispatch/dispatch-conversation.ts: the thread of a dispatch has a fixed id, and the dispatch row keeps the
 first id written to it, by this module or by the mail transport.
 */
module DispatchConversation {
  import opened Wrappers
  import opened SingleFlight

  function ThreadId(dispatch: string): string {
    "dispatch-conv-" + dispatch
  }

  /** The ids of the rows that have one. */
  function RowIds(rows: map<string, Option<string>>): map<string, string> {
    map dispatch | dispatch in rows && rows[dispatch].Some? :: rows[dispatch].value
  }

  class Threads {
    var rows: map<string, Option<string>>
    var inFlightCreations: map<string, nat>

    constructor (rows: map<string, Option<string>>)
      ensures this.rows == rows && inFlightCreations == map[]
    {
      this.rows, inFlightCreations := rows, map[];
    }

    ghost predicate Shows(s: State)
      reads this
    {
      RowIds(rows) == s.known && inFlightCreations == s.inFlight
    }

    /** `ensureDispatchConversation` up to its first await: a known id, or the promise to wait for. */
    method EnsureDispatchConversation(dispatch: string, creation: nat, ghost s: State)
      returns (known: Option<string>, promise: nat)
      requires Shows(s) && creation == |s.creations|
      modifies this
      ensures rows == old(rows) && Shows(Next(s, Call(dispatch)))
      ensures Next(s, Call(dispatch)).callers[|s.callers|] ==
              if known.Some? then Got(dispatch, known.value) else Waiting(promise)
    {
      known, promise := None, creation;
      if dispatch in rows && rows[dispatch].Some? && rows[dispatch].value != "" {
        known := rows[dispatch];
      } else if dispatch in inFlightCreations {
        promise := inFlightCreations[dispatch];
      } else {
        inFlightCreations := inFlightCreations[dispatch := creation];
      }
    }

    /** `setDispatchConversationId`: only a row without an id takes one. */
    method SetConversationId(dispatch: string, id: string, ghost s: State)
      requires Shows(s)
      modifies this
      ensures inFlightCreations == old(inFlightCreations) && rows.Keys == old(rows.Keys)
      ensures dispatch in rows ==> Shows(Next(s, Write(dispatch, id)))
      ensures dispatch !in rows ==> rows == old(rows)
    {
      if dispatch in rows && rows[dispatch] == None {
        rows := rows[dispatch := Some(id)];
      }
      assert dispatch in rows ==> RowIds(rows) == Next(s, Write(dispatch, id)).known;
    }

    /** The end of `createConversation`, after its last mail call: write back, then read again. */
    method WriteBack(p: nat, dispatch: string, ghost s: State) returns (id: string)
      requires Shows(s) && p < |s.creations| && s.creations[p].outcome.Pending? && s.creations[p].key == dispatch
      modifies this
      ensures rows.Keys == old(rows.Keys)
      ensures dispatch in rows ==> Some(id) == rows[dispatch] && Shows(Next(s, Settle(p, Some(id))))
      ensures dispatch in rows && old(rows[dispatch]).Some? ==> Some(id) == old(rows[dispatch])
      ensures dispatch !in rows ==> id == ThreadId(dispatch) && rows == old(rows)
    {
      assert dispatch in rows && rows[dispatch].Some? ==> rows[dispatch].value == s.known[dispatch];
      SetConversationId(dispatch, ThreadId(dispatch), s);
      assert dispatch in rows ==> RowIds(rows)[dispatch] == rows[dispatch].value;
      id := if dispatch in rows && rows[dispatch].Some? then rows[dispatch].value else ThreadId(dispatch);
      assert dispatch in rows ==> RowIds(rows) == Next(s, Settle(p, Some(id))).known;
    }

    /** The `finally` of the caller that started the creation. */
    method CreatorResumes(c: nat, dispatch: string, ghost s: State)
      requires Shows(s) && Enabled(s, Resume(c))
      requires s.creations[s.callers[c].creation].creator == c && s.creations[s.callers[c].creation].key == dispatch
      modifies this
      ensures rows == old(rows) && Shows(Next(s, Resume(c)))
    {
      inFlightCreations := inFlightCreations - {dispatch};
    }
  }

  /** A run of this module: a creation that succeeds answers with the row's id after its write-back. */
  ghost predicate ThreadRun(s0: State, es: seq<Event>) {
    es == [] ||
    var front, e := es[..|es| - 1], es[|es| - 1];
    var s := Exec(s0, front);
    && ThreadRun(s0, front)
    && (e.Settle? && e.answer.Some? && Enabled(s, e) ==>
          var dispatch := s.creations[e.creation].key;
          e.answer.value == if dispatch in s.known then s.known[dispatch] else ThreadId(dispatch))
  }

  lemma {:induction false} ThreadRunFirstWins(s0: State, es: seq<Event>)
    requires ThreadRun(s0, es)
    ensures FirstWins(s0, es)
  {
    if es != [] { ThreadRunFirstWins(s0, es[..|es| - 1]); }
  }

  /** Whoever writes first, wins: once a row has an id it keeps it through every interleaving, and every caller
      that returned by then or returns later gets exactly that id. */
  lemma FirstWriterWins(known: map<string, string>, es: seq<Event>, i: nat, c: nat)
    requires ThreadRun(Init(known), es) && i <= |es|
    ensures var s, n := Exec(Init(known), es[..i]), Exec(Init(known), es);
            && (forall dispatch :: dispatch in s.known ==>
                  dispatch in n.known && n.known[dispatch] == s.known[dispatch])
            && (c < |n.callers| && n.callers[c].Got? ==>
                  && n.callers[c].key in n.known
                  && n.callers[c].id == n.known[n.callers[c].key])
  {
    var s0 := Init(known);
    ThreadRunFirstWins(s0, es);
    RunAgrees(s0, es);
    forall dispatch | dispatch in Exec(s0, es[..i]).known
      ensures dispatch in Exec(s0, es).known && Exec(s0, es).known[dispatch] == Exec(s0, es[..i]).known[dispatch]
    {
      KnownForever(s0, es, i, dispatch);
    }
  }

  /** Nobody else writes. */
  predicate Alone(es: seq<Event>) {
    forall e :: e in es ==> !e.Write?
  }

  lemma {:induction false} AloneKnows(es: seq<Event>, dispatch: string)
    requires ThreadRun(Init(map[]), es) && Alone(es)
    ensures dispatch in Exec(Init(map[]), es).known ==>
              Exec(Init(map[]), es).known[dispatch] == "dispatch-conv-" + dispatch
  {
    if es != [] {
      var front, e := es[..|es| - 1], es[|es| - 1];
      assert e in es;
      AloneKnows(front, dispatch);
      hide Enter, Wake;
    }
  }

  /** When nobody else writes, every caller that returns gets the id made of the dispatch's own. */
  lemma {:induction false} AloneGetsOwnThread(es: seq<Event>, c: nat)
    requires ThreadRun(Init(map[]), es) && Alone(es)
    requires c < |Exec(Init(map[]), es).callers| && Exec(Init(map[]), es).callers[c].Got?
    ensures Exec(Init(map[]), es).callers[c].id == "dispatch-conv-" + Exec(Init(map[]), es).callers[c].key
  {
    assert es[..0] == [];
    FirstWriterWins(map[], es, 0, c);
    AloneKnows(es, Exec(Init(map[]), es).callers[c].key);
    hide Exec;
  }

  // ---- how often the thread is created ----

  predicate WritesIn(es: seq<Event>, ids: set<string>) {
    forall e :: e in es && e.Write? ==> e.id in ids
  }

  ghost predicate AllNonEmpty(known: map<string, string>) {
    forall dispatch :: dispatch in known ==> known[dispatch] != ""
  }

  lemma {:induction false} RunNonEmpty(s0: State, es: seq<Event>, ids: set<string>)
    requires ThreadRun(s0, es) && WritesIn(es, ids) && "" !in ids && AllNonEmpty(s0.known)
    ensures AllNonEmpty(Exec(s0, es).known) && AnswersNonEmpty(s0, es)
  {
    if es != [] {
      RunNonEmpty(s0, es[..|es| - 1], ids);
      assert es[|es| - 1] in es;
    }
  }

  /** The one row has an empty id, and every creation is for it. */
  ghost predicate OnlyEmpty(s: State, dispatch: string) {
    && s.known == map[dispatch := ""]
    && forall p :: 0 <= p < |s.creations| ==> s.creations[p].key == dispatch
  }

  predicate EmptyEvent(e: Event, dispatch: string) {
    !e.Write? && (e.Call? ==> e.key == dispatch) && (e.Settle? ==> e.answer == Some(""))
  }

  lemma EmptyStep(s: State, e: Event, dispatch: string)
    requires OnlyEmpty(s, dispatch) && EmptyEvent(e, dispatch)
    ensures OnlyEmpty(Step(s, e), dispatch)
  {
    if e.Settle? && Enabled(s, e) { assert s.known[dispatch := ""] == s.known; }
  }

  lemma {:induction false} EmptyThreadRun(s0: State, e0: Event, es: seq<Event>, dispatch: string)
    requires !e0.Settle? && OnlyEmpty(Exec(s0, [e0]), dispatch)
    requires forall e :: e in es ==> EmptyEvent(e, dispatch)
    ensures ThreadRun(s0, [e0] + es) && OnlyEmpty(Exec(s0, [e0] + es), dispatch)
  {
    if es == [] {
      assert [e0] + es == [e0] && [e0][..0] == [];
    } else {
      var front, e := es[..|es| - 1], es[|es| - 1];
      EmptyThreadRun(s0, e0, front, dispatch);
      assert e in es && ([e0] + es)[..|es|] == [e0] + front;
      EmptyStep(Exec(s0, [e0] + front), e, dispatch);
    }
  }

  /** Someone else writes an empty id: the row is taken, yet every caller creates the thread anew. */
  lemma EmptyWriteCreatesAgain(dispatch: string) returns (es: seq<Event>)
    ensures ThreadRun(Init(map[]), es) && WritesIn(es, {""}) && !CreatedOnce(Exec(Init(map[]), es))
  {
    var s0, e := Init(map[]), Write(dispatch, "");
    ExecAppend(s0, [], e);
    assert [] + [e] == [e];
    var s := Exec(s0, [e]);
    var rounds := EmptyIdRound(s, dispatch, "");
    es := [e] + rounds;
    ExecSplits(s0, [e], rounds);
    assert forall f :: f in Round(s, dispatch, "") ==> EmptyEvent(f, dispatch);
    assert forall f :: f in rounds ==> EmptyEvent(f, dispatch);
    EmptyThreadRun(s0, e, rounds, dispatch);
  }

  /** From rows without empty ids, one thread per dispatch is created in every run exactly when the ids that
      others write are not empty. */
  lemma CreatedOnceExactly(ids: set<string>)
    ensures (forall known: map<string, string>, es: seq<Event> ::
               AllNonEmpty(known) && ThreadRun(Init(known), es) && WritesIn(es, ids)
               ==> CreatedOnce(Exec(Init(known), es)))
            <==> "" !in ids
  {
    if "" !in ids {
      forall known: map<string, string>, es: seq<Event>
        | AllNonEmpty(known) && ThreadRun(Init(known), es) && WritesIn(es, ids)
        ensures CreatedOnce(Exec(Init(known), es))
      {
        RunNonEmpty(Init(known), es, ids);
        CreatedOnceWhenNonEmpty(known, es);
      }
    } else {
      var es := EmptyWriteCreatesAgain("d");
      assert AllNonEmpty(map[]) && WritesIn(es, ids);
    }
  }
}
