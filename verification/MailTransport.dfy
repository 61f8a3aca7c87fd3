/**
 Conversation creation in src/dispatch/mail-transport.ts: the server picks each id, and only creations write
 the cache.
 */
module MailTransport {
  import opened Wrappers
  import opened SingleFlight
  import Keys

  function ConversationKey(swarm: string, agent: string): string {
    swarm + "::" + agent
  }

  /** Agents of different swarms, and different agents of one, have different keys when swarm ids hold no colon. */
  lemma ConversationKeyInjective(swarm: string, agent: string, swarm': string, agent': string)
    requires ':' !in swarm && ':' !in swarm' && ConversationKey(swarm, agent) == ConversationKey(swarm', agent')
    ensures swarm == swarm' && agent == agent'
  {
    assert swarm + ":" + (":" + agent) == ConversationKey(swarm, agent);
    assert swarm' + ":" + (":" + agent') == ConversationKey(swarm', agent');
    Keys.PartsToldApart(swarm, ":" + agent, swarm', ":" + agent');
    assert agent == (":" + agent)[1..] && agent' == (":" + agent')[1..];
  }

  datatype Entry = Hit(id: string) | Join(creation: nat) | Create

  class Transport {
    var conversationCache: map<string, string>
    var inFlightCreations: map<string, nat>

    constructor ()
      ensures conversationCache == map[] && inFlightCreations == map[]
    {
      conversationCache, inFlightCreations := map[], map[];
    }

    ghost predicate Shows(s: State)
      reads this
    {
      conversationCache == s.known && inFlightCreations == s.inFlight
    }

    /** `ensureConversation` up to its first await; `creation` is the promise it makes if it makes one. */
    method EnsureConversation(swarm: string, agent: string, creation: nat, ghost s: State) returns (entry: Entry)
      requires Shows(s) && creation == |s.creations|
      modifies this
      ensures Shows(Next(s, Call(ConversationKey(swarm, agent))))
      ensures var key, callers := ConversationKey(swarm, agent), Next(s, Call(ConversationKey(swarm, agent))).callers;
              callers[|s.callers|] == match entry
                case Hit(id) => Got(key, id)
                case Join(p) => Waiting(p)
                case Create => Waiting(creation)
      ensures entry.Create? <==> |Next(s, Call(ConversationKey(swarm, agent))).creations| == |s.creations| + 1
    {
      var key := ConversationKey(swarm, agent);
      if key in conversationCache && conversationCache[key] != "" {
        entry := Hit(conversationCache[key]);
      } else if key in inFlightCreations {
        entry := Join(inFlightCreations[key]);
      } else {
        inFlightCreations := inFlightCreations[key := creation];
        entry := Create;
      }
    }

    /** The creation's own continuation once `mail/create` answered. */
    method Created(p: nat, key: string, id: string, ghost s: State)
      requires Shows(s) && Enabled(s, Settle(p, Some(id))) && s.creations[p].key == key
      modifies this
      ensures Shows(Next(s, Settle(p, Some(id))))
    {
      conversationCache := conversationCache[key := id];
    }

    /** The `finally` of the caller that started the creation. */
    method CreatorResumes(c: nat, key: string, ghost s: State)
      requires Shows(s) && Enabled(s, Resume(c))
      requires s.creations[s.callers[c].creation].creator == c && s.creations[s.callers[c].creation].key == key
      modifies this
      ensures Shows(Next(s, Resume(c)))
    {
      inFlightCreations := inFlightCreations - {key};
    }
  }

  /** A run of this transport: nobody else writes, and the server answers with ids of the given set. */
  predicate MailRun(es: seq<Event>, ids: set<string>) {
    forall e :: e in es ==> !e.Write? && (e.Settle? && e.answer.Some? ==> e.answer.value in ids)
  }

  /** Callers of one key that return, return the same id. */
  ghost predicate SameIds(s: State) {
    forall c, d :: (0 <= c < |s.callers| && 0 <= d < |s.callers| && s.callers[c].Got? && s.callers[d].Got?
                    && s.callers[c].key == s.callers[d].key) ==> s.callers[c].id == s.callers[d].id
  }

  // ---- non-empty ids ----

  /** A pending creation's key is not known yet. */
  ghost predicate PendingUnknown(s: State) {
    && (forall key :: key in s.known ==> s.known[key] != "")
    && (forall p :: 0 <= p < |s.creations| && s.creations[p].outcome.Pending? ==> s.creations[p].key !in s.known)
  }

  lemma StepKeepsUnknown(s: State, e: Event)
    requires FlightRight(s) && PendingUnknown(s) && !e.Write? && (e.Settle? ==> e.answer != Some(""))
    ensures PendingUnknown(Step(s, e))
  {
    if Enabled(s, e) && e.Settle? {
      var n, p := Step(s, e), e.creation;
      assert CreationRight(s, p);
      forall q | 0 <= q < |n.creations| && n.creations[q].outcome.Pending?
        ensures n.creations[q].key !in n.known
      {
        assert CreationRight(s, q);
      }
    }
  }

  lemma {:induction false} RunKeepsUnknown(es: seq<Event>, ids: set<string>)
    requires MailRun(es, ids) && "" !in ids
    ensures PendingUnknown(Exec(Init(map[]), es))
    ensures FirstWins(Init(map[]), es) && AnswersNonEmpty(Init(map[]), es)
  {
    if es != [] {
      var front, e := es[..|es| - 1], es[|es| - 1];
      RunKeepsUnknown(front, ids);
      RunKeepsFlight(map[], front);
      assert e in es;
      StepKeepsUnknown(Exec(Init(map[]), front), e);
    }
  }

  /** Non-empty ids: over every interleaving each key is created at most once, and all its callers agree. */
  lemma SingleFlightHolds(es: seq<Event>, ids: set<string>)
    requires MailRun(es, ids) && "" !in ids
    ensures CreatedOnce(Exec(Init(map[]), es)) && SameIds(Exec(Init(map[]), es))
  {
    RunKeepsUnknown(es, ids);
    CreatedOnceWhenNonEmpty(map[], es);
    RunAgrees(Init(map[]), es);
  }

  // ---- exactly when ----

  /** An empty id is cached but not taken for one: the next caller creates again. */
  lemma EmptyIdCreatesAgain(key: string, second: string) returns (es: seq<Event>)
    ensures MailRun(es, {"", second})
    ensures !CreatedOnce(Exec(Init(map[]), es))
    ensures second != "" ==> !SameIds(Exec(Init(map[]), es))
  {
    es := EmptyIdRound(Init(map[]), key, second);
    var callers := Exec(Init(map[]), es).callers;
    assert callers[0] == Got(key, "") && callers[1] == Got(key, second);
  }

  /** The server's ids keep every run to one successful creation per key exactly when none is empty. */
  lemma CreatedOnceExactly(ids: set<string>)
    ensures (forall es :: MailRun(es, ids) ==> CreatedOnce(Exec(Init(map[]), es))) <==> "" !in ids
  {
    if "" !in ids {
      forall es | MailRun(es, ids) ensures CreatedOnce(Exec(Init(map[]), es)) { SingleFlightHolds(es, ids); }
    } else {
      var es := EmptyIdCreatesAgain("key", "");
      assert MailRun(es, ids);
    }
  }

  ghost predicate AllIdsIn(s: State, ids: set<string>) {
    && (forall key :: key in s.known ==> s.known[key] in ids)
    && (forall p :: 0 <= p < |s.creations| && s.creations[p].outcome.Done? ==> s.creations[p].outcome.id in ids)
    && (forall c :: 0 <= c < |s.callers| && s.callers[c].Got? ==> s.callers[c].id in ids)
  }

  lemma {:induction false} RunIdsIn(es: seq<Event>, ids: set<string>)
    requires MailRun(es, ids)
    ensures AllIdsIn(Exec(Init(map[]), es), ids)
  {
    if es != [] {
      RunIdsIn(es[..|es| - 1], ids);
      assert es[|es| - 1] in es;
    }
  }

  /** All callers of a key get the same id over every run exactly when no id is empty, or there is one id only. */
  lemma SameIdsExactly(ids: set<string>)
    ensures (forall es :: MailRun(es, ids) ==> SameIds(Exec(Init(map[]), es)))
            <==> "" !in ids || ids == {""}
  {
    if "" !in ids {
      forall es | MailRun(es, ids) ensures SameIds(Exec(Init(map[]), es)) { SingleFlightHolds(es, ids); }
    } else if ids == {""} {
      forall es | MailRun(es, ids) ensures SameIds(Exec(Init(map[]), es)) { RunIdsIn(es, ids); }
    } else {
      var id :| id in ids && id != "";
      var es := EmptyIdCreatesAgain("key", id);
      assert MailRun(es, ids);
    }
  }
}
