/** What a diff request asks for, read off the stream table, and how it is answered before any fetch. */
module DiffRequests {
  import opened Wrappers
  import opened Streams
  import opened LinearStack
  import opened DiffCache
  import opened DiffCacheRuns

  // ---- ranges ----

  /** The path scope sent along: none for an absent or an empty one. */
  predicate ScopeOf(sent: Option<string>, asked: Option<string>) {
    if asked.Some? && asked.value != "" then sent == asked else sent == None
  }

  ghost predicate StackEnds(db: Projection, path: seq<Stream>, head: string, base: Option<string>) {
    && MaximalPath(db.rows, path)
    && var root, leaf := path[0], path[|path| - 1];
       && ActiveChildren(db.rows, leaf) == []
       && Given(root.baseCommit) && HasHead(db, leaf)
       && base == root.baseCommit && head == db.latest[leaf.id]
  }

  /** The range a request is about: the commit and base asked for; a stream from its base to its newest commit; a
      stack from its root's base to its leaf's newest commit. */
  ghost predicate RangeOf(db: Projection, row: Stream, req: Request, head: string, base: Option<string>) {
    match req
    case CommitDiff(_, commit, given, _, _) => head == commit && base == given
    case StreamDiff(_, _, _) =>
      Given(row.baseCommit) && row.id in db.latest && head == db.latest[row.id] && base == row.baseCommit
    case StackDiff(_, _, _) => exists path :: StackEnds(db, path, head, base) && path[0] == row
  }

  ghost predicate AskedOfRow(db: Projection, row: Stream, req: Request, args: FetchArgs) {
    && row in db.rows && row.id == req.rowId
    && args.swarm == row.swarm && args.streamId == row.streamId
    && args.filesOnly == req.filesOnly && ScopeOf(args.path, req.path)
    && RangeOf(db, row, req, args.head, args.base)
  }

  /** The arguments are those the request asks for. */
  ghost predicate AsksFor(db: Projection, req: Request, args: FetchArgs) {
    exists row :: AskedOfRow(db, row, req, args)
  }

  /** How a request goes until its fetch. A refusal says that the row is unknown, or that it has no range; a cached
      diff is served whatever the swarm's state; else the swarm must be online, then capable. */
  ghost predicate GoesRight(db: Projection, cache: map<Key, Content>, req: Request, online: bool, capable: bool,
                            b: Begun)
  {
    match b
    case Answered(None, r) =>
      && (forall args :: !AsksFor(db, req, args))
      && r == Err(if req.rowId in Ids(db.rows) then BadRequest else NotFoundCode)
    case Answered(Some(args), r) =>
      && AsksFor(db, req, args)
      && (if !req.filesOnly && KeyOf(args) in cache then r == Ok(cache[KeyOf(args)], false)
          else if !online then r == Err(SwarmOffline)
          else !capable && r == Err(CapabilityMissing))
    case Fetching(p) =>
      && AsksFor(db, req, p.args) && p.rowId == req.rowId && p.key == KeyOf(p.args)
      && online && capable && (req.filesOnly || KeyOf(p.args) !in cache)
  }

  lemma StackLocated(db: Projection, rowId: string, path: Option<string>, filesOnly: bool)
    requires KeysUnique(db.rows)
    ensures var req, at := StackDiff(rowId, path, filesOnly), Locate(db, StackDiff(rowId, path, filesOnly));
            match at
            case Refused(code) =>
              && code == (if rowId in Ids(db.rows) then BadRequest else NotFoundCode)
              && forall row, head, base :: row in db.rows && row.id == rowId ==> !RangeOf(db, row, req, head, base)
            case Target(row, head, base) => row in db.rows && row.id == rowId && RangeOf(db, row, req, head, base)
  {
    UnknownRoot(db, rowId);
    var found := FindByRowId(db.rows, rowId);
    if found.Some? {
      var root := found.value;
      var chain := Extend(db.rows, [root]);
      OutcomeAnswers(db, rowId, chain);
      hide StackOutcome, Extend, ActiveChildren, EntryShows, RefShows, KeysUnique, Ids, FindByRowId;
      forall row | row in db.rows && row.id == rowId ensures row == root { OneRow(db.rows, row, root); }
      forall head, base, other | StackEnds(db, other, head, base) && other[0] == root ensures other == chain {
        MaximalPathUnique(db.rows, other, chain);
      }
      if StackOutcome(db, rowId).Linear? {
        assert StackEnds(db, chain, StackOutcome(db, rowId).highestHead, Some(StackOutcome(db, rowId).lowestBase));
      }
    }
  }

  lemma OneRow(rows: seq<Stream>, a: Stream, b: Stream)
    requires KeysUnique(rows) && a in rows && b in rows && a.id == b.id
    ensures a == b
  {
    FindOwnRow(rows, a);
    FindOwnRow(rows, b);
  }

  /** Where a request is located is what it asks for; where it is refused it asks for nothing. */
  lemma LocatedRight(db: Projection, req: Request)
    requires KeysUnique(db.rows)
    ensures match Locate(db, req)
            case Refused(code) =>
              && code == (if req.rowId in Ids(db.rows) then BadRequest else NotFoundCode)
              && forall row, head, base :: row in db.rows && row.id == req.rowId ==> !RangeOf(db, row, req, head, base)
            case Target(row, head, base) => row in db.rows && row.id == req.rowId && RangeOf(db, row, req, head, base)
  {
    match req
    case StackDiff(rowId, path, filesOnly) =>
      StackLocated(db, rowId, path, filesOnly);
      hide Locate, RangeOf;
    case _ =>
      var found := FindByRowId(db.rows, req.rowId);
      forall row | row in db.rows && row.id == req.rowId ensures found == Some(row) { FindOwnRow(db.rows, row); }
      hide StackOutcome, KeysUnique;
  }

  lemma BeginGoesRight(db: Projection, cache: map<Key, Content>, req: Request, online: bool, capable: bool)
    requires KeysUnique(db.rows)
    ensures GoesRight(db, cache, req, online, capable, Begin(db, cache, req, online, capable))
  {
    LocatedRight(db, req);
    hide Locate, RangeOf, KeysUnique, Ids, KeyOf;
    if Locate(db, req).Target? {
      var at := Locate(db, req);
      assert AskedOfRow(db, at.stream, req, ArgsFor(at.stream, at.head, at.base, req));
    }
  }

  // ---- over runs ----

  /** Asked by step `k` of the run, from the table as it was then. */
  ghost predicate AskedAt(fetch: Fetch, db: Projection, es: seq<Event>, k: int, id: nat, args: FetchArgs) {
    0 <= k < |es| && es[k].Asked? && es[k].id == id && AsksFor(Exec(fetch, db, es[..k]).db, es[k].req, args)
  }

  ghost predicate AskedIn(fetch: Fetch, db: Projection, es: seq<Event>, id: nat, args: FetchArgs) {
    exists k :: AskedAt(fetch, db, es, k, id, args)
  }

  lemma AskedLater(fetch: Fetch, db: Projection, es: seq<Event>, e: Event, id: nat, args: FetchArgs)
    requires AskedIn(fetch, db, es, id, args)
    ensures AskedIn(fetch, db, es + [e], id, args)
  {
    var k :| AskedAt(fetch, db, es, k, id, args);
    assert (es + [e])[..k] == es[..k];
    assert AskedAt(fetch, db, es + [e], k, id, args);
  }

  ghost predicate AllAsked(fetch: Fetch, db: Projection, es: seq<Event>, s: State) {
    && (forall id :: id in s.inFlight ==> AskedIn(fetch, db, es, id, s.inFlight[id].args))
    && (forall id :: id in s.answers ==> AskedIn(fetch, db, es, id, s.answers[id].args))
  }

  lemma {:induction false} KeysStayUnique(fetch: Fetch, db: Projection, es: seq<Event>)
    requires KeysUnique(db.rows)
    ensures KeysUnique(Exec(fetch, db, es).db.rows)
  {
    if es != [] {
      var s, e := Exec(fetch, db, es[..|es| - 1]), es[|es| - 1];
      KeysStayUnique(fetch, db, es[..|es| - 1]);
      if Enabled(s, e) && e.Closed? { StatusKeepsKeys(s.db.rows, e.rowId, e.status); }
      hide Exec, Begin, AfterFetch, SetStatus;
    }
  }

  /** Where the step's new fetch or answer gets its arguments. */
  lemma StepArgs(fetch: Fetch, s: State, e: Event, id: nat)
    requires KeysUnique(s.db.rows) && Enabled(s, e)
    ensures var n := Next(fetch, s, e);
            && (id in n.inFlight ==>
                  || (id in s.inFlight && n.inFlight[id] == s.inFlight[id])
                  || (e.Asked? && e.id == id && AsksFor(s.db, e.req, n.inFlight[id].args)))
            && (id in n.answers ==>
                  || (id in s.answers && n.answers[id] == s.answers[id])
                  || (id in s.inFlight && n.answers[id].args == s.inFlight[id].args)
                  || (e.Asked? && e.id == id && AsksFor(s.db, e.req, n.answers[id].args)))
  {
    if e.Asked? { BeginGoesRight(s.db, s.cache, e.req, e.online, e.capable); }
    hide Begin, AsksFor, AfterFetch, EvictByStream, SetStatus, KeysUnique;
  }

  /** Over every run, whatever is being fetched or was answered is for what its request asked, with the table as it
      stood when it asked. */
  lemma {:induction false} RunAsksRight(fetch: Fetch, db: Projection, es: seq<Event>)
    requires KeysUnique(db.rows)
    ensures AllAsked(fetch, db, es, Exec(fetch, db, es))
  {
    if es != [] {
      var front, e := es[..|es| - 1], es[|es| - 1];
      var s, n := Exec(fetch, db, front), Exec(fetch, db, es);
      RunAsksRight(fetch, db, front);
      KeysStayUnique(fetch, db, front);
      assert es == front + [e];
      forall id | id in n.inFlight ensures AskedIn(fetch, db, es, id, n.inFlight[id].args) {
        StepAsksRight(fetch, db, front, e, id);
      }
      forall id | id in n.answers ensures AskedIn(fetch, db, es, id, n.answers[id].args) {
        StepAsksRight(fetch, db, front, e, id);
      }
      hide Exec, AskedIn, KeysUnique;
    }
  }

  lemma {:induction false} StepAsksRight(fetch: Fetch, db: Projection, front: seq<Event>, e: Event, id: nat)
    requires KeysUnique(Exec(fetch, db, front).db.rows) && AllAsked(fetch, db, front, Exec(fetch, db, front))
    ensures var n := Exec(fetch, db, front + [e]);
            && (id in n.inFlight ==> AskedIn(fetch, db, front + [e], id, n.inFlight[id].args))
            && (id in n.answers ==> AskedIn(fetch, db, front + [e], id, n.answers[id].args))
  {
    var s, n := Exec(fetch, db, front), Exec(fetch, db, front + [e]);
    assert (front + [e])[..|front|] == front;
    if id in s.inFlight { AskedLater(fetch, db, front, e, id, s.inFlight[id].args); }
    if id in s.answers { AskedLater(fetch, db, front, e, id, s.answers[id].args); }
    if Enabled(s, e) {
      StepArgs(fetch, s, e, id);
      if e.Asked? && e.id == id {
        forall args | AsksFor(s.db, e.req, args) ensures AskedIn(fetch, db, front + [e], id, args) {
          assert AskedAt(fetch, db, front + [e], |front|, id, args);
        }
      }
    }
    hide Next, Enabled, AskedIn, AsksFor, KeysUnique;
  }

  // ---- keys, writes and evictions ----

  /** Two requests share a cache row exactly when they agree on stream, head, base and path, an empty base being
      none. */
  lemma KeysMeetExactly(a: FetchArgs, b: FetchArgs)
    requires Keyed(a) && Keyed(b)
    ensures KeyOf(a) == KeyOf(b) <==>
            && a.streamId == b.streamId && a.head == b.head && a.path == b.path
            && (a.base == b.base || (!Given(a.base) && !Given(b.base)))
  {}

  /** A row enters the cache exactly when a fetch returned a whole diff for a stream that is known and not closed, the
      write worked, and the key was free; and it keeps what it holds until its stream is evicted. */
  lemma CacheStep(fetch: Fetch, s: State, e: Event, key: Key)
    requires KeysUnique(s.db.rows) && Enabled(s, e)
    ensures var n := Next(fetch, s, e);
            var evicts := (e.Rebased? && e.streamId == key.streamId)
                          || (e.Closed? && exists r :: r in s.db.rows && r.id == e.rowId && r.streamId == key.streamId);
            && (key in s.cache && !evicts ==> key in n.cache && n.cache[key] == s.cache[key])
            && (evicts ==> key !in n.cache)
            && (key !in s.cache ==>
                  (key in n.cache <==> && e.Returned? && e.ok && e.writeOk
                                       && s.inFlight[e.id].key == key && !s.inFlight[e.id].args.filesOnly
                                       && exists r :: && r in s.db.rows && r.id == s.inFlight[e.id].rowId
                                                      && r.status !in {"merged", "abandoned"}))
            && (key !in s.cache && key in n.cache ==> n.cache[key] == fetch(s.inFlight[e.id].args))
  {
    match e
    case Returned(id, ok, _, writeOk) =>
      var rowId := s.inFlight[id].rowId;
      forall r | r in s.db.rows && r.id == rowId ensures FindByRowId(s.db.rows, rowId) == Some(r) {
        FindOwnRow(s.db.rows, r);
      }
    case Closed(rowId, _) =>
      forall r | r in s.db.rows && r.id == rowId ensures FindByRowId(s.db.rows, rowId) == Some(r) {
        FindOwnRow(s.db.rows, r);
      }
    case _ =>
      hide Begin;
  }
}
