/** Every interleaving of diff requests, fetches and stream events: what is answered, and what stays cached. */
module DiffCacheRuns {
  import opened Wrappers
  import opened Streams
  import opened LinearStack
  import opened DiffCache

  datatype Answer = Answer(args: FetchArgs, result: DiffResult)

  datatype State = State(
    db: Projection,
    cache: map<Key, Content>,
    inFlight: map<nat, Pending>,
    answers: map<nat, Answer>)

  datatype Event =
    | Asked(id: nat, req: Request, online: bool, capable: bool)
    | Returned(id: nat, ok: bool, truncated: bool, writeOk: bool)
    | Closed(rowId: string, status: string)
    | Rebased(streamId: string)
    | Projected(db: Projection)

  /** The transport: what a successful fetch delivers. */
  type Fetch = FetchArgs -> Content

  ghost predicate Terminal(s: Stream) {
    s.status in TERMINAL_FOR_CACHE
  }

  /** Rows that share a runtime stream id, across swarms, are all merged or abandoned. */
  ghost predicate SharedIdsClosed(rows: seq<Stream>) {
    forall s, t :: s in rows && t in rows && s.streamId == t.streamId && s != t ==> Terminal(s) && Terminal(t)
  }

  /** A projection change that is neither a close nor a reuse of an open stream's id: rows keep their stream ids, and no
      stream becomes merged or abandoned except through `Closed`. */
  ghost predicate OrdinaryChange(s: State, db: Projection) {
    && KeysUnique(db.rows) && SharedIdsClosed(db.rows)
    && (forall r :: r in db.rows && Terminal(r) ==> exists q :: q in s.db.rows && q.streamId == r.streamId && Terminal(q))
    && (forall r, q :: r in db.rows && q in s.db.rows && r.id == q.id ==> r.streamId == q.streamId)
    && (forall r, id :: r in db.rows && id in s.inFlight && s.inFlight[id].rowId == r.id ==>
          s.inFlight[id].key.streamId == r.streamId)
  }

  ghost predicate Enabled(s: State, e: Event) {
    match e
    case Asked(id, _, _, _) => id !in s.inFlight && id !in s.answers
    case Returned(id, _, _, _) => id in s.inFlight
    case Closed(rowId, status) => rowId in Ids(s.db.rows) && status in TERMINAL_FOR_CACHE
    case Rebased(_) => true
    case Projected(db) => OrdinaryChange(s, db)
  }

  ghost function FetchedResult(fetch: Fetch, args: FetchArgs, ok: bool, truncated: bool): DiffResult {
    if ok then Ok(fetch(args), truncated) else Err(FetchFailed)
  }

  ghost function Next(fetch: Fetch, s: State, e: Event): State
    requires Enabled(s, e)
  {
    match e
    case Asked(id, req, online, capable) =>
      (match Begin(s.db, s.cache, req, online, capable)
       case Answered(None, _) => s
       case Answered(Some(args), result) => s.(answers := s.answers[id := Answer(args, result)])
       case Fetching(pending) => s.(inFlight := s.inFlight[id := pending]))
    case Returned(id, ok, truncated, writeOk) =>
      var p := s.inFlight[id];
      var result := FetchedResult(fetch, p.args, ok, truncated);
      State(s.db, AfterFetch(s.db.rows, s.cache, p, result, writeOk), s.inFlight - {id},
            s.answers[id := Answer(p.args, result)])
    case Closed(rowId, status) =>
      var stream := FindByRowId(s.db.rows, rowId).value;
      s.(db := s.db.(rows := SetStatus(s.db.rows, rowId, status)), cache := EvictByStream(s.cache, stream.streamId))
    case Rebased(streamId) => s.(cache := EvictByStream(s.cache, streamId))
    case Projected(db) => s.(db := db)
  }

  ghost function Start(db: Projection): State {
    State(db, map[], map[], map[])
  }

  ghost function Exec(fetch: Fetch, db: Projection, es: seq<Event>): State {
    if es == [] then Start(db)
    else
      var s := Exec(fetch, db, es[..|es| - 1]);
      if Enabled(s, es[|es| - 1]) then Next(fetch, s, es[|es| - 1]) else s
  }

  lemma ExecAppend(fetch: Fetch, db: Projection, es: seq<Event>, e: Event)
    requires Enabled(Exec(fetch, db, es), e)
    ensures Exec(fetch, db, es + [e]) == Next(fetch, Exec(fetch, db, es), e)
  {
    assert (es + [e])[..|es|] == es;
  }

  // ---- cache transparency ----

  /** What a fetch delivers is determined by the cache key of its arguments. */
  ghost predicate Addressed(fetch: Fetch) {
    forall a, b :: Keyed(a) && Keyed(b) && KeyOf(a) == KeyOf(b) ==> fetch(a) == fetch(b)
  }

  /** Arguments a cached request can have: not files-only, and a path scope that is not empty. */
  predicate Keyed(args: FetchArgs) {
    !args.filesOnly && args.path != Some("")
  }

  /** Every successful answer has the content an uncached fetch would give. */
  ghost predicate Transparent(fetch: Fetch, s: State) {
    forall id :: id in s.answers && s.answers[id].result.Ok? ==>
      s.answers[id].result.content == fetch(s.answers[id].args)
  }

  ghost predicate CacheRight(fetch: Fetch, cache: map<Key, Content>) {
    forall key, args :: key in cache && Keyed(args) && KeyOf(args) == key ==> cache[key] == fetch(args)
  }

  ghost predicate PendingRight(s: State) {
    forall id :: id in s.inFlight ==>
      s.inFlight[id].key == KeyOf(s.inFlight[id].args) && s.inFlight[id].args.path != Some("")
  }

  ghost predicate TransparencyInv(fetch: Fetch, s: State) {
    Transparent(fetch, s) && CacheRight(fetch, s.cache) && PendingRight(s)
  }

  lemma FinishKeepsRight(fetch: Fetch, rows: seq<Stream>, cache: map<Key, Content>, p: Pending, ok: bool,
                         truncated: bool, writeOk: bool)
    requires Addressed(fetch) && CacheRight(fetch, cache) && p.key == KeyOf(p.args) && p.args.path != Some("")
    ensures CacheRight(fetch, AfterFetch(rows, cache, p, FetchedResult(fetch, p.args, ok, truncated), writeOk))
  {
    hide KeyOf;
  }

  lemma StepTransparent(fetch: Fetch, s: State, e: Event)
    requires Addressed(fetch) && TransparencyInv(fetch, s) && Enabled(s, e)
    ensures TransparencyInv(fetch, Next(fetch, s, e))
  {
    match e
    case Asked(id, req, online, capable) => AskedTransparent(fetch, s, id, req, online, capable);
    case Returned(id, ok, truncated, writeOk) =>
      FinishKeepsRight(fetch, s.db.rows, s.cache, s.inFlight[id], ok, truncated, writeOk);
    case _ =>
  }

  lemma AskedTransparent(fetch: Fetch, s: State, id: nat, req: Request, online: bool, capable: bool)
    requires TransparencyInv(fetch, s) && Enabled(s, Asked(id, req, online, capable))
    ensures TransparencyInv(fetch, Next(fetch, s, Asked(id, req, online, capable)))
  {
    hide Locate;
    match Locate(s.db, req)
    case Refused(_) =>
    case Target(stream, head, base) =>
      assert ArgsFor(stream, head, base, req).path != Some("");
  }

  /** Over every run of commit, stream and stack requests, failures and evictions, answers are those of
      an uncached fetch. */
  lemma {:induction false} RunTransparent(fetch: Fetch, db: Projection, es: seq<Event>)
    requires Addressed(fetch)
    ensures TransparencyInv(fetch, Exec(fetch, db, es))
  {
    if es != [] {
      var s, e := Exec(fetch, db, es[..|es| - 1]), es[|es| - 1];
      RunTransparent(fetch, db, es[..|es| - 1]);
      if Enabled(s, e) { StepTransparent(fetch, s, e); }
    }
  }

  // ---- no stranded rows ----

  /** No row is cached for a stream that is merged or abandoned. */
  ghost predicate NothingStranded(s: State) {
    forall key, r :: key in s.cache && r in s.db.rows && r.streamId == key.streamId ==> !Terminal(r)
  }

  /** A fetch in flight caches under the stream id of the row it re-checks. */
  ghost predicate PendingOwnsKey(s: State) {
    forall id, r :: id in s.inFlight && r in s.db.rows && r.id == s.inFlight[id].rowId ==>
      s.inFlight[id].key.streamId == r.streamId
  }

  ghost predicate StrandInv(s: State) {
    && KeysUnique(s.db.rows) && SharedIdsClosed(s.db.rows)
    && NothingStranded(s) && PendingOwnsKey(s)
  }

  lemma SetStatusRow(rows: seq<Stream>, rowId: string, status: string, r: Stream) returns (q: Stream)
    requires r in SetStatus(rows, rowId, status)
    ensures q in rows && r == if q.id == rowId then q.(status := status) else q
  {
    var i :| 0 <= i < |rows| && SetStatus(rows, rowId, status)[i] == r;
    q := rows[i];
  }

  lemma ClosedKeepsUnique(rows: seq<Stream>, rowId: string, status: string)
    requires KeysUnique(rows) && SharedIdsClosed(rows) && status in TERMINAL_FOR_CACHE
    ensures KeysUnique(SetStatus(rows, rowId, status)) && SharedIdsClosed(SetStatus(rows, rowId, status))
  {
    forall r, t | r in SetStatus(rows, rowId, status) && t in SetStatus(rows, rowId, status)
      && r.streamId == t.streamId && r != t
      ensures Terminal(r) && Terminal(t)
    {
      var p := SetStatusRow(rows, rowId, status, r);
      var q := SetStatusRow(rows, rowId, status, t);
    }
  }

  lemma ClosedStrandsNothing(fetch: Fetch, s: State, rowId: string, status: string)
    requires StrandInv(s) && Enabled(s, Closed(rowId, status))
    ensures StrandInv(Next(fetch, s, Closed(rowId, status)))
  {
    var t := Next(fetch, s, Closed(rowId, status));
    ClosedKeepsUnique(s.db.rows, rowId, status);
    forall r | r in t.db.rows
      ensures exists q :: q in s.db.rows && q.id == r.id && q.streamId == r.streamId
                          && (q.id == rowId || q.status == r.status)
    {
      var q := SetStatusRow(s.db.rows, rowId, status, r);
    }
    var closed := FindByRowId(s.db.rows, rowId).value;
    forall key, r | key in t.cache && r in t.db.rows && r.streamId == key.streamId ensures !Terminal(r) {
      var q := SetStatusRow(s.db.rows, rowId, status, r);
      if q.id == rowId { FindOwnRow(s.db.rows, q); }
    }
  }

  lemma FinishStrandsNothing(fetch: Fetch, s: State, id: nat, ok: bool, truncated: bool, writeOk: bool)
    requires StrandInv(s) && Enabled(s, Returned(id, ok, truncated, writeOk))
    ensures StrandInv(Next(fetch, s, Returned(id, ok, truncated, writeOk)))
  {
    var p, t := s.inFlight[id], Next(fetch, s, Returned(id, ok, truncated, writeOk));
    forall key, r | key in t.cache && r in t.db.rows && r.streamId == key.streamId ensures !Terminal(r) {
      if key !in s.cache {
        assert key == p.key;
        var current := FindByRowId(s.db.rows, p.rowId).value;
        assert current.streamId == r.streamId;
      }
    }
  }

  lemma AskedStrandsNothing(fetch: Fetch, s: State, id: nat, req: Request, online: bool, capable: bool)
    requires StrandInv(s) && Enabled(s, Asked(id, req, online, capable))
    ensures StrandInv(Next(fetch, s, Asked(id, req, online, capable)))
  {
    var begun, t := Begin(s.db, s.cache, req, online, capable), Next(fetch, s, Asked(id, req, online, capable));
    if begun.Fetching? {
      LocatedInTable(s.db, req);
      var stream := Locate(s.db, req).stream;
      forall r | r in s.db.rows && r.id == stream.id ensures r == stream { FindOwnRow(s.db.rows, r); FindOwnRow(s.db.rows, stream); }
    }
  }

  lemma LocatedInTable(db: Projection, req: Request)
    requires Locate(db, req).Target?
    ensures Locate(db, req).stream in db.rows
  {
    if req.StackDiff? { RootEntryIsRoot(db, req.rowId); }
  }

  lemma {:induction false} StepStrandsNothing(fetch: Fetch, s: State, e: Event)
    requires StrandInv(s) && Enabled(s, e)
    ensures StrandInv(Next(fetch, s, e))
  {
    match e
    case Asked(id, req, online, capable) => AskedStrandsNothing(fetch, s, id, req, online, capable);
    case Returned(id, ok, truncated, writeOk) => FinishStrandsNothing(fetch, s, id, ok, truncated, writeOk);
    case Closed(rowId, status) => ClosedStrandsNothing(fetch, s, rowId, status);
    case Rebased(_) =>
    case Projected(db) =>
  }

  /** While only closed streams share a stream id, no interleaving of fetches with close events leaves a cached row
      for a merged or abandoned stream, stack diffs keyed by their root included. */
  lemma {:induction false} RunStrandsNothing(fetch: Fetch, db: Projection, es: seq<Event>)
    requires KeysUnique(db.rows) && SharedIdsClosed(db.rows)
    ensures StrandInv(Exec(fetch, db, es))
  {
    if es != [] {
      var s, e := Exec(fetch, db, es[..|es| - 1]), es[|es| - 1];
      RunStrandsNothing(fetch, db, es[..|es| - 1]);
      if Enabled(s, e) { StepStrandsNothing(fetch, s, e); }
    }
  }

  // ---- the conditions are exact ----

  /** A stream row that only carries its ids. */
  function BareStream(id: string, swarm: string, streamId: string): Stream {
    Stream(id, streamId, swarm, None, "", None, None, "active")
  }

  /** A first request fetched and written, then a second one. */
  function FetchThenAsk(first: Request, truncated: bool, second: Request): seq<Event> {
    [Asked(0, first, true, true)] + [Returned(0, true, truncated, true)] + [Asked(1, second, true, true)]
  }

  /** When both requests name the same cache key, the second is answered with what the first fetched. */
  lemma SecondIsServedFirst(fetch: Fetch, db: Projection, first: Request, second: Request, a: FetchArgs, b: FetchArgs,
                            truncated: bool)
    requires Keyed(a) && Keyed(b) && KeyOf(a) == KeyOf(b)
    requires forall cache :: Begin(db, cache, first, true, true)
               == if KeyOf(a) in cache then Answered(Some(a), Ok(cache[KeyOf(a)], false))
                  else Fetching(Pending(first.rowId, KeyOf(a), a))
    requires forall cache :: KeyOf(b) in cache ==>
               Begin(db, cache, second, true, true) == Answered(Some(b), Ok(cache[KeyOf(b)], false))
    requires !WentTerminal(db.rows, first.rowId)
    ensures var s := Exec(fetch, db, FetchThenAsk(first, truncated, second));
            && 0 in s.answers && s.answers[0] == Answer(a, Ok(fetch(a), truncated))
            && 1 in s.answers && s.answers[1] == Answer(b, Ok(fetch(a), false))
  {
    hide Begin, KeyOf;
    var s0 := Start(db);
    var e0, e1, e2 := Asked(0, first, true, true), Returned(0, true, truncated, true), Asked(1, second, true, true);
    ExecAppend(fetch, db, [], e0);
    assert [] + [e0] == [e0];
    var s1 := s0.(inFlight := map[0 := Pending(first.rowId, KeyOf(a), a)]);
    assert Exec(fetch, db, [e0]) == s1;
    ExecAppend(fetch, db, [e0], e1);
    var s2 := Exec(fetch, db, [e0] + [e1]);
    assert s2.cache == map[KeyOf(a) := fetch(a)] && s2.answers == map[0 := Answer(a, Ok(fetch(a), truncated))];
    ExecAppend(fetch, db, [e0] + [e1], e2);
  }

  lemma BeginCommit(db: Projection, cache: map<Key, Content>, rowId: string, row: Stream, args: FetchArgs)
    requires FindByRowId(db.rows, rowId) == Some(row) && row.swarm == args.swarm && row.streamId == args.streamId
    requires Keyed(args)
    ensures Begin(db, cache, CommitDiff(rowId, args.head, args.base, args.path, false), true, true)
         == if KeyOf(args) in cache then Answered(Some(args), Ok(cache[KeyOf(args)], false))
            else Fetching(Pending(rowId, KeyOf(args), args))
  {
    assert ArgsFor(row, args.head, args.base, CommitDiff(rowId, args.head, args.base, args.path, false)) == args;
  }

  /** Two arguments with one cache key and different contents have a run that serves the wrong one. */
  lemma CollisionServesWrongContent(fetch: Fetch, a: FetchArgs, b: FetchArgs) returns (db: Projection, es: seq<Event>)
    requires Keyed(a) && Keyed(b) && KeyOf(a) == KeyOf(b) && fetch(a) != fetch(b)
    ensures KeysUnique(db.rows) && !Transparent(fetch, Exec(fetch, db, es))
  {
    var rowA, rowB := BareStream("a", a.swarm, a.streamId), BareStream("b", b.swarm, b.streamId);
    var target := if a.swarm == b.swarm then rowA else rowB;
    db := Projection(if a.swarm == b.swarm then [rowA] else [rowA, rowB], map[], map[]);
    FindOwnRow(db.rows, rowA);
    FindOwnRow(db.rows, target);
    var first := CommitDiff("a", a.head, a.base, a.path, false);
    var second := CommitDiff(target.id, b.head, b.base, b.path, false);
    es := FetchThenAsk(first, false, second);
    forall cache { BeginCommit(db, cache, "a", rowA, a); }
    forall cache { BeginCommit(db, cache, target.id, target, b); }
    SecondIsServedFirst(fetch, db, first, second, a, b, false);
  }

  /** The cache is transparent over all runs exactly when a fetch is determined by its cache key. */
  lemma TransparentExactly(fetch: Fetch)
    ensures Addressed(fetch) <==>
              forall db: Projection, es: seq<Event> :: KeysUnique(db.rows) ==> Transparent(fetch, Exec(fetch, db, es))
  {
    if Addressed(fetch) {
      forall db: Projection, es: seq<Event> ensures Transparent(fetch, Exec(fetch, db, es)) { RunTransparent(fetch, db, es); }
    } else {
      var a, b :| Keyed(a) && Keyed(b) && KeyOf(a) == KeyOf(b) && fetch(a) != fetch(b);
      var db, es := CollisionServesWrongContent(fetch, a, b);
    }
  }

  // ---- the truncation flag ----

  /** Each fetch of the run reports truncation as its arguments determine it. */
  ghost predicate Flagged(fetch: Fetch, cut: FetchArgs -> bool, db: Projection, es: seq<Event>) {
    es == [] ||
    var front, e := es[..|es| - 1], es[|es| - 1];
    && Flagged(fetch, cut, db, front)
    && (e.Returned? && e.id in Exec(fetch, db, front).inFlight ==>
          e.truncated == cut(Exec(fetch, db, front).inFlight[e.id].args))
  }

  /** Every successful answer carries the flag an uncached fetch would give. */
  ghost predicate FlagsRight(cut: FetchArgs -> bool, s: State) {
    forall id :: id in s.answers && s.answers[id].result.Ok? ==>
      s.answers[id].result.truncated == cut(s.answers[id].args)
  }

  lemma StepKeepsFlags(fetch: Fetch, cut: FetchArgs -> bool, s: State, e: Event)
    requires (forall args :: Keyed(args) ==> !cut(args)) && FlagsRight(cut, s) && Enabled(s, e)
    requires e.Returned? ==> e.truncated == cut(s.inFlight[e.id].args)
    ensures FlagsRight(cut, Next(fetch, s, e))
  {
    hide Locate;
    if e.Asked? && Locate(s.db, e.req).Target? {
      var target := Locate(s.db, e.req);
      assert !e.req.filesOnly ==> Keyed(ArgsFor(target.stream, target.head, target.base, e.req));
    }
  }

  lemma {:induction false} RunKeepsFlags(fetch: Fetch, cut: FetchArgs -> bool, db: Projection, es: seq<Event>)
    requires (forall args :: Keyed(args) ==> !cut(args)) && Flagged(fetch, cut, db, es)
    ensures FlagsRight(cut, Exec(fetch, db, es))
  {
    if es != [] {
      var s, e := Exec(fetch, db, es[..|es| - 1]), es[|es| - 1];
      RunKeepsFlags(fetch, cut, db, es[..|es| - 1]);
      if Enabled(s, e) { StepKeepsFlags(fetch, cut, s, e); }
      hide Next, FlagsRight;
    }
  }

  /** A truncated diff is cached and later served as complete. */
  lemma TruncationForgotten(fetch: Fetch, cut: FetchArgs -> bool, args: FetchArgs)
    returns (db: Projection, es: seq<Event>)
    requires Keyed(args) && cut(args)
    ensures KeysUnique(db.rows) && Flagged(fetch, cut, db, es) && !FlagsRight(cut, Exec(fetch, db, es))
  {
    var row := BareStream("a", args.swarm, args.streamId);
    db := Projection([row], map[], map[]);
    FindOwnRow(db.rows, row);
    var req := CommitDiff("a", args.head, args.base, args.path, false);
    es := FetchThenAsk(req, true, req);
    forall cache { BeginCommit(db, cache, "a", row, args); }
    SecondIsServedFirst(fetch, db, req, req, args, args, true);
    FetchThenAskFlagged(fetch, cut, db, req, args);
  }

  lemma FlaggedAppend(fetch: Fetch, cut: FetchArgs -> bool, db: Projection, es: seq<Event>, e: Event)
    requires Flagged(fetch, cut, db, es)
    requires e.Returned? && e.id in Exec(fetch, db, es).inFlight ==>
               e.truncated == cut(Exec(fetch, db, es).inFlight[e.id].args)
    ensures Flagged(fetch, cut, db, es + [e])
  {
    assert (es + [e])[..|es|] == es;
    hide Exec;
  }

  lemma {:induction false} FetchThenAskFlagged(fetch: Fetch, cut: FetchArgs -> bool, db: Projection, req: Request,
                                               args: FetchArgs)
    requires cut(args) && Begin(db, map[], req, true, true) == Fetching(Pending(req.rowId, KeyOf(args), args))
    ensures Flagged(fetch, cut, db, FetchThenAsk(req, true, req))
  {
    var e0, e1, e2 := Asked(0, req, true, true), Returned(0, true, true, true), Asked(1, req, true, true);
    assert Flagged(fetch, cut, db, []) && Exec(fetch, db, []) == Start(db);
    hide Begin, KeyOf, Exec, Flagged;
    FlaggedAppend(fetch, cut, db, [], e0);
    ExecAppend(fetch, db, [], e0);
    FlaggedAppend(fetch, cut, db, [] + [e0], e1);
    FlaggedAppend(fetch, cut, db, [] + [e0] + [e1], e2);
    assert [] + [e0] + [e1] + [e2] == [e0] + [e1] + [e2];
  }

  /** Answers carry the right flag over all runs exactly when nothing that can be cached is ever truncated. */
  lemma {:induction false} FlagsRightExactly(fetch: Fetch, cut: FetchArgs -> bool)
    ensures (forall db: Projection, es: seq<Event> :: KeysUnique(db.rows) && Flagged(fetch, cut, db, es)
               ==> FlagsRight(cut, Exec(fetch, db, es)))
            <==> forall args :: Keyed(args) ==> !cut(args)
  {
    if forall args :: Keyed(args) ==> !cut(args) {
      forall db: Projection, es: seq<Event> | Flagged(fetch, cut, db, es)
        ensures FlagsRight(cut, Exec(fetch, db, es))
      {
        RunKeepsFlags(fetch, cut, db, es);
      }
    } else {
      var args :| Keyed(args) && cut(args);
      var db, es := TruncationForgotten(fetch, cut, args);
    }
  }

  /** Closing one row leaves any other as it was. */
  lemma OtherRowStays(rows: seq<Stream>, r: Stream, q: Stream)
    requires KeysUnique(rows) && r in rows && q in rows && r != q
    ensures r.(status := "merged") in SetStatus(rows, r.id, "merged")
    ensures FindByRowId(SetStatus(rows, r.id, "merged"), q.id) == Some(q)
  {
    var after := SetStatus(rows, r.id, "merged");
    var i :| 0 <= i < |rows| && rows[i] == r;
    var j :| 0 <= j < |rows| && rows[j] == q;
    assert after[i] == r.(status := "merged") && after[j] == q;
    StatusKeepsKeys(rows, r.id, "merged");
    FindOwnRow(after, q);
  }

  /** A close that evicts while another stream with the same runtime id is being fetched. */
  lemma CloseThenWrite(fetch: Fetch, s: State, r: Stream, q: Stream)
    requires KeysUnique(s.db.rows) && r in s.db.rows && q in s.db.rows && r != q && r.streamId == q.streamId
    requires !Terminal(q) && 0 in s.inFlight && s.inFlight[0].rowId == q.id
    requires s.inFlight[0].key.streamId == q.streamId && !s.inFlight[0].args.filesOnly
    ensures var e1, e2 := Closed(r.id, "merged"), Returned(0, true, false, true);
            && Enabled(s, e1) && Enabled(Next(fetch, s, e1), e2)
            && !NothingStranded(Next(fetch, Next(fetch, s, e1), e2))
  {
    hide KeysUnique, SetStatus, FindByRowId, EvictByStream;
    assert r.id in Ids(s.db.rows);
    OtherRowStays(s.db.rows, r, q);
    var t := Next(fetch, s, Closed(r.id, "merged"));
    var u := Next(fetch, t, Returned(0, true, false, true));
    assert s.inFlight[0].key in u.cache && r.(status := "merged") in u.db.rows;
  }

  /** Two streams that share a runtime id have a run that strands a row: the close of one evicts before
      the fetch of the other returns. */
  lemma SharedStreamIdStrands(fetch: Fetch, db: Projection, r: Stream, q: Stream) returns (es: seq<Event>)
    requires KeysUnique(db.rows) && r in db.rows && q in db.rows && r != q && r.streamId == q.streamId && !Terminal(q)
    ensures !NothingStranded(Exec(fetch, db, es))
  {
    var args := FetchArgs(q.swarm, q.streamId, "c", None, None, false);
    var e0 := Asked(0, CommitDiff(q.id, "c", None, None, false), true, true);
    FindOwnRow(db.rows, q);
    BeginCommit(db, map[], q.id, q, args);
    ExecAppend(fetch, db, [], e0);
    assert [] + [e0] == [e0];
    var s := Exec(fetch, db, [e0]);
    hide Begin, NothingStranded;
    assert s == Start(db).(inFlight := map[0 := Pending(q.id, KeyOf(args), args)]);
    CloseThenWrite(fetch, s, r, q);
    ExecAppend(fetch, db, [e0], Closed(r.id, "merged"));
    ExecAppend(fetch, db, [e0] + [Closed(r.id, "merged")], Returned(0, true, false, true));
    es := [e0] + [Closed(r.id, "merged")] + [Returned(0, true, false, true)];
  }

  lemma StatusKeepsKeys(rows: seq<Stream>, rowId: string, status: string)
    requires KeysUnique(rows)
    ensures KeysUnique(SetStatus(rows, rowId, status))
  {}

  /** From any projection, no run strands a row exactly when only closed streams share a stream id. */
  lemma {:induction false} StrandsNothingExactly(fetch: Fetch, db: Projection)
    requires KeysUnique(db.rows)
    ensures SharedIdsClosed(db.rows) <==> forall es: seq<Event> :: NothingStranded(Exec(fetch, db, es))
  {
    if SharedIdsClosed(db.rows) {
      forall es: seq<Event> ensures NothingStranded(Exec(fetch, db, es)) { RunStrandsNothing(fetch, db, es); }
    } else {
      var r, q :| r in db.rows && q in db.rows && r.streamId == q.streamId && r != q && !(Terminal(r) && Terminal(q));
      if Terminal(q) {
        var es := SharedStreamIdStrands(fetch, db, q, r);
      } else {
        var es := SharedStreamIdStrands(fetch, db, r, q);
      }
    }
  }
}
