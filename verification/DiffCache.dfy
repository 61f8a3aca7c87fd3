/**
 The write-through diff cache of src/cascade/diff-resolver.ts and src/db/dal/cascade-diff-cache.ts,
 racing with the close and rebase events of src/map/cascade-handler.ts. A request runs up to its fetch
 in one step and from the fetch's return to its answer in another; events fall between.
 */
module DiffCache {
  import opened Wrappers
  import opened Streams
  import opened LinearStack

  /** The unique index of the cache table: an absent base or path is stored as the empty string. */
  datatype Key = Key(streamId: string, commit: string, base: string, path: string)

  datatype Content = Content(diff: string, filesTouched: seq<string>)

  datatype FetchArgs = FetchArgs(
    swarm: string,
    streamId: string,
    head: string,
    base: Option<string>,
    path: Option<string>,
    filesOnly: bool)

  datatype ErrorCode = NotFoundCode | BadRequest | SwarmOffline | CapabilityMissing | FetchFailed

  datatype DiffResult = Ok(content: Content, truncated: bool) | Err(code: ErrorCode)

  datatype Request =
    | CommitDiff(rowId: string, commit: string, base: Option<string>, path: Option<string>, filesOnly: bool)
    | StreamDiff(rowId: string, path: Option<string>, filesOnly: bool)
    | StackDiff(rowId: string, path: Option<string>, filesOnly: bool)

  /** A fetch in flight: what was asked, where its answer is cached, and the row re-checked before that. */
  datatype Pending = Pending(rowId: string, key: Key, args: FetchArgs)

  datatype Begun = Answered(args: Option<FetchArgs>, result: DiffResult) | Fetching(pending: Pending)

  const TERMINAL_FOR_CACHE: set<string> := {"merged", "abandoned"}

  function OrEmpty(s: Option<string>): string {
    match s
    case Some(v) => v
    case None => ""
  }

  function KeyOf(args: FetchArgs): Key {
    Key(args.streamId, args.head, OrEmpty(args.base), OrEmpty(args.path))
  }

  /** An empty path scope is no path scope. */
  function Scoped(path: Option<string>): Option<string> {
    if path == Some("") then None else path
  }

  // ---- one request ----

  datatype Target = Target(stream: Stream, head: string, base: Option<string>) | Refused(code: ErrorCode)

  /** Which stream and which range a request is about, or why it has none. */
  ghost function Locate(db: Projection, req: Request): Target {
    match req
    case CommitDiff(rowId, commit, base, _, _) =>
      (match FindByRowId(db.rows, rowId)
       case None => Refused(NotFoundCode)
       case Some(stream) => Target(stream, commit, base))
    case StreamDiff(rowId, _, _) =>
      (match FindByRowId(db.rows, rowId)
       case None => Refused(NotFoundCode)
       case Some(stream) =>
         if stream.baseCommit.None? || stream.baseCommit.value == "" || stream.id !in db.latest
         then Refused(BadRequest)
         else Target(stream, db.latest[stream.id], stream.baseCommit))
    case StackDiff(rowId, _, _) =>
      match StackOutcome(db, rowId)
      case NotFound(_) => Refused(NotFoundCode)
      case Linear(entries, lowestBase, highestHead) =>
        Target(FindByRowId(db.rows, rowId).value, highestHead, Some(lowestBase))
      case _ => Refused(BadRequest)
  }

  function ArgsFor(stream: Stream, head: string, base: Option<string>, req: Request): FetchArgs {
    FetchArgs(stream.swarm, stream.streamId, head, base, Scoped(req.path), req.filesOnly)
  }

  /** A request up to its fetch: refused, answered from the cache, gated, or in flight. */
  ghost function Begin(db: Projection, cache: map<Key, Content>, req: Request, online: bool, capable: bool): Begun {
    match Locate(db, req)
    case Refused(code) => Answered(None, Err(code))
    case Target(stream, head, base) =>
      var args := ArgsFor(stream, head, base, req);
      if !req.filesOnly && KeyOf(args) in cache then Answered(Some(args), Ok(cache[KeyOf(args)], false))
      else if !online then Answered(Some(args), Err(SwarmOffline))
      else if !capable then Answered(Some(args), Err(CapabilityMissing))
      else Fetching(Pending(stream.id, KeyOf(args), args))
  }

  /** `streamWentTerminal`: a missing row counts as terminal. */
  function WentTerminal(rows: seq<Stream>, rowId: string): bool {
    match FindByRowId(rows, rowId)
    case None => true
    case Some(stream) => stream.status in TERMINAL_FOR_CACHE
  }

  /** `INSERT OR IGNORE`: an existing row stays. */
  function Put(cache: map<Key, Content>, key: Key, content: Content): map<Key, Content> {
    if key in cache then cache else cache[key := content]
  }

  /** The cache after a fetch returned; a failing write is swallowed. */
  function AfterFetch(rows: seq<Stream>, cache: map<Key, Content>, p: Pending, result: DiffResult, writeOk: bool)
    : map<Key, Content>
  {
    if result.Ok? && !p.args.filesOnly && !WentTerminal(rows, p.rowId) && writeOk
    then Put(cache, p.key, result.content) else cache
  }

  function EvictByStream(cache: map<Key, Content>, streamId: string): map<Key, Content> {
    map key | key in cache && key.streamId != streamId :: cache[key]
  }

  function SetStatus(rows: seq<Stream>, rowId: string, status: string): seq<Stream> {
    seq(|rows|, i requires 0 <= i < |rows| =>
      if rows[i].id == rowId then rows[i].(status := status) else rows[i])
  }

  /** The resolver's code over its database: the cache table and the projection. */
  class Resolver {
    var db: Projection
    var cache: map<Key, Content>

    constructor (db: Projection)
      ensures this.db == db && cache == map[]
    {
      this.db, cache := db, map[];
    }

    /** `resolveCommitDiff` up to its fetch. */
    method BeginCommitDiff(rowId: string, commit: string, base: Option<string>, path: Option<string>, filesOnly: bool,
                           online: bool, capable: bool) returns (r: Begun)
      ensures r == Begin(db, cache, CommitDiff(rowId, commit, base, path, filesOnly), online, capable)
    {
      var stream := FindByRowId(db.rows, rowId);
      if stream.None? { return Answered(None, Err(NotFoundCode)); }
      var key := Key(stream.value.streamId, commit, OrEmpty(base), OrEmpty(path));
      var args := FetchArgs(stream.value.swarm, stream.value.streamId, commit, base,
                            if path.Some? && path.value != "" then path else None, filesOnly);
      if !filesOnly && key in cache { return Answered(Some(args), Ok(cache[key], false)); }
      if !online { return Answered(Some(args), Err(SwarmOffline)); }
      if !capable { return Answered(Some(args), Err(CapabilityMissing)); }
      return Fetching(Pending(stream.value.id, key, args));
    }

    /** `rangeDiff` up to its fetch. */
    method BeginRangeDiff(stream: Stream, cacheStreamId: string, base: string, head: string, ghost req: Request,
                          path: Option<string>, filesOnly: bool, online: bool, capable: bool) returns (r: Begun)
      requires path == req.path && filesOnly == req.filesOnly && cacheStreamId == stream.streamId
      requires Locate(db, req) == Target(stream, head, Some(base))
      ensures r == Begin(db, cache, req, online, capable)
    {
      var key := Key(cacheStreamId, head, base, OrEmpty(path));
      var args := FetchArgs(stream.swarm, stream.streamId, head, Some(base),
                            if path.Some? && path.value != "" then path else None, filesOnly);
      if !filesOnly && key in cache { return Answered(Some(args), Ok(cache[key], false)); }
      if !online { return Answered(Some(args), Err(SwarmOffline)); }
      if !capable { return Answered(Some(args), Err(CapabilityMissing)); }
      return Fetching(Pending(stream.id, key, args));
    }

    /** `resolveStreamDiff` up to its fetch. */
    method BeginStreamDiff(rowId: string, path: Option<string>, filesOnly: bool, online: bool, capable: bool)
      returns (r: Begun)
      ensures r == Begin(db, cache, StreamDiff(rowId, path, filesOnly), online, capable)
    {
      var stream := FindByRowId(db.rows, rowId);
      if stream.None? { return Answered(None, Err(NotFoundCode)); }
      var base := stream.value.baseCommit;
      if base.None? || base.value == "" { return Answered(None, Err(BadRequest)); }
      if stream.value.id !in db.latest { return Answered(None, Err(BadRequest)); }
      r := BeginRangeDiff(stream.value, stream.value.streamId, base.value, db.latest[stream.value.id],
                          StreamDiff(rowId, path, filesOnly), path, filesOnly, online, capable);
    }

    /** `resolveStackDiff` up to its fetch: the walker's errors become refusals, and the root keys the cache. */
    method BeginStackDiff(rowId: string, path: Option<string>, filesOnly: bool, online: bool, capable: bool)
      returns (r: Begun)
      requires KeysUnique(db.rows)
      ensures r == Begin(db, cache, StackDiff(rowId, path, filesOnly), online, capable)
    {
      var stack := ResolveLinearStack(db, rowId);
      match stack
      case NonLinear(_, _, _) => return Answered(None, Err(BadRequest));
      case NotFound(_) => return Answered(None, Err(NotFoundCode));
      case HasNoBase(_, _) => return Answered(None, Err(BadRequest));
      case HasNoCommits(_, _) => return Answered(None, Err(BadRequest));
      case Linear(entries, lowestBase, highestHead) =>
        RootEntryIsRoot(db, rowId);
        var root := entries[0];
        var rootStream := FindByRowId(db.rows, root.streamRowId);
        r := BeginRangeDiff(rootStream.value, root.cascadeStreamId, lowestBase, highestHead,
                            StackDiff(rowId, path, filesOnly), path, filesOnly, online, capable);
    }

    /** The rest of either resolver once its fetch has returned. */
    method FinishFetch(p: Pending, fetched: DiffResult, writeOk: bool) returns (r: DiffResult)
      modifies this`cache
      ensures r == fetched
      ensures cache == AfterFetch(db.rows, old(cache), p, fetched, writeOk)
    {
      if fetched.Err? { return fetched; }
      if !p.args.filesOnly && !WentTerminal(db.rows, p.rowId) {
        if writeOk { cache := Put(cache, p.key, fetched.content); }
      }
      return fetched;
    }
  }

  lemma RootEntryIsRoot(db: Projection, rowId: string)
    requires StackOutcome(db, rowId).Linear?
    ensures var stack, root := StackOutcome(db, rowId), FindByRowId(db.rows, rowId);
            && stack.entries != []
            && root.Some?
            && stack.entries[0].streamRowId == rowId
            && stack.entries[0].cascadeStreamId == root.value.streamId
  {
    var root := FindByRowId(db.rows, rowId).value;
    var path := Extend(db.rows, [root]);
    assert path[0] == root;
  }
}
