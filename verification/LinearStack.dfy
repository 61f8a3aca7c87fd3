/**
 The linear stack walker (src/cascade/stack-resolver.ts): from a root, follow the sole
 active child until a leaf, a fork, or a row seen before.
 */
module LinearStack {
  import opened Wrappers
  import opened Streams

  datatype LinearEntry = LinearEntry(
    streamRowId: string,
    cascadeStreamId: string,
    name: string,
    status: string,
    baseCommit: Option<string>,
    headCommit: Option<string>)

  datatype ChildRef = ChildRef(streamRowId: string, cascadeStreamId: string, name: string, status: string)

  /** The result, or one of the four errors the walker throws. */
  datatype LinearOutcome =
    | Linear(entries: seq<LinearEntry>, lowestBase: string, highestHead: string)
    | NotFound(streamRowId: string)
    | NonLinear(streamRowId: string, cascadeStreamId: string, activeChildren: seq<ChildRef>)
    | HasNoBase(streamRowId: string, cascadeStreamId: string)
    | HasNoCommits(streamRowId: string, cascadeStreamId: string)

  function EntryFor(db: Projection, s: Stream): LinearEntry {
    LinearEntry(s.id, s.streamId, s.name, s.status, s.baseCommit,
                if s.id in db.latest then Some(db.latest[s.id]) else None)
  }

  function EntriesFor(db: Projection, path: seq<Stream>): seq<LinearEntry> {
    seq(|path|, i requires 0 <= i < |path| => EntryFor(db, path[i]))
  }

  lemma EntriesAppend(db: Projection, path: seq<Stream>, s: Stream)
    ensures EntriesFor(db, path + [s]) == EntriesFor(db, path) + [EntryFor(db, s)]
  {}

  function RefsOf(cs: seq<Stream>): seq<ChildRef> {
    seq(|cs|, i requires 0 <= i < |cs| => ChildRef(cs[i].id, cs[i].streamId, cs[i].name, cs[i].status))
  }

  function ActiveChildren(rows: seq<Stream>, p: Stream): seq<Stream> {
    LiveOf(ChildrenOf(rows, p.swarm, p.streamId))
  }

  lemma ActiveChildrenMember(rows: seq<Stream>, p: Stream, c: Stream)
    ensures c in ActiveChildren(rows, p)
       <==> c in rows && Live(c) && c.swarm == p.swarm && c.parent == Some(p.streamId)
  {
    ChildrenMember(rows, p.swarm, p.streamId, c);
    LiveOfMember(ChildrenOf(rows, p.swarm, p.streamId), c);
  }

  /** A walk in which each row is the sole active child of the one before, never the same row twice. */
  ghost predicate SoleChildPath(rows: seq<Stream>, path: seq<Stream>) {
    && path != []
    && Distinct(path)
    && (forall i :: 0 <= i < |path| ==> path[i] in rows)
    && (forall i :: 0 <= i < |path| - 1 ==> ActiveChildren(rows, path[i]) == [path[i + 1]])
  }

  /** Such a walk that no further row can extend. */
  ghost predicate MaximalPath(rows: seq<Stream>, path: seq<Stream>) {
    && SoleChildPath(rows, path)
    && var kids := ActiveChildren(rows, path[|path| - 1]);
       |kids| == 1 ==> kids[0].id in Ids(path)
  }

  /** What a maximal walk means to the caller, by how it ends. */
  function OutcomeOf(db: Projection, path: seq<Stream>): LinearOutcome
    requires path != []
  {
    var root, leaf := path[0], path[|path| - 1];
    var kids := ActiveChildren(db.rows, leaf);
    if |kids| > 1 then NonLinear(leaf.id, leaf.streamId, RefsOf(kids))
    else if |kids| == 1 then HasNoCommits(kids[0].id, kids[0].streamId)
    else if root.baseCommit.None? || root.baseCommit.value == "" then HasNoBase(root.id, root.streamId)
    else if leaf.id !in db.latest || db.latest[leaf.id] == "" then HasNoCommits(leaf.id, leaf.streamId)
    else Linear(EntriesFor(db, path), root.baseCommit.value, db.latest[leaf.id])
  }

  /** The sole active child of a walk's end, when it is new, extends the walk. */
  lemma {:induction false} ExtendsByChild(rows: seq<Stream>, path: seq<Stream>, kid: Stream)
    requires SoleChildPath(rows, path)
    requires ActiveChildren(rows, path[|path| - 1]) == [kid] && kid.id !in Ids(path)
    ensures SoleChildPath(rows, path + [kid])
    ensures kid.id in Ids(rows) && Ids(path + [kid]) == Ids(path) + {kid.id}
  {
    var leaf := path[|path| - 1];
    assert kid in ActiveChildren(rows, leaf);
    ActiveChildrenMember(rows, leaf, kid);
    IdsAppend(path, kid);
    hide ActiveChildren;
    var longer := path + [kid];
    assert Distinct(longer) by {
      forall i | 0 <= i < |path| ensures path[i].id != kid.id { assert path[i] in path; }
    }
    forall i | 0 <= i < |longer| - 1 ensures ActiveChildren(rows, longer[i]) == [longer[i + 1]] {
      if i < |path| - 1 { assert longer[i] == path[i] && longer[i + 1] == path[i + 1]; }
    }
  }

  lemma IdsAppend(path: seq<Stream>, s: Stream)
    ensures Ids(path + [s]) == Ids(path) + {s.id}
  {
    assert forall x :: x in path + [s] <==> x in path || x == s;
  }

  /** The maximal walk from a given start. */
  ghost function Extend(rows: seq<Stream>, path: seq<Stream>): (r: seq<Stream>)
    requires SoleChildPath(rows, path)
    ensures MaximalPath(rows, r) && path <= r
    decreases Ids(rows) - Ids(path)
  {
    var kids := ActiveChildren(rows, path[|path| - 1]);
    if |kids| == 1 && kids[0].id !in Ids(path) then
      assert kids == [kids[0]];
      ExtendsByChild(rows, path, kids[0]);
      Extend(rows, path + [kids[0]])
    else path
  }

  ghost function StackOutcome(db: Projection, rootRowId: string): LinearOutcome {
    match FindByRowId(db.rows, rootRowId)
    case None => NotFound(rootRowId)
    case Some(root) => OutcomeOf(db, Extend(db.rows, [root]))
  }

  /** `getActiveChildren`: re-reads every child by its swarm and stream id, drops the skipped ones. */
  method GetActiveChildren(db: Projection, parent: Stream) returns (out: seq<Stream>)
    requires KeysUnique(db.rows)
    ensures out == ActiveChildren(db.rows, parent)
  {
    var rows := ChildrenOf(db.rows, parent.swarm, parent.streamId);
    out := [];
    for i := 0 to |rows|
      invariant out == LiveOf(rows[..i])
    {
      assert rows[..i + 1][..i] == rows[..i];
      ChildrenMember(db.rows, parent.swarm, parent.streamId, rows[i]);
      FindOwnRow(db.rows, rows[i]);
      var child := FindBySwarmAndId(db.rows, parent.swarm, rows[i].streamId);
      if child.None? { continue; }
      if child.value.status in SKIP_STATUSES { continue; }
      out := out + [child.value];
    }
    assert rows[..|rows|] == rows;
  }

  /** The walker's loop has followed `path` and is about to visit `cursor`. */
  ghost predicate Reached(rows: seq<Stream>, root: Stream, path: seq<Stream>, cursor: Stream) {
    && SoleChildPath(rows, [root])
    && (path == [] ==> cursor == root)
    && (path != [] ==>
          && path[0] == root && SoleChildPath(rows, path)
          && ActiveChildren(rows, path[|path| - 1]) == [cursor])
    && (cursor.id in Ids(path) ==> Extend(rows, [root]) == path)
    && (cursor.id !in Ids(path) ==>
          SoleChildPath(rows, path + [cursor]) && Extend(rows, [root]) == Extend(rows, path + [cursor]))
  }

  /** Visiting `cursor` either ends the walk there or moves it to the sole active child. */
  lemma {:induction false} ReachedStep(rows: seq<Stream>, root: Stream, path: seq<Stream>, cursor: Stream)
    requires Reached(rows, root, path, cursor) && cursor.id !in Ids(path)
    ensures var kids := ActiveChildren(rows, cursor);
            if |kids| == 1 then kids[0] in rows && Reached(rows, root, path + [cursor], kids[0])
            else Extend(rows, [root]) == path + [cursor]
  {
    var kids, next := ActiveChildren(rows, cursor), path + [cursor];
    assert next[|next| - 1] == cursor;
    if |kids| == 1 {
      assert kids == [kids[0]];
      assert kids[0] in ActiveChildren(rows, cursor);
      ActiveChildrenMember(rows, cursor, kids[0]);
      if kids[0].id !in Ids(next) {
        ExtendsByChild(rows, next, kids[0]);
      }
    }
  }

  /** `doResolveLinearStack`: ends on every projection, cyclic ones included. */
  method ResolveLinearStack(db: Projection, rootRowId: string) returns (r: LinearOutcome)
    requires KeysUnique(db.rows)
    ensures r == StackOutcome(db, rootRowId)
  {
    var found := FindByRowId(db.rows, rootRowId);
    if found.None? { return NotFound(rootRowId); }
    var root := found.value;
    var entries: seq<LinearEntry> := [];
    var seen: set<string> := {};
    var cursor := root;
    ghost var path: seq<Stream> := [];
    assert path + [cursor] == [root];
    while true
      invariant cursor in db.rows && seen == Ids(path)
      invariant entries == EntriesFor(db, path)
      invariant Reached(db.rows, root, path, cursor)
      decreases Ids(db.rows) - seen
    {
      if cursor.id in seen {
        ReachedCycle(db, root, path, cursor);
        return HasNoCommits(cursor.id, cursor.streamId);
      }
      assert cursor.id in Ids(db.rows);
      IdsAppend(path, cursor);
      EntriesAppend(db, path, cursor);
      ReachedStep(db.rows, root, path, cursor);
      var active := GetActiveChildren(db, cursor);
      seen := seen + {cursor.id};
      path := path + [cursor];
      entries := entries + [EntryFor(db, cursor)];
      if |active| == 0 { break; }
      if |active| > 1 {
        return NonLinear(cursor.id, cursor.streamId, RefsOf(active));
      }
      cursor := active[0];
    }
    r := FrameChain(db, entries, path);
  }

  /** A cycle met by the loop is the end of the maximal walk. */
  lemma ReachedCycle(db: Projection, root: Stream, path: seq<Stream>, cursor: Stream)
    requires Reached(db.rows, root, path, cursor) && cursor.id in Ids(path)
    ensures OutcomeOf(db, Extend(db.rows, [root])) == HasNoCommits(cursor.id, cursor.streamId)
  {}

  /** The checks after the loop: the root must have a base and the leaf a head. */
  method FrameChain(db: Projection, entries: seq<LinearEntry>, ghost path: seq<Stream>) returns (r: LinearOutcome)
    requires path != [] && entries == EntriesFor(db, path)
    requires ActiveChildren(db.rows, path[|path| - 1]) == []
    ensures r == OutcomeOf(db, path)
  {
    var rootEntry, leafEntry := entries[0], entries[|entries| - 1];
    if rootEntry.baseCommit.None? || rootEntry.baseCommit.value == "" {
      return HasNoBase(rootEntry.streamRowId, rootEntry.cascadeStreamId);
    }
    if leafEntry.headCommit.None? || leafEntry.headCommit.value == "" {
      return HasNoCommits(leafEntry.streamRowId, leafEntry.cascadeStreamId);
    }
    return Linear(entries, rootEntry.baseCommit.value, leafEntry.headCommit.value);
  }

  // ---- what the outcome says about the projection ----

  /** Two sole-child walks from one start agree as far as both go. */
  lemma {:induction false} PathsAgree(rows: seq<Stream>, p: seq<Stream>, q: seq<Stream>, i: nat)
    requires SoleChildPath(rows, p) && SoleChildPath(rows, q) && p[0] == q[0]
    requires i < |p| && i < |q|
    ensures p[i] == q[i]
  {
    if i > 0 {
      PathsAgree(rows, p, q, i - 1);
      assert ActiveChildren(rows, p[i - 1]) == [p[i]];
      assert ActiveChildren(rows, q[i - 1]) == [q[i]];
    }
  }

  /** The maximal walk from a start is unique. */
  lemma MaximalPathUnique(rows: seq<Stream>, p: seq<Stream>, q: seq<Stream>)
    requires MaximalPath(rows, p) && MaximalPath(rows, q) && p[0] == q[0]
    ensures p == q
  {
    if |p| < |q| {
      LongerExtends(rows, p, q);
    } else if |q| < |p| {
      LongerExtends(rows, q, p);
    } else {
      forall i | 0 <= i < |p| ensures p[i] == q[i] { PathsAgree(rows, p, q, i); }
    }
  }

  /** A longer sole-child walk shows that a shorter one could go on. */
  lemma LongerExtends(rows: seq<Stream>, p: seq<Stream>, q: seq<Stream>)
    requires SoleChildPath(rows, p) && SoleChildPath(rows, q) && p[0] == q[0] && |p| < |q|
    ensures ActiveChildren(rows, p[|p| - 1]) == [q[|p|]] && q[|p|].id !in Ids(p)
  {
    forall i | 0 <= i < |p| ensures p[i] == q[i] { PathsAgree(rows, p, q, i); }
    assert forall s :: s in p ==> exists i :: 0 <= i < |p| && q[i] == s;
  }

  /** The walker succeeds exactly on a path that ends in a leaf and is framed by a base and a head;
      its entries are that path, which is the only maximal one. */
  lemma {:induction false} LinearExactly(db: Projection, rootRowId: string, path: seq<Stream>)
    requires KeysUnique(db.rows) && MaximalPath(db.rows, path) && path[0].id == rootRowId
    ensures StackOutcome(db, rootRowId) == OutcomeOf(db, path)
    ensures StackOutcome(db, rootRowId).Linear? <==>
              var leaf := path[|path| - 1];
              && ActiveChildren(db.rows, leaf) == []
              && path[0].baseCommit.Some? && path[0].baseCommit.value != ""
              && leaf.id in db.latest && db.latest[leaf.id] != ""
    ensures StackOutcome(db, rootRowId).NonLinear? <==> |ActiveChildren(db.rows, path[|path| - 1])| >= 2
  {
    FindOwnRow(db.rows, path[0]);
    MaximalPathUnique(db.rows, path, Extend(db.rows, [path[0]]));
  }

  /** A sole-child walk from the root that meets a row with two or more active children. */
  ghost predicate Forks(rows: seq<Stream>, rootRowId: string, path: seq<Stream>) {
    && SoleChildPath(rows, path)
    && path[0].id == rootRowId
    && |ActiveChildren(rows, path[|path| - 1])| >= 2
  }

  /** Such a walk is reported as non-linear, naming the forking row and exactly its active children. */
  lemma ForkReported(db: Projection, rootRowId: string, path: seq<Stream>)
    requires KeysUnique(db.rows) && Forks(db.rows, rootRowId, path)
    ensures var fork := path[|path| - 1];
            StackOutcome(db, rootRowId)
              == NonLinear(fork.id, fork.streamId, RefsOf(ActiveChildren(db.rows, fork)))
  {
    LinearExactly(db, rootRowId, path);
  }

  /** Non-linear is reported exactly when some sole-child walk from the root forks. */
  lemma NonLinearExactly(db: Projection, rootRowId: string)
    requires KeysUnique(db.rows)
    ensures StackOutcome(db, rootRowId).NonLinear? <==> exists path :: Forks(db.rows, rootRowId, path)
  {
    if StackOutcome(db, rootRowId).NonLinear? {
      var path := Extend(db.rows, [FindByRowId(db.rows, rootRowId).value]);
      assert Forks(db.rows, rootRowId, path);
    }
    if path :| Forks(db.rows, rootRowId, path) {
      ForkReported(db, rootRowId, path);
    }
  }

  /** A walk that closes on itself is reported as a stack without commits, at the row met again. */
  lemma {:induction false} CycleReported(db: Projection, rootRowId: string, path: seq<Stream>)
    requires KeysUnique(db.rows) && SoleChildPath(db.rows, path) && path[0].id == rootRowId
    requires |ActiveChildren(db.rows, path[|path| - 1])| == 1
    requires ActiveChildren(db.rows, path[|path| - 1])[0].id in Ids(path)
    ensures var again := ActiveChildren(db.rows, path[|path| - 1])[0];
            StackOutcome(db, rootRowId) == HasNoCommits(again.id, again.streamId)
  {
    assert MaximalPath(db.rows, path);
    LinearExactly(db, rootRowId, path);
  }

  // ---- what the caller reads ----

  ghost predicate EntryShows(db: Projection, e: LinearEntry, s: Stream) {
    && e.streamRowId == s.id && e.cascadeStreamId == s.streamId && e.name == s.name && e.status == s.status
    && e.baseCommit == s.baseCommit
    && (s.id in db.latest ==> e.headCommit == Some(db.latest[s.id]))
    && (s.id !in db.latest ==> e.headCommit == None)
  }

  ghost predicate RefShows(ref: ChildRef, s: Stream) {
    ref.streamRowId == s.id && ref.cascadeStreamId == s.streamId && ref.name == s.name && ref.status == s.status
  }

  predicate Given(commit: Option<string>) {
    commit.Some? && commit.value != ""
  }

  predicate HasHead(db: Projection, s: Stream) {
    s.id in db.latest && db.latest[s.id] != ""
  }

  /** The answer in the caller's terms: a chain runs from the root's base to the leaf's newest commit and shows its
      rows one by one; each error names the row it is about, and when it is raised. */
  ghost predicate Answers(db: Projection, path: seq<Stream>, r: LinearOutcome)
    requires path != []
  {
    var root, leaf := path[0], path[|path| - 1];
    var kids := ActiveChildren(db.rows, leaf);
    match r
    case Linear(entries, lo, hi) =>
      && kids == [] && Given(root.baseCommit) && HasHead(db, leaf)
      && root.baseCommit == Some(lo) && db.latest[leaf.id] == hi
      && |entries| == |path|
      && forall i :: 0 <= i < |path| ==> EntryShows(db, entries[i], path[i])
    case NonLinear(rowId, streamId, refs) =>
      && |kids| >= 2 && rowId == leaf.id && streamId == leaf.streamId
      && |refs| == |kids|
      && forall i :: 0 <= i < |kids| ==> RefShows(refs[i], kids[i])
    case HasNoBase(rowId, streamId) =>
      kids == [] && !Given(root.baseCommit) && rowId == root.id && streamId == root.streamId
    case HasNoCommits(rowId, streamId) =>
      || (|kids| == 1 && rowId == kids[0].id && streamId == kids[0].streamId)
      || (kids == [] && Given(root.baseCommit) && !HasHead(db, leaf)
          && rowId == leaf.id && streamId == leaf.streamId)
    case NotFound(_) => false
  }

  /** On the maximal path from a root the walker answers just so; from an unknown row it says that. */
  lemma {:induction false} OutcomeAnswers(db: Projection, rootRowId: string, path: seq<Stream>)
    requires KeysUnique(db.rows) && MaximalPath(db.rows, path) && path[0].id == rootRowId
    ensures Answers(db, path, StackOutcome(db, rootRowId))
  {
    LinearExactly(db, rootRowId, path);
    OutcomeOfAnswers(db, path);
    hide StackOutcome, MaximalPath, ActiveChildren, OutcomeOf, Answers, KeysUnique;
  }

  lemma {:induction false} OutcomeOfAnswers(db: Projection, path: seq<Stream>)
    requires path != []
    ensures Answers(db, path, OutcomeOf(db, path))
  {
    hide ActiveChildren;
  }

  lemma UnknownRoot(db: Projection, rootRowId: string)
    ensures StackOutcome(db, rootRowId) == NotFound(rootRowId) <==> rootRowId !in Ids(db.rows)
  {
    hide OutcomeOf, Extend;
    var root := FindByRowId(db.rows, rootRowId);
    if root.Some? { NeverNotFound(db, Extend(db.rows, [root.value])); }
  }

  lemma NeverNotFound(db: Projection, path: seq<Stream>)
    requires path != []
    ensures !OutcomeOf(db, path).NotFound?
  {}
}
