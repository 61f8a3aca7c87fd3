/**
 The stack-of-PRs walker (src/cascade/pr-stack-walker.ts): its plan as an unpruned
 traversal, what that plan contains, and the pruned, memoised walker that computes it.
 */
module PrStack {
  import opened Wrappers
  import opened Streams

  datatype PrEntry = PrEntry(
    streamRowId: string,
    cascadeStreamId: string,
    name: string,
    status: string,
    headBranch: string,
    baseBranch: string,
    ancestorRowIds: seq<string>)

  datatype PlanResult = Plan(entries: seq<PrEntry>, trunk: string) | RootNotFound(streamRowId: string)

  const DEFAULT_TRUNK := "main"

  function TrunkOf(db: Projection, swarm: string): string {
    if swarm in db.trunks && db.trunks[swarm] != "" then db.trunks[swarm] else DEFAULT_TRUNK
  }

  predicate BranchChar(c: char) {
    'a' <= c <= 'z' || 'A' <= c <= 'Z' || '0' <= c <= '9' || c == '_' || c == '/' || c == '-'
  }

  /** Every unsafe character becomes a dash, and a run of dashes becomes one. */
  function Sanitize(name: string): (r: string)
    ensures forall i :: 0 <= i < |r| ==> BranchChar(r[i])
    ensures forall i :: 0 <= i < |r| - 1 ==> !(r[i] == '-' && r[i + 1] == '-')
  {
    if name == "" then ""
    else
      var front := Sanitize(name[..|name| - 1]);
      var c := if BranchChar(name[|name| - 1]) then name[|name| - 1] else '-';
      if c == '-' && front != "" && front[|front| - 1] == '-' then front else front + [c]
  }

  function DefaultPublishBranch(name: string): string {
    "cascade/" + Sanitize(name)
  }

  function HeadOf(s: Stream): string {
    match s.publishBranch
    case Some(branch) => branch
    case None => DefaultPublishBranch(s.name)
  }

  function BaseOf(trunk: string, parent: Option<PrEntry>): string {
    match parent
    case Some(entry) => entry.headBranch
    case None => trunk
  }

  function MakeEntry(trunk: string, s: Stream, parent: Option<PrEntry>, ancestors: seq<string>): PrEntry {
    PrEntry(s.id, s.streamId, s.name, s.status, HeadOf(s), BaseOf(trunk, parent), ancestors)
  }

  /** The children index skips rows whose parent id is empty. */
  function PrChildren(rows: seq<Stream>, n: Stream): seq<Stream> {
    if n.streamId == "" then [] else ChildrenOf(rows, n.swarm, n.streamId)
  }

  ghost predicate IsPrChild(p: Stream, c: Stream) {
    p.streamId != "" && c.swarm == p.swarm && c.parent == Some(p.streamId)
  }

  lemma PrChildrenMember(rows: seq<Stream>, n: Stream, c: Stream)
    ensures c in PrChildren(rows, n) <==> c in rows && IsPrChild(n, c)
  {
    ChildrenMember(rows, n.swarm, n.streamId, c);
  }

  // ---- the plan, without pruning or memo ----

  /** Preorder over everything below `n`; `avail` holds the row ids not yet on the path from the root. */
  ghost function Walk(rows: seq<Stream>, trunk: string, n: Stream, parent: Option<PrEntry>,
                      ancestors: seq<string>, avail: set<string>): seq<PrEntry>
    decreases |avail|, 0, 0
  {
    if n.id !in avail then []
    else
      var rest := avail - {n.id};
      if Skipped(n) then WalkAll(rows, trunk, PrChildren(rows, n), parent, ancestors, rest)
      else
        var entry := MakeEntry(trunk, n, parent, ancestors);
        [entry] + WalkAll(rows, trunk, PrChildren(rows, n), Some(entry), ancestors + [n.id], rest)
  }

  ghost function WalkAll(rows: seq<Stream>, trunk: string, ns: seq<Stream>, parent: Option<PrEntry>,
                         ancestors: seq<string>, avail: set<string>): seq<PrEntry>
    decreases |avail|, 1, |ns|
  {
    if ns == [] then []
    else
      WalkAll(rows, trunk, ns[..|ns| - 1], parent, ancestors, avail)
      + Walk(rows, trunk, ns[|ns| - 1], parent, ancestors, avail)
  }

  /** The arguments `Walk` hands to the children of `n`. */
  function Below(trunk: string, n: Stream, parent: Option<PrEntry>, ancestors: seq<string>)
    : (Option<PrEntry>, seq<string>)
  {
    if Skipped(n) then (parent, ancestors)
    else (Some(MakeEntry(trunk, n, parent, ancestors)), ancestors + [n.id])
  }

  /** One step of the walk: the row's own entry if it is live, then everything below it. */
  lemma WalkUnfolds(rows: seq<Stream>, trunk: string, n: Stream, parent: Option<PrEntry>,
                    ancestors: seq<string>, avail: set<string>)
    requires n.id in avail
    ensures var (parent', ancestors') := Below(trunk, n, parent, ancestors);
            Walk(rows, trunk, n, parent, ancestors, avail)
              == (if Live(n) then [MakeEntry(trunk, n, parent, ancestors)] else [])
                 + WalkAll(rows, trunk, PrChildren(rows, n), parent', ancestors', avail - {n.id})
  {
    var below := WalkAll(rows, trunk, PrChildren(rows, n), parent, ancestors, avail - {n.id});
    assert [] + below == below;
  }

  lemma WalkOffPath(rows: seq<Stream>, trunk: string, n: Stream, parent: Option<PrEntry>,
                    ancestors: seq<string>, avail: set<string>)
    requires n.id !in avail
    ensures Walk(rows, trunk, n, parent, ancestors, avail) == []
  {}

  ghost function PlanOf(db: Projection, root: Stream): seq<PrEntry> {
    Walk(db.rows, TrunkOf(db, root.swarm), root, None, [], Ids(db.rows))
  }

  // ---- paths ----

  /** `p` follows child edges through rows whose ids are in `avail`. */
  ghost predicate PathIn(rows: seq<Stream>, p: seq<Stream>, avail: set<string>) {
    && p != []
    && (forall i :: 0 <= i < |p| ==> p[i] in rows && p[i].id in avail)
    && (forall i :: 0 <= i < |p| - 1 ==> IsPrChild(p[i], p[i + 1]))
  }

  ghost predicate PathFromTo(rows: seq<Stream>, p: seq<Stream>, from: Stream, to: Stream, avail: set<string>) {
    PathIn(rows, p, avail) && p[0] == from && p[|p| - 1] == to
  }

  ghost predicate Reaches(rows: seq<Stream>, from: Stream, to: Stream, avail: set<string>) {
    exists p :: PathFromTo(rows, p, from, to, avail)
  }

  lemma RowOfId(rows: seq<Stream>, a: Stream, b: Stream)
    requires KeysUnique(rows) && a in rows && b in rows
    requires a.id == b.id || (a.swarm == b.swarm && a.streamId == b.streamId)
    ensures a == b
  {
    FindOwnRow(rows, a);
    FindOwnRow(rows, b);
  }

  lemma PrependToPath(rows: seq<Stream>, n: Stream, p: seq<Stream>, avail: set<string>)
    requires n in rows && n.id in avail && PathIn(rows, p, avail) && IsPrChild(n, p[0])
    ensures PathIn(rows, [n] + p, avail) && ([n] + p)[|p|] == p[|p| - 1]
  {
    var q := [n] + p;
    forall i | 0 <= i < |q| ensures q[i] in rows && q[i].id in avail { if i > 0 { assert q[i] == p[i - 1]; } }
    forall i | 0 <= i < |q| - 1 ensures IsPrChild(q[i], q[i + 1]) { if i > 0 { assert q[i] == p[i - 1]; } }
  }

  lemma ParentUnique(rows: seq<Stream>, a: Stream, b: Stream, x: Stream)
    requires KeysUnique(rows) && a in rows && b in rows && IsPrChild(a, x) && IsPrChild(b, x)
    ensures a == b
  {
    RowOfId(rows, a, b);
  }

  /** Each row has one parent, so two siblings cannot both lead to the same row below their parent. */
  lemma {:induction false} SiblingsDisjoint(rows: seq<Stream>, n: Stream, c: Stream, d: Stream,
                                            p: seq<Stream>, q: seq<Stream>, x: Stream, avail: set<string>)
    requires KeysUnique(rows) && n in rows && n.id !in avail && IsPrChild(n, c) && IsPrChild(n, d)
    requires PathFromTo(rows, p, c, x, avail) && PathFromTo(rows, q, d, x, avail)
    ensures c == d
    decreases |p|
  {
    var a := if |p| >= 2 then p[|p| - 2] else n;
    var b := if |q| >= 2 then q[|q| - 2] else n;
    ParentUnique(rows, a, b, x);
    if a != n {
      SiblingsDisjoint(rows, n, c, d, p[..|p| - 1], q[..|q| - 1], a, avail);
    }
  }
}
