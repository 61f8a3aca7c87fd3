/** The order of a stack-of-PRs plan: a row before everything below it, and siblings' families in table order. */
module PrOrder {
  import opened Wrappers
  import opened Streams
  import opened PrStack
  import opened PrPlan

  /** `a` stands before `b` in the table. */
  ghost predicate Listed(rows: seq<Stream>, a: Stream, b: Stream) {
    exists i, j :: 0 <= i < j < |rows| && rows[i] == a && rows[j] == b
  }

  /** `e` stands before `f` in the plan. */
  ghost predicate Before(plan: seq<PrEntry>, e: PrEntry, f: PrEntry) {
    exists i, j :: 0 <= i < j < |plan| && plan[i] == e && plan[j] == f
  }

  /** Path `p` ends above `q`'s end on `q`'s own path, or turns off where `q` turns to a child listed later. */
  ghost predicate Precedes(rows: seq<Stream>, p: seq<Stream>, q: seq<Stream>) {
    || (p < q)
    || (exists k :: Turns(rows, p, q, k))
  }

  ghost predicate Turns(rows: seq<Stream>, p: seq<Stream>, q: seq<Stream>, k: int) {
    0 < k < |p| && k < |q| && p[..k] == q[..k] && Listed(rows, p[k], q[k])
  }

  // ---- children keep table order ----

  lemma ListedAppend(rows: seq<Stream>, more: seq<Stream>, a: Stream, b: Stream)
    requires Listed(rows, a, b)
    ensures Listed(rows + more, a, b)
  {
    var i, j :| 0 <= i < j < |rows| && rows[i] == a && rows[j] == b;
    assert (rows + more)[i] == a && (rows + more)[j] == b;
  }

  lemma {:induction false} ChildrenInTableOrder(rows: seq<Stream>, swarm: string, streamId: string, a: Stream, b: Stream)
    requires Listed(rows, a, b) && a in ChildrenOf(rows, swarm, streamId) && b in ChildrenOf(rows, swarm, streamId)
    ensures Listed(ChildrenOf(rows, swarm, streamId), a, b)
  {
    var front, last := rows[..|rows| - 1], rows[|rows| - 1];
    var kids := ChildrenOf(front, swarm, streamId);
    var i, j :| 0 <= i < j < |rows| && rows[i] == a && rows[j] == b;
    ChildrenMember(rows, swarm, streamId, a);
    ChildrenMember(rows, swarm, streamId, b);
    ChildrenMember(front, swarm, streamId, a);
    assert front[i] == a;
    if j < |front| {
      assert front[j] == b;
      ChildrenMember(front, swarm, streamId, b);
      ChildrenInTableOrder(front, swarm, streamId, a, b);
      ListedAppend(kids, ChildrenOf(rows, swarm, streamId)[|kids|..], a, b);
      assert kids + ChildrenOf(rows, swarm, streamId)[|kids|..] == ChildrenOf(rows, swarm, streamId);
    } else {
      var k :| 0 <= k < |kids| && kids[k] == a;
      assert ChildrenOf(rows, swarm, streamId) == kids + [b];
      assert (kids + [b])[k] == a && (kids + [b])[|kids|] == b;
    }
  }

  // ---- order within walks ----

  lemma BeforeWithin(pre: seq<PrEntry>, plan: seq<PrEntry>, post: seq<PrEntry>, e: PrEntry, f: PrEntry)
    requires Before(plan, e, f)
    ensures Before(pre + plan + post, e, f)
  {
    var i, j :| 0 <= i < j < |plan| && plan[i] == e && plan[j] == f;
    var all := pre + plan + post;
    assert all[|pre| + i] == e && all[|pre| + j] == f;
  }

  lemma BeforeAcross(xs: seq<PrEntry>, ys: seq<PrEntry>, e: PrEntry, f: PrEntry)
    requires e in xs && f in ys
    ensures Before(xs + ys, e, f)
  {
    var i :| 0 <= i < |xs| && xs[i] == e;
    var j :| 0 <= j < |ys| && ys[j] == f;
    assert (xs + ys)[i] == e && (xs + ys)[|xs| + j] == f;
  }

  /** Entries of one child's walk keep their order among all children's. */
  lemma {:induction false} WithinChild(rows: seq<Stream>, trunk: string, ns: seq<Stream>, parent: Option<PrEntry>,
                                       ancestors: seq<string>, avail: set<string>, c: Stream, e: PrEntry, f: PrEntry)
    requires c in ns && Before(Walk(rows, trunk, c, parent, ancestors, avail), e, f)
    ensures Before(WalkAll(rows, trunk, ns, parent, ancestors, avail), e, f)
    decreases |ns|
  {
    hide Walk, Before;
    var front, last := ns[..|ns| - 1], ns[|ns| - 1];
    var pre := WalkAll(rows, trunk, front, parent, ancestors, avail);
    var own := Walk(rows, trunk, last, parent, ancestors, avail);
    if c == last {
      BeforeWithin(pre, own, [], e, f);
      assert pre + own + [] == pre + own;
    } else {
      assert ns == front + [last];
      WithinChild(rows, trunk, front, parent, ancestors, avail, c, e, f);
      BeforeWithin([], pre, own, e, f);
      assert [] + pre + own == pre + own;
    }
  }

  /** Entries of a child listed earlier come before those of one listed later. */
  lemma {:induction false} AcrossChildren(rows: seq<Stream>, trunk: string, ns: seq<Stream>, parent: Option<PrEntry>,
                                          ancestors: seq<string>, avail: set<string>, c: Stream, d: Stream, e: PrEntry,
                                          f: PrEntry)
    requires Listed(ns, c, d) && e in Walk(rows, trunk, c, parent, ancestors, avail)
    requires f in Walk(rows, trunk, d, parent, ancestors, avail)
    ensures Before(WalkAll(rows, trunk, ns, parent, ancestors, avail), e, f)
    decreases |ns|
  {
    hide Walk, Before;
    var front, last := ns[..|ns| - 1], ns[|ns| - 1];
    var pre := WalkAll(rows, trunk, front, parent, ancestors, avail);
    var own := Walk(rows, trunk, last, parent, ancestors, avail);
    var i, j :| 0 <= i < j < |ns| && ns[i] == c && ns[j] == d;
    assert front[i] == c;
    if j < |front| {
      assert front[j] == d;
      AcrossChildren(rows, trunk, front, parent, ancestors, avail, c, d, e, f);
      BeforeWithin([], pre, own, e, f);
      assert [] + pre + own == pre + own;
    } else {
      WalkAllMember(rows, trunk, front, parent, ancestors, avail, e);
      BeforeAcross(pre, own, e, f);
    }
  }

  // ---- order along paths ----

  lemma NotListedTwice(rows: seq<Stream>, a: Stream)
    requires KeysUnique(rows)
    ensures !Listed(rows, a, a)
  {
    forall i, j | 0 <= i < j < |rows| ensures !(rows[i] == a && rows[j] == a) { assert rows[i].id != rows[j].id; }
  }

  lemma SameBranch(rows: seq<Stream>, p: seq<Stream>, q: seq<Stream>)
    requires KeysUnique(rows) && Precedes(rows, p, q) && |p| > 1 && |q| > 1 && p[0] == q[0] && p[1] == q[1]
    ensures Precedes(rows, p[1..], q[1..])
  {
    if !(p < q) {
      var k :| Turns(rows, p, q, k);
      NotListedTwice(rows, p[1]);
      assert p[1..][..k - 1] == p[..k][1..] && q[1..][..k - 1] == q[..k][1..];
      assert Turns(rows, p[1..], q[1..], k - 1);
    }
  }

  lemma PrefixAgrees(p: seq<Stream>, q: seq<Stream>)
    ensures p < q && |p| > 1 ==> p[1] == q[1]
  {}

  lemma TurnAgrees(rows: seq<Stream>, p: seq<Stream>, q: seq<Stream>, k: int)
    ensures Turns(rows, p, q, k) && k > 1 ==> p[1] == q[1]
  {
    if Turns(rows, p, q, k) && k > 1 { assert p[..k][1] == q[..k][1]; }
  }

  lemma OtherBranch(rows: seq<Stream>, n: Stream, p: seq<Stream>, q: seq<Stream>)
    requires Precedes(rows, p, q) && |p| > 1 && |q| > 1 && p[0] == q[0] && p[1] != q[1]
    requires p[1] in PrChildren(rows, n) && q[1] in PrChildren(rows, n)
    ensures Listed(PrChildren(rows, n), p[1], q[1])
  {
    PrefixAgrees(p, q);
    var k :| Turns(rows, p, q, k);
    TurnAgrees(rows, p, q, k);
    ChildrenInTableOrder(rows, n.swarm, n.streamId, p[1], q[1]);
  }

  /** A path through a child: what is left of it, and where its entry is. */
  lemma EntryBelow(rows: seq<Stream>, trunk: string, n: Stream, parent: Option<PrEntry>, ancestors: seq<string>,
                   avail: set<string>, above: seq<Stream>, q: seq<Stream>)
    requires Describes(trunk, above + [n], parent, ancestors) && |q| > 1
    requires PathIn(rows, q, avail) && q[0] == n && Distinct(q) && Live(q[|q| - 1])
    ensures var rest, tail := avail - {n.id}, q[1..];
            && PathIn(rows, tail, rest) && Distinct(tail) && Live(tail[|tail| - 1])
            && q[1] in PrChildren(rows, n)
            && above + q == above + [n] + tail
            && EntryAt(trunk, above + q) in Walk(rows, trunk, q[1], parent, ancestors, rest)
            && EntryAt(trunk, above + q) in WalkAll(rows, trunk, PrChildren(rows, n), parent, ancestors, rest)
  {
    hide Walk, WalkAll, EntryAt, Describes;
    var rest, tail := avail - {n.id}, q[1..];
    assert q == [n] + tail;
    PrChildrenMember(rows, n, q[1]);
    PrependRow(above, n, tail);
    WalkComplete(rows, trunk, q[1], parent, ancestors, rest, above + [n], tail);
    WalkAllMember(rows, trunk, PrChildren(rows, n), parent, ancestors, rest, EntryAt(trunk, above + q));
  }

  /** What the walk below `n` emits keeps the order of the paths. */
  lemma {:induction false} WalkOrder(rows: seq<Stream>, trunk: string, n: Stream, parent: Option<PrEntry>,
                                     ancestors: seq<string>, avail: set<string>, above: seq<Stream>, p: seq<Stream>,
                                     q: seq<Stream>)
    requires KeysUnique(rows) && Describes(trunk, above, parent, ancestors)
    requires PathIn(rows, p, avail) && p[0] == n && Distinct(p) && Live(p[|p| - 1])
    requires PathIn(rows, q, avail) && q[0] == n && Distinct(q) && Live(q[|q| - 1])
    requires Precedes(rows, p, q)
    ensures Before(Walk(rows, trunk, n, parent, ancestors, avail), EntryAt(trunk, above + p), EntryAt(trunk, above + q))
    decreases |p|
  {
    var (parent', ancestors') := Below(trunk, n, parent, ancestors);
    BelowDescribes(trunk, above, n, parent, ancestors);
    WalkUnfolds(rows, trunk, n, parent, ancestors, avail);
    assert |q| > 1;
    EntryBelow(rows, trunk, n, parent', ancestors', avail, above, q);
    var own := if Live(n) then [MakeEntry(trunk, n, parent, ancestors)] else [];
    var below := WalkAll(rows, trunk, PrChildren(rows, n), parent', ancestors', avail - {n.id});
    if |p| == 1 {
      assert p == [n];
      hide *;
      BeforeAcross(own, below, EntryAt(trunk, above + p), EntryAt(trunk, above + q));
    } else {
      WalkOrderBelow(rows, trunk, n, parent', ancestors', avail, above, p, q);
      hide *;
      BeforeWithin(own, below, [], EntryAt(trunk, above + p), EntryAt(trunk, above + q));
      assert own + below + [] == own + below;
    }
  }

  lemma {:induction false} WalkOrderBelow(rows: seq<Stream>, trunk: string, n: Stream, parent: Option<PrEntry>,
                                          ancestors: seq<string>, avail: set<string>, above: seq<Stream>,
                                          p: seq<Stream>, q: seq<Stream>)
    requires KeysUnique(rows) && Describes(trunk, above + [n], parent, ancestors) && |p| > 1 && |q| > 1
    requires PathIn(rows, p, avail) && p[0] == n && Distinct(p) && Live(p[|p| - 1])
    requires PathIn(rows, q, avail) && q[0] == n && Distinct(q) && Live(q[|q| - 1])
    requires Precedes(rows, p, q)
    ensures Before(WalkAll(rows, trunk, PrChildren(rows, n), parent, ancestors, avail - {n.id}),
                   EntryAt(trunk, above + p), EntryAt(trunk, above + q))
    decreases |p|, 0
  {
    hide Walk, WalkAll, Before, EntryAt, Describes, Precedes, Listed, KeysUnique;
    var rest, kids := avail - {n.id}, PrChildren(rows, n);
    var e, f := EntryAt(trunk, above + p), EntryAt(trunk, above + q);
    EntryBelow(rows, trunk, n, parent, ancestors, avail, above, p);
    EntryBelow(rows, trunk, n, parent, ancestors, avail, above, q);
    if p[1] == q[1] {
      SameBranch(rows, p, q);
      WalkOrder(rows, trunk, p[1], parent, ancestors, rest, above + [n], p[1..], q[1..]);
      WithinChild(rows, trunk, kids, parent, ancestors, rest, p[1], e, f);
    } else {
      OtherBranch(rows, n, p, q);
      AcrossChildren(rows, trunk, kids, parent, ancestors, rest, p[1], q[1], e, f);
    }
  }

  /** The plan is in preorder: of two listed streams the one above the other comes first, and of two in different
      families the one whose family's first stream stands earlier in the table. */
  lemma PlanInPreorder(db: Projection, root: Stream, p: seq<Stream>, q: seq<Stream>)
    requires KeysUnique(db.rows) && p != [] && q != []
    requires RootPath(db, root, p[|p| - 1], p) && RootPath(db, root, q[|q| - 1], q)
    requires Live(p[|p| - 1]) && Live(q[|q| - 1]) && Precedes(db.rows, p, q)
    ensures exists i, j :: 0 <= i < j < |PlanOf(db, root)|
              && PlanOf(db, root)[i].streamRowId == p[|p| - 1].id && PlanOf(db, root)[j].streamRowId == q[|q| - 1].id
  {
    var trunk, plan := TrunkOf(db, root.swarm), PlanOf(db, root);
    NothingAbove(trunk);
    WalkOrder(db.rows, trunk, root, None, [], Ids(db.rows), [], p, q);
    assert [] + p == p && [] + q == q;
    var i, j :| 0 <= i < j < |plan| && plan[i] == EntryAt(trunk, p) && plan[j] == EntryAt(trunk, q);
  }
}
