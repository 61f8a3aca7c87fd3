/** What the stack-of-PRs plan lists, and how each entry's base and ancestors are resolved. */
module PrPlan {
  import opened Wrappers
  import opened Streams
  import opened PrStack

  function RowIds(ss: seq<Stream>): seq<string> {
    seq(|ss|, i requires 0 <= i < |ss| => ss[i].id)
  }

  /** The branch a row below the path `above` is based on: its nearest live ancestor's head, or trunk. */
  function NearestLiveHead(trunk: string, above: seq<Stream>): string {
    var live := LiveOf(above);
    if live == [] then trunk else HeadOf(live[|live| - 1])
  }

  /** The entry the plan owes to the last row of a path from the root. */
  function EntryAt(trunk: string, p: seq<Stream>): PrEntry
    requires p != []
  {
    var n, above := p[|p| - 1], p[..|p| - 1];
    PrEntry(n.id, n.streamId, n.name, n.status, HeadOf(n), NearestLiveHead(trunk, above), RowIds(LiveOf(above)))
  }

  /** The walk's arguments describe the path `above` it came down. */
  ghost predicate Describes(trunk: string, above: seq<Stream>, parent: Option<PrEntry>, ancestors: seq<string>) {
    ancestors == RowIds(LiveOf(above)) && BaseOf(trunk, parent) == NearestLiveHead(trunk, above)
  }

  lemma BelowDescribes(trunk: string, above: seq<Stream>, n: Stream, parent: Option<PrEntry>, ancestors: seq<string>)
    requires Describes(trunk, above, parent, ancestors)
    ensures var (parent', ancestors') := Below(trunk, n, parent, ancestors);
            Describes(trunk, above + [n], parent', ancestors')
    ensures MakeEntry(trunk, n, parent, ancestors) == EntryAt(trunk, above + [n])
  {
    var p, live := above + [n], LiveOf(above);
    assert p[..|p| - 1] == above && p[|p| - 1] == n;
    if Live(n) {
      assert LiveOf(p) == live + [n];
      assert RowIds(live + [n]) == RowIds(live) + [n.id];
      assert NearestLiveHead(trunk, p) == HeadOf(n);
    } else {
      assert LiveOf(p) == live + [] == live;
    }
  }

  lemma PrependRow(above: seq<Stream>, n: Stream, tail: seq<Stream>)
    ensures above + ([n] + tail) == above + [n] + tail
  {}

  /** A path below a child, kept off `n`, gives a path below `n`. */
  lemma PathThroughChild(rows: seq<Stream>, n: Stream, tail: seq<Stream>, avail: set<string>)
    requires n in rows && n.id in avail && PathIn(rows, tail, avail - {n.id}) && IsPrChild(n, tail[0]) && Distinct(tail)
    ensures var p := [n] + tail;
            PathIn(rows, p, avail) && p[|p| - 1] == tail[|tail| - 1] && Distinct(p)
  {
    assert PathIn(rows, tail, avail);
    PrependToPath(rows, n, tail, avail);
  }

  lemma {:induction false} WalkAllMember(rows: seq<Stream>, trunk: string, ns: seq<Stream>, parent: Option<PrEntry>,
                                         ancestors: seq<string>, avail: set<string>, e: PrEntry)
    ensures e in WalkAll(rows, trunk, ns, parent, ancestors, avail)
       <==> exists c :: c in ns && e in Walk(rows, trunk, c, parent, ancestors, avail)
    decreases |ns|
  {
    if ns != [] {
      var front, last := ns[..|ns| - 1], ns[|ns| - 1];
      WalkAllMember(rows, trunk, front, parent, ancestors, avail, e);
      assert ns == front + [last];
      if e in Walk(rows, trunk, last, parent, ancestors, avail) {
        assert last in ns;
      } else if c :| c in front && e in Walk(rows, trunk, c, parent, ancestors, avail) {
        assert c in ns;
      }
    }
  }

  /** An entry of a walk is the row's own or comes from the walk of one of its children. */
  lemma WalkMember(rows: seq<Stream>, trunk: string, n: Stream, parent: Option<PrEntry>,
                   ancestors: seq<string>, avail: set<string>, e: PrEntry)
    requires n.id in avail
    ensures var (parent', ancestors') := Below(trunk, n, parent, ancestors);
            e in Walk(rows, trunk, n, parent, ancestors, avail) <==>
              || (Live(n) && e == MakeEntry(trunk, n, parent, ancestors))
              || exists c :: && c in PrChildren(rows, n)
                             && e in Walk(rows, trunk, c, parent', ancestors', avail - {n.id})
  {
    WalkUnfolds(rows, trunk, n, parent, ancestors, avail);
    var (parent', ancestors') := Below(trunk, n, parent, ancestors);
    WalkAllMember(rows, trunk, PrChildren(rows, n), parent', ancestors', avail - {n.id}, e);
  }

  /** Every entry of a walk belongs to a live row reached by a path without repetition, and is that path's entry. */
  lemma {:induction false} WalkSound(rows: seq<Stream>, trunk: string, n: Stream, parent: Option<PrEntry>,
                                     ancestors: seq<string>, avail: set<string>, above: seq<Stream>, e: PrEntry)
    returns (p: seq<Stream>)
    requires n in rows && Describes(trunk, above, parent, ancestors)
    requires e in Walk(rows, trunk, n, parent, ancestors, avail)
    ensures PathIn(rows, p, avail) && p[0] == n && Distinct(p) && Live(p[|p| - 1])
    ensures e == EntryAt(trunk, above + p)
    decreases |avail|
  {
    BelowDescribes(trunk, above, n, parent, ancestors);
    WalkMember(rows, trunk, n, parent, ancestors, avail, e);
    if Live(n) && e == MakeEntry(trunk, n, parent, ancestors) {
      p := [n];
    } else {
      var rest := avail - {n.id};
      var (parent', ancestors') := Below(trunk, n, parent, ancestors);
      var c :| c in PrChildren(rows, n) && e in Walk(rows, trunk, c, parent', ancestors', rest);
      PrChildrenMember(rows, n, c);
      var tail := WalkSound(rows, trunk, c, parent', ancestors', rest, above + [n], e);
      PathThroughChild(rows, n, tail, avail);
      PrependRow(above, n, tail);
      p := [n] + tail;
    }
  }

  /** Every path without repetition to a live row has its entry in the walk. */
  lemma {:induction false} WalkComplete(rows: seq<Stream>, trunk: string, n: Stream, parent: Option<PrEntry>,
                                        ancestors: seq<string>, avail: set<string>, above: seq<Stream>, p: seq<Stream>)
    requires Describes(trunk, above, parent, ancestors)
    requires PathIn(rows, p, avail) && p[0] == n && Distinct(p) && Live(p[|p| - 1])
    ensures EntryAt(trunk, above + p) in Walk(rows, trunk, n, parent, ancestors, avail)
    decreases |p|
  {
    var e := EntryAt(trunk, above + p);
    BelowDescribes(trunk, above, n, parent, ancestors);
    WalkMember(rows, trunk, n, parent, ancestors, avail, e);
    if |p| == 1 {
      assert p == [n];
    } else {
      var rest, tail := avail - {n.id}, p[1..];
      var (parent', ancestors') := Below(trunk, n, parent, ancestors);
      assert PathIn(rows, tail, rest) && p == [n] + tail;
      WalkComplete(rows, trunk, tail[0], parent', ancestors', rest, above + [n], tail);
      PrependRow(above, n, tail);
      PrChildrenMember(rows, n, tail[0]);
    }
  }

  /** Cutting loops out of a path leaves a path without repetition between the same ends. */
  lemma {:induction false} SimplePath(rows: seq<Stream>, p: seq<Stream>, avail: set<string>) returns (s: seq<Stream>)
    requires KeysUnique(rows) && PathIn(rows, p, avail)
    ensures PathFromTo(rows, s, p[0], p[|p| - 1], avail) && Distinct(s)
    decreases |p|
  {
    if i :| 0 < i < |p| && p[i].id == p[0].id {
      RowOfId(rows, p[i], p[0]);
      assert PathIn(rows, p[i..], avail);
      s := SimplePath(rows, p[i..], avail);
    } else if |p| == 1 {
      s := p;
    } else {
      assert PathIn(rows, p[1..], avail - {p[0].id});
      var tail := SimplePath(rows, p[1..], avail - {p[0].id});
      PathThroughChild(rows, p[0], tail, avail);
      s := [p[0]] + tail;
    }
  }

  /** No row has two entries. */
  ghost predicate NoRowTwice(es: seq<PrEntry>) {
    forall i, j :: 0 <= i < j < |es| ==> es[i].streamRowId != es[j].streamRowId
  }

  lemma SiblingEntriesDiffer(rows: seq<Stream>, trunk: string, n: Stream, c: Stream, d: Stream, parent: Option<PrEntry>,
                             ancestors: seq<string>, avail: set<string>, above: seq<Stream>, e: PrEntry, f: PrEntry)
    requires KeysUnique(rows) && Describes(trunk, above, parent, ancestors)
    requires n in rows && n.id !in avail && c in rows && d in rows && IsPrChild(n, c) && IsPrChild(n, d) && c != d
    requires e in Walk(rows, trunk, c, parent, ancestors, avail) && f in Walk(rows, trunk, d, parent, ancestors, avail)
    ensures e.streamRowId != f.streamRowId
  {
    var p := WalkSound(rows, trunk, c, parent, ancestors, avail, above, e);
    var q := WalkSound(rows, trunk, d, parent, ancestors, avail, above, f);
    if e.streamRowId == f.streamRowId {
      RowOfId(rows, p[|p| - 1], q[|q| - 1]);
      SiblingsDisjoint(rows, n, c, d, p, q, p[|p| - 1], avail);
    }
  }

  lemma {:induction false} WalkNoRowTwice(rows: seq<Stream>, trunk: string, n: Stream, parent: Option<PrEntry>,
                                          ancestors: seq<string>, avail: set<string>, above: seq<Stream>)
    requires KeysUnique(rows) && n in rows && Describes(trunk, above, parent, ancestors)
    ensures NoRowTwice(Walk(rows, trunk, n, parent, ancestors, avail))
    decreases |avail|, 0, 0
  {
    if n.id in avail {
      var rest, kids := avail - {n.id}, PrChildren(rows, n);
      var (parent', ancestors') := Below(trunk, n, parent, ancestors);
      BelowDescribes(trunk, above, n, parent, ancestors);
      ChildrenDistinct(rows, n.swarm, n.streamId);
      forall c | c in kids ensures c in rows && IsPrChild(n, c) { PrChildrenMember(rows, n, c); }
      WalkAllNoRowTwice(rows, trunk, n, kids, parent', ancestors', rest, above + [n]);
      forall e | e in WalkAll(rows, trunk, kids, parent', ancestors', rest) ensures e.streamRowId != n.id {
        WalkAllMember(rows, trunk, kids, parent', ancestors', rest, e);
        var c :| c in kids && e in Walk(rows, trunk, c, parent', ancestors', rest);
        var p := WalkSound(rows, trunk, c, parent', ancestors', rest, above + [n], e);
        assert p[|p| - 1].id in rest;
      }
    }
  }

  lemma {:induction false} WalkAllNoRowTwice(rows: seq<Stream>, trunk: string, n: Stream, ns: seq<Stream>,
                                             parent: Option<PrEntry>, ancestors: seq<string>, avail: set<string>,
                                             above: seq<Stream>)
    requires KeysUnique(rows) && n in rows && n.id !in avail && Describes(trunk, above, parent, ancestors)
    requires Distinct(ns) && forall c :: c in ns ==> c in rows && IsPrChild(n, c)
    ensures NoRowTwice(WalkAll(rows, trunk, ns, parent, ancestors, avail))
    decreases |avail|, 1, |ns|
  {
    if ns != [] {
      var front, last := ns[..|ns| - 1], ns[|ns| - 1];
      WalkAllNoRowTwice(rows, trunk, n, front, parent, ancestors, avail, above);
      WalkNoRowTwice(rows, trunk, last, parent, ancestors, avail, above);
      forall e, f | e in WalkAll(rows, trunk, front, parent, ancestors, avail)
                    && f in Walk(rows, trunk, last, parent, ancestors, avail)
        ensures e.streamRowId != f.streamRowId
      {
        WalkAllMember(rows, trunk, front, parent, ancestors, avail, e);
        var c :| c in front && e in Walk(rows, trunk, c, parent, ancestors, avail);
        var i :| 0 <= i < |front| && front[i] == c;
        assert ns[i].id != last.id;
        SiblingEntriesDiffer(rows, trunk, n, c, last, parent, ancestors, avail, above, e, f);
      }
    }
  }

  /** Every ancestor an entry names is in `known` or has an earlier entry. */
  ghost predicate AncestorsBefore(es: seq<PrEntry>, known: set<string>) {
    forall i, a :: 0 <= i < |es| && a in es[i].ancestorRowIds ==>
      a in known || exists j :: 0 <= j < i && es[j].streamRowId == a
  }

  lemma AncestorsBeforeConcat(xs: seq<PrEntry>, ys: seq<PrEntry>, known: set<string>, known': set<string>)
    requires AncestorsBefore(xs, known) && AncestorsBefore(ys, known')
    requires forall a :: a in known' ==> a in known || exists j :: 0 <= j < |xs| && xs[j].streamRowId == a
    ensures AncestorsBefore(xs + ys, known)
  {
    var es := xs + ys;
    forall i, a | 0 <= i < |es| && a in es[i].ancestorRowIds && a !in known
      ensures exists j :: 0 <= j < i && es[j].streamRowId == a
    {
      if i < |xs| {
        var j :| 0 <= j < i && xs[j].streamRowId == a;
        assert es[j] == xs[j];
      } else {
        assert es[i] == ys[i - |xs|];
        if a in known' {
          var j :| 0 <= j < |xs| && xs[j].streamRowId == a;
          assert es[j] == xs[j];
        } else {
          var j :| 0 <= j < i - |xs| && ys[j].streamRowId == a;
          assert es[|xs| + j] == ys[j];
        }
      }
    }
  }

  lemma {:induction false} WalkAncestorsBefore(rows: seq<Stream>, trunk: string, n: Stream, parent: Option<PrEntry>,
                                               ancestors: seq<string>, avail: set<string>)
    ensures AncestorsBefore(Walk(rows, trunk, n, parent, ancestors, avail), set a | a in ancestors)
    decreases |avail|, 0, 0
  {
    if n.id in avail {
      var rest, kids := avail - {n.id}, PrChildren(rows, n);
      var (parent', ancestors') := Below(trunk, n, parent, ancestors);
      WalkAllAncestorsBefore(rows, trunk, kids, parent', ancestors', rest);
      if Live(n) {
        var entry := MakeEntry(trunk, n, parent, ancestors);
        assert [entry][0].streamRowId == n.id;
        AncestorsBeforeConcat([entry], WalkAll(rows, trunk, kids, parent', ancestors', rest),
                              set a | a in ancestors, set a | a in ancestors');
      }
    }
  }

  lemma {:induction false} WalkAllAncestorsBefore(rows: seq<Stream>, trunk: string, ns: seq<Stream>, parent: Option<PrEntry>,
                                                  ancestors: seq<string>, avail: set<string>)
    ensures AncestorsBefore(WalkAll(rows, trunk, ns, parent, ancestors, avail), set a | a in ancestors)
    decreases |avail|, 1, |ns|
  {
    if ns != [] {
      var front, last := ns[..|ns| - 1], ns[|ns| - 1];
      WalkAllAncestorsBefore(rows, trunk, front, parent, ancestors, avail);
      WalkAncestorsBefore(rows, trunk, last, parent, ancestors, avail);
      AncestorsBeforeConcat(WalkAll(rows, trunk, front, parent, ancestors, avail),
                            Walk(rows, trunk, last, parent, ancestors, avail),
                            set a | a in ancestors, set a | a in ancestors);
    }
  }

  // ---- the plan ----

  /** A path without repetition from the root of the walk down to `x`. */
  ghost predicate RootPath(db: Projection, root: Stream, x: Stream, p: seq<Stream>) {
    PathFromTo(db.rows, p, root, x, Ids(db.rows)) && Distinct(p)
  }

  lemma NothingAbove(trunk: string)
    ensures Describes(trunk, [], None, [])
  {
    assert RowIds(LiveOf([])) == [];
  }

  /** The plan lists exactly the live rows reachable from the root by parent edges, each once. */
  lemma PlanListsLiveReachable(db: Projection, root: Stream, x: Stream)
    requires KeysUnique(db.rows) && root in db.rows && x in db.rows
    ensures (exists e :: e in PlanOf(db, root) && e.streamRowId == x.id)
       <==> Live(x) && Reaches(db.rows, root, x, Ids(db.rows))
    ensures NoRowTwice(PlanOf(db, root))
  {
    var trunk := TrunkOf(db, root.swarm);
    NothingAbove(trunk);
    WalkNoRowTwice(db.rows, trunk, root, None, [], Ids(db.rows), []);
    if e :| e in PlanOf(db, root) && e.streamRowId == x.id {
      var p := WalkSound(db.rows, trunk, root, None, [], Ids(db.rows), [], e);
      assert [] + p == p;
      RowOfId(db.rows, p[|p| - 1], x);
      assert PathFromTo(db.rows, p, root, x, Ids(db.rows));
    }
    if Live(x) && Reaches(db.rows, root, x, Ids(db.rows)) {
      var walk :| PathFromTo(db.rows, walk, root, x, Ids(db.rows));
      var p := SimplePath(db.rows, walk, Ids(db.rows));
      PathEntryInPlan(db, root, x, p);
    }
  }

  lemma PathEntryInPlan(db: Projection, root: Stream, x: Stream, p: seq<Stream>)
    requires RootPath(db, root, x, p) && Live(x)
    ensures EntryAt(TrunkOf(db, root.swarm), p) in PlanOf(db, root)
    ensures EntryAt(TrunkOf(db, root.swarm), p).streamRowId == x.id
  {
    NothingAbove(TrunkOf(db, root.swarm));
    WalkComplete(db.rows, TrunkOf(db, root.swarm), root, None, [], Ids(db.rows), [], p);
    assert [] + p == p;
  }

  /** An entry's ancestors are the live rows above it on its path from the root, in order, however many
      skipped rows lie between; its base is the head of the last of them, or trunk. */
  lemma EntryFollowsPath(db: Projection, root: Stream, x: Stream, p: seq<Stream>, e: PrEntry)
    requires KeysUnique(db.rows) && root in db.rows && x in db.rows && RootPath(db, root, x, p)
    requires e in PlanOf(db, root) && e.streamRowId == x.id
    ensures var above := LiveOf(p[..|p| - 1]);
            && Live(x)
            && e == PrEntry(x.id, x.streamId, x.name, x.status, HeadOf(x),
                            if above == [] then TrunkOf(db, root.swarm) else HeadOf(above[|above| - 1]),
                            RowIds(above))
  {
    PlanListsLiveReachable(db, root, x);
    PathEntryInPlan(db, root, x, p);
    var f, plan := EntryAt(TrunkOf(db, root.swarm), p), PlanOf(db, root);
    var i :| 0 <= i < |plan| && plan[i] == e;
    var j :| 0 <= j < |plan| && plan[j] == f;
  }

  /** Every ancestor of an entry has an earlier entry in the plan. */
  lemma AncestorsComeFirst(db: Projection, root: Stream, i: nat, a: string)
    requires i < |PlanOf(db, root)| && a in PlanOf(db, root)[i].ancestorRowIds
    ensures exists j :: 0 <= j < i && PlanOf(db, root)[j].streamRowId == a
  {
    var none: seq<string> := [];
    var known := set b | b in none;
    var plan := PlanOf(db, root);
    WalkAncestorsBefore(db.rows, TrunkOf(db, root.swarm), root, None, none, Ids(db.rows));
    assert AncestorsBefore(plan, known) && a !in known;
    var j :| 0 <= j < i && plan[j].streamRowId == a;
  }
}
