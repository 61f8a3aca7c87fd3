/** The pruned, memoised walker of src/cascade/pr-stack-walker.ts, proved to compute the unpruned plan. */
module PrWalker {
  import opened Wrappers
  import opened Streams
  import opened PrStack

  // ---- what the memo records ----

  /** The row itself or some row below it is live. */
  ghost predicate LeadsToLive(rows: seq<Stream>, n: Stream) {
    exists p :: Witness(rows, n, p)
  }

  ghost predicate Witness(rows: seq<Stream>, n: Stream, p: seq<Stream>) {
    PathIn(rows, p, Ids(rows)) && p[0] == n && Live(p[|p| - 1])
  }

  lemma LiveLeads(rows: seq<Stream>, n: Stream)
    requires n in rows && Live(n)
    ensures LeadsToLive(rows, n)
  {
    assert Witness(rows, n, [n]);
  }

  lemma ChildLeads(rows: seq<Stream>, n: Stream, c: Stream)
    requires n in rows && IsPrChild(n, c) && LeadsToLive(rows, c)
    ensures LeadsToLive(rows, n)
  {
    var p :| Witness(rows, c, p);
    PrependToPath(rows, n, p, Ids(rows));
    assert Witness(rows, n, [n] + p);
  }

  lemma SkippedLeadsThroughChild(rows: seq<Stream>, n: Stream) returns (c: Stream)
    requires Skipped(n) && LeadsToLive(rows, n)
    ensures c in PrChildren(rows, n) && LeadsToLive(rows, c)
  {
    var p :| Witness(rows, n, p);
    c := p[1];
    assert Witness(rows, c, p[1..]);
    PrChildrenMember(rows, n, c);
  }

  /** Pruning loses nothing: a row that leads to no live row contributes no entry. */
  lemma {:induction false} DeadWalkIsEmpty(rows: seq<Stream>, trunk: string, n: Stream, parent: Option<PrEntry>,
                                           ancestors: seq<string>, avail: set<string>)
    requires n in rows && !LeadsToLive(rows, n)
    ensures Walk(rows, trunk, n, parent, ancestors, avail) == []
    decreases |avail|, 0, 0
  {
    if n.id in avail {
      if Live(n) { LiveLeads(rows, n); }
      var kids := PrChildren(rows, n);
      forall c | c in kids ensures c in rows && !LeadsToLive(rows, c) {
        PrChildrenMember(rows, n, c);
        if LeadsToLive(rows, c) { ChildLeads(rows, n, c); }
      }
      DeadWalksAreEmpty(rows, trunk, kids, parent, ancestors, avail - {n.id});
    }
  }

  lemma {:induction false} DeadWalksAreEmpty(rows: seq<Stream>, trunk: string, ns: seq<Stream>, parent: Option<PrEntry>,
                                             ancestors: seq<string>, avail: set<string>)
    requires forall c :: c in ns ==> c in rows && !LeadsToLive(rows, c)
    ensures WalkAll(rows, trunk, ns, parent, ancestors, avail) == []
    decreases |avail|, 1, |ns|
  {
    if ns != [] {
      DeadWalksAreEmpty(rows, trunk, ns[..|ns| - 1], parent, ancestors, avail);
      DeadWalkIsEmpty(rows, trunk, ns[|ns| - 1], parent, ancestors, avail);
    }
  }

  /** The children worth descending into. */
  ghost function Productive(rows: seq<Stream>, ns: seq<Stream>): seq<Stream> {
    if ns == [] then []
    else
      var last := ns[|ns| - 1];
      Productive(rows, ns[..|ns| - 1]) + (if LeadsToLive(rows, last) then [last] else [])
  }

  lemma {:induction false} ProductiveMember(rows: seq<Stream>, ns: seq<Stream>, c: Stream)
    ensures c in Productive(rows, ns) ==> c in ns
  {
    if ns != [] {
      ProductiveMember(rows, ns[..|ns| - 1], c);
    }
  }

  lemma {:induction false} ProductiveKeeps(rows: seq<Stream>, ns: seq<Stream>, c: Stream)
    requires c in ns && LeadsToLive(rows, c)
    ensures Productive(rows, ns) != []
  {
    var front, last := ns[..|ns| - 1], ns[|ns| - 1];
    assert ns == front + [last];
    if c != last { ProductiveKeeps(rows, front, c); }
  }

  lemma {:induction false} ProductiveLeads(rows: seq<Stream>, ns: seq<Stream>) returns (c: Stream)
    requires Productive(rows, ns) != []
    ensures c in ns && LeadsToLive(rows, c)
  {
    if LeadsToLive(rows, ns[|ns| - 1]) {
      c := ns[|ns| - 1];
    } else {
      c := ProductiveLeads(rows, ns[..|ns| - 1]);
    }
  }

  /** A skipped row leads to a live one exactly when some child does. */
  lemma SkippedLeads(rows: seq<Stream>, n: Stream)
    requires n in rows && Skipped(n)
    ensures LeadsToLive(rows, n) <==> Productive(rows, PrChildren(rows, n)) != []
  {
    if LeadsToLive(rows, n) {
      var c := SkippedLeadsThroughChild(rows, n);
      ProductiveKeeps(rows, PrChildren(rows, n), c);
    }
    if Productive(rows, PrChildren(rows, n)) != [] {
      var c := ProductiveLeads(rows, PrChildren(rows, n));
      PrChildrenMember(rows, n, c);
      ChildLeads(rows, n, c);
    }
  }

  lemma {:induction false} ProductiveDistinct(rows: seq<Stream>, ns: seq<Stream>)
    requires Distinct(ns)
    ensures Distinct(Productive(rows, ns))
  {
    if ns != [] {
      var front, last := ns[..|ns| - 1], ns[|ns| - 1];
      ProductiveDistinct(rows, front);
      forall c | c in Productive(rows, front) ensures c.id != last.id {
        ProductiveMember(rows, front, c);
        var i :| 0 <= i < |front| && front[i] == c;
      }
    }
  }

  lemma {:induction false} PruningLosesNothing(rows: seq<Stream>, trunk: string, ns: seq<Stream>, parent: Option<PrEntry>,
                                               ancestors: seq<string>, avail: set<string>)
    requires forall c :: c in ns ==> c in rows
    ensures WalkAll(rows, trunk, Productive(rows, ns), parent, ancestors, avail)
         == WalkAll(rows, trunk, ns, parent, ancestors, avail)
    decreases |ns|
  {
    if ns != [] {
      var front, last := ns[..|ns| - 1], ns[|ns| - 1];
      PruningLosesNothing(rows, trunk, front, parent, ancestors, avail);
      if LeadsToLive(rows, last) {
        assert (Productive(rows, front) + [last])[..|Productive(rows, front)|] == Productive(rows, front);
      } else {
        DeadWalkIsEmpty(rows, trunk, last, parent, ancestors, avail);
        assert Productive(rows, ns) == Productive(rows, front);
      }
    }
  }

  // ---- why the unguarded helper ends ----

  /** Asked about `n`, the helper asks about `c` in turn: `n` is skipped, and no child before `c` leads to a live
      row, so `some` does not stop before it. */
  ghost predicate Asks(rows: seq<Stream>, n: Stream, c: Stream) {
    && n in rows && Skipped(n)
    && exists i :: IsAskedAt(rows, PrChildren(rows, n), c, i)
  }

  ghost predicate IsAskedAt(rows: seq<Stream>, kids: seq<Stream>, c: Stream, i: int) {
    0 <= i < |kids| && kids[i] == c && forall j :: 0 <= j < i ==> !LeadsToLive(rows, kids[j])
  }

  /** The helper gets from `n` to `x` in `k` nested questions. */
  ghost predicate AskPath(rows: seq<Stream>, n: Stream, x: Stream, k: nat)
    decreases k
  {
    if k == 0 then n == x else exists c :: Asks(rows, n, c) && AskPath(rows, c, x, k - 1)
  }

  /** The helper comes back to its own question: `n` is on a cycle of skipped rows on which no row lists a child
      that leads to a live row before its child on the cycle. */
  ghost predicate Stuck(rows: seq<Stream>, n: Stream) {
    exists k: nat :: k > 0 && AskPath(rows, n, n, k)
  }

  lemma AskedIsChild(rows: seq<Stream>, n: Stream, c: Stream)
    requires Asks(rows, n, c)
    ensures c in rows && IsPrChild(n, c)
  {
    PrChildrenMember(rows, n, c);
  }

  lemma {:induction false} LastQuestion(rows: seq<Stream>, n: Stream, x: Stream, k: nat) returns (m: Stream)
    requires k > 0 && AskPath(rows, n, x, k)
    ensures AskPath(rows, n, m, k - 1) && Asks(rows, m, x)
    decreases k
  {
    hide Asks;
    var c :| Asks(rows, n, c) && AskPath(rows, c, x, k - 1);
    if k == 1 {
      m := n;
    } else {
      m := LastQuestion(rows, c, x, k - 1);
    }
  }

  /** Parents are unique, so whoever has a stuck child is stuck with it. */
  lemma StuckParent(rows: seq<Stream>, n: Stream, c: Stream)
    requires KeysUnique(rows) && n in rows && IsPrChild(n, c) && Stuck(rows, c)
    ensures Asks(rows, n, c) && Stuck(rows, n)
  {
    var k: nat :| k > 0 && AskPath(rows, c, c, k);
    var m := LastQuestion(rows, c, c, k);
    AskedIsChild(rows, m, c);
    ParentUnique(rows, m, n, c);
    assert AskPath(rows, n, n, k);
  }

  /** No row at or below `n` is stuck. */
  ghost predicate Safe(rows: seq<Stream>, n: Stream) {
    forall x :: Reaches(rows, n, x, Ids(rows)) ==> !Stuck(rows, x)
  }

  lemma {:induction false} PathNotStuck(rows: seq<Stream>, p: seq<Stream>, i: nat)
    requires KeysUnique(rows) && PathIn(rows, p, Ids(rows)) && !Stuck(rows, p[0]) && i < |p|
    ensures !Stuck(rows, p[i])
  {
    if i > 0 {
      PathNotStuck(rows, p, i - 1);
      assert IsPrChild(p[i - 1], p[i]);
      if Stuck(rows, p[i]) { StuckParent(rows, p[i - 1], p[i]); }
    }
  }

  /** A walk can only meet a stuck row if it starts at one. */
  lemma SafeExactly(rows: seq<Stream>, n: Stream)
    requires KeysUnique(rows) && n in rows
    ensures Safe(rows, n) <==> !Stuck(rows, n)
  {
    assert PathFromTo(rows, [n], n, n, Ids(rows));
    if !Stuck(rows, n) {
      forall x | Reaches(rows, n, x, Ids(rows)) ensures !Stuck(rows, x) {
        var p :| PathFromTo(rows, p, n, x, Ids(rows));
        PathNotStuck(rows, p, |p| - 1);
      }
    }
  }

  lemma SafeChild(rows: seq<Stream>, n: Stream, c: Stream)
    requires Safe(rows, n) && n in rows && IsPrChild(n, c)
    ensures Safe(rows, c)
  {
    forall x | Reaches(rows, c, x, Ids(rows)) ensures !Stuck(rows, x) {
      var p :| PathFromTo(rows, p, c, x, Ids(rows));
      PrependToPath(rows, n, p, Ids(rows));
      assert PathFromTo(rows, [n] + p, n, x, Ids(rows));
    }
  }

  lemma ChildrenNotStuck(rows: seq<Stream>, n: Stream)
    requires Safe(rows, n) && n in rows
    ensures forall c :: c in PrChildren(rows, n) ==> !Stuck(rows, c)
  {
    forall c | c in PrChildren(rows, n) ensures !Stuck(rows, c) {
      PrChildrenMember(rows, n, c);
      SafeChild(rows, n, c);
      assert PathFromTo(rows, [c], c, c, Ids(rows));
    }
  }

  ghost function AskReach(rows: seq<Stream>, n: Stream): set<Stream> {
    set x | x in rows && exists k: nat :: AskPath(rows, n, x, k)
  }

  /** How deep the helper can still go from `n`. */
  ghost function AskRank(rows: seq<Stream>, n: Stream): nat {
    |AskReach(rows, n)|
  }

  /** Off such cycles the rank falls with each nested question, and the question stays off them. */
  lemma AskRankDecreases(rows: seq<Stream>, n: Stream, c: Stream)
    requires KeysUnique(rows) && Asks(rows, n, c) && !Stuck(rows, n)
    ensures !Stuck(rows, c) && AskRank(rows, c) < AskRank(rows, n)
  {
    AskedIsChild(rows, n, c);
    if Stuck(rows, c) { StuckParent(rows, n, c); }
    forall x | x in AskReach(rows, c) ensures x in AskReach(rows, n) && x != n {
      var k: nat :| AskPath(rows, c, x, k);
      assert AskPath(rows, n, x, k + 1);
    }
    assert AskPath(rows, n, n, 0);
    assert n in AskReach(rows, n);
    SubsetIsSmaller(AskReach(rows, c), AskReach(rows, n));
  }

  /** While no child so far leads to a live row, `some` asks about the next one. */
  lemma NextIsAsked(rows: seq<Stream>, n: Stream, i: nat)
    requires n in rows && Skipped(n) && i < |PrChildren(rows, n)| && Productive(rows, PrChildren(rows, n)[..i]) == []
    ensures Asks(rows, n, PrChildren(rows, n)[i])
  {
    var kids := PrChildren(rows, n);
    forall j | 0 <= j < i ensures !LeadsToLive(rows, kids[j]) {
      assert kids[j] in kids[..i];
      if LeadsToLive(rows, kids[j]) { ProductiveKeeps(rows, kids[..i], kids[j]); }
    }
    assert IsAskedAt(rows, kids, kids[i], i);
  }

  lemma {:induction false} SubsetIsSmaller<T>(a: set<T>, b: set<T>)
    requires a < b
    ensures |a| < |b|
  {
    var x :| x in b && x !in a;
    if a != {} {
      var y :| y in a;
      SubsetIsSmaller(a - {y}, b - {y});
    }
  }

  // ---- the walker ----

  /** `buildChildrenIndex`: parent stream id to children, for one swarm. */
  method BuildChildrenIndex(rows: seq<Stream>, swarm: string) returns (index: map<string, seq<Stream>>)
    ensures Indexes(index, rows, swarm)
  {
    index := map[];
    for i := 0 to |rows|
      invariant Indexes(index, rows[..i], swarm)
    {
      assert rows[..i + 1][..i] == rows[..i];
      var r := rows[i];
      if r.swarm != swarm { continue; }
      if r.parent.None? || r.parent.value == "" { continue; }
      var list := if r.parent.value in index then index[r.parent.value] else [];
      index := index[r.parent.value := list + [r]];
    }
    assert rows[..|rows|] == rows;
  }

  ghost predicate Indexes(index: map<string, seq<Stream>>, rows: seq<Stream>, swarm: string) {
    forall id: string :: id != "" ==> (if id in index then index[id] else []) == ChildrenOf(rows, swarm, id)
  }

  ghost predicate Remembers(rows: seq<Stream>, memo: map<string, bool>) {
    forall n :: n in rows && n.id in memo ==> memo[n.id] == LeadsToLive(rows, n)
  }

  lemma RemembersMore(rows: seq<Stream>, memo: map<string, bool>, n: Stream)
    requires KeysUnique(rows) && Remembers(rows, memo) && n in rows
    ensures Remembers(rows, memo[n.id := LeadsToLive(rows, n)])
  {
    forall m | m in rows && m.id == n.id ensures m == n { RowOfId(rows, m, n); }
  }

  // ---- what the visited set tells ----

  /** Every row on the path from the root has been visited. */
  ghost predicate PathVisited(rows: seq<Stream>, visited: set<string>, avail: set<string>) {
    forall s :: s in rows && s.id !in avail ==> s.id in visited
  }

  /** No row at or below `n` has been visited. */
  ghost predicate NoneVisited(rows: seq<Stream>, visited: set<string>, n: Stream, avail: set<string>) {
    forall x :: x in rows && Reaches(rows, n, x, avail) ==> x.id !in visited
  }

  /** Only rows at or below the given ones were visited since `before`. */
  ghost predicate VisitsOnly(rows: seq<Stream>, before: set<string>, after: set<string>, ns: seq<Stream>, avail: set<string>) {
    && before <= after
    && forall x :: x in rows && x.id in after && x.id !in before ==> exists n :: n in ns && Reaches(rows, n, x, avail)
  }

  lemma VisitedIffOnPath(rows: seq<Stream>, visited: set<string>, n: Stream, avail: set<string>)
    requires n in rows && PathVisited(rows, visited, avail) && NoneVisited(rows, visited, n, avail)
    ensures n.id in visited <==> n.id !in avail
  {
    if n.id in avail {
      assert PathFromTo(rows, [n], n, n, avail);
    }
  }

  lemma ReachesThroughChild(rows: seq<Stream>, n: Stream, c: Stream, x: Stream, avail: set<string>)
    requires n in rows && n.id in avail && IsPrChild(n, c) && Reaches(rows, c, x, avail - {n.id})
    ensures Reaches(rows, n, x, avail) && x.id != n.id
  {
    var p :| PathFromTo(rows, p, c, x, avail - {n.id});
    assert PathIn(rows, p, avail);
    PrependToPath(rows, n, p, avail);
    assert PathFromTo(rows, [n] + p, n, x, avail);
  }

  /** Marking `n` and going down to a child keeps the walk's assumptions. */
  lemma EnterChild(rows: seq<Stream>, visited: set<string>, n: Stream, c: Stream, avail: set<string>)
    requires KeysUnique(rows) && n in rows && n.id in avail && IsPrChild(n, c)
    requires NoneVisited(rows, visited, n, avail)
    ensures NoneVisited(rows, visited + {n.id}, c, avail - {n.id})
  {
    forall x | x in rows && Reaches(rows, c, x, avail - {n.id}) ensures x.id !in visited + {n.id} {
      ReachesThroughChild(rows, n, c, x, avail);
    }
  }

  /** Walking one child leaves its siblings unvisited. */
  lemma SiblingStaysUnvisited(rows: seq<Stream>, before: set<string>, after: set<string>, n: Stream, c: Stream,
                              d: Stream, rest: set<string>)
    requires KeysUnique(rows) && n in rows && n.id !in rest && IsPrChild(n, c) && IsPrChild(n, d) && c != d
    requires VisitsOnly(rows, before, after, [c], rest) && NoneVisited(rows, before, d, rest)
    ensures NoneVisited(rows, after, d, rest)
  {
    forall x | x in rows && Reaches(rows, d, x, rest) ensures x.id !in after {
      if x.id in after {
        var q :| PathFromTo(rows, q, d, x, rest);
        var p :| PathFromTo(rows, p, c, x, rest);
        SiblingsDisjoint(rows, n, c, d, p, q, x, rest);
      }
    }
  }

  lemma VisitsNothing(rows: seq<Stream>, visited: set<string>, ns: seq<Stream>, avail: set<string>)
    ensures VisitsOnly(rows, visited, visited, ns, avail)
  {}

  lemma StillVisited(rows: seq<Stream>, before: set<string>, after: set<string>, ns: seq<Stream>, avail: set<string>,
                     rest: set<string>)
    requires PathVisited(rows, before, rest) && VisitsOnly(rows, before, after, ns, avail)
    ensures PathVisited(rows, after, rest)
  {}

  lemma VisitsOneMore(rows: seq<Stream>, v0: set<string>, v1: set<string>, v2: set<string>, ns: seq<Stream>, c: Stream,
                      rest: set<string>)
    requires VisitsOnly(rows, v0, v1, ns, rest) && VisitsOnly(rows, v1, v2, [c], rest)
    ensures VisitsOnly(rows, v0, v2, ns + [c], rest)
  {
    forall x | x in rows && x.id in v2 && x.id !in v0
      ensures exists m :: m in ns + [c] && Reaches(rows, m, x, rest)
    {
      if x.id in v1 {
        var m :| m in ns && Reaches(rows, m, x, rest);
        assert m in ns + [c];
      } else {
        assert c in ns + [c];
      }
    }
  }

  /** What was visited below the children of `n`, and `n` itself, lies at or below `n`. */
  lemma LeaveNode(rows: seq<Stream>, before: set<string>, after: set<string>, n: Stream, ns: seq<Stream>, avail: set<string>)
    requires KeysUnique(rows) && n in rows && n.id in avail && forall c :: c in ns ==> IsPrChild(n, c)
    requires VisitsOnly(rows, before + {n.id}, after, ns, avail - {n.id})
    ensures VisitsOnly(rows, before, after, [n], avail)
  {
    forall x | x in rows && x.id in after && x.id !in before ensures Reaches(rows, n, x, avail) {
      if x.id == n.id {
        RowOfId(rows, x, n);
        assert PathFromTo(rows, [n], n, n, avail);
      } else {
        var c :| c in ns && Reaches(rows, c, x, avail - {n.id});
        ReachesThroughChild(rows, n, c, x, avail);
      }
    }
  }

  /** One walk's state: the entries emitted, the rows visited, and the memo of `leadsToLive`. */
  class Walker {
    const rows: seq<Stream>
    const swarm: string
    const trunk: string
    const childrenByParentStreamId: map<string, seq<Stream>>
    var leadsToLiveCache: map<string, bool>
    var visited: set<string>
    var entries: seq<PrEntry>

    ghost predicate Valid()
      reads this`leadsToLiveCache
    {
      && KeysUnique(rows)
      && Indexes(childrenByParentStreamId, rows, swarm)
      && Remembers(rows, leadsToLiveCache)
    }

    constructor (rows: seq<Stream>, swarm: string, trunk: string, index: map<string, seq<Stream>>)
      requires KeysUnique(rows) && Indexes(index, rows, swarm)
      ensures Valid() && entries == [] && visited == {} && fresh(this)
      ensures this.rows == rows && this.swarm == swarm && this.trunk == trunk
    {
      this.rows, this.swarm, this.trunk, childrenByParentStreamId := rows, swarm, trunk, index;
      leadsToLiveCache, visited, entries := map[], {}, [];
    }

    function Children(n: Stream): seq<Stream> {
      if n.streamId != "" && n.streamId in childrenByParentStreamId
      then childrenByParentStreamId[n.streamId] else []
    }

    lemma ChildrenAreRows(n: Stream)
      requires Indexes(childrenByParentStreamId, rows, swarm) && n.swarm == swarm
      ensures Children(n) == PrChildren(rows, n)
      ensures forall c :: c in Children(n) ==> c in rows && c.swarm == swarm && IsPrChild(n, c)
    {
      forall c | c in PrChildren(rows, n) ensures c in rows && IsPrChild(n, c) { PrChildrenMember(rows, n, c); }
    }

    /** `leadsToLive`: memoised; has no guard against cycles, and ends wherever it is not stuck. */
    method LeadsToLiveMemo(node: Stream) returns (result: bool)
      requires Valid() && node in rows && node.swarm == swarm && !Stuck(rows, node)
      modifies this`leadsToLiveCache
      ensures Valid() && result == LeadsToLive(rows, node)
      decreases AskRank(rows, node), 1
    {
      hide KeysUnique, Indexes, LeadsToLive, AskRank, Asks, Stuck;
      if node.id in leadsToLiveCache { return leadsToLiveCache[node.id]; }
      if node.status !in SKIP_STATUSES {
        LiveLeads(rows, node);
        Remember(node, true);
        return true;
      }
      ChildrenAreRows(node);
      var children := Children(node);
      result := false;
      var i := 0;
      while i < |children| && !result
        invariant 0 <= i <= |children| && Valid()
        invariant result == (Productive(rows, children[..i]) != [])
        invariant result ==> Productive(rows, children) != []
      {
        assert children[..i + 1][..i] == children[..i];
        NextIsAsked(rows, node, i);
        AskRankDecreases(rows, node, children[i]);
        result := LeadsToLiveMemo(children[i]);
        if result { ProductiveKeeps(rows, children, children[i]); }
        i := i + 1;
      }
      assert children[..|children|] == children;
      SkippedLeads(rows, node);
      Remember(node, result);
    }

    method Remember(node: Stream, result: bool)
      requires Valid() && node in rows && result == LeadsToLive(rows, node)
      modifies this`leadsToLiveCache
      ensures Valid()
    {
      RemembersMore(rows, leadsToLiveCache, node);
      leadsToLiveCache := leadsToLiveCache[node.id := result];
    }

    /** `allChildren.filter(leadsToLive)`. */
    method ProductiveChildren(node: Stream) returns (kept: seq<Stream>)
      requires Valid() && node in rows && node.swarm == swarm
      requires forall c :: c in PrChildren(rows, node) ==> !Stuck(rows, c)
      modifies this`leadsToLiveCache
      ensures Valid() && kept == Productive(rows, PrChildren(rows, node))
    {
      hide KeysUnique, Indexes, LeadsToLive, Remembers, Stuck;
      ChildrenAreRows(node);
      var all := Children(node);
      kept := [];
      for i := 0 to |all|
        invariant Valid() && kept == Productive(rows, all[..i])
      {
        assert all[..i + 1][..i] == all[..i];
        var leads := LeadsToLiveMemo(all[i]);
        if leads { kept := kept + [all[i]]; }
      }
      assert all[..|all|] == all;
    }

    /** `descend`: appends the walk below `node`; `avail` holds the ids not on its path from the root. */
    method Descend(node: Stream, parentEntry: Option<PrEntry>, ancestors: seq<string>, ghost avail: set<string>)
      requires Valid() && node in rows && node.swarm == swarm && Safe(rows, node)
      requires PathVisited(rows, visited, avail) && NoneVisited(rows, visited, node, avail)
      modifies this
      ensures Valid()
      ensures entries == old(entries) + Walk(rows, trunk, node, parentEntry, ancestors, avail)
      ensures VisitsOnly(rows, old(visited), visited, [node], avail)
      decreases |avail|, 0
    {
      hide Safe, Stuck, NoneVisited, VisitsOnly, Remembers, Indexes, KeysUnique, Productive, Walk, WalkAll;
      VisitedIffOnPath(rows, visited, node, avail);
      if node.id in visited {
        WalkOffPath(rows, trunk, node, parentEntry, ancestors, avail);
        VisitsNothing(rows, visited, [node], avail);
        return;
      }
      visited := visited + {node.id};
      ChildrenNotStuck(rows, node);
      var productive := ProductiveChildren(node);
      var childEntry, childAncestors := parentEntry, ancestors;
      if node.status !in SKIP_STATUSES {
        var entry := PrEntry(node.id, node.streamId, node.name, node.status, HeadOf(node),
                             if parentEntry.Some? then parentEntry.value.headBranch else trunk, ancestors);
        entries := entries + [entry];
        childEntry, childAncestors := Some(entry), ancestors + [node.id];
      }
      ghost var kids := PrChildren(rows, node);
      WalkUnfolds(rows, trunk, node, parentEntry, ancestors, avail);
      ProductiveAreChildren(node, productive);
      forall c | c in productive ensures NoneVisited(rows, visited, c, avail - {node.id}) {
        EnterChild(rows, old(visited), node, c, avail);
      }
      DescendAll(node, productive, childEntry, childAncestors, avail - {node.id});
      PruningLosesNothing(rows, trunk, kids, childEntry, childAncestors, avail - {node.id});
      LeaveNode(rows, old(visited), visited, node, productive, avail);
    }

    lemma ProductiveAreChildren(node: Stream, kept: seq<Stream>)
      requires Valid() && node.swarm == swarm && kept == Productive(rows, PrChildren(rows, node))
      ensures Distinct(kept)
      ensures forall c :: c in PrChildren(rows, node) ==> c in rows
      ensures forall c :: c in kept ==> c in rows && c.swarm == swarm && IsPrChild(node, c)
    {
      ChildrenAreRows(node);
      ChildrenDistinct(rows, node.swarm, node.streamId);
      ProductiveDistinct(rows, PrChildren(rows, node));
      forall c | c in kept ensures c in PrChildren(rows, node) {
        ProductiveMember(rows, PrChildren(rows, node), c);
      }
    }

    /** The loop over the productive children of `node`. */
    method DescendAll(ghost node: Stream, children: seq<Stream>, parentEntry: Option<PrEntry>,
                      ancestors: seq<string>, ghost rest: set<string>)
      requires Valid() && node in rows && Safe(rows, node) && node.id !in rest && Distinct(children)
      requires forall c :: c in children ==> c in rows && c.swarm == swarm && IsPrChild(node, c)
      requires PathVisited(rows, visited, rest)
      requires forall c :: c in children ==> NoneVisited(rows, visited, c, rest)
      modifies this
      ensures Valid()
      ensures entries == old(entries) + WalkAll(rows, trunk, children, parentEntry, ancestors, rest)
      ensures VisitsOnly(rows, old(visited), visited, children, rest)
      decreases |rest|, 1
    {
      hide Safe, PathVisited, NoneVisited, VisitsOnly, Remembers, Indexes, KeysUnique, Walk;
      VisitsNothing(rows, visited, children[..0], rest);
      for i := 0 to |children|
        invariant Valid() && PathVisited(rows, visited, rest)
        invariant entries == old(entries) + WalkAll(rows, trunk, children[..i], parentEntry, ancestors, rest)
        invariant VisitsOnly(rows, old(visited), visited, children[..i], rest)
        invariant forall k :: i <= k < |children| ==> NoneVisited(rows, visited, children[k], rest)
      {
        var child := children[i];
        ghost var before := visited;
        assert children[..i + 1][..i] == children[..i] && children[..i + 1] == children[..i] + [child];
        SafeChild(rows, node, child);
        Descend(child, parentEntry, ancestors, rest);
        VisitsOneMore(rows, old(visited), before, visited, children[..i], child, rest);
        StillVisited(rows, before, visited, [child], rest, rest);
        forall k | i < k < |children| ensures NoneVisited(rows, visited, children[k], rest) {
          SiblingStaysUnvisited(rows, before, visited, node, child, children[k], rest);
        }
      }
      assert children[..|children|] == children;
    }
  }

  /** `doBuildPRStackPlan`, from any root but one at which the helper never ends. */
  method BuildPrStackPlan(db: Projection, rootRowId: string) returns (r: PlanResult)
    requires KeysUnique(db.rows)
    requires var root := FindByRowId(db.rows, rootRowId); root.Some? ==> !Stuck(db.rows, root.value)
    ensures r == match FindByRowId(db.rows, rootRowId)
                 case None => RootNotFound(rootRowId)
                 case Some(root) => Plan(PlanOf(db, root), TrunkOf(db, root.swarm))
  {
    var root := FindByRowId(db.rows, rootRowId);
    if root.None? { return RootNotFound(rootRowId); }
    var trunk := TrunkOf(db, root.value.swarm);
    var index := BuildChildrenIndex(db.rows, root.value.swarm);
    var walker := new Walker(db.rows, root.value.swarm, trunk, index);
    SafeExactly(db.rows, root.value);
    walker.Descend(root.value, None, [], Ids(db.rows));
    return Plan(walker.entries, trunk);
  }
}
