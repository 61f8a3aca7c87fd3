/** The two walkers over one projection: a linear chain is a spine of the stack-of-PRs plan. */
module StackRelation {
  import opened Wrappers
  import opened Streams
  import opened LinearStack
  import opened PrStack
  import opened PrPlan

  lemma {:induction false} LiveOfAllLive(p: seq<Stream>)
    requires forall i :: 0 <= i < |p| ==> Live(p[i])
    ensures LiveOf(p) == p
  {
    if p != [] {
      LiveOfAllLive(p[..|p| - 1]);
    }
  }

  /** Every row of the chain but the last has a stream id that the children index does not skip. */
  ghost predicate Indexed(chain: seq<Stream>) {
    forall i :: 0 <= i < |chain| - 1 ==> chain[i].streamId != ""
  }

  /** A sole-child walk from a live root, with every step of it indexed. */
  ghost predicate LiveChain(db: Projection, chain: seq<Stream>) {
    && KeysUnique(db.rows)
    && SoleChildPath(db.rows, chain)
    && Live(chain[0])
    && Indexed(chain)
  }

  /** Each row of the chain is live and reached by the chain itself. */
  lemma ChainIsRootPath(db: Projection, chain: seq<Stream>, i: nat)
    requires LiveChain(db, chain) && i < |chain|
    ensures RootPath(db, chain[0], chain[i], chain[..i + 1])
    ensures forall k :: 0 <= k <= i ==> Live(chain[k])
  {
    var p := chain[..i + 1];
    forall k | 0 <= k < |p| ensures p[k] in db.rows && p[k].id in Ids(db.rows) && Live(p[k]) {
      if k > 0 { StepIsPrChild(db, chain, k - 1); }
    }
    forall k | 0 <= k < |p| - 1 ensures IsPrChild(p[k], p[k + 1]) { StepIsPrChild(db, chain, k); }
  }

  lemma StepIsPrChild(db: Projection, chain: seq<Stream>, k: nat)
    requires LiveChain(db, chain) && k < |chain| - 1
    ensures IsPrChild(chain[k], chain[k + 1]) && Live(chain[k + 1])
  {
    assert chain[k + 1] in ActiveChildren(db.rows, chain[k]);
    ActiveChildrenMember(db.rows, chain[k], chain[k + 1]);
  }

  /** The plan's entry for a row of the chain: based on its predecessor, below every earlier row. */
  lemma ChainEntry(db: Projection, chain: seq<Stream>, i: nat) returns (at: nat)
    requires LiveChain(db, chain) && i < |chain|
    ensures at < |PlanOf(db, chain[0])|
    ensures var e := PlanOf(db, chain[0])[at];
            && e.streamRowId == chain[i].id
            && e.headBranch == HeadOf(chain[i])
            && e.baseBranch == (if i == 0 then TrunkOf(db, chain[0].swarm) else HeadOf(chain[i - 1]))
            && e.ancestorRowIds == RowIds(chain[..i])
  {
    ChainIsRootPath(db, chain, i);
    PathEntryInPlan(db, chain[0], chain[i], chain[..i + 1]);
    assert chain[..i + 1][..i] == chain[..i];
    LiveOfAllLive(chain[..i]);
    var plan, e := PlanOf(db, chain[0]), EntryAt(TrunkOf(db, chain[0].swarm), chain[..i + 1]);
    at :| 0 <= at < |plan| && plan[at] == e;
  }

  /** Positions in a plan at which the start of the chain appears, in order, each row based on the one before. */
  ghost predicate Spine(plan: seq<PrEntry>, trunk: string, chain: seq<Stream>, at: seq<nat>) {
    && |at| <= |chain|
    && (forall i :: 0 <= i < |at| ==> at[i] < |plan| && plan[at[i]].streamRowId == chain[i].id)
    && (at != [] ==> plan[at[0]].baseBranch == trunk)
    && (forall i, j :: 0 <= i < |at| && j == i + 1 < |at| ==> plan[at[j]].baseBranch == plan[at[i]].headBranch)
    && (forall i, j :: 0 <= i < j < |at| ==> at[i] < at[j])
  }

  lemma SpineExtends(plan: seq<PrEntry>, trunk: string, chain: seq<Stream>, before: seq<nat>, k: nat)
    requires Spine(plan, trunk, chain, before) && 0 < |before| < |chain|
    requires before[|before| - 1] < k < |plan| && plan[k].streamRowId == chain[|before|].id
    requires plan[k].baseBranch == plan[before[|before| - 1]].headBranch
    ensures Spine(plan, trunk, chain, before + [k])
  {
    var after := before + [k];
    forall i, j | 0 <= i < |after| && j == i + 1 < |after|
      ensures plan[after[j]].baseBranch == plan[after[i]].headBranch
    {
      assert after[i] == before[i];
      assert j < |before| ==> after[j] == before[j];
    }
  }

  /** A row of the chain has its entry after its predecessor's. */
  lemma PredecessorEarlier(db: Projection, chain: seq<Stream>, i: nat, before: nat, k: nat)
    requires LiveChain(db, chain) && 0 < i < |chain|
    requires before < |PlanOf(db, chain[0])| && PlanOf(db, chain[0])[before].streamRowId == chain[i - 1].id
    requires k < |PlanOf(db, chain[0])| && PlanOf(db, chain[0])[k].ancestorRowIds == RowIds(chain[..i])
    ensures before < k
  {
    var plan, above := PlanOf(db, chain[0]), chain[i - 1];
    assert RowIds(chain[..i])[i - 1] == above.id;
    AncestorsComeFirst(db, chain[0], k, above.id);
    var j :| 0 <= j < k && plan[j].streamRowId == above.id;
    PlanListsLiveReachable(db, chain[0], above);
    assert NoRowTwice(plan);
  }

  lemma {:induction false} SpineUpTo(db: Projection, chain: seq<Stream>, n: nat) returns (at: seq<nat>)
    requires LiveChain(db, chain) && 0 < n <= |chain|
    ensures |at| == n && Spine(PlanOf(db, chain[0]), TrunkOf(db, chain[0].swarm), chain, at)
    ensures PlanOf(db, chain[0])[at[n - 1]].headBranch == HeadOf(chain[n - 1])
  {
    var k := ChainEntry(db, chain, n - 1);
    if n == 1 {
      at := [k];
    } else {
      var before := SpineUpTo(db, chain, n - 1);
      PredecessorEarlier(db, chain, n - 1, before[n - 2], k);
      SpineExtends(PlanOf(db, chain[0]), TrunkOf(db, chain[0].swarm), chain, before, k);
      at := before + [k];
    }
  }

  lemma EmptyParentNotReached(rows: seq<Stream>, root: Stream, x: Stream, avail: set<string>)
    requires x.parent == Some("") && root != x
    ensures !Reaches(rows, root, x, avail)
  {
    forall p ensures !PathFromTo(rows, p, root, x, avail) {
      if |p| > 1 { assert !IsPrChild(p[|p| - 2], x); }
    }
  }

  /** The plan reaches a row only through a parent with a non-empty stream id. */
  lemma UnindexedNotInPlan(db: Projection, chain: seq<Stream>, i: nat, e: PrEntry)
    requires KeysUnique(db.rows) && SoleChildPath(db.rows, chain) && i < |chain| - 1 && chain[i].streamId == ""
    requires e in PlanOf(db, chain[0])
    ensures e.streamRowId != chain[i + 1].id
  {
    var root, x := chain[0], chain[i + 1];
    assert x in ActiveChildren(db.rows, chain[i]);
    ActiveChildrenMember(db.rows, chain[i], x);
    PlanListsLiveReachable(db, root, x);
    EmptyParentNotReached(db.rows, root, x, Ids(db.rows));
  }

  ghost predicate HasSpine(plan: seq<PrEntry>, trunk: string, chain: seq<Stream>) {
    exists at: seq<nat> :: |at| == |chain| && Spine(plan, trunk, chain, at)
  }

  /** A sole-child chain from a live root is a subsequence of the plan for that root, each row based there on its
      predecessor's head, whatever else the plan holds: exactly when the chain is indexed. */
  lemma {:induction false} ChainIsSpineExactly(db: Projection, chain: seq<Stream>)
    requires KeysUnique(db.rows) && SoleChildPath(db.rows, chain) && Live(chain[0])
    ensures HasSpine(PlanOf(db, chain[0]), TrunkOf(db, chain[0].swarm), chain) <==> Indexed(chain)
  {
    hide PlanOf, TrunkOf;
    var plan, trunk := PlanOf(db, chain[0]), TrunkOf(db, chain[0].swarm);
    if Indexed(chain) {
      var at := SpineUpTo(db, chain, |chain|);
      assert |at| == |chain| && Spine(plan, trunk, chain, at);
    } else if HasSpine(plan, trunk, chain) {
      var at: seq<nat> :| |at| == |chain| && Spine(plan, trunk, chain, at);
      var i :| 0 <= i < |chain| - 1 && chain[i].streamId == "";
      UnindexedNotInPlan(db, chain, i, plan[at[i + 1]]);
    }
  }

  lemma LinearEntries(db: Projection, root: Stream)
    requires KeysUnique(db.rows) && root in db.rows
    ensures StackOutcome(db, root.id).Linear? ==>
              StackOutcome(db, root.id).entries == EntriesFor(db, Extend(db.rows, [root]))
  {
    FindOwnRow(db.rows, root);
    hide Extend, EntriesFor, FindByRowId, KeysUnique;
  }

  /** The same of what the linear walker returns. */
  lemma {:induction false} LinearChainIsSpineExactly(db: Projection, root: Stream) returns (chain: seq<Stream>)
    requires KeysUnique(db.rows) && root in db.rows && Live(root)
    ensures MaximalPath(db.rows, chain) && chain[0] == root
    ensures StackOutcome(db, root.id).Linear? ==> StackOutcome(db, root.id).entries == EntriesFor(db, chain)
    ensures HasSpine(PlanOf(db, root), TrunkOf(db, root.swarm), chain) <==> Indexed(chain)
  {
    chain := Extend(db.rows, [root]);
    LinearEntries(db, root);
    ChainIsSpineExactly(db, chain);
    hide PlanOf, TrunkOf, HasSpine, Indexed, Extend, StackOutcome, KeysUnique;
  }
}
