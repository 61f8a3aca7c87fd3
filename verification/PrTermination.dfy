/** When the unguarded `leadsToLive` recursion of src/cascade/pr-stack-walker.ts ends, on every table. */
module PrTermination {
  import opened Wrappers
  import opened Streams
  import opened PrStack
  import opened PrWalker

  /** The recursion cut off at a given stack depth; None when it would go deeper. */
  function LeadsWithin(rows: seq<Stream>, n: Stream, depth: nat): Option<bool>
    decreases depth, 0
  {
    if depth == 0 then None
    else if n.status !in SKIP_STATUSES then Some(true)
    else SomeWithin(rows, PrChildren(rows, n), depth - 1)
  }

  /** `children.some(leadsToLive)`: stops at the first child that answers true. */
  function SomeWithin(rows: seq<Stream>, ns: seq<Stream>, depth: nat): Option<bool>
    decreases depth, 1, |ns|
  {
    if ns == [] then Some(false)
    else
      var first := LeadsWithin(rows, ns[0], depth);
      if first == Some(false) then SomeWithin(rows, ns[1..], depth) else first
  }

  ghost predicate Ends(rows: seq<Stream>, n: Stream) {
    exists depth :: LeadsWithin(rows, n, depth).Some?
  }

  /** If the recursion answers, it answers whether the row leads to a live one. */
  lemma {:induction false} AnswerIsRight(rows: seq<Stream>, n: Stream, depth: nat)
    requires n in rows && LeadsWithin(rows, n, depth).Some?
    ensures LeadsWithin(rows, n, depth).value == LeadsToLive(rows, n)
    decreases depth, 0
  {
    if Live(n) {
      LiveLeads(rows, n);
    } else {
      var kids := PrChildren(rows, n);
      forall c | c in kids ensures c in rows { PrChildrenMember(rows, n, c); }
      SomeIsRight(rows, kids, depth - 1);
      SkippedLeads(rows, n);
      if c :| c in kids && LeadsToLive(rows, c) {
        ProductiveKeeps(rows, kids, c);
      } else if Productive(rows, kids) != [] {
        var c := ProductiveLeads(rows, kids);
      }
    }
  }

  lemma {:induction false} SomeIsRight(rows: seq<Stream>, ns: seq<Stream>, depth: nat)
    requires SomeWithin(rows, ns, depth).Some? && forall c :: c in ns ==> c in rows
    ensures SomeWithin(rows, ns, depth).value <==> exists c :: c in ns && LeadsToLive(rows, c)
    decreases depth, 1, |ns|
  {
    if ns != [] {
      AnswerIsRight(rows, ns[0], depth);
      assert ns == [ns[0]] + ns[1..];
      if !LeadsToLive(rows, ns[0]) {
        SomeIsRight(rows, ns[1..], depth);
        assert forall c :: c in ns <==> c == ns[0] || c in ns[1..];
      }
    }
  }

  // ---- off a cycle ----

  /** It is enough that each child that is asked answers in time. */
  lemma {:induction false} SomeEndsWithin(rows: seq<Stream>, ns: seq<Stream>, depth: nat)
    requires forall c :: c in ns ==> c in rows
    requires forall i :: 0 <= i < |ns| && IsAskedAt(rows, ns, ns[i], i) ==> LeadsWithin(rows, ns[i], depth).Some?
    ensures SomeWithin(rows, ns, depth).Some?
    decreases |ns|
  {
    if ns != [] {
      assert IsAskedAt(rows, ns, ns[0], 0);
      AnswerIsRight(rows, ns[0], depth);
      if !LeadsToLive(rows, ns[0]) {
        var tail := ns[1..];
        forall i | 0 <= i < |tail| && IsAskedAt(rows, tail, tail[i], i)
          ensures LeadsWithin(rows, tail[i], depth).Some?
        {
          AskedInTail(rows, ns, i);
        }
        SomeEndsWithin(rows, tail, depth);
      }
    }
  }

  lemma AskedInTail(rows: seq<Stream>, ns: seq<Stream>, i: nat)
    requires i < |ns| - 1 && IsAskedAt(rows, ns[1..], ns[1..][i], i) && !LeadsToLive(rows, ns[0])
    ensures IsAskedAt(rows, ns, ns[i + 1], i + 1)
  {
    forall j | 0 <= j < i + 1 ensures !LeadsToLive(rows, ns[j]) {
      if j > 0 { assert ns[j] == ns[1..][j - 1]; }
    }
  }

  lemma RankPositive(rows: seq<Stream>, n: Stream)
    requires n in rows
    ensures AskRank(rows, n) > 0
  {
    assert AskPath(rows, n, n, 0);
    assert n in AskReach(rows, n);
  }

  lemma {:induction false} EndsWithin(rows: seq<Stream>, n: Stream, depth: nat)
    requires KeysUnique(rows) && n in rows && !Stuck(rows, n) && AskRank(rows, n) <= depth
    ensures LeadsWithin(rows, n, depth).Some?
    decreases depth
  {
    hide Stuck, AskReach, LeadsToLive, KeysUnique;
    RankPositive(rows, n);
    if Skipped(n) {
      var kids := PrChildren(rows, n);
      forall c | c in kids ensures c in rows { PrChildrenMember(rows, n, c); }
      forall i | 0 <= i < |kids| && IsAskedAt(rows, kids, kids[i], i)
        ensures LeadsWithin(rows, kids[i], depth - 1).Some?
      {
        assert Asks(rows, n, kids[i]);
        AskRankDecreases(rows, n, kids[i]);
        EndsWithin(rows, kids[i], depth - 1);
      }
      SomeEndsWithin(rows, kids, depth - 1);
    }
  }

  // ---- on a cycle ----

  lemma {:induction false} AskedAnswers(rows: seq<Stream>, ns: seq<Stream>, depth: nat, i: nat)
    requires SomeWithin(rows, ns, depth).Some? && i < |ns| && IsAskedAt(rows, ns, ns[i], i)
    requires forall c :: c in ns ==> c in rows
    ensures LeadsWithin(rows, ns[i], depth).Some?
    decreases i
  {
    if i > 0 {
      AnswerIsRight(rows, ns[0], depth);
      var tail := ns[1..];
      forall j | 0 <= j < i - 1 ensures !LeadsToLive(rows, tail[j]) { assert tail[j] == ns[j + 1]; }
      assert IsAskedAt(rows, tail, tail[i - 1], i - 1);
      AskedAnswers(rows, tail, depth, i - 1);
    }
  }

  /** An answer within a depth bounds how far the questions go. */
  lemma {:induction false} DepthBoundsQuestions(rows: seq<Stream>, n: Stream, depth: nat, x: Stream, k: nat)
    requires LeadsWithin(rows, n, depth).Some? && AskPath(rows, n, x, k)
    ensures k < depth
    decreases k
  {
    if k > 0 {
      var c :| Asks(rows, n, c) && AskPath(rows, c, x, k - 1);
      var kids := PrChildren(rows, n);
      var i :| IsAskedAt(rows, kids, c, i);
      forall d | d in kids ensures d in rows { PrChildrenMember(rows, n, d); }
      AskedAnswers(rows, kids, depth - 1, i);
      DepthBoundsQuestions(rows, c, depth - 1, x, k - 1);
    }
  }

  lemma {:induction false} AskPathJoins(rows: seq<Stream>, n: Stream, x: Stream, y: Stream, k: nat, j: nat)
    requires AskPath(rows, n, x, k) && AskPath(rows, x, y, j)
    ensures AskPath(rows, n, y, k + j)
    decreases k
  {
    hide Asks;
    if k > 0 {
      var c :| Asks(rows, n, c) && AskPath(rows, c, x, k - 1);
      AskPathJoins(rows, c, x, y, k - 1, j);
      assert AskPath(rows, c, y, k + j - 1);
    }
  }

  lemma {:induction false} AroundTheCycle(rows: seq<Stream>, x: Stream, j: nat, times: nat) returns (k: nat)
    requires AskPath(rows, x, x, j) && j > 0
    ensures k >= times && AskPath(rows, x, x, k)
    decreases times
  {
    k := 0;
    assert AskPath(rows, x, x, 0);
    hide Asks, AskPath;
    if times > 0 {
      k := AroundTheCycle(rows, x, j, times - 1);
      AskPathJoins(rows, x, x, x, k, j);
      k := k + j;
    }
  }

  /** The recursion ends at a row, with the right answer, exactly when the row is not stuck. */
  lemma EndsExactly(rows: seq<Stream>, n: Stream)
    requires KeysUnique(rows) && n in rows
    ensures Ends(rows, n) <==> !Stuck(rows, n)
  {
    if !Stuck(rows, n) {
      EndsWithin(rows, n, AskRank(rows, n));
    } else if Ends(rows, n) {
      var depth :| LeadsWithin(rows, n, depth).Some?;
      var j: nat :| j > 0 && AskPath(rows, n, n, j);
      var k := AroundTheCycle(rows, n, j, depth);
      DepthBoundsQuestions(rows, n, depth, n, k);
    }
  }

  // ---- the plan builder ----

  /** Every question the builder asks about the rows below `root` ends, or already one about a child of `root`
      does not: exactly when `root` itself is not stuck, or is. */
  lemma BuilderEndsExactly(rows: seq<Stream>, root: Stream)
    requires KeysUnique(rows) && root in rows
    ensures (forall c :: c in PrChildren(rows, root) ==> Ends(rows, c)) <==> !Stuck(rows, root)
    ensures !Stuck(rows, root) ==>
              forall x, c :: Reaches(rows, root, x, Ids(rows)) && c in PrChildren(rows, x) ==> Ends(rows, c)
  {
    if Stuck(rows, root) {
      var k: nat :| k > 0 && AskPath(rows, root, root, k);
      var c :| Asks(rows, root, c) && AskPath(rows, c, root, k - 1);
      AskPathExtends(rows, c, root, k - 1, c);
      AskedIsChild(rows, root, c);
      EndsExactly(rows, c);
    } else {
      SafeExactly(rows, root);
      forall x, c | Reaches(rows, root, x, Ids(rows)) && c in PrChildren(rows, x) ensures Ends(rows, c) {
        PrChildrenMember(rows, x, c);
        var p :| PathFromTo(rows, p, root, x, Ids(rows));
        if Stuck(rows, c) { StuckParent(rows, x, c); }
        EndsExactly(rows, c);
      }
      assert PathFromTo(rows, [root], root, root, Ids(rows));
    }
  }

  lemma AskPathExtends(rows: seq<Stream>, n: Stream, m: Stream, k: nat, c: Stream)
    requires AskPath(rows, n, m, k) && Asks(rows, m, c)
    ensures AskPath(rows, n, c, k + 1)
  {
    hide Asks;
    assert AskPath(rows, c, c, 0);
    assert AskPath(rows, m, c, 1);
    AskPathJoins(rows, n, m, c, k, 1);
  }

  // ---- an input ----

  /** Two merged streams that are each other's parent, and an active one under the first: in one table order the
      recursion never ends at the first stream, although that leads to a live one; in the other it ends. */
  lemma TableOrderDecides(a: Stream, b: Stream, live: Stream)
    requires KeysUnique([a, b, live]) && a.swarm == b.swarm == live.swarm && a.streamId != "" && b.streamId != ""
    requires a.parent == Some(b.streamId) && b.parent == Some(a.streamId) && live.parent == Some(a.streamId)
    requires Skipped(a) && Skipped(b) && Live(live)
    ensures KeysUnique([a, live, b])
    ensures LeadsToLive([a, b, live], a) && !Ends([a, b, live], a)
    ensures LeadsToLive([a, live, b], a) && Ends([a, live, b], a)
  {
    var looping, ending := [a, b, live], [a, live, b];
    ChildrenOfThree(a, b, live);
    LiveChildLeads(looping, a, live);
    LiveChildLeads(ending, a, live);
    TwoAskEachOther(looping, a, b);
    EndsExactly(looping, a);
    assert LeadsWithin(ending, live, 1) == Some(true);
    assert SomeWithin(ending, [live, b], 1) == Some(true);
    assert LeadsWithin(ending, a, 2) == Some(true);
  }

  lemma LiveChildLeads(rows: seq<Stream>, n: Stream, c: Stream)
    requires n in rows && c in rows && IsPrChild(n, c) && Live(c)
    ensures LeadsToLive(rows, n)
  {
    LiveLeads(rows, c);
    ChildLeads(rows, n, c);
  }

  lemma TwoAskEachOther(rows: seq<Stream>, a: Stream, b: Stream)
    requires a in rows && b in rows && Skipped(a) && Skipped(b)
    requires var kids := PrChildren(rows, a); kids != [] && kids[0] == b
    requires var kids := PrChildren(rows, b); kids != [] && kids[0] == a
    ensures Stuck(rows, a)
  {
    assert IsAskedAt(rows, PrChildren(rows, a), b, 0) && IsAskedAt(rows, PrChildren(rows, b), a, 0);
    assert Asks(rows, a, b) && Asks(rows, b, a);
    hide Asks;
    assert AskPath(rows, a, a, 0);
    assert AskPath(rows, b, a, 1);
    assert AskPath(rows, a, a, 2);
  }

  lemma ChildrenOfThree(a: Stream, b: Stream, live: Stream)
    requires KeysUnique([a, b, live]) && a.swarm == b.swarm == live.swarm && a.streamId != "" && b.streamId != ""
    requires a.parent == Some(b.streamId) && b.parent == Some(a.streamId) && live.parent == Some(a.streamId)
    ensures PrChildren([a, b, live], a) == [b, live] && PrChildren([a, b, live], b) == [a]
    ensures PrChildren([a, live, b], a) == [live, b]
    ensures KeysUnique([a, live, b])
  {
    var x, y := [a, b, live], [a, live, b];
    assert x[0].streamId != x[1].streamId;
    assert x[..2] == [a, b] && [a, b][..1] == [a] && [a][..0] == [];
    assert y[..2] == [a, live] && [a, live][..1] == [a];
    assert x[1].id != x[2].id && x[0].id != x[2].id && x[0].id != x[1].id;
    assert x[1].streamId != x[2].streamId && x[0].streamId != x[2].streamId;
    OneMore([], a, a); OneMore([a], b, a); OneMore([a, b], live, a);
    OneMore([a], live, a); OneMore([a, live], b, a);
    OneMore([], a, b); OneMore([a], b, b); OneMore([a, b], live, b);
  }

  lemma OneMore(rows: seq<Stream>, last: Stream, n: Stream)
    requires n.streamId != ""
    ensures PrChildren(rows + [last], n) ==
            PrChildren(rows, n)
            + if last.swarm == n.swarm && last.parent == Some(n.streamId) then [last] else []
  {
    assert (rows + [last])[..|rows|] == rows;
  }
}
