/** The branches a stack-of-PRs plan names, read off the stream table row by row. */
module PrBranches {
  import opened Wrappers
  import opened Streams
  import opened PrStack
  import opened PrPlan

  // ---- generated names ----

  /** The first replacement: each unsafe character becomes a dash. */
  function ReplaceUnsafe(name: string): string {
    seq(|name|, i requires 0 <= i < |name| => if BranchChar(name[i]) then name[i] else '-')
  }

  /** The second: each run of dashes becomes one. */
  function CollapseDashes(s: string): string {
    if |s| < 2 then s
    else if s[0] == '-' && s[1] == '-' then CollapseDashes(s[1..])
    else [s[0]] + CollapseDashes(s[1..])
  }

  lemma {:induction false} CollapseAppend(s: string, c: char)
    ensures var front := CollapseDashes(s);
            && (s != "" ==> front != "" && front[|front| - 1] == s[|s| - 1])
            && CollapseDashes(s + [c]) == if c == '-' && s != "" && s[|s| - 1] == '-' then front else front + [c]
  {
    if s != "" {
      CollapseAppend(s[1..], c);
      assert (s + [c])[1..] == s[1..] + [c];
      if |s| == 1 {
        assert CollapseDashes([c]) == [c];
        assert s[1..] == "";
      }
    }
  }

  /** The one-pass clean-up is the two replacements of the source, one after the other. */
  lemma {:induction false} SanitizeIsTwoPasses(name: string)
    ensures Sanitize(name) == CollapseDashes(ReplaceUnsafe(name))
  {
    if name != "" {
      var front, c := name[..|name| - 1], ReplaceUnsafe(name)[|name| - 1];
      SanitizeIsTwoPasses(front);
      assert ReplaceUnsafe(name) == ReplaceUnsafe(front) + [c];
      CollapseAppend(ReplaceUnsafe(front), c);
    }
  }

  /** Safe characters throughout and no two dashes in a row. */
  predicate Clean(name: string) {
    && (forall i :: 0 <= i < |name| ==> BranchChar(name[i]))
    && (forall i :: 0 <= i < |name| - 1 ==> !(name[i] == '-' && name[i + 1] == '-'))
  }

  /** Exactly the clean names are left as they are. */
  lemma {:induction false} CleanNamesStay(name: string)
    ensures Sanitize(name) == name <==> Clean(name)
  {
    if Clean(name) && name != "" {
      CleanNamesStay(name[..|name| - 1]);
    }
  }

  // ---- nearest live ancestors ----

  /** Stream `k` of the path is live and those after it are not. */
  predicate NearestLive(above: seq<Stream>, k: nat) {
    && k < |above| && above[k].status !in {"merged", "abandoned", "paused"}
    && forall j :: k < j < |above| ==> above[j].status in {"merged", "abandoned", "paused"}
  }

  lemma {:induction false} LastLive(above: seq<Stream>, k: nat)
    requires NearestLive(above, k)
    ensures LiveOf(above) != [] && LiveOf(above)[|LiveOf(above)| - 1] == above[k]
  {
    if k < |above| - 1 {
      LastLive(above[..|above| - 1], k);
      assert LiveOf(above) == LiveOf(above[..|above| - 1]) + [];
    }
  }

  lemma {:induction false} NearestLiveAt(above: seq<Stream>) returns (k: nat)
    requires LiveOf(above) != []
    ensures NearestLive(above, k)
  {
    if Live(above[|above| - 1]) {
      k := |above| - 1;
    } else {
      assert LiveOf(above) == LiveOf(above[..|above| - 1]) + [];
      k := NearestLiveAt(above[..|above| - 1]);
    }
  }

  // ---- the plan's branches ----

  /** The stream's publish branch if it has one, or the name generated for it. */
  ghost predicate IsHeadOf(branch: string, s: Stream) {
    && (s.publishBranch.Some? ==> branch == s.publishBranch.value)
    && (s.publishBranch.None? ==>
          |branch| >= 8 && branch[..8] == "cascade/" && branch[8..] == CollapseDashes(ReplaceUnsafe(s.name)))
  }

  /** The swarm's trunk setting if it has one that is not empty, or "main". */
  ghost predicate IsTrunkOf(branch: string, db: Projection, swarm: string) {
    if swarm in db.trunks && db.trunks[swarm] != "" then branch == db.trunks[swarm] else branch == "main"
  }

  lemma HeadIsHead(s: Stream)
    ensures IsHeadOf(HeadOf(s), s)
  {
    SanitizeIsTwoPasses(s.name);
    if s.publishBranch.None? {
      assert HeadOf(s)[..8] == "cascade/" && HeadOf(s)[8..] == Sanitize(s.name);
    }
  }

  /** The trunk reported with the plan is the swarm's. */
  lemma TrunkIsTrunk(db: Projection, swarm: string)
    ensures IsTrunkOf(TrunkOf(db, swarm), db, swarm)
  {}

  /** Each entry shows its row: the row's own fields, the row's branch as head, and as base the branch of the
      nearest live row above it on its path, or the trunk. */
  lemma EntryShowsRow(db: Projection, root: Stream, x: Stream, p: seq<Stream>, e: PrEntry)
    requires KeysUnique(db.rows) && root in db.rows && x in db.rows && RootPath(db, root, x, p)
    requires e in PlanOf(db, root) && e.streamRowId == x.id
    ensures e.cascadeStreamId == x.streamId && e.name == x.name && e.status == x.status
    ensures x.status !in {"merged", "abandoned", "paused"}
    ensures IsHeadOf(e.headBranch, x)
    ensures var above := p[..|p| - 1];
            && (forall k: nat :: NearestLive(above, k) ==> IsHeadOf(e.baseBranch, above[k]))
            && ((forall k: nat :: !NearestLive(above, k)) ==> IsTrunkOf(e.baseBranch, db, root.swarm))
  {
    var above := p[..|p| - 1];
    EntryFollowsPath(db, root, x, p, e);
    HeadIsHead(x);
    forall k: nat | NearestLive(above, k) ensures IsHeadOf(e.baseBranch, above[k]) {
      LastLive(above, k);
      HeadIsHead(above[k]);
    }
    if LiveOf(above) != [] {
      var k := NearestLiveAt(above);
    }
    hide PlanOf, RootPath, IsHeadOf, LiveOf;
  }
}
