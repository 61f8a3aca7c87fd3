/** The most-recently-used list of electron-app/src/main.ts: a capped list that forgets nothing it would still show. */
module RecentHives {

  const RECENT_HIVES_MAX: nat := 10

  /** The entries that do not canonicalise to `canonical`, in order. */
  function Others(canon: string -> string, list: seq<string>, canonical: string): seq<string> {
    if list == [] then []
    else (if canon(list[0]) != canonical then [list[0]] else []) + Others(canon, list[1..], canonical)
  }

  function Capped(list: seq<string>, n: nat): seq<string> {
    if |list| <= n then list else list[..n]
  }

  /** `recordRecentHive`. */
  function Record(canon: string -> string, list: seq<string>, dataDir: string): seq<string> {
    Capped([canon(dataDir)] + Others(canon, list, canon(dataDir)), RECENT_HIVES_MAX)
  }

  /** The list if it were never cut. */
  function RecordUncapped(canon: string -> string, list: seq<string>, dataDir: string): seq<string> {
    [canon(dataDir)] + Others(canon, list, canon(dataDir))
  }

  ghost predicate Idempotent(canon: string -> string) {
    forall p :: canon(canon(p)) == canon(p)
  }

  /** No two entries stand for the same directory. */
  ghost predicate Coalesced(canon: string -> string, list: seq<string>) {
    forall i, j :: 0 <= i < j < |list| ==> canon(list[i]) != canon(list[j])
  }

  lemma {:induction false} OthersMember(canon: string -> string, list: seq<string>, canonical: string, p: string)
    ensures p in Others(canon, list, canonical) <==> p in list && canon(p) != canonical
  {
    if list != [] {
      assert list == [list[0]] + list[1..];
      OthersMember(canon, list[1..], canonical, p);
    }
  }

  lemma {:induction false} OthersCoalesced(canon: string -> string, list: seq<string>, canonical: string)
    requires Coalesced(canon, list)
    ensures Coalesced(canon, Others(canon, list, canonical))
  {
    if list != [] {
      OthersCoalesced(canon, list[1..], canonical);
      forall p | p in Others(canon, list[1..], canonical) ensures canon(p) != canon(list[0]) {
        OthersMember(canon, list[1..], canonical, p);
        var i :| 0 <= i < |list| - 1 && list[1..][i] == p;
        assert list[i + 1] == p;
      }
    }
  }

  lemma {:induction false} AllOthers(canon: string -> string, list: seq<string>, canonical: string)
    requires forall i :: 0 <= i < |list| ==> canon(list[i]) != canonical
    ensures Others(canon, list, canonical) == list
  {
    if list != [] {
      AllOthers(canon, list[1..], canonical);
    }
  }

  lemma CapBehindHead(head: string, list: seq<string>, n: nat)
    requires n > 0
    ensures Capped([head] + list, n) == [head] + Capped(list, n - 1)
  {}

  lemma CapTwice(list: seq<string>, n: nat)
    ensures Capped(Capped(list, n + 1), n) == Capped(list, n) && Capped(Capped(list, n), n) == Capped(list, n)
  {}

  /** Cutting before filtering shows the same front: at most one entry is filtered out. */
  lemma {:induction false} CapThenFilter(canon: string -> string, list: seq<string>, canonical: string, n: nat)
    requires Coalesced(canon, list)
    ensures Capped(Others(canon, Capped(list, n + 1), canonical), n) == Capped(Others(canon, list, canonical), n)
  {
    if list != [] && n > 0 {
      var rest := list[1..];
      CapBehindHead(list[0], rest, n + 1);
      assert list == [list[0]] + rest;
      assert Capped(list, n + 1)[1..] == Capped(rest, n);
      if canon(list[0]) == canonical {
        AllOthers(canon, rest, canonical);
        AllOthers(canon, Capped(rest, n), canonical);
        CapTwice(rest, n);
      } else {
        CapThenFilter(canon, rest, canonical, n - 1);
        CapBehindHead(list[0], Others(canon, Capped(rest, n), canonical), n);
        CapBehindHead(list[0], Others(canon, rest, canonical), n);
      }
    }
  }

  lemma RecordKeepsCoalesced(canon: string -> string, list: seq<string>, dataDir: string)
    requires Idempotent(canon) && Coalesced(canon, list)
    ensures Coalesced(canon, RecordUncapped(canon, list, dataDir))
  {
    OthersCoalesced(canon, list, canon(dataDir));
    forall p | p in Others(canon, list, canon(dataDir)) ensures canon(p) != canon(canon(dataDir)) {
      OthersMember(canon, list, canon(dataDir), p);
    }
  }

  ghost function RecordAll(canon: string -> string, dirs: seq<string>): seq<string> {
    if dirs == [] then [] else Record(canon, RecordAll(canon, dirs[..|dirs| - 1]), dirs[|dirs| - 1])
  }

  ghost function RecordAllUncapped(canon: string -> string, dirs: seq<string>): seq<string> {
    if dirs == [] then [] else RecordUncapped(canon, RecordAllUncapped(canon, dirs[..|dirs| - 1]), dirs[|dirs| - 1])
  }

  /** Ten directories are shown, or as many as were opened. */
  lemma ShowsTen(canon: string -> string, dirs: seq<string>)
    requires Idempotent(canon)
    ensures var known := RecordAllUncapped(canon, dirs);
            |RecordAll(canon, dirs)| == if |known| < 10 then |known| else 10
  {
    CapForgetsNothingShown(canon, dirs);
  }

  /** Over any sequence of openings the capped list is the front of the uncapped one, without duplicates. */
  lemma {:induction false} CapForgetsNothingShown(canon: string -> string, dirs: seq<string>)
    requires Idempotent(canon)
    ensures RecordAll(canon, dirs) == Capped(RecordAllUncapped(canon, dirs), RECENT_HIVES_MAX)
    ensures Coalesced(canon, RecordAllUncapped(canon, dirs))
  {
    if dirs != [] {
      var front, last := dirs[..|dirs| - 1], dirs[|dirs| - 1];
      var all := RecordAllUncapped(canon, front);
      CapForgetsNothingShown(canon, front);
      RecordKeepsCoalesced(canon, all, last);
      CapThenFilter(canon, all, canon(last), RECENT_HIVES_MAX - 1);
      CapBehindHead(canon(last), Others(canon, Capped(all, RECENT_HIVES_MAX), canon(last)), RECENT_HIVES_MAX);
      CapBehindHead(canon(last), Others(canon, all, canon(last)), RECENT_HIVES_MAX);
    }
  }

  /** The last opening of a directory, or -1. */
  function LastUse(canon: string -> string, dirs: seq<string>, p: string): int {
    if dirs == [] then -1
    else if canon(dirs[|dirs| - 1]) == p then |dirs| - 1
    else LastUse(canon, dirs[..|dirs| - 1], p)
  }

  ghost predicate LatestFirst(canon: string -> string, dirs: seq<string>, list: seq<string>) {
    && (forall i :: 0 <= i < |list| ==> canon(list[i]) == list[i])
    && (forall i, j :: 0 <= i < j < |list| ==> LastUse(canon, dirs, list[i]) > LastUse(canon, dirs, list[j]))
  }

  /** A member of the tail was last used before the head. */
  lemma TailIsOlder(canon: string -> string, dirs: seq<string>, list: seq<string>, p: string)
    requires list != [] && LatestFirst(canon, dirs, list) && p in list[1..]
    ensures LastUse(canon, dirs, list[0]) > LastUse(canon, dirs, p)
  {
    var i :| 0 <= i < |list| - 1 && list[1..][i] == p;
    assert list[i + 1] == p;
  }

  lemma {:induction false} OthersLatestFirst(canon: string -> string, dirs: seq<string>, list: seq<string>, canonical: string)
    requires LatestFirst(canon, dirs, list)
    ensures LatestFirst(canon, dirs, Others(canon, list, canonical))
  {
    if list != [] {
      hide LastUse;
      var rest := Others(canon, list[1..], canonical);
      assert LatestFirst(canon, dirs, list[1..]);
      OthersLatestFirst(canon, dirs, list[1..], canonical);
      forall p | p in rest ensures LastUse(canon, dirs, list[0]) > LastUse(canon, dirs, p) {
        OthersMember(canon, list[1..], canonical, p);
        TailIsOlder(canon, dirs, list, p);
      }
    }
  }

  lemma {:induction false} LastUseBound(canon: string -> string, dirs: seq<string>, p: string)
    ensures LastUse(canon, dirs, p) < |dirs|
  {
    if dirs != [] {
      LastUseBound(canon, dirs[..|dirs| - 1], p);
    }
  }

  lemma LastUseStep(canon: string -> string, dirs: seq<string>, p: string)
    requires dirs != []
    ensures LastUse(canon, dirs, p)
         == if canon(dirs[|dirs| - 1]) == p then |dirs| - 1 else LastUse(canon, dirs[..|dirs| - 1], p)
  {}

  lemma PrependLatest(canon: string -> string, dirs: seq<string>, head: string, others: seq<string>)
    requires canon(head) == head && LatestFirst(canon, dirs, others)
    requires forall q :: q in others ==> LastUse(canon, dirs, q) < LastUse(canon, dirs, head)
    ensures LatestFirst(canon, dirs, [head] + others)
  {}

  /** A list ordered before an opening stays ordered if it does not hold what was opened. */
  lemma {:induction false} StillLatestFirst(canon: string -> string, dirs: seq<string>, list: seq<string>)
    requires dirs != [] && LatestFirst(canon, dirs[..|dirs| - 1], list)
    requires canon(dirs[|dirs| - 1]) !in list
    ensures LatestFirst(canon, dirs, list)
    ensures forall q :: q in list ==> LastUse(canon, dirs, q) < |dirs| - 1
  {
    hide LastUse;
    forall i | 0 <= i < |list|
      ensures LastUse(canon, dirs, list[i]) == LastUse(canon, dirs[..|dirs| - 1], list[i]) < |dirs| - 1
    {
      LastUseStep(canon, dirs, list[i]);
      LastUseBound(canon, dirs[..|dirs| - 1], list[i]);
    }
  }

  /** The uncapped list holds the directories the latest opened first. */
  lemma {:induction false} UncappedIsByRecency(canon: string -> string, dirs: seq<string>)
    requires Idempotent(canon)
    ensures LatestFirst(canon, dirs, RecordAllUncapped(canon, dirs))
  {
    if dirs != [] {
      hide LastUse, LatestFirst;
      var front, head := dirs[..|dirs| - 1], canon(dirs[|dirs| - 1]);
      var before := RecordAllUncapped(canon, front);
      var others := Others(canon, before, head);
      UncappedIsByRecency(canon, front);
      OthersLatestFirst(canon, front, before, head);
      assert canon(canon(dirs[|dirs| - 1])) == head;
      OthersMember(canon, before, head, head);
      StillLatestFirst(canon, dirs, others);
      LastUseStep(canon, dirs, head);
      PrependLatest(canon, dirs, head, others);
    }
  }

  lemma LatestIsCanonical(canon: string -> string, dirs: seq<string>, list: seq<string>)
    requires LatestFirst(canon, dirs, list)
    ensures forall q :: q in list ==> canon(q) == q
  {}

  /** It holds exactly the directories opened so far. */
  lemma {:induction false} UncappedHoldsAllOpened(canon: string -> string, dirs: seq<string>, p: string)
    requires Idempotent(canon)
    ensures p in RecordAllUncapped(canon, dirs) <==> LastUse(canon, dirs, p) >= 0
  {
    if dirs != [] {
      hide LastUse, LatestFirst;
      var front, head := dirs[..|dirs| - 1], canon(dirs[|dirs| - 1]);
      var before := RecordAllUncapped(canon, front);
      UncappedHoldsAllOpened(canon, front, p);
      UncappedIsByRecency(canon, front);
      LatestIsCanonical(canon, front, before);
      OthersMember(canon, before, head, p);
      LastUseStep(canon, dirs, p);
    } else {
      assert LastUse(canon, dirs, p) == -1;
    }
  }

  class RecentList {
    var recentHives: seq<string>

    constructor ()
      ensures recentHives == []
    {
      recentHives := [];
    }

    /** `recordRecentHive`: `canon` is `canonicalize`. */
    method RecordRecentHive(canon: string -> string, dataDir: string)
      modifies this
      ensures recentHives == old(Record(canon, recentHives, dataDir))
    {
      var canonical := canon(dataDir);
      var filtered := [];
      for i := |recentHives| downto 0
        invariant recentHives == old(recentHives)
        invariant filtered == Others(canon, recentHives[i..], canonical)
      {
        assert recentHives[i..][1..] == recentHives[i + 1..];
        if canon(recentHives[i]) != canonical { filtered := [recentHives[i]] + filtered; }
      }
      assert recentHives[0..] == recentHives;
      recentHives := Capped([canonical] + filtered, RECENT_HIVES_MAX);
    }
  }
}
