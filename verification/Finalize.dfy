/** The outcome src/dispatch/finalize.ts writes: what the agent reported, with the artifacts of the hub joined in. */
module Finalize {
  import opened Wrappers
  import Keys

  datatype Artifact = Artifact(kind: string, ref: string)

  /** `fields` are the outcome's other members. */
  datatype Outcome = Outcome(fields: map<string, string>, artifacts: Option<seq<Artifact>>)

  function Key(a: Artifact): string {
    a.kind + ":" + a.ref
  }

  predicate HasKey(artifacts: seq<Artifact>, key: string) {
    exists a :: a in artifacts && Key(a) == key
  }

  /** The artifacts whose key no earlier one has. */
  function Firsts(artifacts: seq<Artifact>): seq<Artifact> {
    if artifacts == [] then []
    else
      var front, a := artifacts[..|artifacts| - 1], artifacts[|artifacts| - 1];
      if HasKey(front, Key(a)) then Firsts(front) else Firsts(front) + [a]
  }

  /** `dedupByKindRef`. */
  method DedupByKindRef(artifacts: seq<Artifact>) returns (out: seq<Artifact>)
    ensures out == Firsts(artifacts)
  {
    var seen: set<string> := {};
    out := [];
    for i := 0 to |artifacts|
      invariant forall key :: key in seen <==> HasKey(artifacts[..i], key)
      invariant out == Firsts(artifacts[..i])
    {
      var key := Key(artifacts[i]);
      assert artifacts[..i + 1] == artifacts[..i] + [artifacts[i]];
      assert artifacts[..i + 1][..i] == artifacts[..i];
      if key !in seen {
        seen := seen + {key};
        out := out + [artifacts[i]];
      }
    }
    assert artifacts[..|artifacts|] == artifacts;
  }

  lemma {:induction false} FirstsKey(artifacts: seq<Artifact>, key: string)
    ensures HasKey(Firsts(artifacts), key) <==> HasKey(artifacts, key)
  {
    if artifacts != [] {
      var front, a := artifacts[..|artifacts| - 1], artifacts[|artifacts| - 1];
      FirstsKey(front, key);
      assert artifacts == front + [a];
      if Key(a) == key {
        FirstsKey(front, Key(a));
        assert a in artifacts;
        if !HasKey(front, Key(a)) { assert a in Firsts(artifacts); }
      } else if b :| b in Firsts(front) && Key(b) == key {
        assert b in Firsts(artifacts);
      }
    }
  }

  /** The result holds each key at most once, and every artifact in it came first with its key. */
  lemma {:induction false} FirstsOnce(artifacts: seq<Artifact>, i: nat, j: nat)
    requires i < j < |Firsts(artifacts)|
    ensures Key(Firsts(artifacts)[i]) != Key(Firsts(artifacts)[j])
  {
    var front, a := artifacts[..|artifacts| - 1], artifacts[|artifacts| - 1];
    if j < |Firsts(front)| {
      FirstsOnce(front, i, j);
    } else {
      FirstsKey(front, Key(a));
      assert Firsts(front)[i] in Firsts(front);
    }
  }

  /** More artifacts behind leave what was kept of the earlier ones, in its order. */
  lemma {:induction false} FirstsGrow(artifacts: seq<Artifact>, more: seq<Artifact>)
    ensures Firsts(artifacts) <= Firsts(artifacts + more)
    ensures forall i :: |Firsts(artifacts)| <= i < |Firsts(artifacts + more)| ==> Firsts(artifacts + more)[i] in more
  {
    if more == [] {
      assert artifacts + more == artifacts;
    } else {
      var all := artifacts + more;
      FirstsGrow(artifacts, more[..|more| - 1]);
      assert all[..|all| - 1] == artifacts + more[..|more| - 1];
      assert more[|more| - 1] in more;
    }
  }

  lemma {:induction false} FirstsMember(artifacts: seq<Artifact>, a: Artifact)
    ensures a in Firsts(artifacts) <==>
            exists i :: 0 <= i < |artifacts| && artifacts[i] == a && !HasKey(artifacts[..i], Key(a))
  {
    if artifacts != [] {
      var front, last := artifacts[..|artifacts| - 1], artifacts[|artifacts| - 1];
      FirstsMember(front, a);
      if i :| 0 <= i < |front| && front[i] == a && !HasKey(front[..i], Key(a)) {
        assert artifacts[i] == a && artifacts[..i] == front[..i];
      }
      if i :| 0 <= i < |artifacts| && artifacts[i] == a && !HasKey(artifacts[..i], Key(a)) {
        if i < |front| { assert front[i] == a && artifacts[..i] == front[..i]; }
      }
    }
  }

  /** No artifact is lost exactly when different artifacts of the list have different keys: a colon in a kind
      can make two of them alike. */
  lemma NothingLostExactly(artifacts: seq<Artifact>)
    ensures (forall a :: a in artifacts ==> a in Firsts(artifacts))
            <==> (forall a, b :: a in artifacts && b in artifacts && Key(a) == Key(b) ==> a == b)
  {
    if forall a, b :: a in artifacts && b in artifacts && Key(a) == Key(b) ==> a == b {
      forall a | a in artifacts ensures a in Firsts(artifacts) {
        FirstsKey(artifacts, Key(a));
        var b :| b in Firsts(artifacts) && Key(b) == Key(a);
        FirstsMember(artifacts, b);
      }
    } else {
      var a, b :| a in artifacts && b in artifacts && Key(a) == Key(b) && a != b;
      var firsts := Firsts(artifacts);
      if a in firsts && b in firsts {
        var i :| 0 <= i < |firsts| && firsts[i] == a;
        var j :| 0 <= j < |firsts| && firsts[j] == b;
        if i < j { FirstsOnce(artifacts, i, j); } else { FirstsOnce(artifacts, j, i); }
      }
    }
  }

  /** An input of that kind, for any three strings. */
  lemma ColonCollides(x: string, y: string, z: string)
    ensures var a, b := Artifact(x + ":" + y, z), Artifact(x, y + ":" + z);
            Key(a) == Key(b) && a != b && exists c :: c in [a, b] && c !in Firsts([a, b])
  {
    var a, b := Artifact(x + ":" + y, z), Artifact(x, y + ":" + z);
    assert Key(a) == x + ":" + y + ":" + z == Key(b);
    assert |a.kind| > |b.kind|;
    assert a in [a, b] && b in [a, b];
    NothingLostExactly([a, b]);
  }

  /** Artifacts whose kinds hold no colon, as those of the hub, have different keys. */
  lemma PlainKindsDiffer(a: Artifact, b: Artifact)
    requires ':' !in a.kind && ':' !in b.kind && Key(a) == Key(b)
    ensures a == b
  {
    Keys.PartsToldApart(a.kind, a.ref, b.kind, b.ref);
  }

  /** The outcome to write; none when there is nothing to say. */
  function FinalOutcome(agent: Option<Outcome>, cascade: seq<Artifact>): Option<Outcome> {
    var reported := if agent.Some? && agent.value.artifacts.Some? then agent.value.artifacts.value else [];
    var artifacts := Firsts(reported + cascade);
    var merged := Outcome(
      if agent.Some? then agent.value.fields else map[],
      if artifacts != [] then Some(artifacts) else if agent.Some? then agent.value.artifacts else None);
    if merged == Outcome(map[], None) then None else Some(merged)
  }

  /** Whatever the agent reported: each artifact the hub knows of ends in the outcome, each at most once by key,
      nothing is invented, and the outcome is absent exactly when neither side had anything. */
  lemma FinalOutcomeKeepsArtifacts(agent: Option<Outcome>, cascade: seq<Artifact>, a: Artifact)
    ensures var outcome := FinalOutcome(agent, cascade);
            var artifacts := if outcome.Some? && outcome.value.artifacts.Some? then outcome.value.artifacts.value else [];
            && (a in cascade ==> HasKey(artifacts, Key(a)))
            && (a in artifacts ==>
                  a in cascade || (agent.Some? && agent.value.artifacts.Some? && a in agent.value.artifacts.value))
            && (forall i, j :: 0 <= i < j < |artifacts| ==> Key(artifacts[i]) != Key(artifacts[j]))
            && (outcome.None? <==> cascade == [] && (agent.None? || agent.value == Outcome(map[], None)))
  {
    var reported := if agent.Some? && agent.value.artifacts.Some? then agent.value.artifacts.value else [];
    var all := reported + cascade;
    if a in cascade { assert a in all; }
    FirstsKey(all, Key(a));
    FirstsMember(all, a);
    forall i, j | 0 <= i < j < |Firsts(all)| ensures Key(Firsts(all)[i]) != Key(Firsts(all)[j]) {
      FirstsOnce(all, i, j);
    }
    if all != [] { FirstsNotEmpty(all); }
  }

  /** What the agent said otherwise is kept as it is, and its artifacts come before the hub's. */
  lemma FinalOutcomeKeepsReport(agent: Option<Outcome>, cascade: seq<Artifact>)
    ensures var outcome := FinalOutcome(agent, cascade);
            && (outcome.Some? ==> outcome.value.fields == if agent.Some? then agent.value.fields else map[])
            && (agent.Some? && agent.value.artifacts.Some? ==>
                  && outcome.Some? && outcome.value.artifacts.Some?
                  && Firsts(agent.value.artifacts.value) <= outcome.value.artifacts.value
                  && forall i :: |Firsts(agent.value.artifacts.value)| <= i < |outcome.value.artifacts.value| ==>
                       outcome.value.artifacts.value[i] in cascade)
  {
    if agent.Some? && agent.value.artifacts.Some? {
      var reported := agent.value.artifacts.value;
      FirstsGrow(reported, cascade);
      if reported + cascade != [] { FirstsNotEmpty(reported + cascade); }
    }
  }

  lemma FirstsNotEmpty(artifacts: seq<Artifact>)
    requires artifacts != []
    ensures Firsts(artifacts) != []
  {
    assert artifacts[0] in artifacts;
    FirstsKey(artifacts, Key(artifacts[0]));
  }
}
