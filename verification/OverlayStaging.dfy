/**
 Permission overlays in src/dispatch/openhive-runtime.ts: `resolveTarget` stages the rules of a dispatch that
 reuses an agent, `createStream` sets them, `closeStream` clears them. One slot per agent, not a queue.
 */
module OverlayStaging {
  import opened Wrappers
  import Keys

  datatype Agent = Agent(swarm: string, id: string)

  /** The rules of one resolution of a dispatch. */
  datatype Overlay = Overlay(task: string, serial: nat, deny: seq<string>, allow: seq<string>)

  function PendingKey(agent: Agent): string {
    agent.swarm + "::" + agent.id
  }

  /** `setting` holds what a stream has taken and is still being sent; `staged`, `created` and `closed` record
      history. */
  datatype State = State(
    pending: map<string, Overlay>,
    setting: map<string, Overlay>,
    active: map<string, Overlay>,
    staged: set<Overlay>,
    created: set<string>,
    closed: set<string>)

  const EMPTY := State(map[], map[], map[], {}, {}, {})

  /** `own` is what the dispatch that the stream is made for has staged, if it has rules. */
  datatype Event =
    | Stage(agent: Agent, overlay: Overlay)
    | Activate(agent: Agent, stream: string, own: Option<Overlay>)
    | SetOk(stream: string)
    | SetFailed(stream: string)
    | Close(stream: string)

  function Lookup(overlays: map<string, Overlay>, key: string): Option<Overlay> {
    if key in overlays then Some(overlays[key]) else None
  }

  /** Overlays and streams are new when they first appear, and a stream is closed after `createStream` has
      returned. */
  predicate Enabled(s: State, e: Event) {
    match e
    case Stage(_, overlay) => overlay !in s.staged
    case Activate(_, stream, _) => stream !in s.created
    case SetOk(stream) => stream in s.setting
    case SetFailed(stream) => stream in s.setting
    case Close(stream) => stream in s.created && stream !in s.setting
  }

  function Next(s: State, e: Event): State
    requires Enabled(s, e)
  {
    match e
    case Stage(agent, overlay) => s.(pending := s.pending[PendingKey(agent) := overlay], staged := s.staged + {overlay})
    case Activate(agent, stream, _) =>
      var key := PendingKey(agent);
      s.(pending := s.pending - {key},
         setting := if key in s.pending then s.setting[stream := s.pending[key]] else s.setting,
         created := s.created + {stream})
    case SetOk(stream) => s.(setting := s.setting - {stream}, active := s.active[stream := s.setting[stream]])
    case SetFailed(stream) => s.(setting := s.setting - {stream})
    case Close(stream) => s.(active := s.active - {stream}, closed := s.closed + {stream})
  }

  function Exec(es: seq<Event>): State {
    if es == [] then EMPTY
    else
      var s, e := Exec(es[..|es| - 1]), es[|es| - 1];
      if Enabled(s, e) then Next(s, e) else s
  }

  /** The module's two maps. */
  class Overlays {
    var pendingOverlays: map<string, Overlay>
    var activeOverlays: map<string, Overlay>

    constructor ()
      ensures pendingOverlays == map[] && activeOverlays == map[]
    {
      pendingOverlays, activeOverlays := map[], map[];
    }

    ghost predicate Shows(s: State)
      reads this
    {
      pendingOverlays == s.pending && activeOverlays == s.active
    }

    method StagePendingOverlay(agent: Agent, overlay: Overlay, ghost s: State)
      requires Shows(s) && Enabled(s, Stage(agent, overlay))
      modifies this
      ensures Shows(Next(s, Stage(agent, overlay)))
    {
      pendingOverlays := pendingOverlays[PendingKey(agent) := overlay];
    }

    /** `activatePendingOverlay` up to the call that sets the rules. */
    method TakePendingOverlay(agent: Agent, stream: string, own: Option<Overlay>, ghost s: State)
      returns (taken: Option<Overlay>)
      requires Shows(s) && Enabled(s, Activate(agent, stream, own)) && stream !in s.setting
      modifies this
      ensures Shows(Next(s, Activate(agent, stream, own)))
      ensures taken == Lookup(Next(s, Activate(agent, stream, own)).setting, stream)
    {
      var key := PendingKey(agent);
      taken := None;
      if key in pendingOverlays {
        taken := Some(pendingOverlays[key]);
        pendingOverlays := pendingOverlays - {key};
      }
    }

    /** The rest of it, once the call has succeeded. */
    method OverlaySet(stream: string, taken: Overlay, ghost s: State)
      requires Shows(s) && Lookup(s.setting, stream) == Some(taken)
      modifies this
      ensures Shows(Next(s, SetOk(stream)))
    {
      activeOverlays := activeOverlays[stream := taken];
    }

    /** `deactivateOverlay` up to the call that clears the rules; `active` is what the call will clear. */
    method DeactivateOverlay(stream: string, ghost s: State) returns (active: Option<Overlay>)
      requires Shows(s) && Enabled(s, Close(stream))
      modifies this
      ensures Shows(Next(s, Close(stream))) && active == Lookup(s.active, stream)
    {
      active := None;
      if stream in activeOverlays {
        active := Some(activeOverlays[stream]);
        activeOverlays := activeOverlays - {stream};
      }
    }
  }

  // ---- one place ----

  ghost predicate Distinct(overlays: map<string, Overlay>) {
    forall a, b :: a in overlays && b in overlays && overlays[a] == overlays[b] ==> a == b
  }

  ghost predicate Apart(these: map<string, Overlay>, those: map<string, Overlay>) {
    forall a, b :: a in these && b in those ==> these[a] != those[b]
  }

  ghost predicate Known(overlays: map<string, Overlay>, staged: set<Overlay>) {
    forall a :: a in overlays ==> overlays[a] in staged
  }

  ghost predicate Places(s: State) {
    && Distinct(s.pending) && Distinct(s.setting) && Distinct(s.active)
    && Apart(s.pending, s.setting) && Apart(s.pending, s.active) && Apart(s.setting, s.active)
    && Known(s.pending, s.staged) && Known(s.setting, s.staged) && Known(s.active, s.staged)
  }

  ghost predicate Streams(s: State) {
    && (forall stream :: stream in s.setting ==> stream in s.created && stream !in s.active)
    && (forall stream :: stream in s.active ==> stream in s.created)
    && (forall stream :: stream in s.closed ==>
          stream in s.created && stream !in s.setting && stream !in s.active)
  }

  lemma StepKeepsPlaces(s: State, e: Event)
    requires Places(s) && Streams(s) && Enabled(s, e)
    ensures Places(Next(s, e))
  {}

  lemma StepKeepsStreams(s: State, e: Event)
    requires Streams(s) && Enabled(s, e)
    ensures Streams(Next(s, e))
  {}

  /** In every interleaving an overlay waits for one agent, or is being set for one stream, or is active on one,
      and on no more than one in all; and no overlay stays active on a stream that was closed. */
  lemma {:induction false} RunKeepsPlaces(es: seq<Event>)
    ensures Places(Exec(es)) && Streams(Exec(es))
  {
    if es != [] {
      var s, e := Exec(es[..|es| - 1]), es[|es| - 1];
      RunKeepsPlaces(es[..|es| - 1]);
      if Enabled(s, e) {
        StepKeepsPlaces(s, e);
        StepKeepsStreams(s, e);
      }
      hide Places, Streams, Next;
    }
  }

  // ---- whose overlay ----

  /** What was staged last under the key, if no stream was created for it since. */
  function Latest(es: seq<Event>, key: string): Option<Overlay> {
    if es == [] then None
    else
      var front, e := es[..|es| - 1], es[|es| - 1];
      match e
      case Stage(agent, overlay) => if PendingKey(agent) == key then Some(overlay) else Latest(front, key)
      case Activate(agent, _, _) => if PendingKey(agent) == key then None else Latest(front, key)
      case _ => Latest(front, key)
  }

  /** Every event of the run can happen when it does. */
  ghost predicate Proper(es: seq<Event>) {
    es == [] || (Proper(es[..|es| - 1]) && Enabled(Exec(es[..|es| - 1]), es[|es| - 1]))
  }

  lemma {:induction false} PendingIsLatest(es: seq<Event>, key: string)
    requires Proper(es)
    ensures Lookup(Exec(es).pending, key) == Latest(es, key)
  {
    if es != [] { PendingIsLatest(es[..|es| - 1], key); }
  }

  lemma ExecAppend(es: seq<Event>, e: Event)
    ensures Exec(es + [e]) == if Enabled(Exec(es), e) then Next(Exec(es), e) else Exec(es)
    ensures Proper(es) && Enabled(Exec(es), e) ==> Proper(es + [e])
  {
    assert (es + [e])[..|es|] == es;
  }

  /** A new stream gets its own dispatch's rules exactly when those are what was staged for the agent last, with
      no stream created for it since; for a dispatch without rules, exactly when nothing is left staged. */
  lemma OwnOverlayExactly(es: seq<Event>, agent: Agent, stream: string, own: Option<Overlay>)
    requires Proper(es) && Enabled(Exec(es), Activate(agent, stream, own))
    ensures var s := Exec(es + [Activate(agent, stream, own)]);
            Lookup(s.setting, stream) == own <==> Latest(es, PendingKey(agent)) == own
  {
    ExecAppend(es, Activate(agent, stream, own));
    PendingIsLatest(es, PendingKey(agent));
    RunKeepsPlaces(es);
  }

  /** A second staging for an agent overwrites the first: the first stream takes the second dispatch's rules, and
      the second stream none. */
  lemma RestagingOverwrites(agent: Agent, a: Overlay, b: Overlay)
    requires a != b
    ensures var es := [Stage(agent, a), Stage(agent, b), Activate(agent, "a", Some(a)), Activate(agent, "b", Some(b))];
            && Proper(es)
            && Lookup(Exec(es).setting, "a") == Some(b)
            && Lookup(Exec(es).setting, "b") == None
  {
    var e1, e2, e3, e4 := Stage(agent, a), Stage(agent, b), Activate(agent, "a", Some(a)), Activate(agent, "b", Some(b));
    ExecAppend([], e1);
    ExecAppend([e1], e2);
    ExecAppend([e1, e2], e3);
    ExecAppend([e1, e2, e3], e4);
    assert [] + [e1] == [e1] && [e1] + [e2] == [e1, e2] && [e1, e2] + [e3] == [e1, e2, e3];
    assert [e1, e2, e3] + [e4] == [e1, e2, e3, e4];
  }

  /** Agents have different slots when swarm ids hold no colon. */
  lemma PendingKeyInjective(a: Agent, b: Agent)
    requires ':' !in a.swarm && ':' !in b.swarm && PendingKey(a) == PendingKey(b)
    ensures a == b
  {
    assert a.swarm + ":" + (":" + a.id) == PendingKey(a) && b.swarm + ":" + (":" + b.id) == PendingKey(b);
    Keys.PartsToldApart(a.swarm, ":" + a.id, b.swarm, ":" + b.id);
    assert a.id == (":" + a.id)[1..] && b.id == (":" + b.id)[1..];
  }

  // ---- set, active, cleared ----

  datatype Phase = Idle | Setting | Active

  /** The overlay a stream took when it was created. */
  function TakenBy(es: seq<Event>, stream: string): Option<Overlay> {
    if es == [] then None
    else
      var front, e := es[..|es| - 1], es[|es| - 1];
      if e.Activate? && e.stream == stream then Latest(front, PendingKey(e.agent)) else TakenBy(front, stream)
  }

  /** What the calls about a stream have come to: setting, active once the call succeeded, over when it failed or the
      stream was closed. */
  function PhaseOf(es: seq<Event>, stream: string): Phase {
    if es == [] then Idle
    else
      var front, e := es[..|es| - 1], es[|es| - 1];
      if e.Activate? && e.stream == stream then
        if Latest(front, PendingKey(e.agent)).Some? then Setting else Idle
      else if e.SetOk? && e.stream == stream then Active
      else if (e.SetFailed? || e.Close?) && e.stream == stream then Idle
      else PhaseOf(front, stream)
  }

  /** Over every run, a stream's overlay is the one it took: being set until its call returns, active from success to
      close, nowhere after a failure. */
  lemma {:induction false} OverlayFollowsCalls(es: seq<Event>, stream: string)
    requires Proper(es)
    ensures Lookup(Exec(es).setting, stream) == if PhaseOf(es, stream) == Setting then TakenBy(es, stream) else None
    ensures Lookup(Exec(es).active, stream) == if PhaseOf(es, stream) == Active then TakenBy(es, stream) else None
    ensures PhaseOf(es, stream) == Setting ==> TakenBy(es, stream).Some?
  {
    if es != [] {
      var front, e := es[..|es| - 1], es[|es| - 1];
      OverlayFollowsCalls(front, stream);
      RunKeepsPlaces(front);
      if e.Activate? { PendingIsLatest(front, PendingKey(e.agent)); }
      hide Places, Latest, PendingKey;
    }
  }
}
