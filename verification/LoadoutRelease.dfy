/** Which stream holds which loadout, and which loadouts were let go, read off the events alone. */
module LoadoutRelease {
  import opened Wrappers
  import opened LoadoutHandover

  /** The loadouts resolved for a target, in order. */
  function Loadouts(es: seq<Event>, t: Target): seq<Loadout> {
    if es == [] then []
    else
      var e := es[|es| - 1];
      Loadouts(es[..|es| - 1], t) + if e.Resolved? && e.t == t && e.loadout.Some? then [e.loadout.value] else []
  }

  lemma {:induction false} LoadoutsPushed(es: seq<Event>, t: Target)
    requires Proper(es)
    ensures Loadouts(es, t) == Pushed(es, t)
  {
    if es != [] {
      LoadoutsPushed(es[..|es| - 1], t);
      hide Exec, Enabled;
    }
  }

  /** Event `j` creates the stream at the place whose turn it is, and the loadout of that place was resolved. */
  ghost predicate Gives(es: seq<Event>, j: int, stream: string, l: Loadout) {
    && 0 <= j < |es| && es[j].Created? && es[j].stream == stream
    && var k, loadouts := Takes(es[..j], es[j].t), Loadouts(es[..j], es[j].t);
       k < |loadouts| && loadouts[k] == l
  }

  predicate ClosedAfter(es: seq<Event>, j: int, stream: string) {
    exists i :: j < i < |es| && 0 <= i && es[i] == ClosedStream(stream)
  }

  lemma HeadGiven(targets: set<Target>, es: seq<Event>, t: Target)
    requires KeysDiffer(targets) && AllWithin(es, targets) && t in targets && Proper(es)
    ensures var queue, k := Exec(es).Queue(t), Takes(es, t);
            && (queue != [] <==> k < |Loadouts(es, t)|)
            && (queue != [] ==> queue[0] == Loadouts(es, t)[k])
  {
    TakenInResolveOrder(targets, es, t);
    CountsMatch(targets, es, t);
    LoadoutsPushed(es, t);
    hide Exec, KeysDiffer, AllWithin, State.Queue, Pushed, Taken, Loadouts, Takes, Proper;
    var pushed, taken, queue := Pushed(es, t), Taken(es, t), Exec(es).Queue(t);
    assert |pushed| == |taken| + |queue|;
    if queue != [] { assert pushed[|taken|] == queue[0]; }
  }

  lemma {:induction false} CreatedIsKnown(es: seq<Event>, j: int)
    requires Proper(es) && 0 <= j < |es| && es[j].Created?
    ensures es[j].stream in Exec(es).target
    decreases |es|
  {
    var front := es[..|es| - 1];
    if j < |front| {
      assert front[j] == es[j];
      CreatedIsKnown(front, j);
    }
  }

  lemma GivesEarlier(es: seq<Event>, e: Event, j: int, stream: string, l: Loadout)
    requires j < |es|
    ensures Gives(es + [e], j, stream, l) <==> Gives(es, j, stream, l)
  {
    if 0 <= j { assert (es + [e])[..j] == es[..j]; }
    hide Takes, Loadouts;
  }

  lemma ClosedAfterAppend(es: seq<Event>, e: Event, j: int, stream: string)
    ensures ClosedAfter(es + [e], j, stream) <==>
            ClosedAfter(es, j, stream) || (j < |es| && e == ClosedStream(stream))
  {
    var all := es + [e];
    if i :| j < i < |es| && 0 <= i && es[i] == ClosedStream(stream) { assert all[i] == es[i]; }
    if j < |es| && e == ClosedStream(stream) { assert all[|es|] == e; }
  }

  /** The stream was given the loadout and has not been closed since. */
  ghost predicate Keeps(es: seq<Event>, stream: string, l: Loadout) {
    exists j :: Gives(es, j, stream, l) && !ClosedAfter(es, j, stream)
  }

  lemma {:induction false} KeepsStep(targets: set<Target>, es: seq<Event>, e: Event, stream: string, l: Loadout)
    requires KeysDiffer(targets) && AllWithin(es + [e], targets) && Proper(es + [e])
    requires Holder(Exec(es), stream, l) <==> Keeps(es, stream, l)
    ensures Holder(Exec(es + [e]), stream, l) <==> Keeps(es + [e], stream, l)
  {
    var all := es + [e];
    assert all[..|es|] == es;
    assert Proper(es) && Enabled(Exec(es), e);
    assert AllWithin(es, targets) by { assert forall f :: f in es ==> f in all; }
    if e.Created? && e.stream == stream {
      assert e in all;
      CreationKeeps(targets, es, e, l);
    } else {
      forall j ensures Gives(all, j, stream, l) <==> Gives(es, j, stream, l) {
        if j < |es| { GivesEarlier(es, e, j, stream, l); }
      }
      forall j ensures ClosedAfter(all, j, stream) <==>
                       ClosedAfter(es, j, stream) || (j < |es| && e == ClosedStream(stream))
      {
        ClosedAfterAppend(es, e, j, stream);
      }
      OtherHolder(es, e, stream, l);
      hide Exec, Gives, ClosedAfter, AllWithin, KeysDiffer, Proper, Holder;
      if Keeps(all, stream, l) {
        var j :| Gives(all, j, stream, l) && !ClosedAfter(all, j, stream);
        assert Gives(es, j, stream, l) && !ClosedAfter(es, j, stream);
      }
      if Keeps(es, stream, l) && e != ClosedStream(stream) {
        var j :| Gives(es, j, stream, l) && !ClosedAfter(es, j, stream);
        assert Gives(all, j, stream, l) && !ClosedAfter(all, j, stream);
      }
      GivesWithin(es, stream, l);
    }
  }

  lemma GivesWithin(es: seq<Event>, stream: string, l: Loadout)
    ensures forall j :: Gives(es, j, stream, l) ==> 0 <= j < |es|
  {}

  ghost predicate Holder(s: State, stream: string, l: Loadout) {
    stream in s.byStream && s.byStream[stream] == l
  }

  lemma OtherHolder(es: seq<Event>, e: Event, stream: string, l: Loadout)
    requires Enabled(Exec(es), e) && !(e.Created? && e.stream == stream)
    ensures Holder(Exec(es + [e]), stream, l) <==> Holder(Exec(es), stream, l) && e != ClosedStream(stream)
  {
    ExecAppend(es, e);
    hide Exec, State.Queue;
  }

  lemma {:induction false} CreationKeeps(targets: set<Target>, es: seq<Event>, e: Event, l: Loadout)
    requires KeysDiffer(targets) && AllWithin(es, targets) && Proper(es) && Enabled(Exec(es), e)
    requires e.Created? && e.t in targets
    ensures Holder(Exec(es + [e]), e.stream, l) <==> Keeps(es + [e], e.stream, l)
  {
    var all := es + [e];
    RunKeeps(targets, es);
    HeadGiven(targets, es, e.t);
    HeadTaken(es, e.t, e.task, e.stream);
    assert all[..|es|] == es && all[|es|] == e;
    forall j ensures Gives(all, j, e.stream, l) ==> j == |es| {
      if 0 <= j < |es| && all[j].Created? {
        assert all[j] == es[j];
        CreatedIsKnown(es, j);
      }
    }
    assert !ClosedAfter(all, |es|, e.stream);
    assert e == Created(e.t, e.task, e.stream);
    hide Exec, Inv, Proper, KeysDiffer, AllWithin, ClosedAfter, Takes, Loadouts, State.Queue;
    assert Gives(all, |es|, e.stream, l) <==> Holder(Exec(all), e.stream, l);
  }

  lemma {:induction false} ProperFront(es: seq<Event>)
    requires Proper(es) && es != []
    ensures Proper(es[..|es| - 1]) && Enabled(Exec(es[..|es| - 1]), es[|es| - 1])
  {}

  /** A stream holds exactly the loadout whose turn it was when the stream was created, until the stream is closed. */
  lemma {:induction false} HeldExactly(targets: set<Target>, es: seq<Event>, stream: string, l: Loadout)
    requires KeysDiffer(targets) && AllWithin(es, targets) && Proper(es)
    ensures Holder(Exec(es), stream, l) <==> Keeps(es, stream, l)
  {
    if es != [] {
      var front, e := es[..|es| - 1], es[|es| - 1];
      assert es == front + [e];
      assert AllWithin(front, targets);
      HeldExactly(targets, front, stream, l);
      KeepsStep(targets, front, e, stream, l);
      hide Exec, Keeps, Holder, KeysDiffer;
    }
  }

  /** Once a stream was created and then closed, it holds nothing for the rest of the run. */
  lemma {:induction false} ClosedHoldsNothing(targets: set<Target>, es: seq<Event>, j: int, i: int)
    requires KeysDiffer(targets) && AllWithin(es, targets) && Proper(es)
    requires 0 <= j < i < |es| && es[j].Created? && es[i] == ClosedStream(es[j].stream)
    ensures es[j].stream !in Exec(es).byStream
  {
    var stream := es[j].stream;
    assert stream in Exec(es).byStream ==> Holder(Exec(es), stream, Exec(es).byStream[stream]);
    forall l ensures !Holder(Exec(es), stream, l) {
      HeldExactly(targets, es, stream, l);
      forall k ensures !(Gives(es, k, stream, l) && !ClosedAfter(es, k, stream)) {
        if k != j && 0 <= k < |es| && es[k].Created? && es[k].stream == stream { CreatedOnce(es, j, k); }
      }
    }
  }

  lemma {:induction false} CreatedOnce(es: seq<Event>, j: int, k: int)
    requires Proper(es) && 0 <= j < |es| && 0 <= k < |es| && es[j].Created? && es[k].Created?
    requires es[j].stream == es[k].stream
    ensures j == k
    decreases |es|
  {
    var front := es[..|es| - 1];
    if j < |front| && k < |front| {
      assert front[j] == es[j] && front[k] == es[k];
      CreatedOnce(front, j, k);
    } else if j < |front| {
      assert front[j] == es[j];
      CreatedIsKnown(front, j);
    } else if k < |front| {
      assert front[k] == es[k];
      CreatedIsKnown(front, k);
    }
  }

  /** Some stream was given the loadout and closed later. */
  ghost predicate LetGo(es: seq<Event>, l: Loadout) {
    exists j, stream :: Gives(es, j, stream, l) && ClosedAfter(es, j, stream)
  }

  /** Exactly the loadouts given to streams that were closed later have been released. */
  lemma {:induction false} ReleasedExactly(targets: set<Target>, es: seq<Event>, l: Loadout)
    requires KeysDiffer(targets) && AllWithin(es, targets) && Proper(es)
    ensures l in Exec(es).released <==> LetGo(es, l)
  {
    if es != [] {
      var front, e := es[..|es| - 1], es[|es| - 1];
      assert es == front + [e];
      assert AllWithin(front, targets);
      ReleasedExactly(targets, front, l);
      if e.ClosedStream? { HeldExactly(targets, front, e.stream, l); }
      ReleasedStep(front, e, l);
      LetGoStep(front, e, l);
      hide Exec, LetGo, Keeps, Holder, KeysDiffer, Enabled;
    }
  }

  lemma ReleasedStep(es: seq<Event>, e: Event, l: Loadout)
    requires Enabled(Exec(es), e)
    ensures l in Exec(es + [e]).released <==>
            l in Exec(es).released || (e.ClosedStream? && Holder(Exec(es), e.stream, l))
  {
    ExecAppend(es, e);
    hide Exec, State.Queue;
  }

  lemma {:induction false} LetGoStep(es: seq<Event>, e: Event, l: Loadout)
    ensures LetGo(es + [e], l) <==> LetGo(es, l) || (e.ClosedStream? && Keeps(es, e.stream, l))
  {
    var all := es + [e];
    forall j, stream
      ensures Gives(all, j, stream, l) && ClosedAfter(all, j, stream) <==>
              Gives(es, j, stream, l) && (ClosedAfter(es, j, stream) || e == ClosedStream(stream))
    {
      ClosedAfterAppend(es, e, j, stream);
      if j < |es| { GivesEarlier(es, e, j, stream, l); }
      GivesWithin(es, stream, l);
      GivesWithin(all, stream, l);
    }
    hide Gives, ClosedAfter;
    if LetGo(all, l) {
      var j, stream :| Gives(all, j, stream, l) && ClosedAfter(all, j, stream);
      assert Gives(es, j, stream, l);
    }
    if LetGo(es, l) {
      var j, stream :| Gives(es, j, stream, l) && ClosedAfter(es, j, stream);
      assert Gives(all, j, stream, l);
    }
    if e.ClosedStream? && Keeps(es, e.stream, l) {
      var j :| Gives(es, j, e.stream, l) && !ClosedAfter(es, j, e.stream);
      assert Gives(all, j, e.stream, l);
    }
  }
}
