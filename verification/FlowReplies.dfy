/** What each control record makes the session post, as the events posted before decide: which
    creates are refused, and what a delete of which key brings. */
module FlowReplies {
  import opened FlowTrace

  /** The event for a record, while `open` are the flows created and not yet deleted. */
  function Reply(channels: Channels, open: map<Key, Flow>, record: Record): seq<Event> {
    match record
    case Create(flow) =>
      var advertised := if flow.key.direction.TX? then channels.tx else channels.rx;
      if flow.channel < advertised && flow.key !in open then [Created(flow)] else [Warning]
    case Delete(key) => if key in open then [Deleted(open[key])] else [Warning]
    case Request => [Requested]
    case Status => [Warning]
    case Acknowledge => []
    case Unparsed(_) => [Warning]
  }

  lemma FindIsOpen(s: State, key: Key)
    requires Traced(s)
    ensures Find(s.flows, key).Some? <==> key in Open(s.events)
    ensures Find(s.flows, key).Some? ==> s.flows[Find(s.flows, key).value] == Open(s.events)[key]
  {
    hide Find, Open, KeysUnique, WellBracketed;
    FindIs(s.flows, key);
  }

  /** Over every run, whatever the records: each one posts what the events before it call for. */
  lemma EachRecordReplies(channels: Channels, steps: seq<Step>, record: Record)
    ensures var s, t := Run(channels, steps), Run(channels, steps + [Receive(record)]);
            t.events == s.events + Reply(channels, Open(s.events), record)
  {
    var s, all := Run(channels, steps), steps + [Receive(record)];
    assert all[..|steps|] == steps && all[|steps|] == Receive(record);
    assert Run(channels, all) == StepOf(channels, s, Receive(record));
    RunIsTraced(channels, steps);
    hide Run, Open, Traced, Find, Without;
    match record {
      case Create(flow) => FindIsOpen(s, flow.key);
      case Delete(key) => FindIsOpen(s, key);
      case Acknowledge => assert s.events + [] == s.events;
      case Request =>
      case Status =>
      case Unparsed(_) =>
    }
  }

  lemma {:induction false} DropAllPosts(s: State)
    ensures var t := DropAll(s);
            && |t.events| == |s.events| + |s.flows| && t.events[..|s.events|] == s.events
            && forall i | 0 <= i < |s.flows| :: t.events[|s.events| + i] == Deleted(s.flows[i])
    decreases |s.flows|
  {
    if s.flows != [] {
      var flow := s.flows[0];
      var s1 := Freed(Posted(s.(flows := s.flows[1..]), Deleted(flow)), flow.addresses);
      DropAllPosts(s1);
      var t := DropAll(s1);
      assert t.events[..|s.events|] == t.events[..|s1.events|][..|s.events|];
      assert t.events[|s.events|] == t.events[..|s1.events|][|s.events|];
      forall i | 0 <= i < |s.flows|
        ensures t.events[|s.events| + i] == Deleted(s.flows[i])
      {
        if i > 0 {
          assert t.events[|s1.events| + (i - 1)] == Deleted(s1.flows[i - 1]);
        }
      }
    }
  }

  /** Dropping the connection posts a deletion for each flow that was open, and then, unless the
      session closes itself, that it is disconnected. */
  lemma InvalidatePosts(channels: Channels, steps: seq<Step>, disconnected: bool, key: Key)
    ensures var s, t := Run(channels, steps), Run(channels, steps + [Invalidate(disconnected)]);
            var posted := if |s.events| <= |t.events| then t.events[|s.events|..] else [];
            && s.events <= t.events
            && (Disconnected in posted <==> disconnected)
            && (disconnected ==> posted[|posted| - 1] == Disconnected)
            && (forall flow :: Deleted(flow) in posted && flow.key == key <==>
                               key in Open(s.events) && flow == Open(s.events)[key])
  {
    hide Run, Open, Traced, Posts, InvalidateStep, StepOf;
    var s := Run(channels, steps);
    RunInvalidated(channels, steps, disconnected);
    RunIsTraced(channels, steps);
    InvalidateEvents(s, disconnected);
    SuffixIs(s.events, Posts(s, disconnected));
    PostedAre(s, disconnected, key);
  }

  lemma RunInvalidated(channels: Channels, steps: seq<Step>, disconnected: bool)
    ensures Run(channels, steps + [Invalidate(disconnected)]) == InvalidateStep(Run(channels, steps), disconnected)
  {
    hide InvalidateStep;
    var all := steps + [Invalidate(disconnected)];
    assert all[..|steps|] == steps && all[|steps|] == Invalidate(disconnected);
  }

  lemma SuffixIs(a: seq<Event>, b: seq<Event>)
    ensures a <= a + b && (a + b)[|a|..] == b
  {
  }

  lemma InvalidateEvents(s: State, disconnected: bool)
    ensures InvalidateStep(s, disconnected).events == s.events + Posts(s, disconnected)
  {
    DropAllPosts(s);
    var t, posts := DropAll(s).events, Posts(s, false);
    hide DropAll;
    forall i | 0 <= i < |t|
      ensures t[i] == (s.events + posts)[i]
    {
      if i < |s.events| {
        assert t[..|s.events|][i] == s.events[i];
      } else {
        assert t[|s.events| + (i - |s.events|)] == Deleted(s.flows[i - |s.events|]);
      }
    }
    assert t == s.events + posts;
    assert posts + [] == posts && Posts(s, true) == posts + [Disconnected];
    assert s.events + posts + [Disconnected] == s.events + (posts + [Disconnected]);
  }

  function Posts(s: State, disconnected: bool): seq<Event> {
    seq(|s.flows|, i requires 0 <= i < |s.flows| => Deleted(s.flows[i])) + if disconnected then [Disconnected] else []
  }

  lemma PostedAre(s: State, disconnected: bool, key: Key)
    requires Traced(s)
    ensures var posted := Posts(s, disconnected);
            && (Disconnected in posted <==> disconnected)
            && (disconnected ==> posted[|posted| - 1] == Disconnected)
            && (forall flow :: Deleted(flow) in posted && flow.key == key <==>
                               key in Open(s.events) && flow == Open(s.events)[key])
  {
    FindIsOpen(s, key);
    hide Open, Find, WellBracketed;
    forall flow
      ensures Deleted(flow) in Posts(s, disconnected) && flow.key == key <==>
              key in Open(s.events) && flow == Open(s.events)[key]
    {
      DeletedIfListed(s, disconnected, flow);
    }
    if disconnected {
      assert Posts(s, true)[|s.flows|] == Disconnected;
    }
  }

  lemma DeletedIfListed(s: State, disconnected: bool, flow: Flow)
    ensures Deleted(flow) in Posts(s, disconnected) <==> flow in s.flows
  {
    var posted := Posts(s, disconnected);
    if flow in s.flows {
      var i :| 0 <= i < |s.flows| && s.flows[i] == flow;
      assert posted[i] == Deleted(flow);
    }
  }
}
