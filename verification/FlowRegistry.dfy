/** The registry as the session keeps it: a linked list of nodes, new ones in front, and a link that
    is redirected when one goes. Proved to take the steps of FlowTrace. */
module FlowRegistry {
  import opened Words
  import opened FlowTrace

  class Node {
    const flow: Flow
    var next: Node?

    constructor (flow: Flow, next: Node?)
      ensures this.flow == flow && this.next == next
    {
      this.flow, this.next := flow, next;
    }
  }

  class Session {
    const channels: Channels
    var flows: Node?
    var activeTx: u32
    var activeRx: u32
    ghost var nodes: seq<Node>
    ghost var events: seq<Event>
    ghost var freed: seq<Address>

    /** The list from `flows` on is `nodes`, each node once. */
    ghost predicate Valid()
      reads this, nodes
    {
      flows == At(nodes, 0) && Distinct(nodes) && Linked(nodes)
    }

    ghost function View(): State
      reads this
    {
      State(FlowsOf(nodes), activeTx, activeRx, events, freed)
    }

    constructor (channels: Channels)
      ensures Valid() && this.channels == channels && View() == Run(channels, []) && nodes == []
    {
      this.channels := channels;
      flows, activeTx, activeRx := null, 0, 0;
      nodes, events, freed := [], [], [];
    }

    method PostEvent(event: Event)
      modifies this`events
      ensures events == old(events) + [event]
    {
      events := events + [event];
    }

    method FreeFlow(flow: Flow)
      modifies this`freed
      ensures freed == old(freed) + flow.addresses
    {
      freed := freed + flow.addresses;
    }

    /** The node with the key, and the one whose link leads to it, if that is not the list's head. */
    method FindFlow(key: Key) returns (node: Node?, previous: Node?)
      requires Valid()
      ensures match Find(FlowsOf(nodes), key)
              case None => node == null
              case Some(i) => i < |nodes| && node == nodes[i] && previous == (if i == 0 then null else nodes[i - 1])
    {
      node, previous := flows, null;
      ghost var i := 0;
      while node != null && node.flow.key != key
        invariant i <= |nodes| && node == At(nodes, i) && previous == (if i == 0 then null else nodes[i - 1])
        invariant Find(FlowsOf(nodes), key) == Shifted(Find(FlowsOf(nodes)[i..], key), i)
        decreases |nodes| - i
      {
        FindOneOn(FlowsOf(nodes), key, i);
        previous := node;
        node := node.next;
        i := i + 1;
      }
      if i < |nodes| {
        assert FlowsOf(nodes)[i..][0] == nodes[i].flow;
      }
    }

    method Link(flow: Flow)
      requires Valid()
      modifies this`flows, this`nodes
      ensures Valid() && FlowsOf(nodes) == [flow] + old(FlowsOf(nodes))
      ensures fresh(Set(nodes) - old(Set(nodes)))
    {
      var node := new Node(flow, flows);
      flows := node;
      nodes := [node] + nodes;
    }

    method CountFlow(direction: Direction, change: int)
      requires Valid()
      modifies this`activeTx, this`activeRx
      ensures Valid() && View() == Counted(old(View()), direction, change)
    {
      if direction == TX {
        activeTx := (activeTx + change) % U32;
      } else {
        activeRx := (activeRx + change) % U32;
      }
    }

    /** The strings of a rejected message stay with the message, which is cleared next. */
    method HandleCreate(flow: Flow) returns (left: seq<Address>)
      requires Valid()
      modifies this
      ensures Valid() && View() == if Accepts(channels, old(View()), flow) then CreateStep(channels, old(View()), flow)
                                   else Posted(old(View()), Warning)
      ensures left == if Accepts(channels, old(View()), flow) then [] else flow.addresses
      ensures fresh(Set(nodes) - old(Set(nodes)))
    {
      var channelCount := if flow.key.direction == TX then channels.tx else channels.rx;
      if flow.channel >= channelCount {
        PostEvent(Warning);
        return flow.addresses;
      }
      var found, _ := FindFlow(flow.key);
      if found != null {
        PostEvent(Warning);
        return flow.addresses;
      }
      Link(flow);
      CountFlow(flow.key.direction, 1);
      PostEvent(Created(flow));
      left := [];
    }

    /** The link to the node now leads past it. */
    method Relink(node: Node, previous: Node?, ghost i: nat)
      requires Valid() && i < |nodes| && node == nodes[i] && previous == (if i == 0 then null else nodes[i - 1])
      modifies this`flows, nodes
      ensures SkippedAt(nodes, i) && flows == At(nodes, if i == 0 then 1 else 0)
    {
      if previous == null {
        flows := node.next;
      } else {
        previous.next := node.next;
      }
    }

    method Unlink(node: Node, previous: Node?, ghost i: nat)
      requires Valid() && i < |nodes| && node == nodes[i] && previous == (if i == 0 then null else nodes[i - 1])
      modifies this`flows, this`nodes, nodes
      ensures Valid() && FlowsOf(nodes) == Without(old(FlowsOf(nodes)), i) && Set(nodes) <= old(Set(nodes))
    {
      hide Set, FlowsOf, Without, Distinct, Linked, SkippedAt, At;
      Relink(node, previous, i);
      LessOne(nodes, i);
      SkippedIsLinked(nodes, i);
      nodes := nodes[..i] + nodes[i + 1..];
    }

    method HandleDelete(key: Key)
      requires Valid()
      modifies this, nodes
      ensures Valid() && View() == DeleteStep(old(View()), key)
      ensures Set(nodes) <= old(Set(nodes))
    {
      hide Find, Without, Set, Linked;
      var node, previous := FindFlow(key);
      if node == null {
        PostEvent(Warning);
        return;
      }
      Unlink(node, previous, Find(FlowsOf(nodes), key).value);
      CountFlow(node.flow.key.direction, -1);
      PostEvent(Deleted(node.flow));
      FreeFlow(node.flow);
    }

    /** The list is taken out of the session at once, and gone through after that. */
    method InvalidateFlows(disconnected: bool)
      requires Valid()
      modifies this
      ensures Valid() && View() == InvalidateStep(old(View()), disconnected) && nodes == []
    {
      var rest := flows;
      ghost var all := nodes;
      flows, activeTx, activeRx, nodes := null, 0, 0, [];
      ghost var i := 0;
      assert FlowsOf(all)[0..] == FlowsOf(all);
      while rest != null
        invariant i <= |all| && rest == At(all, i) && Linked(all)
        invariant Valid() && nodes == [] && activeTx == 0 && activeRx == 0
        invariant DropAll(State(FlowsOf(all)[i..], 0, 0, events, freed)) ==
                  DropAll(State(FlowsOf(all), 0, 0, old(events), old(freed)))
        decreases |all| - i
      {
        assert FlowsOf(all)[i..][0] == all[i].flow && FlowsOf(all)[i..][1..] == FlowsOf(all)[i + 1..];
        var next := rest.next;
        PostEvent(Deleted(rest.flow));
        FreeFlow(rest.flow);
        rest := next;
        i := i + 1;
      }
      DropAllCounters(old(View()));
      assert View() == DropAll(old(View())).(tx := 0, rx := 0);
      if disconnected {
        PostEvent(Disconnected);
      }
    }

    /** One record, and the message cleared after it. */
    method HandleRecord(record: Record)
      requires Valid()
      modifies this, nodes
      ensures Valid() && View() == StepOf(channels, old(View()), Receive(record))
      ensures fresh(Set(nodes) - old(Set(nodes)))
    {
      match record {
        case Unparsed(addresses) =>
          freed := freed + addresses;
          PostEvent(Warning);
        case Request => PostEvent(Requested);
        case Status => PostEvent(Warning);
        case Acknowledge =>
        case Create(flow) =>
          var left := HandleCreate(flow);
          freed := freed + left;
        case Delete(key) =>
          HandleDelete(key);
      }
    }
  }

  ghost function Set(nodes: seq<Node>): set<Node> {
    set i | 0 <= i < |nodes| :: nodes[i]
  }

  ghost predicate Distinct(nodes: seq<Node>) {
    forall i, j | 0 <= i < j < |nodes| :: nodes[i] != nodes[j]
  }

  /** Linked, but for one link that leads past the node at `i`. */
  ghost predicate SkippedAt(nodes: seq<Node>, i: nat)
    reads nodes
  {
    forall k | 0 <= k < |nodes| :: nodes[k].next == At(nodes, if k == i - 1 then i + 1 else k + 1)
  }

  lemma LessOne(nodes: seq<Node>, i: nat)
    requires i < |nodes| && Distinct(nodes)
    ensures var less := nodes[..i] + nodes[i + 1..];
            && FlowsOf(less) == Without(FlowsOf(nodes), i) && Set(less) <= Set(nodes)
            && Distinct(less) && At(less, 0) == At(nodes, if i == 0 then 1 else 0)
  {
  }

  /** Then the others are a list. */
  lemma SkippedIsLinked(nodes: seq<Node>, i: nat)
    requires i < |nodes| && SkippedAt(nodes, i)
    ensures Linked(nodes[..i] + nodes[i + 1..])
  {
    var less := nodes[..i] + nodes[i + 1..];
    forall j | 0 <= j < |less|
      ensures less[j].next == At(less, j + 1)
    {
      assert less[j] == nodes[if j < i then j else j + 1];
    }
  }

  function At(nodes: seq<Node>, i: nat): Node? {
    if i < |nodes| then nodes[i] else null
  }

  ghost predicate Linked(nodes: seq<Node>)
    reads nodes
  {
    forall i | 0 <= i < |nodes| :: nodes[i].next == At(nodes, i + 1)
  }

  function FlowsOf(nodes: seq<Node>): (flows: seq<Flow>)
    ensures |flows| == |nodes|
  {
    seq(|nodes|, i requires 0 <= i < |nodes| => nodes[i].flow)
  }

  function Shifted(found: Option<nat>, i: nat): Option<nat> {
    if found.None? then None else Some(found.value + i)
  }

  lemma FindOneOn(flows: seq<Flow>, key: Key, i: nat)
    requires i < |flows| && flows[i].key != key
    ensures Shifted(Find(flows[i..], key), i) == Shifted(Find(flows[i + 1..], key), i + 1)
  {
    assert flows[i..][1..] == flows[i + 1..];
  }

  /** Dropping every flow looks at neither counter. */
  lemma {:induction false} DropAllCounters(s: State)
    ensures DropAll(s).(tx := 0, rx := 0) == DropAll(s.(tx := 0, rx := 0))
    decreases |s.flows|
  {
    if s.flows != [] {
      var flow := s.flows[0];
      DropAllCounters(Freed(Posted(s.(flows := s.flows[1..]), Deleted(flow)), flow.addresses));
    }
  }
}
