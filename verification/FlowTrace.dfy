/** The session's registry of flows: what each control record does to it, and the events posted on
    the way. Every run's events are well bracketed. */
module FlowTrace {
  import opened Words

  /** An allocated string, told apart from every other allocation. */
  type Address = nat

  datatype Direction = TX | RX

  datatype Key = Key(direction: Direction, index: u32)

  /** `addresses`: the allocated strings that the flow owns. */
  datatype Flow = Flow(key: Key, channel: u32, addresses: seq<Address>)

  datatype Event = Created(flow: Flow) | Deleted(flow: Flow) | Disconnected | Requested | Warning

  datatype Channels = Channels(tx: u32, rx: u32)

  /** A record as parsed. One that does not parse may already have had strings allocated for it. */
  datatype Record =
    | Create(flow: Flow)
    | Delete(key: Key)
    | Request
    | Status
    | Acknowledge
    | Unparsed(addresses: seq<Address>)

  /** What the session's thread does: takes a record, or drops every flow when the connection ends,
      with a Disconnected event or, on closing, without. */
  datatype Step = Receive(record: Record) | Invalidate(disconnected: bool)

  datatype State = State(flows: seq<Flow>, tx: u32, rx: u32, events: seq<Event>, freed: seq<Address>)

  /** The list from its head on: where the first flow with the key is. */
  function Find(flows: seq<Flow>, key: Key): (r: Option<nat>)
    ensures r.Some? ==> r.value < |flows| && flows[r.value].key == key
  {
    if flows == [] then None
    else if flows[0].key == key then Some(0)
    else
      match Find(flows[1..], key)
      case None => None
      case Some(i) => Some(i + 1)
  }

  function Without(flows: seq<Flow>, i: nat): seq<Flow>
    requires i < |flows|
  {
    flows[..i] + flows[i + 1..]
  }

  /** One flow more or fewer in its direction, on 32 bits. */
  function Counted(s: State, direction: Direction, change: int): State {
    match direction
    case TX => s.(tx := (s.tx + change) % U32)
    case RX => s.(rx := (s.rx + change) % U32)
  }

  function Posted(s: State, event: Event): State {
    s.(events := s.events + [event])
  }

  function Freed(s: State, addresses: seq<Address>): State {
    s.(freed := s.freed + addresses)
  }

  function Limit(channels: Channels, direction: Direction): u32 {
    match direction
    case TX => channels.tx
    case RX => channels.rx
  }

  predicate Accepts(channels: Channels, s: State, flow: Flow) {
    flow.channel < Limit(channels, flow.key.direction) && Find(s.flows, flow.key).None?
  }

  function CreateStep(channels: Channels, s: State, flow: Flow): State {
    if Accepts(channels, s, flow) then
      Posted(Counted(s.(flows := [flow] + s.flows), flow.key.direction, 1), Created(flow))
    else
      Freed(Posted(s, Warning), flow.addresses)
  }

  function DeleteStep(s: State, key: Key): State {
    match Find(s.flows, key)
    case None => Posted(s, Warning)
    case Some(i) =>
      var flow := s.flows[i];
      Freed(Posted(Counted(s.(flows := Without(s.flows, i)), key.direction, -1), Deleted(flow)), flow.addresses)
  }

  /** The flows go one after the other, the head of the list first. */
  function DropAll(s: State): State
    decreases |s.flows|
  {
    if s.flows == [] then s
    else
      var flow := s.flows[0];
      DropAll(Freed(Posted(s.(flows := s.flows[1..]), Deleted(flow)), flow.addresses))
  }

  function InvalidateStep(s: State, disconnected: bool): State {
    var dropped := DropAll(s).(tx := 0, rx := 0);
    if disconnected then Posted(dropped, Disconnected) else dropped
  }

  function StepOf(channels: Channels, s: State, step: Step): State {
    match step
    case Receive(Create(flow)) => CreateStep(channels, s, flow)
    case Receive(Delete(key)) => DeleteStep(s, key)
    case Receive(Request) => Posted(s, Requested)
    case Receive(Status) => Posted(s, Warning)
    case Receive(Acknowledge) => s
    case Receive(Unparsed(addresses)) => Freed(Posted(s, Warning), addresses)
    case Invalidate(disconnected) => InvalidateStep(s, disconnected)
  }

  function Run(channels: Channels, steps: seq<Step>): State {
    if steps == [] then State([], 0, 0, [], [])
    else StepOf(channels, Run(channels, steps[..|steps| - 1]), steps[|steps| - 1])
  }

  // What the events of any run look like.

  /** The flows that the events leave open, by key. */
  function Open(events: seq<Event>): map<Key, Flow> {
    if events == [] then map[]
    else
      var before := Open(events[..|events| - 1]);
      match events[|events| - 1]
      case Created(flow) => before[flow.key := flow]
      case Deleted(flow) => before - {flow.key}
      case _ => before
  }

  /** After events that leave `open`, this one is in its place: a flow is created when its key is
      not open, deleted as it was created, and none is open when the connection is reported lost. */
  predicate InPlace(open: map<Key, Flow>, event: Event) {
    match event
    case Created(flow) => flow.key !in open
    case Deleted(flow) => flow.key in open && open[flow.key] == flow
    case Disconnected => open == map[]
    case _ => true
  }

  predicate WellBracketed(events: seq<Event>) {
    events == [] ||
    (WellBracketed(events[..|events| - 1]) && InPlace(Open(events[..|events| - 1]), events[|events| - 1]))
  }

  predicate KeysUnique(flows: seq<Flow>) {
    forall i, j | 0 <= i < j < |flows| :: flows[i].key != flows[j].key
  }

  /** The flows of the list are those the events leave open. */
  predicate Registered(flows: seq<Flow>, open: map<Key, Flow>) {
    && (forall i | 0 <= i < |flows| :: flows[i].key in open && open[flows[i].key] == flows[i])
    && (forall key | key in open :: Find(flows, key).Some?)
  }

  function Count(flows: seq<Flow>, direction: Direction): nat {
    if flows == [] then 0
    else (if flows[0].key.direction == direction then 1 else 0) + Count(flows[1..], direction)
  }

  function Held(flows: seq<Flow>): seq<Address> {
    if flows == [] then [] else flows[0].addresses + Held(flows[1..])
  }

  /** The strings allocated for a record. */
  function NewStrings(step: Step): seq<Address> {
    match step
    case Receive(Create(flow)) => flow.addresses
    case Receive(Unparsed(addresses)) => addresses
    case _ => []
  }

  function Allocated(steps: seq<Step>): seq<Address> {
    if steps == [] then [] else Allocated(steps[..|steps| - 1]) + NewStrings(steps[|steps| - 1])
  }

  ghost predicate Traced(s: State) {
    WellBracketed(s.events) && KeysUnique(s.flows) && Registered(s.flows, Open(s.events))
  }

  predicate CountsRight(s: State) {
    s.tx == Count(s.flows, TX) % U32 && s.rx == Count(s.flows, RX) % U32
  }

  /** Every string allocated so far is either freed or held by a flow of the list. */
  ghost predicate Owned(s: State, strings: seq<Address>) {
    multiset(s.freed) + multiset(Held(s.flows)) == multiset(strings)
  }

  lemma {:induction false} FindIs(flows: seq<Flow>, key: Key)
    ensures match Find(flows, key)
            case None => forall i | 0 <= i < |flows| :: flows[i].key != key
            case Some(i) => forall j | 0 <= j < i :: flows[j].key != key
  {
    if flows != [] && flows[0].key != key {
      FindIs(flows[1..], key);
      forall j | 0 < j < |flows| && (Find(flows[1..], key).None? || j < Find(flows[1..], key).value + 1)
        ensures flows[j].key != key
      {
        assert flows[j] == flows[1..][j - 1];
      }
    }
  }

  lemma FoundIf(flows: seq<Flow>, key: Key, i: nat)
    requires i < |flows| && flows[i].key == key
    ensures Find(flows, key).Some?
  {
    FindIs(flows, key);
  }

  lemma PostedTraced(s: State, event: Event)
    requires WellBracketed(s.events) && InPlace(Open(s.events), event)
    ensures WellBracketed(Posted(s, event).events)
    ensures Open(Posted(s, event).events) ==
            match event
            case Created(flow) => Open(s.events)[flow.key := flow]
            case Deleted(flow) => Open(s.events) - {flow.key}
            case _ => Open(s.events)
  {
    assert Posted(s, event).events[..|s.events|] == s.events;
  }

  lemma FindWith(flows: seq<Flow>, flow: Flow, key: Key)
    ensures Find([flow] + flows, key).Some? <==> flow.key == key || Find(flows, key).Some?
  {
    assert ([flow] + flows)[1..] == flows;
  }

  lemma UniqueWith(flows: seq<Flow>, flow: Flow)
    requires KeysUnique(flows) && Find(flows, flow.key).None?
    ensures KeysUnique([flow] + flows)
  {
    FindIs(flows, flow.key);
  }

  lemma RegisteredWith(flows: seq<Flow>, flow: Flow, open: map<Key, Flow>)
    requires Registered(flows, open) && Find(flows, flow.key).None?
    ensures Registered([flow] + flows, open[flow.key := flow]) && flow.key !in open
  {
    hide Find;
    var longer := [flow] + flows;
    forall key | key in open[flow.key := flow]
      ensures Find(longer, key).Some?
    {
      FindWith(flows, flow, key);
    }
    FindIs(flows, flow.key);
  }

  lemma CreateKeepsTrace(channels: Channels, s: State, flow: Flow)
    requires Traced(s)
    ensures Traced(CreateStep(channels, s, flow))
  {
    hide Registered, KeysUnique, Find;
    if Accepts(channels, s, flow) {
      UniqueWith(s.flows, flow);
      RegisteredWith(s.flows, flow, Open(s.events));
      PostedTraced(s, Created(flow));
    } else {
      PostedTraced(s, Warning);
    }
  }

  lemma WithoutAt(flows: seq<Flow>, i: nat, j: nat)
    requires i < |flows| && j < |flows| - 1
    ensures |Without(flows, i)| == |flows| - 1
    ensures Without(flows, i)[j] == if j < i then flows[j] else flows[j + 1]
  {
  }

  lemma UniqueWithout(flows: seq<Flow>, i: nat)
    requires KeysUnique(flows) && i < |flows|
    ensures KeysUnique(Without(flows, i))
    ensures forall j | 0 <= j < |flows| - 1 :: Without(flows, i)[j].key != flows[i].key
  {
    forall j | 0 <= j < |flows| - 1
      ensures Without(flows, i)[j] == if j < i then flows[j] else flows[j + 1]
    {
      WithoutAt(flows, i, j);
    }
  }

  lemma FoundWithout(flows: seq<Flow>, i: nat, key: Key)
    requires i < |flows| && flows[i].key != key && Find(flows, key).Some?
    ensures Find(Without(flows, i), key).Some?
  {
    var j := Find(flows, key).value;
    var k := if j < i then j else j - 1;
    WithoutAt(flows, i, k);
    FoundIf(Without(flows, i), key, k);
  }

  lemma RegisteredWithout(flows: seq<Flow>, i: nat, open: map<Key, Flow>)
    requires i < |flows| && KeysUnique(flows) && Registered(flows, open)
    ensures Registered(Without(flows, i), open - {flows[i].key})
  {
    hide Find;
    UniqueWithout(flows, i);
    forall key | key in open - {flows[i].key}
      ensures Find(Without(flows, i), key).Some?
    {
      FoundWithout(flows, i, key);
    }
    forall j | 0 <= j < |flows| - 1
      ensures Without(flows, i)[j].key in open && open[Without(flows, i)[j].key] == Without(flows, i)[j]
    {
      WithoutAt(flows, i, j);
    }
  }

  /** Taking out the flow at `i`, and posting that it is gone. */
  lemma RemovalKeepsTrace(s: State, i: nat)
    requires Traced(s) && i < |s.flows|
    ensures Traced(Posted(s.(flows := Without(s.flows, i)), Deleted(s.flows[i])))
  {
    hide Without, Find, KeysUnique;
    PostedTraced(s, Deleted(s.flows[i]));
    UniqueWithout(s.flows, i);
    RegisteredWithout(s.flows, i, Open(s.events));
  }

  lemma DeleteKeepsTrace(s: State, key: Key)
    requires Traced(s)
    ensures Traced(DeleteStep(s, key))
  {
    match Find(s.flows, key) {
      case None => PostedTraced(s, Warning);
      case Some(i) => RemovalKeepsTrace(s, i);
    }
  }

  lemma {:induction false} DropAllKeepsTrace(s: State)
    requires Traced(s)
    ensures Traced(DropAll(s)) && DropAll(s).flows == [] && Open(DropAll(s).events) == map[]
    decreases |s.flows|
  {
    if s.flows == [] {
      assert forall key | key in Open(s.events) :: Find(s.flows, key).Some?;
    } else {
      RemovalKeepsTrace(s, 0);
      assert Without(s.flows, 0) == s.flows[1..];
      var flow := s.flows[0];
      DropAllKeepsTrace(Freed(Posted(s.(flows := s.flows[1..]), Deleted(flow)), flow.addresses));
    }
  }

  /** An event about no flow in particular. */
  lemma NoticeKeepsTrace(s: State, event: Event, addresses: seq<Address>)
    requires Traced(s) && (event.Warning? || event.Requested?)
    ensures Traced(Posted(s, event)) && Traced(Freed(Posted(s, event), addresses))
  {
    hide KeysUnique, Registered, Open, WellBracketed;
    PostedTraced(s, event);
  }

  lemma InvalidateKeepsTrace(s: State, disconnected: bool)
    requires Traced(s)
    ensures Traced(InvalidateStep(s, disconnected))
  {
    hide KeysUnique, Registered, Open, WellBracketed, DropAll;
    DropAllKeepsTrace(s);
    PostedTraced(DropAll(s), Disconnected);
  }

  lemma StepKeepsTrace(channels: Channels, s: State, step: Step)
    requires Traced(s)
    ensures Traced(StepOf(channels, s, step))
  {
    hide CreateStep, DeleteStep, InvalidateStep, Traced, Posted, Freed;
    match step {
      case Receive(Create(flow)) => CreateKeepsTrace(channels, s, flow);
      case Receive(Delete(key)) => DeleteKeepsTrace(s, key);
      case Receive(Request) => NoticeKeepsTrace(s, Requested, []);
      case Receive(Status) => NoticeKeepsTrace(s, Warning, []);
      case Receive(Acknowledge) =>
      case Receive(Unparsed(addresses)) => NoticeKeepsTrace(s, Warning, addresses);
      case Invalidate(disconnected) => InvalidateKeepsTrace(s, disconnected);
    }
  }

  /** Every run's events are well bracketed, keys are unique in the list, and the list holds exactly
      the flows that the events leave open. */
  lemma {:induction false} RunIsTraced(channels: Channels, steps: seq<Step>)
    ensures Traced(Run(channels, steps))
  {
    if steps != [] {
      RunIsTraced(channels, steps[..|steps| - 1]);
      StepKeepsTrace(channels, Run(channels, steps[..|steps| - 1]), steps[|steps| - 1]);
    }
  }

  // The same trace, one key at a time.

  /** The events about one key: true for Created, false for Deleted. */
  function About(events: seq<Event>, key: Key): seq<bool> {
    if events == [] then []
    else
      About(events[..|events| - 1], key) +
      match events[|events| - 1]
      case Created(flow) => if flow.key == key then [true] else []
      case Deleted(flow) => if flow.key == key then [false] else []
      case _ => []
  }

  lemma {:induction false} Alternate(events: seq<Event>, key: Key)
    requires WellBracketed(events)
    ensures forall i | 0 <= i < |About(events, key)| :: About(events, key)[i] <==> i % 2 == 0
    ensures |About(events, key)| % 2 == 1 <==> key in Open(events)
  {
    if events != [] {
      Alternate(events[..|events| - 1], key);
    }
  }

  /** For each key of any run: created, deleted, created, and so on; created last exactly if the
      flow is still in the list. */
  lemma EventsAlternate(channels: Channels, steps: seq<Step>, key: Key)
    ensures var s := Run(channels, steps);
            && (forall i | 0 <= i < |About(s.events, key)| :: About(s.events, key)[i] <==> i % 2 == 0)
            && (|About(s.events, key)| % 2 == 1 <==> Find(s.flows, key).Some?)
  {
    RunIsTraced(channels, steps);
    var s := Run(channels, steps);
    Alternate(s.events, key);
    if Find(s.flows, key).Some? {
      assert s.flows[Find(s.flows, key).value].key in Open(s.events);
    }
  }

  // Counters and strings.

  lemma WithoutStep(flows: seq<Flow>, i: nat)
    requires i < |flows|
    ensures if i == 0 then Without(flows, i) == flows[1..]
            else
              && Without(flows, i) != [] && Without(flows, i)[0] == flows[0]
              && Without(flows, i)[1..] == Without(flows[1..], i - 1)
  {
  }

  lemma {:induction false} CountWithout(flows: seq<Flow>, i: nat, direction: Direction)
    requires i < |flows|
    ensures Count(flows, direction) ==
            Count(Without(flows, i), direction) + if flows[i].key.direction == direction then 1 else 0
  {
    WithoutStep(flows, i);
    if i > 0 {
      hide Without;
      CountWithout(flows[1..], i - 1, direction);
    }
  }

  lemma {:induction false} HeldWithout(flows: seq<Flow>, i: nat)
    requires i < |flows|
    ensures multiset(Held(flows)) == multiset(Held(Without(flows, i))) + multiset(flows[i].addresses)
  {
    WithoutStep(flows, i);
    if i > 0 {
      hide Without;
      HeldWithout(flows[1..], i - 1);
      assert multiset(Held(flows)) == multiset(flows[0].addresses) + multiset(Held(flows[1..]));
    }
  }

  /** Counting one more or fewer on 32 bits keeps step with counting them all. */
  lemma CountedRight(s: State, flows: seq<Flow>, direction: Direction, change: int)
    requires CountsRight(s) && change >= -1
    requires forall d :: Count(flows, d) == Count(s.flows, d) + if d == direction then change else 0
    ensures CountsRight(Counted(s.(flows := flows), direction, change))
  {
    assert Count(flows, TX) == Count(s.flows, TX) + if TX == direction then change else 0;
    assert Count(flows, RX) == Count(s.flows, RX) + if RX == direction then change else 0;
    WrapsAlike(s.tx, Count(s.flows, TX), change);
    WrapsAlike(s.rx, Count(s.flows, RX), change);
  }

  lemma WrapsAlike(counter: u32, count: nat, change: int)
    requires counter == count % U32
    ensures (counter + change) % U32 == (count + change) % U32
  {
  }

  lemma CreateCounts(channels: Channels, s: State, flow: Flow)
    requires CountsRight(s)
    ensures CountsRight(CreateStep(channels, s, flow))
  {
    if Accepts(channels, s, flow) {
      hide CountsRight;
      var flows := [flow] + s.flows;
      assert flows[1..] == s.flows;
      CountedRight(s, flows, flow.key.direction, 1);
      SameCounts(Counted(s.(flows := flows), flow.key.direction, 1), CreateStep(channels, s, flow));
    }
  }

  lemma SameCounts(s: State, t: State)
    requires CountsRight(s) && s.flows == t.flows && s.tx == t.tx && s.rx == t.rx
    ensures CountsRight(t)
  {
  }

  lemma DeleteCounts(s: State, key: Key)
    requires CountsRight(s)
    ensures CountsRight(DeleteStep(s, key))
  {
    if Find(s.flows, key).Some? {
      hide CountsRight;
      var i := Find(s.flows, key).value;
      var flows := Without(s.flows, i);
      CountWithout(s.flows, i, TX);
      CountWithout(s.flows, i, RX);
      CountedRight(s, flows, key.direction, -1);
      SameCounts(Counted(s.(flows := flows), key.direction, -1), DeleteStep(s, key));
    }
  }

  lemma StepCounts(channels: Channels, s: State, step: Step)
    requires CountsRight(s)
    ensures CountsRight(StepOf(channels, s, step))
  {
    hide CreateStep, DeleteStep;
    match step {
      case Receive(Create(flow)) => CreateCounts(channels, s, flow);
      case Receive(Delete(key)) => DeleteCounts(s, key);
      case Receive(_) =>
      case Invalidate(disconnected) => DroppedAll(s);
    }
  }

  lemma {:induction false} DroppedAll(s: State)
    ensures DropAll(s).flows == [] && multiset(DropAll(s).freed) == multiset(s.freed) + multiset(Held(s.flows))
    decreases |s.flows|
  {
    if s.flows != [] {
      var flow := s.flows[0];
      DroppedAll(Freed(Posted(s.(flows := s.flows[1..]), Deleted(flow)), flow.addresses));
    }
  }

  lemma CreateOwns(channels: Channels, s: State, flow: Flow, strings: seq<Address>)
    requires Owned(s, strings)
    ensures Owned(CreateStep(channels, s, flow), strings + flow.addresses)
  {
    hide Find, Held;
    HeldWith(s.flows, flow);
  }

  lemma HeldWith(flows: seq<Flow>, flow: Flow)
    ensures Held([flow] + flows) == flow.addresses + Held(flows)
  {
    assert ([flow] + flows)[1..] == flows;
  }

  lemma DeleteOwns(s: State, key: Key, strings: seq<Address>)
    requires Owned(s, strings)
    ensures Owned(DeleteStep(s, key), strings)
  {
    if Find(s.flows, key).Some? {
      hide Held, Without;
      HeldWithout(s.flows, Find(s.flows, key).value);
    }
  }

  lemma StepOwns(channels: Channels, s: State, step: Step, strings: seq<Address>)
    requires Owned(s, strings)
    ensures Owned(StepOf(channels, s, step), strings + NewStrings(step))
  {
    hide CreateStep, DeleteStep, Held;
    match step {
      case Receive(Create(flow)) => CreateOwns(channels, s, flow, strings);
      case Receive(Delete(key)) => DeleteOwns(s, key, strings);
      case Receive(_) =>
      case Invalidate(disconnected) =>
        DroppedAll(s);
        NoneHeld();
    }
    assert strings + [] == strings;
  }

  lemma NoneHeld()
    ensures Held([]) == []
  {
  }

  lemma {:induction false} RunCountsAndOwns(channels: Channels, steps: seq<Step>)
    ensures CountsRight(Run(channels, steps)) && Owned(Run(channels, steps), Allocated(steps))
  {
    if steps != [] {
      var before, step := steps[..|steps| - 1], steps[|steps| - 1];
      RunCountsAndOwns(channels, before);
      StepCounts(channels, Run(channels, before), step);
      StepOwns(channels, Run(channels, before), step, Allocated(before));
      assert Allocated(steps) == Allocated(before) + NewStrings(step);
    }
  }

  lemma {:induction false} CountAtMost(flows: seq<Flow>, direction: Direction)
    ensures Count(flows, direction) <= |flows|
  {
    if flows != [] {
      CountAtMost(flows[1..], direction);
    }
  }

  lemma Unwrapped(n: nat)
    requires n < U32
    ensures n % U32 == n
  {
  }

  /** The two counters are the numbers of flows in the list in each direction, on 32 bits. */
  lemma CountersAreRight(channels: Channels, steps: seq<Step>)
    ensures var s := Run(channels, steps);
            && s.tx == Count(s.flows, TX) % U32 && s.rx == Count(s.flows, RX) % U32
            && (|s.flows| < U32 ==> s.tx == Count(s.flows, TX) && s.rx == Count(s.flows, RX))
  {
    hide Run, Count;
    RunCountsAndOwns(channels, steps);
    var flows := Run(channels, steps).flows;
    CountAtMost(flows, TX);
    CountAtMost(flows, RX);
    if |flows| < U32 {
      Unwrapped(Count(flows, TX));
      Unwrapped(Count(flows, RX));
    }
  }

  /** Each string allocated for a record of a run that ends with the flows dropped is freed exactly
      once, whichever way its flow went; before that, none is freed twice. */
  lemma FreedExactlyOnce(channels: Channels, steps: seq<Step>, address: Address)
    requires multiset(Allocated(steps))[address] == 1
    ensures multiset(Run(channels, steps).freed)[address] <= 1
    ensures steps != [] && steps[|steps| - 1].Invalidate? ==> multiset(Run(channels, steps).freed)[address] == 1
  {
    RunCountsAndOwns(channels, steps);
    var s := Run(channels, steps);
    assert multiset(Allocated(steps)) == multiset(s.freed) + multiset(Held(s.flows));
    if steps != [] && steps[|steps| - 1].Invalidate? {
      DroppedAll(Run(channels, steps[..|steps| - 1]));
      assert s.flows == [] && multiset(Held(s.flows)) == multiset{};
    }
  }
}
