/** What a client accepts: the check that a message still fits the configured amount of
    memory, made in 64-bit arithmetic, and the account kept of what the services hold. */
module Admission {
  import opened Messages
  import opened Lifecycle
  import opened Conservation

  const MAX_MESSAGE_DATA_SIZE := 2147483648
  const UUID_SIZE := 36

  datatype Path = Path(service: string, handle: string) {
    function ContainerSize(): nat {
      |service| + |handle|
    }
  }

  type Size = n: nat | n < SIZE_RANGE

  // The bytes a caller hands over; without a buffer none are stored, whatever the size.
  datatype Payload = Payload(size: Size, present: bool) {
    function Stored(): Size {
      if present then size else 0
    }
  }

  // `objectSize` is the size of a `cached_message` object.
  datatype Limits = Limits(config: set<string>, maxCacheSize: Size, objectSize: nat)

  // What a message takes, in plain arithmetic and in that of the machine.
  function FullSize(limits: Limits, size: Size, path: Path): nat {
    size + limits.objectSize + UUID_SIZE + path.ContainerSize()
  }

  function ContainerSize(limits: Limits, size: Size, path: Path): Size {
    FullSize(limits, size, path) % SIZE_RANGE
  }

  datatype Verdict = OverCapacity | UnknownService | TooBig | NoService | Accepted

  // The checks of a send, in their order.
  function Admit(limits: Limits, services: set<string>, cacheSize: nat, payload: Payload, path: Path): Verdict {
    if AddSizes(cacheSize, ContainerSize(limits, payload.size, path)) > limits.maxCacheSize then OverCapacity
    else if path.service !in limits.config then UnknownService
    else if path.service !in services then NoService
    else if payload.size > MAX_MESSAGE_DATA_SIZE then TooBig
    else Accepted
  }

  // The greatest sum the arithmetic of an accepted send can meet stays in range.
  predicate ShortPath(limits: Limits, path: Path) {
    limits.maxCacheSize + FullSize(limits, MAX_MESSAGE_DATA_SIZE, path) < SIZE_RANGE
  }

  // For such paths the verdict is that of plain arithmetic, even where the sum for a huge
  // payload wraps around and slips through the first check.
  lemma AdmitIsExact(limits: Limits, services: set<string>, cacheSize: nat, payload: Payload, path: Path)
    requires ShortPath(limits, path) && cacheSize <= limits.maxCacheSize
    ensures var sum := cacheSize + payload.size + limits.objectSize + 36 + |path.service| + |path.handle|;
      var verdict := Admit(limits, services, cacheSize, payload, path);
      && (verdict.Accepted? <==>
            && path.service in limits.config && path.service in services
            && payload.size <= 2147483648 && sum <= limits.maxCacheSize)
      && (limits.maxCacheSize < sum < SIZE_RANGE ==> verdict == OverCapacity)
      && (sum <= limits.maxCacheSize ==>
            && (verdict == UnknownService <==> path.service !in limits.config)
            && (verdict == NoService <==> path.service in limits.config - services))
  {
    if payload.size <= MAX_MESSAGE_DATA_SIZE {
      assert FullSize(limits, payload.size, path) <= FullSize(limits, MAX_MESSAGE_DATA_SIZE, path);
    }
  }

  // Whenever the sum of a send wraps around, the payload is over the limit of a message,
  // so that the send is rejected whether or not the wrapped sum passes the first check.
  lemma WrappedSumIsStopped(limits: Limits, services: set<string>, cacheSize: nat, payload: Payload, path: Path)
    requires ShortPath(limits, path) && cacheSize <= limits.maxCacheSize
    requires cacheSize + FullSize(limits, payload.size, path) >= SIZE_RANGE
    ensures payload.size > MAX_MESSAGE_DATA_SIZE
    ensures Admit(limits, services, cacheSize, payload, path) ==
      if (cacheSize + FullSize(limits, payload.size, path)) % SIZE_RANGE > limits.maxCacheSize then OverCapacity
      else if path.service !in limits.config then UnknownService
      else if path.service !in services then NoService
      else TooBig
  {
    assert FullSize(limits, payload.size, path) - payload.size == FullSize(limits, 0, path);
    var full := FullSize(limits, payload.size, path);
    assert (cacheSize + full % SIZE_RANGE) % SIZE_RANGE == (cacheSize + full) % SIZE_RANGE;
  }

  // The first check alone does not stop them: on every account some wrapped sum passes it.
  lemma SomeWrappedSumPasses(limits: Limits, cacheSize: nat, path: Path)
    requires ShortPath(limits, path) && cacheSize <= limits.maxCacheSize
    ensures exists size: Size ::
      && cacheSize + FullSize(limits, size, path) >= SIZE_RANGE
      && AddSizes(cacheSize, ContainerSize(limits, size, path)) <= limits.maxCacheSize
  {
    var size: Size := SIZE_RANGE - FullSize(limits, 0, path);
    assert FullSize(limits, size, path) == SIZE_RANGE;
    assert ContainerSize(limits, size, path) == 0;
  }

  // ---------------------------------------------------------------- sums over services

  ghost function SumOf(sizes: map<string, nat>): nat
    decreases sizes.Keys
  {
    if sizes.Keys == {} then 0
    else
      var k := Least(sizes.Keys);
      sizes[k] + SumOf(sizes - {k})
  }

  lemma {:induction false} SumWithout(sizes: map<string, nat>, n: string)
    requires n in sizes
    ensures SumOf(sizes) == sizes[n] + SumOf(sizes - {n})
    decreases sizes.Keys
  {
    var k := Least(sizes.Keys);
    if k != n {
      SumWithout(sizes - {k}, n);
      SumWithout(sizes - {n}, k);
      assert sizes - {k} - {n} == sizes - {n} - {k};
    }
  }

  lemma SumWith(sizes: map<string, nat>, n: string, size: nat)
    requires n in sizes
    ensures SumOf(sizes[n := size]) == SumOf(sizes) - sizes[n] + size
    ensures sizes[n] <= SumOf(sizes)
  {
    SumWithout(sizes, n);
    SumWithout(sizes[n := size], n);
    assert sizes[n := size] - {n} == sizes - {n};
  }

  // ---------------------------------------------------------------- runs of a client

  // A client with the worlds of its services, and the full sizes of what it has accepted.
  datatype Client = Client(limits: Limits, services: map<string, World>, cacheSize: nat, accepted: seq<nat>)

  function Sizes(services: map<string, World>): map<string, nat> {
    map n | n in services :: services[n].s.cacheSize
  }

  function Total(accepted: seq<nat>): nat {
    if accepted == [] then 0 else Total(accepted[..|accepted| - 1]) + accepted[|accepted| - 1]
  }

  // A send by a client, or a step of one of its services that is not a send.
  datatype Event =
    | ClientSend(payload: Payload, path: Path, uuid: string, deadline: real)
    | Elsewhere(service: string, step: Step)

  function NewMessage(limits: Limits, payload: Payload, path: Path, uuid: string, deadline: real): Message {
    Message(uuid, path.service, path.handle, ContainerSize(limits, payload.Stored(), path), deadline)
  }

  ghost function React(c: Client, event: Event): Client {
    match event
    case ClientSend(payload, path, uuid, deadline) =>
      if !Admit(c.limits, c.services.Keys, c.cacheSize, payload, path).Accepted? then c
      else
        var m := NewMessage(c.limits, payload, path, uuid, deadline);
        var services := c.services[path.service := Apply(c.services[path.service], Send(m))];
        c.(services := services,
           cacheSize := SumOf(Sizes(services)) % SIZE_RANGE,
           accepted := c.accepted + [FullSize(c.limits, payload.Stored(), path)])
    case Elsewhere(n, step) =>
      if n !in c.services || step.Send? then c
      else c.(services := c.services[n := Apply(c.services[n], step)])
  }

  predicate Sound(c: Client) {
    forall n :: n in c.services ==> Placed(c.services[n].s)
  }

  // The account is right: it is the true sum of all that was accepted, it is what the
  // services hold, and it is within the limit.
  ghost predicate Balanced(c: Client) {
    SumOf(Sizes(c.services)) == Total(c.accepted) == c.cacheSize <= c.limits.maxCacheSize
  }

  lemma SendSize(w: World, m: Message)
    requires !w.s.failed
    ensures Apply(w, Send(m)).s.cacheSize == AddSizes(w.s.cacheSize, m.size)
  {
  }

  lemma OtherStepSize(w: World, step: Step)
    requires !step.Send?
    ensures Apply(w, step).s.cacheSize == w.s.cacheSize
  {
    hide Take, SendNext, BeginRefresh;
    if step.Refresh? {
      RefreshTouches(w.s, step.hosts, step.handles);
    }
  }

  lemma OneMoreAccepted(accepted: seq<nat>, size: nat)
    ensures Total(accepted + [size]) == Total(accepted) + size
  {
    assert (accepted + [size])[..|accepted|] == accepted;
  }

  // An accepted send keeps the account right if the sum it is checked by stays in range,
  // and only then, unless the payload is missing.
  lemma SendKeepsBalance(c: Client, event: Event)
    requires Balanced(c) && Sound(c) && event.ClientSend?
    requires Admit(c.limits, c.services.Keys, c.cacheSize, event.payload, event.path).Accepted?
    ensures var inRange := c.cacheSize + FullSize(c.limits, event.payload.size, event.path) < SIZE_RANGE;
      && (inRange ==> Balanced(React(c, event)))
      && (event.payload.present && Balanced(React(c, event)) ==> inRange)
  {
    hide SumOf, Apply, Placed, AddSizes, FullSize, ContainerSize, Total;
    var payload, path := event.payload, event.path;
    var m := NewMessage(c.limits, payload, path, event.uuid, event.deadline);
    var n := path.service;
    assert !c.services[n].s.failed by { NotFailed(c.services[n].s); }
    SendSize(c.services[n], m);
    OneMoreAccepted(c.accepted, FullSize(c.limits, payload.Stored(), path));
    var held := c.services[n].s.cacheSize;
    SumWith(Sizes(c.services), n, AddSizes(held, m.size));
    var services := c.services[n := Apply(c.services[n], Send(m))];
    assert Sizes(services) == Sizes(c.services)[n := AddSizes(held, m.size)];
    SendArithmetic(c.limits, c.cacheSize, held, payload, path);
  }

  lemma SendArithmetic(limits: Limits, sum: nat, held: nat, payload: Payload, path: Path)
    requires held <= sum <= limits.maxCacheSize
    requires AddSizes(sum, ContainerSize(limits, payload.size, path)) <= limits.maxCacheSize
    ensures var full := FullSize(limits, payload.Stored(), path);
      var added := AddSizes(held, ContainerSize(limits, payload.Stored(), path));
      && (sum + FullSize(limits, payload.size, path) < SIZE_RANGE ==>
            added == held + full && (sum - held + added) % SIZE_RANGE == sum + full <= limits.maxCacheSize)
      && (payload.present ==> full == FullSize(limits, payload.size, path))
  {
    var full, asked := FullSize(limits, payload.Stored(), path), FullSize(limits, payload.size, path);
    assert full <= asked;
    if sum + asked < SIZE_RANGE {
      InRangeSum(sum, asked);
      InRangeSum(held, full);
      InRangeSum(sum, full);
    }
  }

  lemma InRangeSum(sum: nat, size: nat)
    requires sum + size < SIZE_RANGE
    ensures size % SIZE_RANGE == size && AddSizes(sum, size) == sum + size == (sum + size) % SIZE_RANGE
  {
  }

  lemma NotFailed(s: State)
    requires Placed(s)
    ensures !s.failed
  {
  }

  lemma OthersKeepBalance(c: Client, n: string, step: Step)
    requires Balanced(c)
    ensures Balanced(React(c, Elsewhere(n, step)))
  {
    hide Apply, SumOf;
    if n in c.services && !step.Send? {
      OtherStepSize(c.services[n], step);
      assert Sizes(c.services[n := Apply(c.services[n], step)]) == Sizes(c.services);
    }
  }

  lemma ReactStaysSound(c: Client, event: Event)
    requires Sound(c)
    ensures Sound(React(c, event)) && React(c, event).limits == c.limits
  {
    hide Apply, Placed, SumOf, Admit;
    match event
    case ClientSend(payload, path, uuid, deadline) =>
      if Admit(c.limits, c.services.Keys, c.cacheSize, payload, path).Accepted? {
        AcceptedIsKnown(c.limits, c.services.Keys, c.cacheSize, payload, path);
        StepPlaced(c.services[path.service], Send(NewMessage(c.limits, payload, path, uuid, deadline)));
      }
    case Elsewhere(n, step) =>
      if n in c.services {
        StepPlaced(c.services[n], step);
      }
  }

  lemma AcceptedIsKnown(limits: Limits, services: set<string>, cacheSize: nat, payload: Payload, path: Path)
    requires Admit(limits, services, cacheSize, payload, path).Accepted?
    ensures path.service in services
  {
  }

  ghost function ReactAll(c: Client, events: seq<Event>): Client
    decreases |events|
  {
    if events == [] then c else ReactAll(React(c, events[0]), events[1..])
  }

  lemma {:induction false} RunKeepsBalance(c: Client, events: seq<Event>)
    requires Balanced(c) && Sound(c)
    requires forall e :: e in events && e.ClientSend? ==> ShortPath(c.limits, e.path)
    ensures Balanced(ReactAll(c, events)) && Sound(ReactAll(c, events))
    decreases |events|
  {
    hide Balanced, Sound, React, ShortPath;
    if events != [] {
      var e := events[0];
      EventKeepsBalance(c, e);
      ReactStaysSound(c, e);
      RunKeepsBalance(React(c, e), events[1..]);
    }
  }

  lemma EventKeepsBalance(c: Client, e: Event)
    requires Balanced(c) && Sound(c) && (e.ClientSend? ==> ShortPath(c.limits, e.path))
    ensures Balanced(React(c, e))
  {
    hide Apply, Sound, SumOf;
    if e.Elsewhere? {
      OthersKeepBalance(c, e.service, e.step);
    } else if Admit(c.limits, c.services.Keys, c.cacheSize, e.payload, e.path).Accepted? {
      AdmitIsExact(c.limits, c.services.Keys, c.cacheSize, e.payload, e.path);
      SendKeepsBalance(c, e);
    }
  }

  function NewClient(limits: Limits): Client {
    Client(limits, map n | n in limits.config :: Start(n), 0, [])
  }

  lemma {:induction false} NothingHeld(sizes: map<string, nat>)
    requires forall n :: n in sizes ==> sizes[n] == 0
    ensures SumOf(sizes) == 0
    decreases sizes.Keys
  {
    if sizes.Keys != {} {
      NothingHeld(sizes - {Least(sizes.Keys)});
    }
  }

  // In every run of a client, whatever its services do in between and as long as no path
  // is absurdly long, the account equals the sum of the sizes of all messages ever
  // accepted, over all services, and never exceeds the limit.
  lemma AccountIsRight(limits: Limits, events: seq<Event>)
    requires forall e :: e in events && e.ClientSend? ==> ShortPath(limits, e.path)
    ensures var c := ReactAll(NewClient(limits), events);
      c.cacheSize == Total(c.accepted) == SumOf(Sizes(c.services)) <= limits.maxCacheSize
  {
    hide ReactAll, SumOf, Total, ShortPath;
    var c := NewClient(limits);
    NothingHeld(Sizes(c.services));
    assert Total([]) == 0 by { NothingAccepted(); }
    RunKeepsBalance(c, events);
    LimitsStay(c, events);
  }

  lemma NothingAccepted()
    ensures Total([]) == 0
  {
  }

  lemma {:induction false} LimitsStay(c: Client, events: seq<Event>)
    ensures ReactAll(c, events).limits == c.limits
    decreases |events|
  {
    hide Apply, SumOf;
    if events != [] {
      LimitsStay(React(c, events[0]), events[1..]);
    }
  }
}
