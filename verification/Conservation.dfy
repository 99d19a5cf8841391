/** No message is lost or duplicated: in every state a run can reach, each accepted message
    is in exactly one place. */
module Conservation {
  import opened Messages
  import opened Links
  import opened Lifecycle

  // ---------------------------------------------------------------- where messages may be

  predicate OwnCache(c: Cache, n: string) {
    && Keyed(c.sent)
    && (forall m :: m in c.pending ==> m.handle == n)
    && (forall u :: u in c.sent ==> c.sent[u].handle == n)
  }

  predicate OwnQueue(q: seq<Message>, n: string) {
    q != [] && forall m :: m in q ==> m.handle == n
  }

  predicate OwnHandle(s: State, n: string)
    requires n in s.handles
  {
    s.handles[n].info.name == n && s.handles[n].info.service == s.name && OwnCache(s.handles[n].cache, n)
  }

  // Handles are filed under their own name, messages wait only under the name they are
  // for, and never under the name of a live handle.
  predicate Placed(s: State) {
    && !s.failed
    && (forall n :: n in s.handles ==> OwnHandle(s, n))
    && (forall n :: n in s.unhandled ==> n !in s.handles && OwnQueue(s.unhandled[n], n))
  }

  // The internal error of a refresh needs messages waiting beside a live handle; there
  // are none.
  lemma NoConflict(s: State, gone: set<string>)
    requires Placed(s) && gone <= s.handles.Keys
    ensures !Conflict(s, gone)
  {
  }

  lemma PlacedNotFailed(s: State)
    requires Placed(s)
    ensures !s.failed
  {
  }

  lemma MovesStayOwn(c: Cache, n: string)
    requires OwnCache(c, n)
    ensures c.pending != [] ==> OwnCache(FrontToSent(c), n)
    ensures forall u :: OwnCache(SentToFront(c, u), n) && OwnCache(RemoveSent(c, u), n)
    ensures AllNew(c).pending != [] ==> OwnQueue(AllNew(c).pending, n)
  {
    InUuidOrderIsSorted(c.sent);
    if c.pending != [] {
      assert c.pending[0] in c.pending;
    }
  }

  lemma CacheChangePlaced(s: State, n: string, c: Cache)
    requires Placed(s) && n in s.handles && OwnCache(c, n)
    ensures Placed(WithCache(s, n, c))
  {
    hide OwnCache, OwnQueue;
    var s' := WithCache(s, n, c);
    forall k | k in s'.handles ensures OwnHandle(s', k) {
      assert OwnHandle(s, k);
    }
  }

  lemma SendPlaced(s: State, m: Message)
    requires Placed(s)
    ensures Placed(SendMessage(s, m))
  {
    hide Placed;
    var counted := s.(cacheSize := AddSizes(s.cacheSize, m.size));
    assert Placed(counted) && OwnNames(s) by { CountedPlaced(s, AddSizes(s.cacheSize, m.size)); }
    if m.handle in s.handles {
      assert OwnHandle(s, m.handle);
      CacheChangePlaced(counted, m.handle, Enqueue(s.handles[m.handle].cache, m));
    } else {
      WaitingPlaced(counted, m);
    }
  }

  predicate OwnNames(s: State) {
    forall n :: n in s.handles ==> OwnHandle(s, n)
  }

  lemma CountedPlaced(s: State, size: nat)
    requires Placed(s)
    ensures Placed(s.(cacheSize := size)) && OwnNames(s)
  {
    hide OwnCache, OwnQueue;
    var s' := s.(cacheSize := size);
    forall n | n in s'.handles ensures OwnHandle(s', n) {
      assert OwnHandle(s, n);
    }
  }

  lemma WaitingPlaced(s: State, m: Message)
    requires Placed(s) && m.handle !in s.handles
    ensures Placed(s.(unhandled := s.unhandled[m.handle := Waiting(s, m.handle) + [m]]))
  {
    var s' := s.(unhandled := s.unhandled[m.handle := Waiting(s, m.handle) + [m]]);
    assert OwnQueue(Waiting(s, m.handle) + [m], m.handle);
    forall n | n in s'.handles ensures OwnHandle(s', n) {
      assert OwnHandle(s, n);
    }
  }

  lemma RefreshPlaced(s: State, hosts: seq<HostInfo>, listed: seq<HandleInfo>)
    requires Placed(s)
    ensures Placed(BeginRefresh(s, hosts, listed))
  {
    hide OwnCache, OwnQueue, AllNew, Listing, HostMap, Refreshed;
    var gone := Outstanding(s, listed);
    NoConflict(s, gone);
    var s' := BeginRefresh(s, hosts, listed);
    forall n | n in s'.handles ensures OwnHandle(s', n) {
      assert OwnHandle(s, n);
    }
    forall n | n in s'.unhandled ensures n !in s'.handles && OwnQueue(s'.unhandled[n], n) {
      if n in gone {
        assert OwnHandle(s, n);
        MovesStayOwn(s.handles[n].cache, n);
      }
    }
  }

  lemma CreatePlaced(s: State)
    requires Placed(s)
    ensures Placed(CreateHandle(s))
  {
    hide ConnectTo;
    var s' := CreateHandle(s);
    forall n | n in s'.handles ensures OwnHandle(s', n) {
      if n in s.handles {
        assert OwnHandle(s, n);
      } else {
        assert OwnCache(Append(EmptyCache, Waiting(s, n)), n);
      }
    }
  }

  lemma LinkChangePlaced(s: State, n: string, l: Link)
    requires Placed(s) && n in s.handles
    ensures Placed(s.(handles := s.handles[n := s.handles[n].(link := l)]))
  {
    hide OwnCache, OwnQueue;
    var s' := s.(handles := s.handles[n := s.handles[n].(link := l)]);
    forall k | k in s'.handles ensures OwnHandle(s', k) {
      assert OwnHandle(s, k);
    }
  }

  lemma DispatchPlaced(s: State, n: string, written: bool)
    requires Placed(s) && n in s.handles
    ensures Placed(WithCache(s, n, SendNext(s.handles[n].cache, written)))
  {
    assert OwnHandle(s, n);
    MovesStayOwn(s.handles[n].cache, n);
    CacheChangePlaced(s, n, SendNext(s.handles[n].cache, written));
  }

  lemma ReceivePlaced(w: World, n: string, reply: Reply)
    requires Placed(w.s) && n in w.s.handles
    ensures Placed(Receiving(w, n, reply).s)
  {
    hide FrontToSent, SentToFront, RemoveSent, AllNew;
    var c := w.s.handles[n].cache;
    var receipt := Take(c, reply);
    assert OwnHandle(w.s, n);
    MovesStayOwn(c, n);
    CacheChangePlaced(w.s, n, receipt.cache);
    InboxesPlaced(WithCache(w.s, n, receipt.cache), Receiving(w, n, reply).s);
  }

  lemma InboxesPlaced(s: State, s': State)
    requires Placed(s) && s'.handles == s.handles && s'.unhandled == s.unhandled && s'.name == s.name && !s'.failed
    ensures Placed(s')
  {
    hide OwnCache, OwnQueue;
    forall n | n in s'.handles ensures OwnHandle(s', n) {
      assert OwnHandle(s, n);
    }
  }

  lemma StepPlaced(w: World, step: Step)
    requires Placed(w.s)
    ensures Placed(Apply(w, step).s)
  {
    hide OwnHandle, OwnCache, OwnQueue, Placed, SendMessage, BeginRefresh, CreateHandle, Receiving, SendNext,
         WithCache, ObeyNext;
    var s := w.s;
    if !s.failed {
      match step
      case Send(m) => SendPlaced(s, m);
      case Refresh(hosts, handles) => RefreshPlaced(s, hosts, handles);
      case CreateNext => CreatePlaced(s);
      case Command(n) => if n in s.handles { LinkChangePlaced(s, n, ObeyNext(s.handles[n].link)); }
      case Dispatch(n, written) => if Connected(s, n) { DispatchPlaced(s, n, written); }
      case Receive(n, reply) => if Connected(s, n) { ReceivePlaced(w, n, reply); }
      case Deliver => InboxesPlaced(s, Apply(w, step).s);
      case Register(n) => InboxesPlaced(s, Apply(w, step).s);
    }
  }

  lemma {:induction false} RunPlaced(w: World, steps: seq<Step>)
    requires Placed(w.s)
    ensures Placed(Run(w, steps).s)
    decreases |steps|
  {
    hide Apply, Placed;
    if steps != [] {
      StepPlaced(w, steps[0]);
      RunPlaced(Apply(w, steps[0]), steps[1..]);
    }
  }

  // ---------------------------------------------------------------- conservation

  // The messages a name is responsible for: those of its live handle and those waiting
  // for one, with multiplicity.
  ghost function Pool(s: State, n: string): multiset<Message> {
    (if n in s.handles then Held(s.handles[n].cache) else multiset{}) + multiset(Waiting(s, n))
  }

  predicate FreshUuids(accepted: seq<Message>) {
    forall i, j :: 0 <= i < j < |accepted| ==> accepted[i].uuid != accepted[j].uuid
  }

  // How much more often a message is found, in its pool or among the finished, than it
  // was accepted.
  ghost function Surplus(w: World, m: Message): int {
    var found: int := Pool(w.s, m.handle)[m] + w.log.finished[m];
    found - multiset(w.log.accepted)[m]
  }

  ghost predicate Conserved(w: World) {
    forall m: Message :: Surplus(w, m) == 0
  }

  ghost predicate Inv(w: World) {
    Placed(w.s) && FreshUuids(w.log.accepted) && Conserved(w)
  }

  lemma {:induction false} AcceptedOnce(accepted: seq<Message>, m: Message)
    requires FreshUuids(accepted)
    ensures multiset(accepted)[m] <= 1
    ensures forall o :: o in accepted && o.uuid == m.uuid && m in accepted ==> o == m
  {
    if accepted != [] {
      var front, last := accepted[..|accepted| - 1], accepted[|accepted| - 1];
      AcceptedOnce(front, m);
      assert accepted == front + [last];
      forall a | a in front ensures a.uuid != last.uuid {
        var i :| 0 <= i < |front| && front[i] == a;
        assert accepted[i].uuid != accepted[|accepted| - 1].uuid;
      }
    }
  }

  // Two messages of one uuid in the pools or among the finished are the same message,
  // found once.
  lemma UuidOnce(w: World, m: Message, o: Message)
    requires Inv(w) && m.uuid == o.uuid
    ensures Pool(w.s, m.handle)[m] + w.log.finished[m] <= 1
    ensures Pool(w.s, m.handle)[m] + w.log.finished[m] > 0 && Pool(w.s, o.handle)[o] + w.log.finished[o] > 0 ==> m == o
  {
    hide Placed, FreshUuids, Pool;
    assert Surplus(w, m) == 0 == Surplus(w, o);
    AcceptedOnce(w.log.accepted, m);
    assert m in multiset(w.log.accepted) <==> m in w.log.accepted;
    assert o in multiset(w.log.accepted) <==> o in w.log.accepted;
  }

  lemma PoolOfCache(s: State, n: string, c: Cache, k: string)
    requires n in s.handles
    ensures Pool(WithCache(s, n, c), k) == if k == n then Held(c) + multiset(Waiting(s, n)) else Pool(s, k)
  {
    hide Held;
  }

  lemma PoolOfLive(s: State, n: string)
    requires n in s.handles
    ensures Pool(s, n) == Held(s.handles[n].cache) + multiset(Waiting(s, n))
  {
    hide Held;
  }

  lemma SendPool(s: State, m: Message, k: string)
    ensures Pool(SendMessage(s, m), k) == Pool(s, k) + (if k == m.handle then multiset{m} else multiset{})
  {
    if m.handle in s.handles {
      EnqueueHolds(s.handles[m.handle].cache, m);
    }
  }

  lemma RefreshPool(s: State, hosts: seq<HostInfo>, listed: seq<HandleInfo>, k: string)
    requires Placed(s)
    ensures Pool(BeginRefresh(s, hosts, listed), k) == Pool(s, k)
  {
    hide OwnHandle, OwnQueue, Listing, HostMap, Refreshed, InUuidOrder;
    NoConflict(s, Outstanding(s, listed));
    if k in s.handles {
      assert k !in s.unhandled;
    }
  }

  lemma CreatedHolds(q: seq<Message>)
    ensures Held(Append(EmptyCache, q)) == multiset(q)
  {
    hide InUuidOrder;
    AppendHolds(EmptyCache, q);
    EmptyIndex();
  }

  lemma CreatePool(s: State, k: string)
    requires Placed(s)
    ensures Pool(CreateHandle(s), k) == Pool(s, k)
  {
    hide OwnHandle, OwnQueue, ConnectTo, Held, Append;
    CreatedHolds(Waiting(s, k));
  }

  lemma LinkPool(s: State, n: string, l: Link, k: string)
    requires n in s.handles
    ensures Pool(s.(handles := s.handles[n := s.handles[n].(link := l)]), k) == Pool(s, k)
  {
    hide Held;
  }

  lemma SamePool(s: State, s': State, k: string)
    requires s'.handles == s.handles && s'.unhandled == s.unhandled
    ensures Pool(s', k) == Pool(s, k)
  {
    hide Held;
  }

  // The front message of a live handle is not among the sent ones, so sending it loses
  // nothing.
  lemma DispatchPool(w: World, n: string, written: bool, k: string)
    requires Inv(w) && n in w.s.handles
    ensures Pool(WithCache(w.s, n, SendNext(w.s.handles[n].cache, written)), k) == Pool(w.s, k)
  {
    hide OwnQueue, Held, FreshUuids, Conserved;
    var c := w.s.handles[n].cache;
    PoolOfCache(w.s, n, SendNext(c, written), k);
    if c.pending != [] && written {
      assert OwnHandle(w.s, n);
      var m := c.pending[0];
      assert m in c.pending;
      FrontToSentHolds(c);
      if m.uuid in c.sent {
        BothInPool(w, n, m);
        UuidOnce(w, m, c.sent[m.uuid]);
        assert false;
      }
    }
  }

  lemma BothInPool(w: World, n: string, m: Message)
    requires n in w.s.handles && OwnHandle(w.s, n)
    requires var c := w.s.handles[n].cache; m in c.pending && m.uuid in c.sent
    ensures var o := w.s.handles[n].cache.sent[m.uuid];
      && m.handle == n && o.handle == n && o.uuid == m.uuid
      && Pool(w.s, n)[m] >= 1 && Pool(w.s, n)[o] >= 1 && (m == o ==> Pool(w.s, n)[m] >= 2)
  {
    var c := w.s.handles[n].cache;
    SentIsHeld(c, m.uuid);
    assert m in multiset(c.pending);
  }

  // What a final response takes out of a cache.
  function Finishing(c: Cache, reply: Reply): multiset<Message> {
    var responses := Take(c, reply).responses;
    if responses != [] && !responses[0].Chunk? then multiset{c.sent[reply.uuid]} else multiset{}
  }

  lemma TakeHolds(c: Cache, reply: Reply)
    ensures Held(Take(c, reply).cache) + Finishing(c, reply) == Held(c)
  {
    hide Held, SentToFront, RemoveSent;
    if reply.Reply? {
      SentMovesHold(c, reply.uuid);
    }
  }

  lemma ReceivePool(w: World, n: string, reply: Reply, m: Message)
    requires Placed(w.s) && n in w.s.handles
    ensures var w' := Receiving(w, n, reply);
      && Pool(w'.s, m.handle)[m] + w'.log.finished[m] == Pool(w.s, m.handle)[m] + w.log.finished[m]
      && w'.log.accepted == w.log.accepted
  {
    hide Held, Placed, OwnQueue, Pool, SentToFront, RemoveSent, WithCache, EnqueueResponse;
    var c := w.s.handles[n].cache;
    var w' := Receiving(w, n, reply);
    var s1 := WithCache(w.s, n, Take(c, reply).cache);
    assert OwnHandle(w.s, n) by { OwnNamesOf(w.s); }
    TakeHolds(c, reply);
    EnqueueKeeps(s1, w'.s);
    SamePool(s1, w'.s, m.handle);
    PoolOfCache(w.s, n, Take(c, reply).cache, m.handle);
    PoolOfLive(w.s, n);
    assert w'.log.finished == w.log.finished + Finishing(c, reply);
    assert forall o :: o in Finishing(c, reply) ==> o.handle == n;
  }

  lemma EnqueueKeeps(s: State, s': State)
    requires s' == s || exists r :: s' == EnqueueResponse(s, r)
    ensures s'.handles == s.handles && s'.unhandled == s.unhandled
  {
  }

  lemma OwnNamesOf(s: State)
    requires Placed(s)
    ensures OwnNames(s)
  {
  }

  lemma StepFresh(w: World, step: Step)
    requires FreshUuids(w.log.accepted) && Allowed(w, step)
    ensures FreshUuids(Apply(w, step).log.accepted)
  {
    hide SendMessage, BeginRefresh, CreateHandle, WithCache, ObeyNext, Take;
  }

  lemma SendCounts(w: World, sent: Message, m: Message)
    ensures Surplus(Apply(w, Send(sent)), m) == Surplus(w, m)
  {
    hide SendMessage, Pool;
    SendPool(w.s, sent, m.handle);
  }

  lemma SameCounts(w: World, w': World, m: Message)
    requires w'.log.accepted == w.log.accepted && w'.log.finished == w.log.finished
    requires Pool(w'.s, m.handle) == Pool(w.s, m.handle)
    ensures Surplus(w', m) == Surplus(w, m)
  {
    hide Pool;
  }

  lemma RefreshCounts(w: World, hosts: seq<HostInfo>, listed: seq<HandleInfo>, m: Message)
    requires Placed(w.s)
    ensures Surplus(Apply(w, Refresh(hosts, listed)), m) == Surplus(w, m)
  {
    hide BeginRefresh, Pool, Placed;
    RefreshPool(w.s, hosts, listed, m.handle);
    SameCounts(w, Apply(w, Refresh(hosts, listed)), m);
  }

  lemma CreateCounts(w: World, m: Message)
    requires Placed(w.s)
    ensures Surplus(Apply(w, CreateNext), m) == Surplus(w, m)
  {
    hide CreateHandle, Pool, Placed;
    CreatePool(w.s, m.handle);
    SameCounts(w, Apply(w, CreateNext), m);
  }

  lemma DispatchCounts(w: World, n: string, written: bool, m: Message)
    requires Inv(w)
    ensures Surplus(Apply(w, Dispatch(n, written)), m) == Surplus(w, m)
  {
    hide Pool, Placed, FreshUuids, Conserved, WithCache, SendNext;
    if !w.s.failed && Connected(w.s, n) {
      DispatchPool(w, n, written, m.handle);
    }
    SameCounts(w, Apply(w, Dispatch(n, written)), m);
  }

  lemma ReceiveCounts(w: World, n: string, reply: Reply, m: Message)
    requires Placed(w.s)
    ensures Surplus(Apply(w, Receive(n, reply)), m) == Surplus(w, m)
  {
    hide Pool, Placed, Receiving;
    if !w.s.failed && Connected(w.s, n) {
      ReceivePool(w, n, reply, m);
    }
  }

  lemma QuietCounts(w: World, step: Step, m: Message)
    requires step.Command? || step.Deliver? || step.Register?
    ensures Surplus(Apply(w, step), m) == Surplus(w, m)
  {
    hide Pool, ObeyNext, Given, Inbox;
    var s := w.s;
    if step.Command? && step.handle in s.handles {
      LinkPool(s, step.handle, ObeyNext(s.handles[step.handle].link), m.handle);
    } else {
      SamePool(s, Apply(w, step).s, m.handle);
    }
    SameCounts(w, Apply(w, step), m);
  }

  lemma StepCounts(w: World, step: Step, m: Message)
    requires Inv(w)
    ensures Surplus(Apply(w, step), m) == Surplus(w, m)
  {
    hide Apply, Placed, FreshUuids, Conserved, Surplus;
    match step
    case Send(sent) => SendCounts(w, sent, m);
    case Refresh(hosts, handles) => RefreshCounts(w, hosts, handles, m);
    case CreateNext => CreateCounts(w, m);
    case Dispatch(n, written) => DispatchCounts(w, n, written, m);
    case Receive(n, reply) => ReceiveCounts(w, n, reply, m);
    case _ => QuietCounts(w, step, m);
  }

  lemma StepConserves(w: World, step: Step)
    requires Inv(w) && Allowed(w, step)
    ensures Inv(Apply(w, step))
  {
    hide Apply, Placed, Surplus, FreshUuids, Allowed;
    StepPlaced(w, step);
    StepFresh(w, step);
    forall m: Message ensures Surplus(Apply(w, step), m) == 0 {
      StepCounts(w, step, m);
    }
  }

  lemma {:induction false} RunConserves(w: World, steps: seq<Step>)
    requires Inv(w) && Lawful(w, steps)
    ensures Inv(Run(w, steps))
    decreases |steps|
  {
    hide Inv, Apply, Allowed;
    if steps != [] {
      StepConserves(w, steps[0]);
      RunConserves(Apply(w, steps[0]), steps[1..]);
    }
  }

  lemma StartConserves(name: string)
    ensures Inv(Start(name))
  {
  }

  // ---------------------------------------------------------------- exactly one place

  function Pending(s: State, n: string): seq<Message> {
    if n in s.handles then s.handles[n].cache.pending else []
  }

  function Sent(s: State, n: string): map<string, Message> {
    if n in s.handles then s.handles[n].cache.sent else map[]
  }

  // In how many places a message is: how often it is pending, whether it is indexed as
  // sent, how often it waits for its handle, and how often it has been finished.
  function Places(w: World, m: Message): nat {
    multiset(Pending(w.s, m.handle))[m]
    + (if m.uuid in Sent(w.s, m.handle) && Sent(w.s, m.handle)[m.uuid] == m then 1 else 0)
    + multiset(Waiting(w.s, m.handle))[m]
    + w.log.finished[m]
  }

  predicate IsUnder(s: State, n: string, m: Message) {
    m in Pending(s, n) || m in Sent(s, n).Values || m in Waiting(s, n)
  }

  lemma {:induction false} IndexCounts(sent: map<string, Message>, m: Message)
    requires Keyed(sent)
    ensures multiset(InUuidOrder(sent))[m] == if m.uuid in sent && sent[m.uuid] == m then 1 else 0
    decreases sent.Keys
  {
    if sent.Keys != {} {
      var k := Least(sent.Keys);
      IndexCounts(sent - {k}, m);
    }
  }

  lemma PlacesMean(w: World, m: Message)
    requires Inv(w)
    ensures Places(w, m) == multiset(w.log.accepted)[m]
    ensures forall n :: IsUnder(w.s, n, m) ==> n == m.handle
  {
    hide FreshUuids, InUuidOrder;
    assert Surplus(w, m) == 0;
    if m.handle in w.s.handles {
      assert OwnHandle(w.s, m.handle);
      IndexCounts(w.s.handles[m.handle].cache.sent, m);
    }
    forall n | IsUnder(w.s, n, m) ensures n == m.handle {
      if n in w.s.handles {
        assert OwnHandle(w.s, n);
      }
    }
  }

  // In every reachable state each accepted message is in exactly one place and no other
  // message is anywhere; nothing is filed under a foreign name; and the internal error of
  // a refresh has not happened.
  lemma NoMessageLost(name: string, steps: seq<Step>, m: Message)
    requires Lawful(Start(name), steps)
    ensures var w := Run(Start(name), steps);
      && Places(w, m) == (if m in w.log.accepted then 1 else 0)
      && (forall n :: IsUnder(w.s, n, m) ==> n == m.handle)
      && !w.s.failed
  {
    hide Start, Run, Lawful, Surplus, Places, IsUnder;
    StartConserves(name);
    RunConserves(Start(name), steps);
    var w := Run(Start(name), steps);
    PlacesMean(w, m);
    AcceptedOnce(w.log.accepted, m);
    assert m in multiset(w.log.accepted) <==> m in w.log.accepted;
  }
}
