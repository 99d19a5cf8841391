/** One service, its handles and the messages passing through them, as a step system.
    Client threads send, the heartbeat thread refreshes, each handle's dispatch thread
    obeys commands, sends and receives, and the service's own thread delivers responses;
    every step is what one of them does while it holds the lock. */
module Lifecycle {
  import opened Messages
  import opened Links

  const MESSAGE_CHUNK := 1
  const MESSAGE_CHOKE := 2
  const MESSAGE_QUEUE_IS_FULL := 503

  // One more than the largest `size_t`.
  const SIZE_RANGE := 0x1_0000_0000_0000_0000

  function AddSizes(a: nat, b: nat): nat {
    (a + b) % SIZE_RANGE
  }

  datatype HandleInfo = HandleInfo(name: string, service: string, port: nat)

  datatype HostInfo = HostInfo(ip: Ip, hostname: string)

  datatype HandleState = HandleState(info: HandleInfo, cache: Cache, link: Link)

  // What a callback is told: a piece of the answer, its end, or an error.
  datatype Response =
    | Chunk(uuid: string, service: string, handle: string, data: string)
    | Choke(uuid: string, service: string, handle: string)
    | Failure(uuid: string, service: string, handle: string, code: int, text: string)
  {
    // The code the callback sees.
    function Code(): int {
      match this
      case Chunk(_, _, _, _) => MESSAGE_CHUNK
      case Choke(_, _, _) => MESSAGE_CHOKE
      case Failure(_, _, _, c, _) => c
    }
  }

  // What follows the envelope of a reply, as far as it can be read.
  datatype Part = NoPart | Part(bytes: string)

  // One reply on a handle's socket: an envelope that cannot be read, or one with its
  // fields and the data part behind it.
  datatype Reply = BadEnvelope | Reply(uuid: string, completed: bool, code: int, text: string, data: Part)

  // `creating` and `creatingHosts` belong to a refresh that has released the lock and has
  // these handles still to create. `failed` records the internal error of a refresh that
  // finds messages waiting beside a live handle.
  datatype State = State(
    name: string,
    hosts: map<Ip, string>,
    handles: map<string, HandleState>,
    unhandled: map<string, seq<Message>>,
    creating: seq<HandleInfo>,
    creatingHosts: seq<Ip>,
    callbacks: set<string>,
    received: map<string, seq<Response>>,
    cacheSize: nat,
    failed: bool)

  const NoState := State("", map[], map[], map[], [], [], {}, map[], 0, false)

  function Initial(name: string): State {
    NoState.(name := name)
  }

  // ---------------------------------------------------------------- sending

  // The messages waiting for a handle of this name to appear.
  function Waiting(s: State, n: string): seq<Message> {
    if n in s.unhandled then s.unhandled[n] else []
  }

  function WithCache(s: State, n: string, c: Cache): State
    requires n in s.handles
  {
    s.(handles := s.handles[n := s.handles[n].(cache := c)])
  }

  function SendMessage(s: State, m: Message): State {
    var counted := s.(cacheSize := AddSizes(s.cacheSize, m.size));
    if m.handle in s.handles then
      WithCache(counted, m.handle, Enqueue(s.handles[m.handle].cache, m))
    else
      counted.(unhandled := s.unhandled[m.handle := Waiting(s, m.handle) + [m]])
  }

  // ---------------------------------------------------------------- refreshing

  function Ips(hosts: seq<HostInfo>): seq<Ip> {
    seq(|hosts|, i requires 0 <= i < |hosts| => hosts[i].ip)
  }

  // A host listed twice keeps its last name.
  function HostMap(hosts: seq<HostInfo>): (r: map<Ip, string>)
    ensures r.Keys == SetOf(Ips(hosts))
  {
    if hosts == [] then map[]
    else
      var front, last := hosts[..|hosts| - 1], hosts[|hosts| - 1];
      assert Ips(hosts) == Ips(front) + [last.ip];
      HostMap(front)[last.ip := last.hostname]
  }

  lemma {:induction false} HostMapKeepsLast(hosts: seq<HostInfo>, i: nat)
    requires i < |hosts| && forall j :: i < j < |hosts| ==> hosts[j].ip != hosts[i].ip
    ensures hosts[i].ip in HostMap(hosts) && HostMap(hosts)[hosts[i].ip] == hosts[i].hostname
  {
    if i < |hosts| - 1 {
      HostMapKeepsLast(hosts[..|hosts| - 1], i);
    }
  }

  predicate IsSmallest(h: Ip, hosts: set<Ip>) {
    h in hosts && forall o :: o in hosts ==> h <= o
  }

  lemma {:induction false} SmallestExists(hosts: set<Ip>)
    requires hosts != {}
    ensures exists h :: IsSmallest(h, hosts)
    decreases hosts
  {
    var x :| x in hosts;
    var rest := hosts - {x};
    assert forall o :: o in hosts && o != x ==> o in rest;
    if rest == {} {
      assert IsSmallest(x, hosts);
    } else {
      SmallestExists(rest);
      var h :| IsSmallest(h, rest);
      assert IsSmallest(if h < x then h else x, hosts);
    }
  }

  // The hosts in the order the service's map lists them.
  ghost function Listing(hosts: set<Ip>): (r: seq<Ip>)
    ensures SetOf(r) == hosts
    decreases hosts
  {
    if hosts == {} then []
    else
      SmallestExists(hosts);
      var h :| IsSmallest(h, hosts);
      var rest := Listing(hosts - {h});
      assert SetOf([h] + rest) == {h} + SetOf(rest);
      [h] + rest
  }

  lemma ListingFirst(hosts: set<Ip>, h: Ip)
    requires IsSmallest(h, hosts)
    ensures Listing(hosts) == [h] + Listing(hosts - {h})
  {
  }

  lemma {:induction false} ListingAscends(hosts: set<Ip>)
    ensures forall i, j :: 0 <= i < j < |Listing(hosts)| ==> Listing(hosts)[i] < Listing(hosts)[j]
    decreases hosts
  {
    if hosts != {} {
      SmallestExists(hosts);
      var h :| IsSmallest(h, hosts);
      ListingFirst(hosts, h);
      ListingAscends(hosts - {h});
      var rest := Listing(hosts - {h});
      forall j | 0 <= j < |rest| ensures h < rest[j] {
        assert rest[j] in SetOf(rest);
      }
    }
  }

  // Live handles the new list does not mention with the same service and port.
  function Outstanding(s: State, listed: seq<HandleInfo>): set<string> {
    set n | n in s.handles && s.handles[n].info !in listed
  }

  // Listed handles whose name is not in use; the name alone is looked at.
  function NewHandles(live: set<string>, listed: seq<HandleInfo>): seq<HandleInfo> {
    if listed == [] then []
    else
      var front, last := listed[..|listed| - 1], listed[|listed| - 1];
      NewHandles(live, front) + (if last.name in live then [] else [last])
  }

  predicate Conflict(s: State, gone: set<string>) {
    exists n :: n in gone && Waiting(s, n) != []
  }

  // The handles go; the messages each was responsible for stay behind under its name.
  ghost function Removed(s: State, gone: set<string>): State
    requires gone <= s.handles.Keys
  {
    s.(handles := s.handles - gone,
       unhandled := map n | n in s.unhandled.Keys + gone && (n in gone ==> AllNew(s.handles[n].cache).pending != []) ::
         if n in gone then AllNew(s.handles[n].cache).pending else s.unhandled[n])
  }

  function Disconnected(l: Link): Link {
    if l.running then l.(control := l.control + [Disconnect]) else l
  }

  // A handle about to go: told to disconnect, its messages all pending.
  ghost function Consolidated(h: HandleState): HandleState {
    HandleState(h.info, AllNew(h.cache), Disconnected(h.link))
  }

  // The handles go one by one, by name; it is an internal error if messages are waiting
  // beside one of them, and leaves that one consolidated and the later ones as they were.
  ghost function RemoveInOrder(s: State, gone: set<string>): State
    requires gone <= s.handles.Keys
    decreases gone
  {
    if gone == {} then s
    else
      var n := Least(gone);
      if Waiting(s, n) != [] then s.(handles := s.handles[n := Consolidated(s.handles[n])], failed := true)
      else RemoveInOrder(Removed(s, {n}), gone - {n})
  }

  lemma RemovedMore(s: State, gone: set<string>, n: string)
    requires gone <= s.handles.Keys && n in s.handles && n !in gone
    ensures Removed(Removed(s, {n}), gone) == Removed(s, gone + {n})
    ensures forall k :: k in gone ==> Waiting(Removed(s, {n}), k) == Waiting(s, k)
  {
    hide AllNew;
    var first := Removed(s, {n});
    assert first.handles.Keys == s.handles.Keys - {n} && forall k :: k in gone ==> first.handles[k] == s.handles[k];
    assert first.handles - gone == s.handles - (gone + {n});
    var once, twice := Removed(s, gone + {n}).unhandled, Removed(first, gone).unhandled;
    forall k ensures (k in once <==> k in twice) && (k in once ==> once[k] == twice[k]) {
      if k in gone {
        assert k in first.handles;
      }
    }
    assert once == twice;
  }

  lemma NoneRemoved(s: State)
    ensures Removed(s, {}) == s
  {
    assert s.handles - {} == s.handles;
    assert Removed(s, {}).unhandled == s.unhandled;
  }

  // One by one or all at once: without waiting messages it is the same, with them it fails.
  lemma {:induction false} RemoveInOrderMeans(s: State, gone: set<string>)
    requires gone <= s.handles.Keys && !s.failed
    ensures RemoveInOrder(s, gone).failed <==> Conflict(s, gone)
    ensures !Conflict(s, gone) ==> RemoveInOrder(s, gone) == Removed(s, gone)
    decreases gone
  {
    hide Removed, Consolidated, IsLeast;
    if gone == {} {
      NoneRemoved(s);
    } else {
      var n := Least(gone);
      assert n in gone by { LeastIsIn(n, gone); }
      if Waiting(s, n) == [] {
        var rest := gone - {n};
        assert rest + {n} == gone;
        RemovedMore(s, rest, n);
        assert rest <= Removed(s, {n}).handles.Keys && !Removed(s, {n}).failed by { RemovedKeeps(s, n); }
        RemoveInOrderMeans(Removed(s, {n}), rest);
        assert Conflict(s, gone) <==> Conflict(Removed(s, {n}), rest);
      }
    }
  }

  lemma LeastIsIn(n: string, names: set<string>)
    requires IsLeast(n, names)
    ensures n in names
  {
  }

  lemma RemovedKeeps(s: State, n: string)
    requires n in s.handles
    ensures Removed(s, {n}).handles.Keys == s.handles.Keys - {n} && Removed(s, {n}).failed == s.failed
  {
  }

  // Whether or not it fails, only the handles named and their messages are touched.
  lemma {:induction false} RemoveInOrderTouches(s: State, gone: set<string>)
    requires gone <= s.handles.Keys
    ensures var s' := RemoveInOrder(s, gone);
      && s' == s.(handles := s'.handles, unhandled := s'.unhandled, failed := s'.failed)
      && (forall n :: n !in gone ==> Waiting(s', n) == Waiting(s, n))
    decreases gone
  {
    hide Consolidated, IsLeast, AllNew;
    if gone != {} {
      var n := Least(gone);
      assert n in gone by { LeastIsIn(n, gone); }
      if Waiting(s, n) == [] {
        RemovedKeeps(s, n);
        RemoveInOrderTouches(Removed(s, {n}), gone - {n});
      }
    }
  }

  // The part of a refresh under the lock.
  ghost function BeginRefresh(s: State, hosts: seq<HostInfo>, listed: seq<HandleInfo>): State {
    var gone := Outstanding(s, listed);
    if Conflict(s, gone) then RemoveInOrder(s.(hosts := HostMap(hosts)), gone)
    else
      var rest := Removed(s, gone);
      var all := Listing(HostMap(hosts).Keys);
      rest.(
        hosts := HostMap(hosts),
        handles := map n | n in rest.handles ::
          rest.handles[n].(link := Refreshed(rest.handles[n].link, s.hosts.Keys, Ips(hosts), all)),
        creating := NewHandles(s.handles.Keys, listed),
        creatingHosts := all)
  }

  lemma RefreshTouches(s: State, hosts: seq<HostInfo>, listed: seq<HandleInfo>)
    ensures var s' := BeginRefresh(s, hosts, listed);
      && s'.name == s.name && s'.callbacks == s.callbacks && s'.received == s.received && s'.cacheSize == s.cacheSize
      && (forall n :: n !in s.handles ==> Waiting(s', n) == Waiting(s, n))
      && (!s.failed ==> (s'.failed <==> Conflict(s, Outstanding(s, listed))))
  {
    hide HostMap, Listing, Refreshed, AllNew, RemoveInOrder, Conflict;
    var gone := Outstanding(s, listed);
    var s0 := s.(hosts := HostMap(hosts));
    RemoveInOrderTouches(s0, gone);
    assert Conflict(s0, gone) == Conflict(s, gone) by { SameConflict(s, s0, gone); }
    if !s.failed {
      RemoveInOrderMeans(s0, gone);
    }
  }

  lemma SameConflict(s: State, s': State, gone: set<string>)
    requires s'.unhandled == s.unhandled
    ensures Conflict(s', gone) == Conflict(s, gone)
  {
    assert forall n :: Waiting(s', n) == Waiting(s, n);
  }

  function Created(s: State, info: HandleInfo): HandleState {
    HandleState(
      info.(service := s.name),
      Append(EmptyCache, Waiting(s, info.name)),
      ConnectTo(NewLink(s.creatingHosts), s.creatingHosts))
  }

  // One handle of the refresh in progress. Its control endpoint carries its name, so a
  // name already live makes the construction throw and the rest of the list is abandoned.
  function CreateHandle(s: State): State {
    if s.creating == [] then s
    else
      var info := s.creating[0];
      if info.name in s.handles then s.(creating := [])
      else s.(
        handles := s.handles[info.name := Created(s, info)],
        unhandled := s.unhandled - {info.name},
        creating := s.creating[1..])
  }

  // ---------------------------------------------------------------- dispatching

  predicate Connected(s: State, n: string) {
    n in s.handles && s.handles[n].link.running && s.handles[n].link.connected
  }

  // A message that could not be written to the socket stays in front.
  function SendNext(c: Cache, written: bool): Cache {
    if c.pending != [] && written then FrontToSent(c) else c
  }

  // What a reply does to the cache, and the response it gives rise to, if any.
  datatype Receipt = Receipt(cache: Cache, responses: seq<Response>)

  function Take(c: Cache, reply: Reply): Receipt {
    if reply.BadEnvelope? || reply.uuid == "" then Receipt(c, [])
    else
      var u := reply.uuid;
      if u !in c.sent then Receipt(c, [])
      else
        var m := c.sent[u];
        if reply.code == MESSAGE_QUEUE_IS_FULL then Receipt(SentToFront(c, u), [])
        else if reply.code != 0 then
          Receipt(RemoveSent(c, u), [Failure(u, m.service, m.handle, reply.code, reply.text)])
        else if reply.completed then Receipt(RemoveSent(c, u), [Choke(u, m.service, m.handle)])
        else Receipt(c, if reply.data.Part? then [Chunk(u, m.service, m.handle, reply.data.bytes)] else [])
  }

  function Inbox(s: State, n: string): seq<Response> {
    if n in s.received then s.received[n] else []
  }

  // A response nobody registered for is dropped.
  function EnqueueResponse(s: State, r: Response): State {
    if r.handle in s.callbacks then s.(received := s.received[r.handle := Inbox(s, r.handle) + [r]]) else s
  }

  function EnqueueAll(s: State, responses: seq<Response>): State
    decreases |responses|
  {
    if responses == [] then s else EnqueueAll(EnqueueResponse(s, responses[0]), responses[1..])
  }

  // One round over the callbacks, each given the oldest response of its handle.
  function Delivered(s: State): State {
    s.(received := map n | n in s.received ::
      if n in s.callbacks && s.received[n] != [] then s.received[n][1..] else s.received[n])
  }

  // ---------------------------------------------------------------- runs

  // What has happened: messages accepted in order, messages finished, responses produced
  // in order, how many of these there were when each callback was registered, and what
  // each callback has been given.
  datatype Log = Log(
    accepted: seq<Message>,
    finished: multiset<Message>,
    produced: seq<Response>,
    since: map<string, nat>,
    given: map<string, seq<Response>>)

  datatype World = World(s: State, log: Log)

  datatype Step =
    | Send(message: Message)
    | Refresh(hosts: seq<HostInfo>, handles: seq<HandleInfo>)
    | CreateNext
    | Command(handle: string)
    | Dispatch(handle: string, written: bool)
    | Receive(handle: string, reply: Reply)
    | Deliver
    | Register(handle: string)

  function Start(name: string): World {
    World(Initial(name), Log([], multiset{}, [], map[], map[]))
  }

  function Given(log: Log, n: string): seq<Response> {
    if n in log.given then log.given[n] else []
  }

  ghost function Apply(w: World, step: Step): World {
    var s, log := w.s, w.log;
    if s.failed then w
    else match step
      case Send(m) => World(SendMessage(s, m), log.(accepted := log.accepted + [m]))
      case Refresh(hosts, handles) => if s.creating != [] then w else w.(s := BeginRefresh(s, hosts, handles))
      case CreateNext => w.(s := CreateHandle(s))
      case Command(n) =>
        if n !in s.handles then w
        else w.(s := s.(handles := s.handles[n := s.handles[n].(link := ObeyNext(s.handles[n].link))]))
      case Dispatch(n, written) =>
        if !Connected(s, n) then w else w.(s := WithCache(s, n, SendNext(s.handles[n].cache, written)))
      case Receive(n, reply) => if !Connected(s, n) then w else Receiving(w, n, reply)
      case Deliver => World(Delivered(s), log.(given := map n | n in s.callbacks ::
        Given(log, n) + (if Inbox(s, n) != [] then [Inbox(s, n)[0]] else [])))
      case Register(n) =>
        if n in s.callbacks then w
        else World(s.(callbacks := s.callbacks + {n}), log.(since := log.since[n := |log.produced|]))
  }

  ghost function Receiving(w: World, n: string, reply: Reply): World
    requires n in w.s.handles
  {
    var c := w.s.handles[n].cache;
    var receipt := Take(c, reply);
    var s := WithCache(w.s, n, receipt.cache);
    if receipt.responses == [] then w.(s := s)
    else
      var r := receipt.responses[0];
      World(EnqueueResponse(s, r), w.log.(
        finished := w.log.finished + (if r.Chunk? then multiset{} else multiset{c.sent[r.uuid]}),
        produced := w.log.produced + [r]))
  }

  // Uuids are fresh; the heartbeat thread starts a refresh only after the last is over.
  predicate Allowed(w: World, step: Step) {
    match step
    case Send(m) => forall a :: a in w.log.accepted ==> a.uuid != m.uuid
    case Refresh(_, _) => w.s.creating == []
    case _ => true
  }

  ghost function Run(w: World, steps: seq<Step>): World
    decreases |steps|
  {
    if steps == [] then w else Run(Apply(w, steps[0]), steps[1..])
  }

  ghost predicate Lawful(w: World, steps: seq<Step>)
    decreases |steps|
  {
    steps == [] || (Allowed(w, steps[0]) && Lawful(Apply(w, steps[0]), steps[1..]))
  }

  lemma RunNext(w: World, steps: seq<Step>, i: nat)
    requires i < |steps|
    ensures Run(w, steps[i..]) == Run(Apply(w, steps[i]), steps[i + 1..])
    ensures Lawful(w, steps[i..]) <==> Allowed(w, steps[i]) && Lawful(Apply(w, steps[i]), steps[i + 1..])
  {
    hide Apply, Allowed;
    assert steps[i..][0] == steps[i] && steps[i..][1..] == steps[i + 1..];
  }

  lemma RefreshApplies(w: World, hosts: seq<HostInfo>, listed: seq<HandleInfo>)
    requires w.s.creating == [] && !w.s.failed
    ensures Apply(w, Refresh(hosts, listed)) == w.(s := BeginRefresh(w.s, hosts, listed))
  {
  }

  lemma CreateApplies(w: World)
    requires !w.s.failed
    ensures Apply(w, CreateNext) == w.(s := CreateHandle(w.s))
  {
  }

  lemma CommandApplies(w: World, n: string)
    requires !w.s.failed && n in w.s.handles
    ensures Apply(w, Command(n)) ==
      w.(s := w.s.(handles := w.s.handles[n := w.s.handles[n].(link := ObeyNext(w.s.handles[n].link))]))
  {
  }

  lemma RunNothing(w: World)
    ensures Run(w, []) == w && Lawful(w, [])
  {
  }
}
