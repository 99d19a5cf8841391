/** `service`: the object that owns the handles of one service and, for handles not there
    yet, the messages waiting for them. When a handle goes away the service keeps the deque
    of its cache itself, not a copy. */
module Service {
  import opened Messages
  import opened Links
  import opened Lifecycle
  import opened MessageCache
  import opened Handle
  import opened Dispatching

  function Queue(h: Handle): MessageQueue {
    h.messageCache.newMessages
  }

  ghost predicate Owns(repr: set<object>, h: Handle) {
    h in repr && h.messageCache in repr && Queue(h) in repr
  }

  ghost predicate OwnsAll(repr: set<object>, handles: map<string, Handle>) {
    forall n :: n in handles ==> Owns(repr, handles[n])
  }

  ghost predicate OwnsQueues(repr: set<object>, queues: map<string, MessageQueue>) {
    forall n :: n in queues ==> queues[n] in repr
  }

  // No two handles share an object, and no two names share a queue.
  ghost predicate Apart(handles: map<string, Handle>) {
    forall n, k :: n in handles && k in handles && n != k ==>
      && Queue(handles[n]) != Queue(handles[k])
      && handles[n].messageCache != handles[k].messageCache
      && handles[n] != handles[k]
  }

  // Handles are filed under their own name.
  ghost predicate Named(handles: map<string, Handle>) {
    forall n :: n in handles ==> handles[n].info.name == n
  }

  ghost predicate ApartQueues(queues: map<string, MessageQueue>) {
    forall n, k :: n in queues && k in queues && n != k ==> queues[n] != queues[k]
  }

  ghost function States(handles: map<string, Handle>, repr: set<object>): (r: map<string, HandleState>)
    requires OwnsAll(repr, handles)
    reads repr
    ensures r.Keys == handles.Keys
  {
    map n | n in handles :: handles[n].Abs()
  }

  ghost function Items(queues: map<string, MessageQueue>, repr: set<object>): (r: map<string, seq<Message>>)
    requires OwnsQueues(repr, queues)
    reads repr
    ensures r.Keys == queues.Keys
  {
    map n | n in queues :: queues[n].items
  }

  function Holding(h: HandleState, m: Message): HandleState {
    h.(cache := Enqueue(h.cache, m))
  }

  lemma SendingMeans(s: State, m: Message)
    ensures var n := m.handle;
      Lifecycle.SendMessage(s, m) ==
        var size := AddSizes(s.cacheSize, m.size);
        if n in s.handles then s.(cacheSize := size, handles := s.handles[n := Holding(s.handles[n], m)])
        else s.(cacheSize := size, unhandled := s.unhandled[n := Waiting(s, n) + [m]])
  {
  }

  class Service {
    const name: string
    var hosts: map<Ip, string>
    var handles: map<string, Handle>
    var unhandled: map<string, MessageQueue>
    var received: map<string, seq<Response>>
    var callbacks: set<string>
    var cacheSize: nat
    // What a refresh carries across the moments it lets go of the lock.
    var creating: seq<HandleInfo>
    var creatingHosts: seq<Ip>
    // An exception has left a refresh half done.
    var failed: bool
    // The objects of the live handles, and the queues of the names waiting.
    ghost var live: set<object>
    ghost var stored: set<object>

    constructor (serviceName: string)
      ensures Valid() && live == {} && stored == {} && Abs() == Initial(serviceName)
    {
      name := serviceName;
      hosts, handles, unhandled, received, callbacks := map[], map[], map[], map[], {};
      cacheSize, creating, creatingHosts, failed := 0, [], [], false;
      live, stored := {}, {};
    }

    // No object is shared: not between two handles, not between two names waiting, and not
    // between a handle and a name.
    ghost predicate Valid()
      reads this
    {
      && live !! stored && this !in live && this !in stored
      && OwnsAll(live, handles) && OwnsQueues(stored, unhandled)
      && Apart(handles) && ApartQueues(unhandled) && Named(handles)
    }

    ghost function Abs(): State
      requires Valid()
      reads this, live, stored
    {
      State(name, hosts, States(handles, live), Items(unhandled, stored),
            creating, creatingHosts, callbacks, received, cacheSize, failed)
    }

    // -------------------------------------------------------------- messages

    method EnqueueAt(n: string, message: Message)
      requires Valid() && n in handles
      modifies live
      ensures States(handles, live) ==
        old(States(handles, live))[n := Holding(old(States(handles, live))[n], message)]
    {
      hide Handle.Abs;
      handles[n].EnqueueMessage(message);
    }

    method StartWaiting(n: string, message: Message)
      requires Valid() && n !in handles && n !in unhandled
      modifies `unhandled, `stored
      ensures Valid() && fresh(stored - old(stored))
      ensures Items(unhandled, stored) == old(Items(unhandled, stored))[n := [message]]
    {
      hide Apart, Owns;
      var queue := new MessageQueue();
      queue.items := [message];
      unhandled := unhandled[n := queue];
      stored := stored + {queue};
    }

    method KeepWaiting(n: string, message: Message)
      requires Valid() && n in unhandled
      modifies stored
      ensures Items(unhandled, stored) ==
        old(Items(unhandled, stored))[n := old(Items(unhandled, stored))[n] + [message]]
    {
      var queue := unhandled[n];
      queue.items := queue.items + [message];
    }

    method SendMessage(message: Message)
      requires Valid()
      modifies this, live, stored
      ensures Valid() && live == old(live) && fresh(stored - old(stored))
      ensures Abs() == Lifecycle.SendMessage(old(Abs()), message)
    {
      hide States, Items, Apart, ApartQueues, OwnsAll, OwnsQueues, Lifecycle.SendMessage, Holding, AddSizes;
      var n := message.handle;
      SendingMeans(Abs(), message);
      ghost var before := Abs();
      cacheSize := AddSizes(cacheSize, message.size);
      if n in handles {
        EnqueueAt(n, message);
      } else if n in unhandled {
        KeepWaiting(n, message);
      } else {
        assert Waiting(before, n) + [message] == [message];
        StartWaiting(n, message);
      }
    }

    // -------------------------------------------------------------- responses

    method RegisterResponderCallback(n: string) returns (registered: bool)
      requires Valid()
      modifies `callbacks
      ensures registered <==> n !in old(callbacks)
      ensures Valid() && Abs() == old(Abs()).(callbacks := old(callbacks) + {n})
    {
      if n in callbacks {
        return false;
      }
      callbacks := callbacks + {n};
      registered := true;
    }

    method EnqueueResponse(response: Response)
      requires Valid()
      modifies `received
      ensures Valid() && Abs() == Lifecycle.EnqueueResponse(old(Abs()), response)
    {
      hide States, Items, OwnsAll, OwnsQueues, Apart, ApartQueues, Named;
      if response.handle !in callbacks {
        return;
      }
      if response.handle !in received {
        received := received[response.handle := []];
      }
      received := received[response.handle := received[response.handle] + [response]];
    }

    // One round of the delivering thread; `given` is what the callbacks are called with.
    method DispatchResponses() returns (given: map<string, Response>)
      requires Valid()
      modifies `received
      ensures Valid() && Abs() == Delivered(old(Abs()))
      ensures given == map n | n in callbacks && Inbox(old(Abs()), n) != [] :: Inbox(old(Abs()), n)[0]
    {
      hide States, Items, OwnsAll, OwnsQueues, Apart, ApartQueues, Named;
      received, given := DeliverRound(callbacks, received);
    }

    // A turn of the dispatch loop of one handle; each response is queued for its callback.
    method DispatchTurn(n: string, written: bool, replies: seq<Reply>)
      requires Valid() && n in handles
      modifies `received, live
      ensures Valid()
      ensures Abs() == AfterTurn(old(Abs()), n, written, replies)
    {
      hide States, Items, OwnsAll, OwnsQueues, Apart, ApartQueues, Named, Turned, Lifecycle.EnqueueResponse, EnqueueAll;
      ghost var before := Abs();
      var responses := TurnHandle(n, written, replies);
      ghost var turned := Abs();
      for i := 0 to |responses|
        invariant Valid() && EnqueueAll(turned, responses) == EnqueueAll(Abs(), responses[i..])
      {
        QueueFirst(Abs(), responses[i..]);
        assert responses[i..][1..] == responses[i + 1..];
        EnqueueResponse(responses[i]);
      }
      QueueFirst(Abs(), []);
    }

    method TurnHandle(n: string, written: bool, replies: seq<Reply>) returns (responses: seq<Response>)
      requires Valid() && n in handles
      modifies live
      ensures var (h, rs) := Turned(old(States(handles, live))[n], written, replies);
        responses == rs && States(handles, live) == old(States(handles, live))[n := h]
    {
      hide Handle.Abs, Turned;
      responses := handles[n].DispatchTurn(written, replies);
    }

    // -------------------------------------------------------------- refreshing

    method RefreshHosts(listed: seq<HostInfo>) returns (outstanding: seq<Ip>, added: seq<Ip>)
      requires Valid()
      modifies `hosts
      ensures SetOf(outstanding) == old(hosts).Keys - SetOf(Ips(listed))
      ensures added == Added(Ips(listed), old(hosts).Keys)
      ensures Valid() && Abs() == old(Abs()).(hosts := HostMap(listed))
    {
      hide States, Items, OwnsAll, OwnsQueues, Apart, ApartQueues, Named;
      outstanding := OutstandingHosts(hosts.Keys, listed);
      added := NewHosts(hosts.Keys, listed);
      hosts := MapHosts(listed);
    }

    // The outstanding handles as the refresh lists them, and the infos of the new ones.
    method RefreshHandles(listed: seq<HandleInfo>) returns (gone: seq<string>, created: seq<HandleInfo>)
      requires Valid()
      ensures gone == InNameOrder(Outstanding(Abs(), listed))
      ensures created == NewHandles(handles.Keys, listed)
    {
      hide OwnsAll, OwnsQueues, Apart, ApartQueues, Named, InNameOrder;
      gone := OutstandingHandles(handles, listed);
      SameInfos(handles, live);
      assert Outstanding(Abs(), listed) == Unlisted(handles, handles.Keys, listed);
      created := [];
      for i := 0 to |listed|
        invariant created == NewHandles(handles.Keys, listed[..i])
      {
        assert listed[..i + 1][..i] == listed[..i];
        if listed[i].name !in handles {
          created := created + [listed[i]];
        }
      }
      assert listed[..|listed|] == listed;
    }

    // All activity of a handle stops, and its messages are gathered in its queue.
    method Consolidate(n: string)
      requires Valid() && n in handles
      modifies live
      ensures States(handles, live) == old(States(handles, live))[n := Consolidated(old(States(handles, live))[n])]
      ensures Queue(handles[n]).items == AllNew(old(States(handles, live))[n].cache).pending
    {
      hide Handle.Abs, InUuidOrder, AllNew;
      handles[n].Consolidate();
    }

    // The queue itself becomes the waiting queue of the name, unless it is empty.
    method Detach(n: string)
      requires Valid() && n in handles && n !in unhandled
      modifies this
      ensures Valid() && live <= old(live) && stored <= old(stored) + old(live)
      ensures handles == old(handles) - {n} && States(handles, live) == old(States(handles, live)) - {n}
      ensures var q := Queue(old(handles)[n]).items;
        Items(unhandled, stored) ==
          if q != [] then old(Items(unhandled, stored))[n := q] else old(Items(unhandled, stored))
      ensures n in unhandled ==> unhandled[n] == Queue(old(handles)[n])
      ensures unchanged(`hosts, `received, `callbacks, `cacheSize, `creating, `creatingHosts, `failed)
    {
      hide States, Items, OwnsAll, OwnsQueues, Apart, ApartQueues, Named;
      var handle := handles[n];
      var queue := Queue(handle);
      WithoutHandle(handles, live, n);
      WithQueue(handles, live, unhandled, stored, n);
      live := live - {handle, handle.messageCache, queue};
      if queue.items != [] {
        unhandled := unhandled[n := queue];
        stored := stored + {queue};
      }
      handles := handles - {n};
    }

    method DropEmptyQueue(n: string) returns (ok: bool)
      requires Valid()
      modifies `unhandled
      ensures Valid()
      ensures ok <==> Waiting(old(Abs()), n) == []
      ensures ok ==> n !in unhandled && Items(unhandled, stored) == old(Items(unhandled, stored)) - {n}
      ensures !ok ==> unhandled == old(unhandled)
    {
      hide States, Apart, OwnsAll, Named;
      if n in unhandled {
        if unhandled[n].items != [] {
          return false;
        }
        unhandled := unhandled - {n};
      }
      ok := true;
    }

    // One handle goes. It is an error if messages are waiting under its name already: the
    // exception leaves the handle where it is, consolidated.
    method RemoveHandle(n: string) returns (ok: bool)
      requires Valid() && n in handles
      modifies this, live
      ensures Valid() && live <= old(live) && stored <= old(stored) + old(live)
      ensures ok <==> Waiting(old(Abs()), n) == []
      ensures ok ==> handles == old(handles) - {n} && Abs() == Removed(old(Abs()), {n})
      ensures ok && n in unhandled ==> unhandled[n] == Queue(old(handles)[n])
      ensures !ok ==> Abs() == Stuck(old(Abs()), n)
    {
      hide States, Items, OwnsAll, OwnsQueues, Apart, ApartQueues, Named, AllNew, Removed, Consolidated;
      ghost var before := Abs();
      Consolidate(n);
      ok := DropEmptyQueue(n);
      if !ok {
        failed := true;
        return;
      }
      Detach(n);
      assert States(handles, live) == before.handles - {n} by {
        Without(before.handles, n, Consolidated(before.handles[n]));
      }
      RemovingOne(before, n, Abs());
    }

    method RemoveOutstandingHandles(gone: seq<string>, ghost names: set<string>)
      requires Valid() && !failed && gone == InNameOrder(names) && names <= handles.Keys
      modifies this, live
      ensures Valid() && live <= old(live) && stored <= old(stored) + old(live)
      ensures Abs() == RemoveInOrder(old(Abs()), names)
    {
      hide States, Items, OwnsAll, OwnsQueues, Apart, ApartQueues, Named, Removed, Waiting, RemoveInOrder, IsLeast,
           InNameOrder, Stuck;
      ghost var before, left := Abs(), names;
      for i := 0 to |gone|
        invariant Valid() && live <= old(live) && stored <= old(stored) + old(live) && !failed
        invariant left <= handles.Keys && gone[i..] == InNameOrder(left)
        invariant RemoveInOrder(before, names) == RemoveInOrder(Abs(), left)
      {
        FirstInOrder(left);
        assert gone[i..][0] == gone[i] && gone[i..][1..] == gone[i + 1..];
        RemoveFirst(Abs(), left);
        var ok := RemoveHandle(gone[i]);
        if !ok {
          return;
        }
        left := left - {gone[i]};
      }
      NoneInOrder(left);
      RemoveNobody(Abs());
    }

    // Every handle is told to connect afresh, ...
    method ReconnectAll(hostList: seq<Ip>)
      requires Valid()
      modifies live
      ensures States(handles, live) == Reconnecting(old(States(handles, live)), hostList)
    {
      hide Handle.Abs, ReconnectTo;
      var rest := handles.Keys;
      ghost var before := States(handles, live);
      while rest != {}
        invariant rest <= handles.Keys
        invariant forall n :: n in handles ==>
          States(handles, live)[n] ==
          if n in rest then before[n] else before[n].(link := ReconnectTo(before[n].link, hostList))
        decreases rest
      {
        var n :| n in rest;
        handles[n].Reconnect(hostList);
        rest := rest - {n};
      }
    }

    // ... or to connect to the new hosts as well.
    method ConnectAllToNewHosts(added: seq<Ip>)
      requires Valid()
      modifies live
      ensures States(handles, live) == AddingHosts(old(States(handles, live)), added)
    {
      hide Handle.Abs, AddHosts;
      var rest := handles.Keys;
      ghost var before := States(handles, live);
      while rest != {}
        invariant rest <= handles.Keys
        invariant forall n :: n in handles ==>
          States(handles, live)[n] ==
          if n in rest then before[n] else before[n].(link := AddHosts(before[n].link, added))
        decreases rest
      {
        var n :| n in rest;
        handles[n].ConnectNewHosts(added);
        rest := rest - {n};
      }
    }

    // The reaction of the remaining handles, and the list of those to create.
    method FollowHosts(outstanding: seq<Ip>, added: seq<Ip>, created: seq<HandleInfo>)
      requires Valid()
      modifies live, `creating, `creatingHosts
      ensures Valid() && unchanged(`live, `stored)
      ensures Abs() == old(Abs()).(
        handles := Followed(old(Abs()).handles, outstanding, added, Listing(hosts.Keys)),
        creating := created,
        creatingHosts := Listing(hosts.Keys))
    {
      hide States, Items, OwnsAll, OwnsQueues, Apart, ApartQueues, Named, Listing, Reconnecting, AddingHosts;
      var hostList := ListHosts(hosts);
      if outstanding != [] {
        ReconnectAll(hostList);
      } else if added != [] {
        ConnectAllToNewHosts(added);
      }
      creating, creatingHosts := created, hostList;
    }

    // The part of a refresh before the lock is released.
    method BeginRefresh(listedHosts: seq<HostInfo>, listed: seq<HandleInfo>)
      requires Valid() && !failed
      modifies this, live
      ensures Valid() && live <= old(live) && stored <= old(stored) + old(live)
      ensures Abs() == Lifecycle.BeginRefresh(old(Abs()), listedHosts, listed)
    {
      hide States, Items, OwnsAll, OwnsQueues, Apart, ApartQueues, Named, Removed, RemoveInOrder, InNameOrder, Conflict,
           HostMap, Listing, Outstanding, NewHandles, Followed, Lifecycle.BeginRefresh, SetOf, Added, Ips;
      ghost var before := Abs();
      var outstandingHosts, newHosts := RefreshHosts(listedHosts);
      var gone, created := RefreshHandles(listed);
      RemovalMeans(before, listedHosts, listed);
      RemoveOutstandingHandles(gone, Outstanding(before, listed));
      if failed {
        return;
      }
      FollowHosts(outstandingHosts, newHosts, created);
      RefreshMeans(before, listedHosts, listed, outstandingHosts, newHosts);
    }

    // A new handle, holding the messages that were waiting for it.
    method MakeHandle(info: HandleInfo) returns (handle: Handle)
      requires Valid()
      modifies `unhandled
      ensures Valid() && fresh(handle) && fresh(handle.messageCache) && fresh(Queue(handle))
      ensures handle.info == info
      ensures handle.Abs() ==
        HandleState(info, Append(EmptyCache, Waiting(old(Abs()), info.name)), NewLink(creatingHosts))
      ensures Items(unhandled, stored) == old(Items(unhandled, stored)) - {info.name}
    {
      hide States, OwnsAll, Apart, Named;
      handle := new Handle(info, creatingHosts);
      if info.name in unhandled {
        handle.messageCache.AppendMessageQueue(unhandled[info.name]);
        unhandled := unhandled - {info.name};
      }
    }

    method Insert(handle: Handle)
      requires Valid() && handle.info.name !in handles
      requires {handle, handle.messageCache, Queue(handle)} !! live + stored + {this}
      modifies `handles, `live
      ensures Valid() && live == old(live) + {handle, handle.messageCache, Queue(handle)}
      ensures handles == old(handles)[handle.info.name := handle]
      ensures States(handles, live) == old(States(handles, live))[handle.info.name := old(handle.Abs())]
    {
      hide Items, OwnsQueues, ApartQueues, Handle.Abs;
      handles := handles[handle.info.name := handle];
      live := live + {handle, handle.messageCache, Queue(handle)};
    }

    method ConnectAt(n: string)
      requires Valid() && n in handles
      modifies live
      ensures States(handles, live) ==
        old(States(handles, live))[n := Connecting(old(States(handles, live))[n], creatingHosts)]
    {
      hide Handle.Abs, ConnectTo;
      handles[n].ConnectTo(creatingHosts);
    }

    method AddHandle(info: HandleInfo)
      requires Valid() && info.name !in handles
      modifies `handles, `unhandled, `live, live
      ensures Valid() && fresh(live - old(live))
      ensures States(handles, live) == old(States(handles, live))[info.name :=
        Connecting(
          HandleState(info, Append(EmptyCache, Waiting(old(Abs()), info.name)), NewLink(creatingHosts)),
          creatingHosts)]
      ensures Items(unhandled, stored) == old(Items(unhandled, stored)) - {info.name}
    {
      hide States, Items, OwnsAll, OwnsQueues, Apart, ApartQueues, Named, Connecting, ConnectTo, Append, Waiting,
           Handle.Abs;
      var handle := MakeHandle(info);
      Insert(handle);
      ConnectAt(info.name);
    }

    // One handle of a refresh under way.
    method CreateNext()
      requires Valid() && creating != []
      modifies this, live
      ensures Valid() && fresh(live - old(live)) && stored == old(stored)
      ensures Abs() == CreateHandle(old(Abs()))
    {
      hide States, Items, OwnsAll, OwnsQueues, Apart, ApartQueues, Named, Connecting, Append, CreateHandle, Waiting,
           Abs, NewLink;
      Fields();
      CreatingMeans(Abs());
      var info := creating[0].(service := name);
      if info.name in handles {
        creating := [];
      } else {
        AddHandle(info);
        creating := creating[1..];
      }
      Fields();
    }

    lemma Fields()
      requires Valid()
      ensures Abs() ==
        State(name, hosts, States(handles, live), Items(unhandled, stored),
            creating, creatingHosts, callbacks, received, cacheSize, failed)
    {
    }
  }

  lemma QueueFirst(s: State, responses: seq<Response>)
    ensures EnqueueAll(s, responses) ==
      if responses == [] then s else EnqueueAll(Lifecycle.EnqueueResponse(s, responses[0]), responses[1..])
  {
  }

  function Connecting(h: HandleState, hosts: seq<Ip>): HandleState {
    h.(link := ConnectTo(h.link, hosts))
  }

  lemma CreatingMeans(s: State)
    requires s.creating != []
    ensures var info := s.creating[0].(service := s.name);
      CreateHandle(s) ==
        if info.name in s.handles then s.(creating := [])
        else s.(
          handles := s.handles[info.name :=
            Connecting(
              HandleState(info, Append(EmptyCache, Waiting(s, info.name)), NewLink(s.creatingHosts)),
              s.creatingHosts)],
          unhandled := s.unhandled - {info.name},
          creating := s.creating[1..])
  {
  }

  function Reconnecting(states: map<string, HandleState>, hosts: seq<Ip>): map<string, HandleState> {
    map n | n in states :: states[n].(link := ReconnectTo(states[n].link, hosts))
  }

  function AddingHosts(states: map<string, HandleState>, hosts: seq<Ip>): map<string, HandleState> {
    map n | n in states :: states[n].(link := AddHosts(states[n].link, hosts))
  }

  // Removing the outstanding handles, the new hosts being in place already.
  lemma RemovalMeans(s: State, listedHosts: seq<HostInfo>, listed: seq<HandleInfo>)
    requires !s.failed
    ensures var gone := Outstanding(s, listed);
      var s' := s.(hosts := HostMap(listedHosts));
      var removed := RemoveInOrder(s', gone);
      && Outstanding(s', listed) == gone <= s.handles.Keys
      && (removed.failed <==> Conflict(s, gone))
      && (removed.failed ==> removed == Lifecycle.BeginRefresh(s, listedHosts, listed))
      && (!removed.failed ==> removed == Removed(s, gone).(hosts := HostMap(listedHosts)))
  {
    hide AllNew, HostMap, RemoveInOrder, Conflict;
    var gone := Outstanding(s, listed);
    var s' := s.(hosts := HostMap(listedHosts));
    SameConflict(s, s', gone);
    RemoveInOrderMeans(s', gone);
  }

  function Followed(states: map<string, HandleState>, outstanding: seq<Ip>, added: seq<Ip>, all: seq<Ip>):
    map<string, HandleState>
  {
    if outstanding != [] then Reconnecting(states, all)
    else if added != [] then AddingHosts(states, added)
    else states
  }

  // The three reactions to a changed host list, handle by handle.
  lemma RefreshMeans(
      s: State, listedHosts: seq<HostInfo>, listed: seq<HandleInfo>, outstanding: seq<Ip>, added: seq<Ip>)
    requires !Conflict(s, Outstanding(s, listed))
    requires SetOf(outstanding) == s.hosts.Keys - SetOf(Ips(listedHosts))
    requires added == Added(Ips(listedHosts), s.hosts.Keys)
    ensures var rest := Removed(s, Outstanding(s, listed));
      var all := Listing(HostMap(listedHosts).Keys);
      Lifecycle.BeginRefresh(s, listedHosts, listed) == rest.(
        hosts := HostMap(listedHosts),
        handles := Followed(rest.handles, outstanding, added, all),
        creating := NewHandles(s.handles.Keys, listed),
        creatingHosts := all)
  {
    hide Removed, Conflict, HostMap, Listing, NewHandles, SetOf, Ips, Added, ReconnectTo, AddHosts;
    NoneListed(outstanding);
    assert Lifecycle.BeginRefresh(s, listedHosts, listed).handles ==
      Followed(Removed(s, Outstanding(s, listed)).handles, outstanding, added, Listing(HostMap(listedHosts).Keys));
  }

  method ListHosts(hosts: map<Ip, string>) returns (list: seq<Ip>)
    ensures list == Listing(hosts.Keys)
  {
    hide Listing, IsSmallest;
    list := [];
    var rest := hosts.Keys;
    while rest != {}
      invariant list + Listing(rest) == Listing(hosts.Keys)
      decreases rest
    {
      SmallestExists(rest);
      var ip :| IsSmallest(ip, rest);
      assert ip in rest by { SmallestIsIn(ip, rest); }
      ListingFrom(list, rest, ip);
      list := list + [ip];
      rest := rest - {ip};
    }
    NoListing();
  }

  lemma ListingFrom(list: seq<Ip>, rest: set<Ip>, ip: Ip)
    requires IsSmallest(ip, rest)
    ensures list + Listing(rest) == list + [ip] + Listing(rest - {ip})
  {
    hide Listing, IsSmallest;
    ListingFirst(rest, ip);
  }

  lemma SmallestIsIn(ip: Ip, hosts: set<Ip>)
    requires IsSmallest(ip, hosts)
    ensures ip in hosts
  {
  }

  lemma NoListing()
    ensures Listing({}) == []
  {
  }

  // The names of a set in the order a map lists them.
  ghost function InNameOrder(names: set<string>): seq<string>
    decreases names
  {
    if names == {} then []
    else
      var n := Least(names);
      [n] + InNameOrder(names - {n})
  }

  lemma FirstInOrder(names: set<string>)
    requires InNameOrder(names) != []
    ensures var n := InNameOrder(names)[0];
      names != {} && n == Least(names) && n in names && InNameOrder(names)[1..] == InNameOrder(names - {n})
  {
    LeastIsIn(Least(names), names);
  }

  lemma NoneInOrder(names: set<string>)
    ensures InNameOrder(names) == [] <==> names == {}
  {
  }

  lemma LeastInOrder(names: set<string>, n: string)
    requires IsLeast(n, names)
    ensures InNameOrder(names) == [n] + InNameOrder(names - {n})
  {
    LeastIsUnique(n, Least(names), names);
  }

  // A handle that could not be removed.
  ghost function Stuck(s: State, n: string): State
    requires n in s.handles
  {
    s.(handles := s.handles[n := Consolidated(s.handles[n])], failed := true)
  }

  lemma RemoveFirst(s: State, names: set<string>)
    requires names != {} && names <= s.handles.Keys
    ensures var n := Least(names);
      && n in names
      && Removed(s, {n}).handles.Keys == s.handles.Keys - {n} && Removed(s, {n}).failed == s.failed
      && RemoveInOrder(s, names) ==
           if Waiting(s, n) != [] then Stuck(s, n) else RemoveInOrder(Removed(s, {n}), names - {n})
  {
    LeastIsIn(Least(names), names);
    RemovedKeeps(s, Least(names));
  }

  lemma RemoveNobody(s: State)
    ensures RemoveInOrder(s, {}) == s
  {
  }

  lemma Without(handles: map<string, HandleState>, n: string, h: HandleState)
    ensures handles[n := h] - {n} == handles - {n}
  {
  }

  lemma WithoutHandle(handles: map<string, Handle>, repr: set<object>, n: string)
    requires n in handles && OwnsAll(repr, handles) && Apart(handles) && Named(handles)
    ensures var h := handles[n];
      var rest := repr - {h, h.messageCache, Queue(h)};
      && OwnsAll(rest, handles - {n}) && Apart(handles - {n}) && Named(handles - {n})
      && States(handles - {n}, rest) == States(handles, repr) - {n}
  {
    hide Handle.Abs;
  }

  lemma WithQueue(handles: map<string, Handle>, live: set<object>,
                  queues: map<string, MessageQueue>, stored: set<object>, n: string)
    requires n in handles && n !in queues && OwnsAll(live, handles) && live !! stored
    requires OwnsQueues(stored, queues) && ApartQueues(queues)
    ensures var q := Queue(handles[n]);
      && q in live && OwnsQueues(stored + {q}, queues[n := q]) && ApartQueues(queues[n := q])
      && Items(queues[n := q], stored + {q}) == Items(queues, stored)[n := q.items]
  {
  }

  lemma RemovingOne(s: State, n: string, s': State)
    requires n in s.handles && Waiting(s, n) == []
    requires s' == s.(handles := s'.handles, unhandled := s'.unhandled) && s'.handles == s.handles - {n}
    requires var q := AllNew(s.handles[n].cache).pending;
      s'.unhandled == if q != [] then (s.unhandled - {n})[n := q] else s.unhandled - {n}
    ensures s' == Removed(s, {n})
  {
    hide AllNew;
    assert s'.unhandled == Removed(s, {n}).unhandled;
  }

  lemma SameInfos(handles: map<string, Handle>, repr: set<object>)
    requires OwnsAll(repr, handles)
    ensures forall n :: n in handles ==> States(handles, repr)[n].info == handles[n].info
  {
  }

  // The names among some whose handle is not listed.
  function Unlisted(handles: map<string, Handle>, names: set<string>, listed: seq<HandleInfo>): set<string> {
    set n | n in names && n in handles && handles[n].info !in listed
  }

  method OutstandingHandles(handles: map<string, Handle>, listed: seq<HandleInfo>) returns (gone: seq<string>)
    ensures gone == InNameOrder(Unlisted(handles, handles.Keys, listed))
  {
    hide InNameOrder, IsLeast;
    gone := [];
    var rest := handles.Keys;
    while rest != {}
      invariant rest <= handles.Keys
      invariant InNameOrder(Unlisted(handles, handles.Keys, listed)) ==
        gone + InNameOrder(Unlisted(handles, rest, listed))
      decreases rest
    {
      var n := FirstName(rest);
      var found := false;
      for i := 0 to |listed|
        invariant found <==> handles[n].info in listed[..i]
      {
        assert listed[..i + 1] == listed[..i] + [listed[i]];
        if handles[n].info == listed[i] {
          found := true;
        }
      }
      assert listed[..|listed|] == listed;
      FirstUnlisted(handles, rest, listed, n);
      if !found {
        gone := gone + [n];
      }
      rest := rest - {n};
    }
    NoneInOrder(Unlisted(handles, rest, listed));
  }

  lemma FirstUnlisted(handles: map<string, Handle>, names: set<string>, listed: seq<HandleInfo>, n: string)
    requires IsLeast(n, names) && n in handles
    ensures var rest := InNameOrder(Unlisted(handles, names - {n}, listed));
      InNameOrder(Unlisted(handles, names, listed)) == if handles[n].info in listed then rest else [n] + rest
  {
    hide InNameOrder;
    var unlisted := Unlisted(handles, names, listed);
    if handles[n].info in listed {
      assert unlisted == Unlisted(handles, names - {n}, listed);
    } else {
      assert IsLeast(n, unlisted);
      LeastInOrder(unlisted, n);
      assert unlisted - {n} == Unlisted(handles, names - {n}, listed);
    }
  }

  method FirstName(names: set<string>) returns (n: string)
    requires names != {}
    ensures IsLeast(n, names) && n in names
  {
    LeastExists(names);
    n :| IsLeast(n, names);
  }

  method OutstandingHosts(before: set<Ip>, listed: seq<HostInfo>) returns (outstanding: seq<Ip>)
    ensures SetOf(outstanding) == before - SetOf(Ips(listed))
  {
    outstanding := [];
    var rest := before;
    while rest != {}
      invariant rest <= before
      invariant SetOf(outstanding) == before - rest - SetOf(Ips(listed))
      decreases rest
    {
      var ip :| ip in rest;
      var found := false;
      for i := 0 to |listed|
        invariant found <==> ip in Ips(listed)[..i]
      {
        assert Ips(listed)[..i + 1] == Ips(listed)[..i] + [listed[i].ip];
        if listed[i].ip == ip {
          found := true;
        }
      }
      assert Ips(listed)[..|listed|] == Ips(listed);
      if !found {
        assert SetOf(outstanding + [ip]) == SetOf(outstanding) + {ip};
        outstanding := outstanding + [ip];
      }
      rest := rest - {ip};
    }
  }

  method NewHosts(before: set<Ip>, listed: seq<HostInfo>) returns (added: seq<Ip>)
    ensures added == Added(Ips(listed), before)
  {
    added := [];
    for i := 0 to |listed|
      invariant added + Added(Ips(listed)[i..], before) == Added(Ips(listed), before)
    {
      assert Ips(listed)[i..][1..] == Ips(listed)[i + 1..];
      if listed[i].ip !in before {
        added := added + [listed[i].ip];
      }
    }
  }

  method MapHosts(listed: seq<HostInfo>) returns (hosts: map<Ip, string>)
    ensures hosts == HostMap(listed)
  {
    hosts := map[];
    for i := 0 to |listed|
      invariant hosts == HostMap(listed[..i])
    {
      assert listed[..i + 1][..i] == listed[..i];
      hosts := hosts[listed[i].ip := listed[i].hostname];
    }
    assert listed[..|listed|] == listed;
  }

  method DeliverRound(callbacks: set<string>, before: map<string, seq<Response>>)
    returns (received: map<string, seq<Response>>, given: map<string, Response>)
    ensures received == map n | n in before ::
      if n in callbacks && before[n] != [] then before[n][1..] else before[n]
    ensures given == map n | n in callbacks && n in before && before[n] != [] :: before[n][0]
  {
    received, given := before, map[];
    var rest := callbacks;
    while rest != {}
      invariant rest <= callbacks && received.Keys == before.Keys
      invariant forall n :: n in before ==>
        received[n] == if n in callbacks && n !in rest && before[n] != [] then before[n][1..] else before[n]
      invariant given == map n | n in callbacks && n !in rest && n in before && before[n] != [] :: before[n][0]
      decreases rest
    {
      var n :| n in rest;
      if n in received {
        if received[n] != [] {
          given := given[n := received[n][0]];
          received := received[n := received[n][1..]];
        }
      }
      rest := rest - {n};
    }
  }
}
