/** Which hosts the sockets of the live handles are connected to. */
module Connections {
  import opened Messages
  import opened Links
  import opened Lifecycle
  import opened Conservation

  // Every live handle is on its way to hosts of the service.
  predicate Attended(s: State) {
    && (forall n :: n in s.handles ==> Approaching(s.handles[n].link, s.hosts.Keys))
    && (s.creating != [] ==> SetOf(s.creatingHosts) == s.hosts.Keys)
    && (s.handles != map[] || s.creating != [] ==> s.hosts != map[])
  }

  // The handle of this name is live and on its way to all of them.
  predicate InStepWith(s: State, n: string) {
    n in s.handles && WillBeInStep(s.handles[n].link, s.hosts.Keys)
  }

  predicate ListsHosts(step: Step) {
    step.Refresh? ==> step.hosts != []
  }

  // A refresh takes effect and leaves the handle of this name alive.
  predicate Refreshes(w: World, step: Step, n: string) {
    && step.Refresh? && !w.s.failed && w.s.creating == []
    && n in w.s.handles && w.s.handles[n].info in step.handles
  }

  // Whether the handle of this name, if live, misses a host after a step, given whether it
  // did before. All this asks is what the queue of the handle holds when a refresh comes.
  predicate Missing(w: World, step: Step, n: string, missed: bool) {
    if !Refreshes(w, step, n) then n in w.s.handles && missed
    else
      var before, listed := w.s.hosts.Keys, SetOf(Ips(step.hosts));
      before - listed == {} && (missed || LosesHosts(w.s.handles[n].link, before, listed))
  }

  ghost predicate Misses(w: World, steps: seq<Step>, n: string, missed: bool)
    decreases |steps|
  {
    if steps == [] then missed else Misses(Apply(w, steps[0]), steps[1..], n, Missing(w, steps[0], n, missed))
  }

  lemma LinkOf(s: State, n: string)
    requires Attended(s) && n in s.handles
    ensures Approaching(s.handles[n].link, s.hosts.Keys) && s.hosts != map[]
  {
  }

  lemma CommandKeepsAttended(s: State, n: string)
    requires Attended(s) && n in s.handles
    ensures var s' := s.(handles := s.handles[n := s.handles[n].(link := ObeyNext(s.handles[n].link))]);
      Attended(s') && forall k :: InStepWith(s', k) == InStepWith(s, k)
  {
    hide WillBeInStep, ObeyNext, Approaching;
    ObeyingApproaches(s.handles[n].link, s.hosts.Keys);
  }

  lemma RefreshedHandle(s: State, hosts: seq<HostInfo>, listed: seq<HandleInfo>, n: string)
    requires !Conflict(s, Outstanding(s, listed))
    ensures var s' := BeginRefresh(s, hosts, listed);
      && s'.hosts.Keys == SetOf(Ips(hosts))
      && (n in s'.handles <==> n in s.handles && s.handles[n].info in listed)
      && (n in s'.handles ==>
            s'.handles[n].link == Refreshed(s.handles[n].link, s.hosts.Keys, Ips(hosts), Listing(HostMap(hosts).Keys)))
  {
    hide AllNew, Refreshed, HostMap, Listing, Conflict;
  }

  lemma RefreshKeepsAttended(w: World, hosts: seq<HostInfo>, listed: seq<HandleInfo>)
    requires Attended(w.s) && !w.s.failed && w.s.creating == [] && hosts != []
    requires !Conflict(w.s, Outstanding(w.s, listed))
    ensures var s' := BeginRefresh(w.s, hosts, listed);
      && Attended(s')
      && forall n :: n in s'.handles ==>
           (InStepWith(s', n) <==> !Missing(w, Refresh(hosts, listed), n, !InStepWith(w.s, n)))
  {
    hide WillBeInStep, Approaching, BeginRefresh, Refreshed, HostMap, Listing, Conflict, Outstanding, LosesHosts;
    var s, s' := w.s, BeginRefresh(w.s, hosts, listed);
    var all := Listing(HostMap(hosts).Keys);
    assert Ips(hosts)[0] in SetOf(Ips(hosts));
    RefreshedHosts(s, hosts, listed);
    assert s'.hosts != map[] by { assert s'.hosts.Keys != {}; }
    forall n | n in s'.handles
      ensures Approaching(s'.handles[n].link, s'.hosts.Keys)
      ensures InStepWith(s', n) <==> !Missing(w, Refresh(hosts, listed), n, !InStepWith(s, n))
    {
      RefreshedHandle(s, hosts, listed, n);
      LinkOf(s, n);
      assert s.hosts.Keys != {} by { SomeHost(s); }
      RefreshKeepsStep(s.handles[n].link, s.hosts.Keys, Ips(hosts), all);
    }
  }

  lemma SomeHost(s: State)
    requires s.hosts != map[]
    ensures s.hosts.Keys != {}
  {
  }

  lemma RefreshedHosts(s: State, hosts: seq<HostInfo>, listed: seq<HandleInfo>)
    requires !Conflict(s, Outstanding(s, listed))
    ensures var s' := BeginRefresh(s, hosts, listed);
      s'.hosts == HostMap(hosts) && s'.creatingHosts == Listing(HostMap(hosts).Keys)
  {
    hide AllNew, Refreshed, HostMap, Listing, Conflict;
  }

  lemma CreateKeepsAttended(s: State)
    requires Attended(s)
    ensures var s' := CreateHandle(s);
      && Attended(s')
      && forall n :: n in s'.handles ==> (InStepWith(s', n) <==> n !in s.handles || InStepWith(s, n))
  {
    hide WillBeInStep, Approaching, ConnectTo;
    if s.creating != [] {
      CreatedWillBeInStep(s.creatingHosts);
      NoneListed(s.creatingHosts);
    }
  }

  lemma SameLinks(s: State, s': State)
    requires SameButCaches(s, s')
    ensures Attended(s) ==> Attended(s')
    ensures forall n :: InStepWith(s', n) == InStepWith(s, n)
  {
    hide WillBeInStep, Approaching;
    assert s'.handles == map[] <==> s'.handles.Keys == {};
    assert s.handles == map[] <==> s.handles.Keys == {};
  }

  lemma StepKeepsAttended(w: World, step: Step)
    requires Attended(w.s) && Placed(w.s) && ListsHosts(step)
    ensures var s' := Apply(w, step).s;
      && Attended(s')
      && forall n :: n in s'.handles ==> (InStepWith(s', n) <==> !Missing(w, step, n, !InStepWith(w.s, n)))
  {
    hide Attended, Placed, InStepWith, BeginRefresh, CreateHandle, ObeyNext, LosesHosts, Apply;
    PlacedNotFailed(w.s);
    if step.Refresh? && w.s.creating == [] {
      RefreshApplies(w, step.hosts, step.handles);
      NoConflict(w.s, Outstanding(w.s, step.handles));
      RefreshKeepsAttended(w, step.hosts, step.handles);
    } else if step.CreateNext? {
      CreateApplies(w);
      CreateKeepsAttended(w.s);
    } else if step.Command? && step.handle in w.s.handles {
      CommandApplies(w, step.handle);
      CommandKeepsAttended(w.s, step.handle);
    } else {
      OtherStepsKeepLinks(w, step);
      SameLinks(w.s, Apply(w, step).s);
    }
  }

  predicate SameButCaches(s: State, s': State) {
    && s'.hosts == s.hosts && s'.creating == s.creating && s'.creatingHosts == s.creatingHosts
    && s'.handles.Keys == s.handles.Keys
    && forall n :: n in s.handles ==> s'.handles[n].link == s.handles[n].link
  }

  lemma SendKeepsLinks(s: State, m: Message)
    ensures SameButCaches(s, SendMessage(s, m))
  {
    hide Enqueue, Waiting, AddSizes;
  }

  lemma ReceiveKeepsLinks(w: World, n: string, reply: Reply)
    requires n in w.s.handles
    ensures SameButCaches(w.s, Receiving(w, n, reply).s)
  {
    hide Take, Inbox;
  }

  lemma OtherStepsKeepLinks(w: World, step: Step)
    requires step.Refresh? ==> w.s.creating != []
    requires !step.CreateNext? && (step.Command? ==> step.handle !in w.s.handles)
    ensures SameButCaches(w.s, Apply(w, step).s)
  {
    hide BeginRefresh, CreateHandle, Receiving, SendMessage, SendNext, Inbox, Given, ObeyNext;
    if step.Send? {
      SendKeepsLinks(w.s, step.message);
    } else if step.Receive? && Connected(w.s, step.handle) {
      ReceiveKeepsLinks(w, step.handle, step.reply);
    }
  }

  lemma {:induction false} RunKeepsAttended(w: World, steps: seq<Step>, n: string, missed: bool)
    requires Attended(w.s) && Placed(w.s) && forall step :: step in steps ==> ListsHosts(step)
    requires n in w.s.handles ==> missed == !InStepWith(w.s, n)
    ensures var s' := Run(w, steps).s;
      Attended(s') && (n in s'.handles ==> (InStepWith(s', n) <==> !Misses(w, steps, n, missed)))
    decreases |steps|
  {
    hide Apply, Attended, Placed, InStepWith, Missing, ListsHosts;
    if steps != [] {
      var step, w1 := steps[0], Apply(w, steps[0]);
      StepPlaced(w, step);
      StepKeepsAttended(w, step);
      NewIsInStep(w, step, n, missed);
      RunKeepsAttended(w1, steps[1..], n, Missing(w, step, n, missed));
    }
  }

  lemma NewIsInStep(w: World, step: Step, n: string, missed: bool)
    requires n in w.s.handles ==> missed == !InStepWith(w.s, n)
    ensures Missing(w, step, n, missed) == Missing(w, step, n, !InStepWith(w.s, n))
  {
  }

  // In every run whose refreshes list some host, whatever commands they find left over, a
  // live handle is on its way to hosts of the service only, and to all of them exactly
  // when it misses none; with no command left it is connected just so.
  lemma HandlesFollowHosts(name: string, steps: seq<Step>, n: string)
    requires forall step :: step in steps ==> ListsHosts(step)
    requires n in Run(Start(name), steps).s.handles
    ensures var s := Run(Start(name), steps).s;
      var l := s.handles[n].link;
      var misses := Misses(Start(name), steps, n, false);
      && (WillBeInStep(l, s.hosts.Keys) <==> !misses)
      && (l.control == [] ==>
            && l.connected && l.newHosts == [] && l.peers <= s.hosts.Keys
            && (l.peers == s.hosts.Keys <==> !misses))
  {
    hide Run, Misses, ListsHosts, Following;
    RunKeepsAttended(Start(name), steps, n, false);
    var s := Run(Start(name), steps).s;
    var l := s.handles[n].link;
    ApproachingAll(l, s.hosts.Keys);
    if l.control == [] {
      FollowingIdle(l);
    }
  }

  lemma FollowingIdle(l: Link)
    requires Following(l) && l.control == []
    ensures l.connected
  {
  }

  // ---------------------------------------------------------------- careful runs

  // A refresh that only adds hosts finds no reconnect queued behind a command to connect
  // to new ones.
  predicate Careful(w: World, step: Step) {
    forall n :: n in w.s.handles && Refreshes(w, step, n) ==>
      !LosesHosts(w.s.handles[n].link, w.s.hosts.Keys, SetOf(Ips(step.hosts)))
  }

  ghost predicate CarefulRun(w: World, steps: seq<Step>)
    decreases |steps|
  {
    steps == [] || (Careful(w, steps[0]) && CarefulRun(Apply(w, steps[0]), steps[1..]))
  }

  lemma {:induction false} CarefulRunMissesNone(w: World, steps: seq<Step>, n: string)
    requires CarefulRun(w, steps)
    ensures !Misses(w, steps, n, false)
    decreases |steps|
  {
    hide Apply, LosesHosts;
    if steps != [] {
      CarefulRunMissesNone(Apply(w, steps[0]), steps[1..], n);
    }
  }

  // So in a run whose refreshes list some host and are careful, every live handle with no
  // command left is connected to exactly the hosts of the service.
  lemma CarefulHandlesFollowHosts(name: string, steps: seq<Step>, n: string)
    requires (forall step :: step in steps ==> ListsHosts(step)) && CarefulRun(Start(name), steps)
    requires n in Run(Start(name), steps).s.handles
    ensures var s := Run(Start(name), steps).s;
      var l := s.handles[n].link;
      && WillBeInStep(l, s.hosts.Keys)
      && (l.control == [] ==> l.connected && l.newHosts == [] && l.peers == s.hosts.Keys)
  {
    hide Run, Misses, CarefulRun, ListsHosts, WillBeInStep;
    CarefulRunMissesNone(Start(name), steps, n);
    HandlesFollowHosts(name, steps, n);
  }

  // ---------------------------------------------------------------- a careless run

  // The only handle of a service, with its link and the hosts of the service.
  predicate Only(w: World, info: HandleInfo, l: Link, hosts: set<Ip>) {
    && !w.s.failed && w.s.creating == []
    && w.s.handles.Keys == {info.name} && w.s.handles[info.name].info == info && w.s.handles[info.name].link == l
    && w.s.hosts.Keys == hosts
  }

  lemma OnlyIsKept(w: World, info: HandleInfo, l: Link, hosts: set<Ip>)
    requires Only(w, info, l, hosts)
    ensures Outstanding(w.s, [info]) == {} && !Conflict(w.s, {}) && NewHandles({info.name}, [info]) == []
  {
    assert NewHandles({info.name}, []) == [];
  }

  lemma OnlyRefreshed(w: World, info: HandleInfo, l: Link, before: set<Ip>, hosts: seq<HostInfo>)
    requires Only(w, info, l, before)
    ensures Only(Apply(w, Refresh(hosts, [info])), info,
      Refreshed(l, before, Ips(hosts), Listing(SetOf(Ips(hosts)))), SetOf(Ips(hosts)))
  {
    hide Refreshed, Listing, HostMap, AllNew, Conflict, NewHandles, Outstanding;
    OnlyIsKept(w, info, l, before);
    RefreshApplies(w, hosts, [info]);
  }

  lemma OnlyObeys(w: World, info: HandleInfo, l: Link, hosts: set<Ip>)
    requires Only(w, info, l, hosts)
    ensures Only(Apply(w, Command(info.name)), info, ObeyNext(l), hosts)
  {
    hide ObeyNext;
    CommandApplies(w, info.name);
  }

  lemma OnlyCreated(name: string, info: HandleInfo, hosts: seq<HostInfo>)
    requires info.service == name
    ensures var all := Listing(SetOf(Ips(hosts)));
      Only(Apply(Apply(Start(name), Refresh(hosts, [info])), CreateNext), info,
           ConnectTo(NewLink(all), all), SetOf(Ips(hosts)))
  {
    hide Listing, HostMap, ConnectTo;
    var w := Start(name);
    assert NewHandles({}, []) == [] && NewHandles({}, [info]) == [info];
    assert Outstanding(w.s, [info]) == {};
    RefreshApplies(w, hosts, [info]);
    var w1 := Apply(w, Refresh(hosts, [info]));
    assert w.s.handles.Keys == {};
    assert w1.s.creating == [info] && w1.s.handles == map[] && w1.s.creatingHosts == Listing(SetOf(Ips(hosts)));
    CreateApplies(w1);
    assert Apply(w1, CreateNext).s.handles == map[info.name := Created(w1.s, info)];
  }

  function Host(ip: Ip): HostInfo {
    HostInfo(ip, "")
  }

  // A host comes, another goes, a third comes, and the handle obeys nothing meanwhile.
  function CarelessSteps(info: HandleInfo): seq<Step> {
    var n := info.name;
    [Refresh([Host(1)], [info]), CreateNext, Command(n),
     Refresh([Host(1), Host(2)], [info]), Refresh([Host(2)], [info]), Refresh([Host(2), Host(3)], [info]),
     Command(n), Command(n), Command(n)]
  }

  lemma OneAdded(a: Ip, b: Ip)
    requires a != b
    ensures {a} - SetOf([a, b]) == {} && Added([a, b], {a}) == [b] && SetOf([a, b]) == {a, b}
  {
    assert [a, b][1..] == [b] && [b][1..] == [];
    assert a in SetOf([a, b]) && b in SetOf([a, b]);
    assert Added([], {a}) == [] && Added([b], {a}) == [b];
  }

  lemma CarelessLinks(l: Link)
    requires l == ConnectTo(NewLink(Listing({1})), Listing({1}))
    ensures var l3 := ObeyNext(l);
      var l4 := Refreshed(l3, {1}, [1, 2], Listing({1, 2}));
      var l5 := Refreshed(l4, {1, 2}, [2], Listing({2}));
      var l6 := Refreshed(l5, {2}, [2, 3], Listing({2, 3}));
      var last := ObeyNext(ObeyNext(ObeyNext(l6)));
      && l5.control == [ConnectNewHosts, Reconnect] && LosesHosts(l5, {2}, {2, 3})
      && last.running && last.control == [] && last.peers == {2}
  {
    hide Listing, Added, SetOf;
    NoneListed(Listing({1}));
    NoneListed(Listing({2}));
    OneAdded(1, 2);
    OneAdded(2, 3);
    OneListed(2);
    var l3 := ObeyNext(l);
    assert l3.connected && l3.control == [] && l3.newHosts == [];
    var l4 := Refreshed(l3, {1}, [1, 2], Listing({1, 2}));
    assert l4 == l3.(newHosts := [2], control := [ConnectNewHosts]);
    assert 1 in {1, 2} - SetOf([2]);
    var l5 := Refreshed(l4, {1, 2}, [2], Listing({2}));
    assert l5 == l4.(hosts := Listing({2}), control := [ConnectNewHosts, Reconnect]);
    assert l5.control[0] == ConnectNewHosts && l5.control[1] == Reconnect;
    var l6 := Refreshed(l5, {2}, [2, 3], Listing({2, 3}));
    assert l6 == l5.(newHosts := [2, 3], control := [ConnectNewHosts, Reconnect, ConnectNewHosts]);
    var l7 := ObeyNext(l6);
    assert l7.control == [Reconnect, ConnectNewHosts] && l7.newHosts == [];
    var l8 := ObeyNext(l7);
    assert l8.control == [ConnectNewHosts] && l8.peers == {2};
  }

  lemma OneListed(h: Ip)
    ensures SetOf([h]) == {h} && SetOf(Listing({h})) == {h}
  {
  }

  // The condition is not idle: this run starts afresh, every refresh lists a host, and yet
  // at its end the handle, with no command left, is not connected to the host listed last.
  lemma CarelessRunLosesHost(name: string, info: HandleInfo)
    requires info.service == name
    ensures var steps := CarelessSteps(info);
      var s := Run(Start(name), steps).s;
      && Lawful(Start(name), steps) && (forall step :: step in steps ==> ListsHosts(step))
      && info.name in s.handles && s.handles[info.name].link.control == []
      && s.handles[info.name].link.peers == {2} && s.hosts.Keys == {2, 3}
  {
    hide Only, Run, Lawful, Apply, Refreshed, ObeyNext, Listing, ConnectTo, SetOf, LosesHosts;
    var steps := CarelessSteps(info);
    assert Ips([Host(1)]) == [1] && Ips([Host(1), Host(2)]) == [1, 2];
    assert Ips([Host(2)]) == [2] && Ips([Host(2), Host(3)]) == [2, 3];
    OneListed(1);
    OneListed(2);
    OneAdded(1, 2);
    OneAdded(2, 3);
    var w0 := Start(name);
    var w1 := Apply(w0, steps[0]);
    var w2 := Apply(w1, steps[1]);
    OnlyCreated(name, info, [Host(1)]);
    var l2 := ConnectTo(NewLink(Listing({1})), Listing({1}));
    CarelessLinks(l2);
    var w3 := Apply(w2, steps[2]);
    OnlyObeys(w2, info, l2, {1});
    var l3 := ObeyNext(l2);
    var w4 := Apply(w3, steps[3]);
    OnlyRefreshed(w3, info, l3, {1}, [Host(1), Host(2)]);
    var l4 := Refreshed(l3, {1}, [1, 2], Listing({1, 2}));
    var w5 := Apply(w4, steps[4]);
    OnlyRefreshed(w4, info, l4, {1, 2}, [Host(2)]);
    var l5 := Refreshed(l4, {1, 2}, [2], Listing({2}));
    var w6 := Apply(w5, steps[5]);
    OnlyRefreshed(w5, info, l5, {2}, [Host(2), Host(3)]);
    var l6 := Refreshed(l5, {2}, [2, 3], Listing({2, 3}));
    var w7 := Apply(w6, steps[6]);
    OnlyObeys(w6, info, l6, {2, 3});
    var w8 := Apply(w7, steps[7]);
    OnlyObeys(w7, info, ObeyNext(l6), {2, 3});
    OnlyObeys(w8, info, ObeyNext(ObeyNext(l6)), {2, 3});
    var w9 := Apply(w8, steps[8]);
    assert Only(w9, info, ObeyNext(ObeyNext(ObeyNext(l6))), {2, 3});
    OnlyMeans(w3, info, l3, {1});
    OnlyMeans(w4, info, l4, {1, 2});
    OnlyMeans(w5, info, l5, {2});
    OnlyMeans(w9, info, ObeyNext(ObeyNext(ObeyNext(l6))), {2, 3});
    RunOfNine(w0, steps);
    assert forall i :: 0 <= i < 9 ==> ListsHosts(steps[i]);
  }

  lemma RunOfNine(w: World, steps: seq<Step>)
    requires |steps| == 9 && w.s.creating == []
    requires steps[1] == CreateNext && steps[2].Command? && steps[6].Command? && steps[7].Command? && steps[8].Command?
    requires steps[0].Refresh? && steps[3].Refresh? && steps[4].Refresh? && steps[5].Refresh?
    ensures var w3 := Apply(Apply(Apply(w, steps[0]), steps[1]), steps[2]);
      var w4 := Apply(w3, steps[3]);
      var w5 := Apply(w4, steps[4]);
      && Run(w, steps) == Apply(Apply(Apply(Apply(w5, steps[5]), steps[6]), steps[7]), steps[8])
      && (w3.s.creating == [] && w4.s.creating == [] && w5.s.creating == [] ==> Lawful(w, steps))
  {
    hide Apply, Run, Lawful;
    var w3 := Apply(Apply(Apply(w, steps[0]), steps[1]), steps[2]);
    var w6 := Apply(Apply(Apply(w3, steps[3]), steps[4]), steps[5]);
    var w9 := Apply(Apply(Apply(w6, steps[6]), steps[7]), steps[8]);
    assert steps[0..] == steps && steps[9..] == [];
    RunNext(w, steps, 0);
    RunNext(Apply(w, steps[0]), steps, 1);
    RunNext(Apply(Apply(w, steps[0]), steps[1]), steps, 2);
    RunNext(w3, steps, 3);
    RunNext(Apply(w3, steps[3]), steps, 4);
    RunNext(Apply(Apply(w3, steps[3]), steps[4]), steps, 5);
    RunNext(w6, steps, 6);
    RunNext(Apply(w6, steps[6]), steps, 7);
    RunNext(Apply(Apply(w6, steps[6]), steps[7]), steps, 8);
    RunNothing(w9);
  }

  lemma OnlyMeans(w: World, info: HandleInfo, l: Link, hosts: set<Ip>)
    requires Only(w, info, l, hosts)
    ensures info.name in w.s.handles && w.s.handles[info.name].link == l && w.s.hosts.Keys == hosts
    ensures w.s.creating == []
  {
  }
}
