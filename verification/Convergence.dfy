/** Repeating a refresh makes the live handles those it lists. */
module Convergence {
  import opened Messages
  import opened Links
  import opened Lifecycle
  import opened Conservation

  function Infos(s: State): map<string, HandleInfo> {
    map n | n in s.handles :: s.handles[n].info
  }

  predicate Distinct(listed: seq<HandleInfo>) {
    forall i, j :: 0 <= i < j < |listed| ==> listed[i].name != listed[j].name
  }

  // A list of distinct names, all of the given service.
  predicate WellListed(listed: seq<HandleInfo>, service: string) {
    Distinct(listed) && forall h :: h in listed ==> h.service == service
  }

  function InfoMap(listed: seq<HandleInfo>): map<string, HandleInfo> {
    if listed == [] then map[] else InfoMap(listed[1..])[listed[0].name := listed[0]]
  }

  lemma TailIsDistinct(listed: seq<HandleInfo>)
    requires Distinct(listed) && listed != []
    ensures Distinct(listed[1..])
    ensures forall h :: h in listed[1..] ==> h in listed && h.name != listed[0].name
  {
    var rest := listed[1..];
    forall h | h in rest ensures h in listed && h.name != listed[0].name {
      var i :| 0 <= i < |rest| && rest[i] == h;
      assert listed[i + 1] == h;
    }
  }

  lemma {:induction false} InfoMapMeans(listed: seq<HandleInfo>)
    requires Distinct(listed)
    ensures forall h :: h in listed ==> h.name in InfoMap(listed) && InfoMap(listed)[h.name] == h
    ensures forall n :: n in InfoMap(listed) ==> InfoMap(listed)[n] in listed && InfoMap(listed)[n].name == n
  {
    if listed != [] {
      TailIsDistinct(listed);
      InfoMapMeans(listed[1..]);
      assert listed == [listed[0]] + listed[1..];
    }
  }

  // The handles there will be once the creations under way are done.
  function Target(s: State): map<string, HandleInfo> {
    Infos(s) + InfoMap(s.creating)
  }

  // What is being created has distinct names of this service, none of them live.
  predicate Orderly(s: State) {
    WellListed(s.creating, s.name) && forall h :: h in s.creating ==> h.name !in s.handles
  }

  lemma MoveEntry(a: map<string, HandleInfo>, b: map<string, HandleInfo>, k: string, v: HandleInfo)
    requires k !in b
    ensures a + b[k := v] == a[k := v] + b
  {
  }

  lemma CreateKeepsTarget(s: State)
    requires Orderly(s)
    ensures Orderly(CreateHandle(s)) && Target(CreateHandle(s)) == Target(s)
  {
    hide ConnectTo, Append, Distinct, InfoMap, Waiting;
    if s.creating != [] {
      var info, rest := s.creating[0], s.creating[1..];
      TailIsDistinct(s.creating);
      InfoMapMeans(rest);
      assert info in s.creating && info.service == s.name;
      assert Infos(CreateHandle(s)) == Infos(s)[info.name := info];
      MoveEntry(Infos(s), InfoMap(rest), info.name, info);
      assert InfoMap(s.creating) == InfoMap(rest)[info.name := info] by { InfoMapFirst(s.creating); }
    }
  }

  lemma InfoMapFirst(listed: seq<HandleInfo>)
    requires listed != []
    ensures InfoMap(listed) == InfoMap(listed[1..])[listed[0].name := listed[0]]
  {
  }

  lemma CreateKeepsNames(s: State)
    ensures var s' := CreateHandle(s);
      s'.name == s.name && s'.hosts == s.hosts && s'.creatingHosts == s.creatingHosts
  {
    hide Created;
  }

  // Every other step of a refresh-free stretch leaves handles and creations alone.
  lemma SameTarget(s: State, s': State)
    requires s'.name == s.name && s'.creating == s.creating && s'.handles.Keys == s.handles.Keys
    requires forall n :: n in s.handles ==> s'.handles[n].info == s.handles[n].info
    ensures Target(s') == Target(s) && (Orderly(s) ==> Orderly(s'))
  {
    hide Distinct;
    assert Infos(s') == Infos(s);
  }

  lemma StepKeepsTarget(w: World, step: Step)
    requires Orderly(w.s) && !step.Refresh?
    ensures var s' := Apply(w, step).s;
      && Orderly(s') && Target(s') == Target(w.s) && s'.name == w.s.name
      && s'.hosts == w.s.hosts && s'.creatingHosts == w.s.creatingHosts
  {
    hide Orderly, Target, ObeyNext, Take, SendNext, CreateHandle, Waiting, Inbox, Given, BeginRefresh;
    var s' := Apply(w, step).s;
    if step.CreateNext? {
      CreateKeepsTarget(w.s);
      CreateKeepsNames(w.s);
    } else {
      SameTarget(w.s, s');
    }
  }

  predicate RefreshFree(steps: seq<Step>) {
    forall step :: step in steps ==> !step.Refresh?
  }

  lemma {:induction false} RunKeepsTarget(w: World, steps: seq<Step>)
    requires Orderly(w.s) && RefreshFree(steps)
    ensures var s' := Run(w, steps).s;
      && Orderly(s') && Target(s') == Target(w.s) && s'.name == w.s.name
      && s'.hosts == w.s.hosts && s'.creatingHosts == w.s.creatingHosts
    decreases |steps|
  {
    hide Apply, Orderly, Target;
    if steps != [] {
      StepKeepsTarget(w, steps[0]);
      assert RefreshFree(steps[1..]);
      RunKeepsTarget(Apply(w, steps[0]), steps[1..]);
    }
  }

  lemma {:induction false} NewHandlesMean(live: set<string>, listed: seq<HandleInfo>)
    requires Distinct(listed)
    ensures Distinct(NewHandles(live, listed))
    ensures forall h :: h in NewHandles(live, listed) <==> h in listed && h.name !in live
  {
    if listed != [] {
      var front, last := listed[..|listed| - 1], listed[|listed| - 1];
      assert listed == front + [last];
      NewHandlesMean(live, front);
      var kept := NewHandles(live, front);
      forall h | h in front ensures h.name != last.name {
        var i :| 0 <= i < |front| && front[i] == h;
        assert listed[i] == h;
      }
      assert forall i :: 0 <= i < |kept| ==> kept[i] in front;
    }
  }

  // A refresh aims at what it lists, less the names whose live handle differs from the
  // listing: those are only removed.
  function Aim(live: map<string, HandleInfo>, listed: seq<HandleInfo>): map<string, HandleInfo> {
    map n | n in InfoMap(listed) && (n in live ==> live[n] == InfoMap(listed)[n]) :: InfoMap(listed)[n]
  }

  // What survives and what is new make up the aim.
  lemma AimIsReached(live: map<string, HandleInfo>, listed: seq<HandleInfo>)
    requires Distinct(listed) && forall n :: n in live ==> live[n].name == n
    ensures (map n | n in live && live[n] in listed :: live[n]) + InfoMap(NewHandles(live.Keys, listed)) ==
      Aim(live, listed)
  {
    hide Distinct, InfoMap, NewHandles;
    NewHandlesMean(live.Keys, listed);
    InfoMapMeans(listed);
    InfoMapMeans(NewHandles(live.Keys, listed));
  }

  lemma RefreshAims(s: State, hosts: seq<HostInfo>, listed: seq<HandleInfo>)
    requires Placed(s) && WellListed(listed, s.name)
    ensures var s' := BeginRefresh(s, hosts, listed);
      && Orderly(s') && Target(s') == Aim(Infos(s), listed) && s'.name == s.name
      && s'.hosts == HostMap(hosts) && s'.creatingHosts == Listing(HostMap(hosts).Keys)
  {
    hide OwnCache, OwnQueue, AllNew, Refreshed, HostMap, Listing, Distinct, InfoMap, NewHandles, Aim;
    NoConflict(s, Outstanding(s, listed));
    var s' := BeginRefresh(s, hosts, listed);
    NewHandlesMean(s.handles.Keys, listed);
    assert forall n :: n in s.handles ==> OwnHandle(s, n);
    assert Infos(s).Keys == s.handles.Keys;
    AimIsReached(Infos(s), listed);
    assert Infos(s') == map n | n in Infos(s) && Infos(s)[n] in listed :: Infos(s)[n];
  }

  // A whole refresh: its part under the lock, and then anything but another refresh until
  // the creations are done.
  ghost predicate IsRound(w: World, hosts: seq<HostInfo>, listed: seq<HandleInfo>, rest: seq<Step>) {
    && w.s.creating == [] && Placed(w.s) && WellListed(listed, w.s.name) && RefreshFree(rest)
    && Run(Apply(w, Refresh(hosts, listed)), rest).s.creating == []
  }

  ghost function AfterRound(w: World, hosts: seq<HostInfo>, listed: seq<HandleInfo>, rest: seq<Step>): World {
    Run(Apply(w, Refresh(hosts, listed)), rest)
  }

  // After one round the live handles are listed ones, and all of those unless a live
  // handle of a listed name differed from the listing, say in its port.
  lemma OneRound(w: World, hosts: seq<HostInfo>, listed: seq<HandleInfo>, rest: seq<Step>)
    requires IsRound(w, hosts, listed, rest)
    ensures var s' := AfterRound(w, hosts, listed, rest).s;
      && Infos(s') == Aim(Infos(w.s), listed)
      && (forall n :: n in s'.handles ==> s'.handles[n].info in listed)
      && (Infos(s') == InfoMap(listed) <==>
            forall n :: n in w.s.handles && n in InfoMap(listed) ==> w.s.handles[n].info in listed)
      && s'.hosts == HostMap(hosts) && s'.creatingHosts == Listing(HostMap(hosts).Keys) && s'.name == w.s.name
  {
    hide Apply, BeginRefresh, Orderly, HostMap, Listing, InfoMap, Run, OwnCache, OwnQueue, Distinct;
    RefreshAims(w.s, hosts, listed);
    RefreshApplies(w, hosts, listed);
    RunKeepsTarget(Apply(w, Refresh(hosts, listed)), rest);
    var s' := AfterRound(w, hosts, listed, rest).s;
    assert Target(s') == Infos(s') by { NothingCreating(s'); }
    InfoMapMeans(listed);
    forall n | n in s'.handles ensures s'.handles[n].info in listed {
      assert n in Infos(s');
    }
    AimIsAll(w.s, listed);
  }

  lemma NothingCreating(s: State)
    requires s.creating == []
    ensures Target(s) == Infos(s)
  {
  }

  lemma AimIsAll(s: State, listed: seq<HandleInfo>)
    requires Placed(s) && Distinct(listed)
    ensures Aim(Infos(s), listed) == InfoMap(listed) <==>
      forall n :: n in s.handles && n in InfoMap(listed) ==> s.handles[n].info in listed
  {
    hide OwnCache, OwnQueue, Distinct, InfoMap;
    InfoMapMeans(listed);
    var all, aim := InfoMap(listed), Aim(Infos(s), listed);
    forall n | n in s.handles && n in all ensures s.handles[n].info in listed <==> s.handles[n].info == all[n] {
      assert OwnHandle(s, n);
    }
    if aim == all {
      forall n | n in s.handles && n in all ensures s.handles[n].info in listed {
        assert n in aim;
      }
    }
  }

  lemma AimingTwice(live: map<string, HandleInfo>, listed: seq<HandleInfo>)
    ensures Aim(Aim(live, listed), listed) == InfoMap(listed)
    ensures Aim(InfoMap(listed), listed) == InfoMap(listed)
  {
    hide InfoMap;
  }

  lemma SameHostsNoCommand(l: Link, listed: seq<Ip>, all: seq<Ip>)
    ensures Refreshed(l, SetOf(listed), listed, all) == l
  {
    AddedAreTheNew(listed, SetOf(listed));
    NoneListed(Added(listed, SetOf(listed)));
  }

  lemma {:induction false} NoneNew(handles: set<string>, listed: seq<HandleInfo>)
    requires forall h :: h in listed ==> h.name in handles
    ensures NewHandles(handles, listed) == []
  {
    if listed != [] {
      NoneNew(handles, listed[..|listed| - 1]);
    }
  }

  // A refresh that lists just what is live, on the same hosts, changes nothing at all.
  lemma SettledRefresh(w: World, hosts: seq<HostInfo>, listed: seq<HandleInfo>)
    requires Placed(w.s) && Distinct(listed) && Infos(w.s) == InfoMap(listed) && w.s.creating == []
    requires w.s.hosts == HostMap(hosts) && w.s.creatingHosts == Listing(HostMap(hosts).Keys)
    ensures Apply(w, Refresh(hosts, listed)) == w
  {
    hide OwnHandle, OwnQueue, HostMap, Listing, InfoMap, Refreshed, NewHandles, Distinct, Removed;
    var s := w.s;
    InfoMapMeans(listed);
    assert Outstanding(s, listed) == {} by {
      forall n | n in s.handles ensures s.handles[n].info in listed {
        assert n in Infos(s);
      }
    }
    NoneRemoved(s);
    forall h | h in listed ensures h.name in s.handles {
      assert h.name in Infos(s);
    }
    NoneNew(s.handles.Keys, listed);
    var all := Listing(HostMap(hosts).Keys);
    forall n | n in s.handles ensures Refreshed(s.handles[n].link, s.hosts.Keys, Ips(hosts), all) == s.handles[n].link {
      SameHostsNoCommand(s.handles[n].link, Ips(hosts), all);
    }
    assert BeginRefresh(s, hosts, listed).handles == s.handles;
  }

  // Two rounds with the same list, and whatever else goes on meanwhile, make the live
  // handles exactly the listed ones; a third refresh changes nothing.
  lemma RefreshesConverge(w: World, hosts: seq<HostInfo>, listed: seq<HandleInfo>, first: seq<Step>, second: seq<Step>)
    requires IsRound(w, hosts, listed, first)
    requires IsRound(AfterRound(w, hosts, listed, first), hosts, listed, second)
    ensures var w2 := AfterRound(AfterRound(w, hosts, listed, first), hosts, listed, second);
      && Infos(w2.s) == InfoMap(listed)
      && w2.s.hosts == HostMap(hosts)
      && Apply(w2, Refresh(hosts, listed)) == w2
  {
    hide Apply, Run, Placed, HostMap, Listing, InfoMap, Aim, Infos, AfterRound;
    var w1 := AfterRound(w, hosts, listed, first);
    var w2 := AfterRound(w1, hosts, listed, second);
    OneRound(w, hosts, listed, first);
    OneRound(w1, hosts, listed, second);
    AimingTwice(Infos(w.s), listed);
    RoundPlaced(w1, hosts, listed, second);
    SettledRefresh(w2, hosts, listed);
  }

  lemma RoundPlaced(w: World, hosts: seq<HostInfo>, listed: seq<HandleInfo>, rest: seq<Step>)
    requires IsRound(w, hosts, listed, rest)
    ensures Placed(AfterRound(w, hosts, listed, rest).s) && AfterRound(w, hosts, listed, rest).s.creating == []
    ensures Distinct(listed)
  {
    hide Apply, Run, Placed, Distinct;
    StepPlaced(w, Refresh(hosts, listed));
    RunPlaced(Apply(w, Refresh(hosts, listed)), rest);
  }

  // ---------------------------------------------------------------- names in use

  function Names(listed: seq<HandleInfo>): set<string> {
    set h | h in listed :: h.name
  }

  function Creations(k: nat): seq<Step> {
    seq(k, _ => CreateNext)
  }

  // The first name in use ends the creations: the handles before it are there, it and what
  // is listed behind it are given up.
  lemma {:induction false} NameInUseEndsCreations(
      w: World, before: seq<HandleInfo>, taken: HandleInfo, after: seq<HandleInfo>)
    requires !w.s.failed && w.s.creating == before + [taken] + after
    requires Distinct(before) && forall h :: h in before ==> h.name !in w.s.handles
    requires taken.name in w.s.handles.Keys + Names(before)
    ensures var s' := Run(w, Creations(|before| + 1)).s;
      s'.creating == [] && s'.handles.Keys == w.s.handles.Keys + Names(before)
    decreases |before|
  {
    hide Created;
    var k := |before|;
    var w1 := Apply(w, CreateNext);
    assert Creations(k + 1)[0] == CreateNext && Creations(k + 1)[1..] == Creations(k);
    CreateApplies(w);
    if before == [] {
      assert w.s.creating[0] == taken && Names(before) == {};
      RunNothing(w1);
    } else {
      var rest := before[1..];
      TailIsDistinct(before);
      assert w.s.creating[0] == before[0] && w.s.creating[1..] == rest + [taken] + after;
      assert before[0] in before;
      assert w1.s.handles.Keys == w.s.handles.Keys + {before[0].name};
      assert Names(before) == {before[0].name} + Names(rest) by { FirstName(before); }
      NameInUseEndsCreations(w1, rest, taken, after);
    }
  }

  lemma FirstName(listed: seq<HandleInfo>)
    requires listed != []
    ensures Names(listed) == {listed[0].name} + Names(listed[1..])
  {
    assert listed == [listed[0]] + listed[1..];
  }
}
