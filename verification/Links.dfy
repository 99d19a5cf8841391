/** The connection side of a handle: the commands the service queues for its dispatch
    thread, and what obeying them does to the socket. */
module Links {

  type Ip = nat

  datatype Control = Connect | Reconnect | Disconnect | ConnectNewHosts | Kill

  // `hosts` and `newHosts` are written by the service and read by the dispatch thread;
  // `peers` are the hosts the main socket is connected to; `control` is the command queue.
  datatype Link = Link(
    running: bool,
    connected: bool,
    hosts: seq<Ip>,
    newHosts: seq<Ip>,
    peers: set<Ip>,
    control: seq<Control>)

  function SetOf(hosts: seq<Ip>): set<Ip> {
    set h | h in hosts
  }

  function NewLink(hosts: seq<Ip>): Link {
    Link(true, false, hosts, [], {}, [])
  }

  // ---------------------------------------------------------------- the service side

  function ConnectTo(l: Link, hosts: seq<Ip>): Link {
    if !l.running || l.connected || hosts == [] then l
    else l.(hosts := hosts, control := l.control + [Connect])
  }

  function AddHosts(l: Link, hosts: seq<Ip>): Link {
    if !l.running || hosts == [] then l
    else l.(newHosts := l.newHosts + hosts, control := l.control + [ConnectNewHosts])
  }

  function ReconnectTo(l: Link, hosts: seq<Ip>): Link {
    if !l.running || hosts == [] then l
    else l.(hosts := hosts, control := l.control + [Reconnect])
  }

  // ---------------------------------------------------------------- the dispatch side

  function Obey(l: Link, c: Control): Link {
    match c
    case Connect => if l.connected then l else l.(peers := SetOf(l.hosts), connected := true)
    case Reconnect => l.(peers := SetOf(l.hosts), connected := true)
    case Disconnect => l.(peers := {}, connected := false)
    case ConnectNewHosts =>
      if l.connected && l.newHosts != [] then l.(peers := l.peers + SetOf(l.newHosts), newHosts := []) else l
    case Kill => l.(running := false)
  }

  // One turn: the oldest command, if any, is taken off the queue and obeyed.
  function ObeyNext(l: Link): Link {
    if !l.running || l.control == [] then l
    else Obey(l.(control := l.control[1..]), l.control[0])
  }

  function Drain(l: Link): Link
    decreases |l.control|
  {
    if !l.running || l.control == [] then l else Drain(ObeyNext(l))
  }

  // ---------------------------------------------------------------- being in step

  // Nothing left to do, and connected to exactly the given hosts.
  predicate InStep(l: Link, hosts: set<Ip>) {
    l.running && l.connected && l.control == [] && l.newHosts == [] && l.peers == hosts
  }

  // In step once its commands have been obeyed.
  predicate WillBeInStep(l: Link, hosts: set<Ip>) {
    InStep(Drain(l), hosts)
  }

  // A handle just created with the hosts of the service.
  lemma CreatedWillBeInStep(hosts: seq<Ip>)
    ensures WillBeInStep(ConnectTo(NewLink(hosts), hosts), SetOf(hosts)) <==> hosts != []
    ensures hosts != [] ==> Approaching(ConnectTo(NewLink(hosts), hosts), SetOf(hosts))
  {
    var l := ConnectTo(NewLink(hosts), hosts);
    assert hosts != [] ==> Drain(l) == Drain(ObeyNext(l)) == ObeyNext(l);
  }

  // The three reactions of a refresh to the difference between the old hosts and the new
  // list, of which `all` is the service's own listing.
  function Refreshed(l: Link, before: set<Ip>, listed: seq<Ip>, all: seq<Ip>): Link {
    if before - SetOf(listed) != {} then ReconnectTo(l, all)
    else
      var added := Added(listed, before);
      if added != [] then AddHosts(l, added) else l
  }

  function Added(listed: seq<Ip>, before: set<Ip>): seq<Ip> {
    if listed == [] then []
    else (if listed[0] in before then [] else [listed[0]]) + Added(listed[1..], before)
  }

  lemma {:induction false} AddedAreTheNew(listed: seq<Ip>, before: set<Ip>)
    ensures SetOf(Added(listed, before)) == SetOf(listed) - before
  {
    if listed != [] {
      AddedAreTheNew(listed[1..], before);
      var rest := Added(listed[1..], before);
      assert SetOf(listed) == {listed[0]} + SetOf(listed[1..]);
      if listed[0] !in before {
        assert SetOf([listed[0]] + rest) == {listed[0]} + SetOf(rest);
      } else {
        assert [] + rest == rest;
      }
    }
  }

  // ---------------------------------------------------------------- commands left over

  predicate IsSteady(commands: seq<Control>) {
    forall c :: c in commands ==> c == Reconnect || c == ConnectNewHosts
  }

  // What a live handle looks like once the service has told it to connect: connected, or
  // about to be, with nothing but reactions to refreshes behind that.
  predicate Following(l: Link) {
    l.running &&
    if l.connected then IsSteady(l.control)
    else l.control != [] && l.control[0] == Connect && IsSteady(l.control[1..])
  }

  // A reconnect is queued behind a command to connect to new hosts.
  predicate ReconnectsBehindNewHosts(commands: seq<Control>) {
    exists i, j :: 0 <= i < j < |commands| && commands[i] == ConnectNewHosts && commands[j] == Reconnect
  }

  // What obeying all of a queue comes to. The socket ends up on its last hosts; hosts to
  // be added join them, unless a reconnect comes after they have been taken up.
  function Obeyed(l: Link): Link {
    var settled := if Connect in l.control || Reconnect in l.control then SetOf(l.hosts) else l.peers;
    var joined := ConnectNewHosts in l.control && !ReconnectsBehindNewHosts(l.control);
    l.(connected := true,
       control := [],
       newHosts := if ConnectNewHosts in l.control then [] else l.newHosts,
       peers := settled + if joined then SetOf(l.newHosts) else {})
  }

  lemma FirstCommand(c: Control, rest: seq<Control>)
    ensures ReconnectsBehindNewHosts([c] + rest) <==>
      ReconnectsBehindNewHosts(rest) || (c == ConnectNewHosts && Reconnect in rest)
  {
    var all := [c] + rest;
    if ReconnectsBehindNewHosts(rest) {
      var i, j :| 0 <= i < j < |rest| && rest[i] == ConnectNewHosts && rest[j] == Reconnect;
      assert all[i + 1] == ConnectNewHosts && all[j + 1] == Reconnect;
    }
    if c == ConnectNewHosts && Reconnect in rest {
      var j :| 0 <= j < |rest| && rest[j] == Reconnect;
      assert all[0] == ConnectNewHosts && all[j + 1] == Reconnect;
    }
    if ReconnectsBehindNewHosts(all) {
      var i, j :| 0 <= i < j < |all| && all[i] == ConnectNewHosts && all[j] == Reconnect;
      assert rest[j - 1] == Reconnect;
      if i > 0 {
        assert rest[i - 1] == ConnectNewHosts;
      }
    }
  }

  lemma LastCommand(commands: seq<Control>, c: Control)
    ensures ReconnectsBehindNewHosts(commands + [c]) <==>
      ReconnectsBehindNewHosts(commands) || (c == Reconnect && ConnectNewHosts in commands)
  {
    var all := commands + [c];
    if ReconnectsBehindNewHosts(commands) {
      var i, j :| 0 <= i < j < |commands| && commands[i] == ConnectNewHosts && commands[j] == Reconnect;
      assert all[i] == ConnectNewHosts && all[j] == Reconnect;
    }
    if c == Reconnect && ConnectNewHosts in commands {
      var i :| 0 <= i < |commands| && commands[i] == ConnectNewHosts;
      assert all[i] == ConnectNewHosts && all[|commands|] == Reconnect;
    }
    if ReconnectsBehindNewHosts(all) {
      var i, j :| 0 <= i < j < |all| && all[i] == ConnectNewHosts && all[j] == Reconnect;
      assert commands[i] == ConnectNewHosts;
      if j < |commands| {
        assert commands[j] == Reconnect;
      }
    }
  }

  lemma SteadyParts(c: Control, rest: seq<Control>)
    ensures IsSteady([c] + rest) <==> IsSteady(rest) && (c == Reconnect || c == ConnectNewHosts)
    ensures IsSteady(rest + [c]) <==> IsSteady(rest) && (c == Reconnect || c == ConnectNewHosts)
  {
    assert c in [c] + rest && c in rest + [c];
    assert forall k :: k in rest ==> k in [c] + rest && k in rest + [c];
  }

  lemma ObeyingOne(l: Link)
    requires Following(l) && l.control != []
    ensures Following(ObeyNext(l)) && Obeyed(ObeyNext(l)) == Obeyed(l)
  {
    hide ReconnectsBehindNewHosts, IsSteady;
    var c, rest := l.control[0], l.control[1..];
    assert l.control == [c] + rest;
    SteadyParts(c, rest);
    FirstCommand(c, rest);
    NoneBehindNothing(rest);
    SteadyHasNoConnect(rest);
    NoneListed([]);
  }

  lemma SteadyHasNoConnect(commands: seq<Control>)
    ensures IsSteady(commands) ==> Connect !in commands
  {
  }

  lemma NoneBehindNothing(commands: seq<Control>)
    ensures ReconnectsBehindNewHosts(commands) ==> Reconnect in commands && ConnectNewHosts in commands
  {
  }

  lemma {:induction false} DrainObeysAll(l: Link)
    requires Following(l)
    ensures Drain(l) == Obeyed(l)
    decreases |l.control|
  {
    hide Obeyed, Following, ReconnectsBehindNewHosts;
    if l.control == [] {
      assert Obeyed(l) == l by { NothingToObey(l); }
    } else {
      ObeyingOne(l);
      assert ObeyNext(l).control == l.control[1..] && Drain(l) == Drain(ObeyNext(l)) by { FollowingRuns(l); }
      DrainObeysAll(ObeyNext(l));
    }
  }

  lemma FollowingRuns(l: Link)
    requires Following(l)
    ensures l.running
  {
  }

  lemma NothingToObey(l: Link)
    requires Following(l) && l.control == []
    ensures Obeyed(l) == l
  {
  }

  // A handle told to go ends up disconnected from all hosts, whatever it had still to obey.
  lemma {:induction false} GoingIsDisconnected(l: Link)
    requires Following(l)
    ensures var gone := Drain(l.(control := l.control + [Disconnect]));
      !gone.connected && gone.peers == {} && gone.control == []
    decreases |l.control|
  {
    hide ReconnectsBehindNewHosts, IsSteady, SetOf;
    var told := l.(control := l.control + [Disconnect]);
    assert l.running by { FollowingRuns(l); }
    if l.control == [] {
      assert ObeyNext(told) == l.(peers := {}, connected := false, control := []);
      assert Drain(ObeyNext(told)) == ObeyNext(told);
    } else {
      ObeyingOne(l);
      assert told.control[0] == l.control[0] && told.control[1..] == l.control[1..] + [Disconnect];
      var next := ObeyNext(l);
      assert next.control == l.control[1..] && ObeyNext(told) == next.(control := next.control + [Disconnect]);
      GoingIsDisconnected(next);
    }
  }

  // A handle that has been killed obeys nothing more.
  lemma KilledObeysNothing(l: Link)
    requires l.running && l.control != [] && l.control[0] == Kill
    ensures Drain(l) == l.(running := false, control := l.control[1..])
  {
    assert Drain(ObeyNext(l)) == ObeyNext(l);
  }

  // On its way to hosts of the service only, though maybe not to all of them.
  predicate Approaching(l: Link, hosts: set<Ip>) {
    Following(l) && Drain(l).newHosts == [] && Drain(l).peers <= hosts
  }

  lemma ApproachingAll(l: Link, hosts: set<Ip>)
    requires Approaching(l, hosts)
    ensures WillBeInStep(l, hosts) <==> Drain(l).peers == hosts
  {
    DrainObeysAll(l);
  }

  lemma InStepApproaches(l: Link, hosts: set<Ip>)
    requires Following(l) && WillBeInStep(l, hosts)
    ensures Approaching(l, hosts)
  {
  }

  lemma ObeyingApproaches(l: Link, hosts: set<Ip>)
    requires Approaching(l, hosts)
    ensures Approaching(ObeyNext(l), hosts) && WillBeInStep(ObeyNext(l), hosts) == WillBeInStep(l, hosts)
  {
    if l.control != [] {
      ObeyingOne(l);
      FollowingRuns(l);
    }
  }

  // A refresh that only adds hosts finds a reconnect behind a command to connect to new
  // ones: the hosts it adds are taken up too early and thrown away with the socket.
  predicate LosesHosts(l: Link, before: set<Ip>, listed: set<Ip>) {
    before < listed && ReconnectsBehindNewHosts(l.control)
  }

  lemma QueuedFollows(l: Link, c: Control)
    requires Following(l) && (c == Reconnect || c == ConnectNewHosts)
    ensures Following(l.(control := l.control + [c]))
  {
    hide IsSteady;
    SteadyParts(c, l.control);
    if l.control != [] {
      SteadyParts(c, l.control[1..]);
      assert (l.control + [c])[1..] == l.control[1..] + [c];
    }
  }

  lemma ReconnectingSettles(l: Link, before: set<Ip>, all: seq<Ip>)
    requires Approaching(l, before) && all != []
    ensures Approaching(ReconnectTo(l, all), SetOf(all)) && WillBeInStep(ReconnectTo(l, all), SetOf(all))
  {
    hide ReconnectsBehindNewHosts, Drain, IsSteady;
    var l' := ReconnectTo(l, all);
    QueuedFollows(l, Reconnect);
    LastCommand(l.control, Reconnect);
    DrainObeysAll(l);
    DrainObeysAll(l');
    assert Reconnect in l'.control && (ConnectNewHosts in l'.control <==> ConnectNewHosts in l.control);
    NoneListed([]);
  }

  lemma AddingJoins(l: Link, before: set<Ip>, added: seq<Ip>)
    requires Approaching(l, before) && added != [] && SetOf(added) !! before
    ensures Approaching(AddHosts(l, added), before + SetOf(added))
    ensures WillBeInStep(AddHosts(l, added), before + SetOf(added)) <==>
      WillBeInStep(l, before) && !ReconnectsBehindNewHosts(l.control)
  {
    hide ReconnectsBehindNewHosts, Drain, IsSteady;
    var l' := AddHosts(l, added);
    QueuedFollows(l, ConnectNewHosts);
    LastCommand(l.control, ConnectNewHosts);
    NoneBehindNothing(l.control);
    DrainObeysAll(l);
    DrainObeysAll(l');
    assert ConnectNewHosts in l'.control;
    assert Connect in l'.control <==> Connect in l.control;
    assert Reconnect in l'.control <==> Reconnect in l.control;
    NoneListed([]);
    NoneListed(added);
    SetOfBoth(l.newHosts, added);
  }

  // Whatever is left over in its queue, a handle in step with the service stays so through
  // a refresh that lists some host if and only if the refresh does not lose hosts; and one
  // out of step comes back exactly when the refresh removes a host.
  lemma RefreshKeepsStep(l: Link, before: set<Ip>, listed: seq<Ip>, all: seq<Ip>)
    requires Approaching(l, before) && before != {} && listed != [] && SetOf(all) == SetOf(listed)
    ensures var l' := Refreshed(l, before, listed, all);
      && Approaching(l', SetOf(listed))
      && (WillBeInStep(l', SetOf(listed)) <==>
            || before - SetOf(listed) != {}
            || (WillBeInStep(l, before) && !LosesHosts(l, before, SetOf(listed))))
  {
    hide Approaching, Added, WillBeInStep, ReconnectTo, AddHosts, ReconnectsBehindNewHosts;
    var added := Added(listed, before);
    AddedAreTheNew(listed, before);
    NoneListed(listed);
    NoneListed(all);
    NoneListed(added);
    if before - SetOf(listed) != {} {
      ReconnectingSettles(l, before, all);
    } else {
      NothingMissing(before, SetOf(listed));
      if added != [] {
        AddingJoins(l, before, added);
        assert before + SetOf(added) == SetOf(listed);
      } else {
        assert before == SetOf(listed);
      }
    }
  }

  lemma NothingMissing(before: set<Ip>, listed: set<Ip>)
    requires before - listed == {}
    ensures before + (listed - before) == listed
    ensures before < listed <==> listed - before != {}
  {
    forall h | h in before ensures h in listed {
      assert h !in before - listed;
    }
    if listed - before == {} {
      assert before + {} == before;
    } else {
      var h :| h in listed - before;
      assert h in listed && h !in before;
    }
  }

  lemma SetOfBoth(a: seq<Ip>, b: seq<Ip>)
    ensures SetOf(a + b) == SetOf(a) + SetOf(b)
  {
  }

  // In particular, from step to step.
  lemma BacklogKeepsStep(l: Link, before: set<Ip>, listed: seq<Ip>, all: seq<Ip>)
    requires Following(l) && WillBeInStep(l, before)
    requires before != {} && listed != [] && SetOf(all) == SetOf(listed)
    ensures WillBeInStep(Refreshed(l, before, listed, all), SetOf(listed)) <==> !LosesHosts(l, before, SetOf(listed))
  {
    hide Following, Drain, Refreshed, ReconnectsBehindNewHosts, SetOf;
    InStepApproaches(l, before);
    RefreshKeepsStep(l, before, listed, all);
    if h :| h in before - SetOf(listed) {
      assert !(before < SetOf(listed));
    }
  }

  // A refresh that lists no host leaves a connected handle where it is.
  lemma EmptyRefreshBreaksStep(l: Link, before: set<Ip>, all: seq<Ip>)
    requires WillBeInStep(l, before) && before != {} && SetOf(all) == SetOf([])
    ensures !WillBeInStep(Refreshed(l, before, [], all), SetOf([]))
  {
    NoneListed(all);
    assert SetOf([]) == {} && before - {} == before;
  }

  lemma NoneListed(hosts: seq<Ip>)
    ensures SetOf(hosts) == {} <==> hosts == []
  {
    assert hosts != [] ==> hosts[0] in SetOf(hosts);
  }
}
