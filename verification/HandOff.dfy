/** The order of messages across the disappearance and return of a handle. */
module HandOff {
  import opened Messages
  import opened Links
  import opened Lifecycle
  import opened Conservation

  function ForName(q: seq<Message>, n: string): seq<Message> {
    if q == [] then []
    else
      var front, last := q[..|q| - 1], q[|q| - 1];
      ForName(front, n) + (if last.handle == n then [last] else [])
  }

  lemma {:induction false} ForNameConcat(a: seq<Message>, b: seq<Message>, n: string)
    ensures ForName(a + b, n) == ForName(a, n) + ForName(b, n)
  {
    if b == [] {
      assert a + b == a;
    } else {
      var front, last := b[..|b| - 1], b[|b| - 1];
      assert (a + b)[..|a + b| - 1] == a + front;
      ForNameConcat(a, front, n);
    }
  }

  // No handle of this name is live, now or after any of the steps.
  ghost predicate Away(w: World, steps: seq<Step>, n: string)
    decreases |steps|
  {
    n !in w.s.handles && (steps == [] || Away(Apply(w, steps[0]), steps[1..], n))
  }

  // The messages accepted in one step.
  function Accepting(w: World, step: Step): seq<Message> {
    if step.Send? && !w.s.failed then [step.message] else []
  }

  lemma StepAccepts(w: World, step: Step)
    ensures Apply(w, step).log.accepted == w.log.accepted + Accepting(w, step)
  {
    hide SendMessage, BeginRefresh, CreateHandle, WithCache, ObeyNext, Take;
  }

  lemma StepWaiting(w: World, step: Step, n: string)
    requires n !in w.s.handles && n !in Apply(w, step).s.handles
    ensures Waiting(Apply(w, step).s, n) == Waiting(w.s, n) + ForName(Accepting(w, step), n)
  {
    hide Take, SendNext, ObeyNext, BeginRefresh, ConnectTo, Inbox, Given;
    if step.Refresh? {
      RefreshTouches(w.s, step.hosts, step.handles);
    }
  }

  lemma Meanwhile(waiting: seq<Message>, before: seq<Message>, first: seq<Message>, all: seq<Message>, n: string)
    requires before + first <= all
    ensures before <= all
    ensures waiting + ForName(all[|before|..], n) == waiting + ForName(first, n) + ForName(all[|before + first|..], n)
    ensures before == all ==> ForName(all[|before|..], n) == []
  {
    assert all[|before|..] == first + all[|before + first|..];
    ForNameConcat(first, all[|before + first|..], n);
  }

  lemma {:induction false} AwayCollects(w: World, steps: seq<Step>, n: string)
    requires Away(w, steps, n)
    ensures w.log.accepted <= Run(w, steps).log.accepted
    ensures Waiting(Run(w, steps).s, n) ==
      Waiting(w.s, n) + ForName(Run(w, steps).log.accepted[|w.log.accepted|..], n)
    decreases |steps|
  {
    hide Apply, Accepting, Waiting, ForName;
    var all := Run(w, steps).log.accepted;
    if steps == [] {
      Meanwhile([], w.log.accepted, [], all, n);
    } else {
      var w1 := Apply(w, steps[0]);
      StepAccepts(w, steps[0]);
      StepWaiting(w, steps[0], n);
      AwayCollects(w1, steps[1..], n);
      Meanwhile(Waiting(w.s, n), w.log.accepted, Accepting(w, steps[0]), all, n);
    }
  }

  lemma RemovalLeaves(w: World, hosts: seq<HostInfo>, listed: seq<HandleInfo>, n: string)
    requires Placed(w.s) && w.s.creating == [] && n in w.s.handles && w.s.handles[n].info !in listed
    ensures var w' := Apply(w, Refresh(hosts, listed));
      && n !in w'.s.handles && w'.log == w.log
      && Waiting(w'.s, n) == w.s.handles[n].cache.pending + InUuidOrder(w.s.handles[n].cache.sent)
  {
    hide InUuidOrder, HostMap, Listing, Refreshed, OwnHandle, OwnQueue;
    NoConflict(w.s, Outstanding(w.s, listed));
  }

  lemma CreationTakesOver(w: World, n: string)
    requires !w.s.failed && n !in w.s.handles && n in Apply(w, CreateNext).s.handles
    ensures var w' := Apply(w, CreateNext);
      && w'.s.handles[n].cache == Cache(Waiting(w.s, n), map[])
      && Waiting(w'.s, n) == []
  {
  }

  // A handle a refresh removes and a later creation brings back, with anything in between
  // that leaves it away: its new queue is what was pending, then what had been sent, by
  // uuid, then what was accepted for it meanwhile, in order; nothing is marked as sent and
  // nothing is left behind.
  lemma ReturningHandleQueue(w: World, hosts: seq<HostInfo>, listed: seq<HandleInfo>, between: seq<Step>, n: string)
    requires Placed(w.s) && w.s.creating == [] && n in w.s.handles && w.s.handles[n].info !in listed
    requires Away(Apply(w, Refresh(hosts, listed)), between, n)
    requires n in Apply(Run(Apply(w, Refresh(hosts, listed)), between), CreateNext).s.handles
    ensures var before := w.s.handles[n].cache;
      var away := Run(Apply(w, Refresh(hosts, listed)), between);
      var back := Apply(away, CreateNext);
      && w.log.accepted <= away.log.accepted
      && var meanwhile := ForName(away.log.accepted[|w.log.accepted|..], n);
      && ListsByUuid(InUuidOrder(before.sent), before.sent)
      && back.s.handles[n].cache == Cache(before.pending + InUuidOrder(before.sent) + meanwhile, map[])
      && Waiting(back.s, n) == []
  {
    hide Apply, Placed, InUuidOrder, Waiting, ListsByUuid;
    assert OwnHandle(w.s, n) by { OwnNamesOf(w.s); }
    InUuidOrderIsSorted(w.s.handles[n].cache.sent);
    var gone := Apply(w, Refresh(hosts, listed));
    var away := Run(gone, between);
    RemovalLeaves(w, hosts, listed, n);
    StepPlaced(w, Refresh(hosts, listed));
    AwayCollects(gone, between, n);
    RunPlaced(gone, between);
    AwayAtTheEnd(gone, between, n);
    assert !away.s.failed by { PlacedNotFailed(away.s); }
    CreationTakesOver(away, n);
  }

  lemma {:induction false} AwayAtTheEnd(w: World, steps: seq<Step>, n: string)
    requires Away(w, steps, n)
    ensures n !in Run(w, steps).s.handles
    decreases |steps|
  {
    hide Apply;
    if steps != [] {
      AwayAtTheEnd(Apply(w, steps[0]), steps[1..], n);
    }
  }
}
