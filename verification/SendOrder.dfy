/** The order in which a handle sends, while it is live. */
module SendOrder {
  import opened Messages
  import opened Links
  import opened Lifecycle
  import opened Conservation
  import opened HandOff

  // A handle of this name is live, now and after each of the steps.
  ghost predicate Present(w: World, steps: seq<Step>, n: string)
    decreases |steps|
  {
    n in w.s.handles && (steps == [] || Present(Apply(w, steps[0]), steps[1..], n))
  }

  // What the handle sends in one step, if anything.
  function Sending(w: World, step: Step, n: string): seq<Message> {
    if step.Dispatch? && step.handle == n && step.written && !w.s.failed && Connected(w.s, n) && Pending(w.s, n) != []
    then [Pending(w.s, n)[0]] else []
  }

  // The server's queue is full: a sent message comes back to the front.
  predicate Bounces(w: World, step: Step, n: string) {
    && step.Receive? && step.handle == n && !w.s.failed && Connected(w.s, n)
    && step.reply.Reply? && step.reply.code == MESSAGE_QUEUE_IS_FULL
    && step.reply.uuid != "" && step.reply.uuid in Sent(w.s, n)
  }

  // How many messages in front have come back and wait to be sent again, given how many
  // did before the step.
  function InFront(w: World, step: Step, n: string, b: nat): nat {
    if Bounces(w, step, n) then b + 1
    else if Sending(w, step, n) != [] && b > 0 then b - 1
    else b
  }

  // What is sent for the first time: whatever is sent when none of those are left.
  function FirstSent(w: World, step: Step, n: string, b: nat): seq<Message> {
    if b == 0 then Sending(w, step, n) else []
  }

  ghost function InFrontAfter(w: World, steps: seq<Step>, n: string, b: nat): nat
    decreases |steps|
  {
    if steps == [] then b else InFrontAfter(Apply(w, steps[0]), steps[1..], n, InFront(w, steps[0], n, b))
  }

  ghost function FirstSends(w: World, steps: seq<Step>, n: string, b: nat): seq<Message>
    decreases |steps|
  {
    if steps == [] then []
    else FirstSent(w, steps[0], n, b) + FirstSends(Apply(w, steps[0]), steps[1..], n, InFront(w, steps[0], n, b))
  }

  // A message that is, or has been, among the sent ones.
  predicate HasBeenSent(s: State, n: string, b: nat, m: Message)
    requires b <= |Pending(s, n)|
  {
    m in Pending(s, n)[..b] || m in Sent(s, n).Values
  }

  // What one step may do to the cache of a handle with b messages back in front.
  ghost predicate InOrderOf(s: State, s': State, n: string, b: nat, b': nat, first: seq<Message>, added: seq<Message>) {
    && b <= |Pending(s, n)| && b' <= |Pending(s', n)|
    && first + Pending(s', n)[b'..] == Pending(s, n)[b..] + added
    && forall m :: HasBeenSent(s', n, b', m) ==> HasBeenSent(s, n, b, m) || m in first
  }

  lemma SameCacheInOrder(s: State, s': State, n: string, b: nat)
    requires n in s.handles && n in s'.handles && s'.handles[n].cache == s.handles[n].cache && b <= |Pending(s, n)|
    ensures InOrderOf(s, s', n, b, b, [], [])
  {
  }

  lemma RefreshKeepsCache(s: State, hosts: seq<HostInfo>, listed: seq<HandleInfo>, n: string)
    requires !s.failed && !BeginRefresh(s, hosts, listed).failed
    requires n in s.handles && n in BeginRefresh(s, hosts, listed).handles
    ensures BeginRefresh(s, hosts, listed).handles[n].cache == s.handles[n].cache
  {
    hide HostMap, Listing, Refreshed, AllNew, RemoveInOrder, Conflict;
    RefreshTouches(s, hosts, listed);
  }

  lemma OtherStepKeepsCache(w: World, step: Step, n: string)
    requires Placed(w.s) && n in w.s.handles && n in Apply(w, step).s.handles
    requires step.Send? ==> step.message.handle != n
    requires step.Dispatch? || step.Receive? ==> step.handle != n
    ensures Apply(w, step).s.handles[n].cache == w.s.handles[n].cache
  {
    hide Take, SendNext, ObeyNext, BeginRefresh, ConnectTo, Inbox, Append, OwnHandle, OwnQueue;
    if step.Refresh? && w.s.creating == [] {
      StepPlaced(w, step);
      RefreshKeepsCache(w.s, step.hosts, step.handles, n);
    }
  }

  lemma SendInOrder(w: World, m: Message, b: nat)
    requires !w.s.failed && m.handle in w.s.handles && b <= |Pending(w.s, m.handle)|
    ensures InOrderOf(w.s, Apply(w, Send(m)).s, m.handle, b, b, [], [m])
  {
    var p := Pending(w.s, m.handle);
    assert (p + [m])[b..] == p[b..] + [m] && (p + [m])[..b] == p[..b];
  }

  lemma DispatchInOrder(w: World, n: string, written: bool, b: nat)
    requires n in w.s.handles && b <= |Pending(w.s, n)|
    ensures var step := Dispatch(n, written);
      InOrderOf(w.s, Apply(w, step).s, n, b, InFront(w, step, n, b), FirstSent(w, step, n, b), [])
  {
    var step := Dispatch(n, written);
    var s' := Apply(w, step).s;
    var p := Pending(w.s, n);
    if Sending(w, step, n) == [] {
      SameCacheInOrder(w.s, s', n, b);
    } else {
      assert Pending(s', n) == p[1..];
      assert p == [p[0]] + p[1..];
      if b > 0 {
        assert p[1..][b - 1..] == p[b..];
        assert forall m :: m in p[1..][..b - 1] || m == p[0] ==> m in p[..b];
      }
    }
  }

  lemma ReceiveInOrder(w: World, n: string, reply: Reply, b: nat)
    requires n in w.s.handles && b <= |Pending(w.s, n)|
    ensures var step := Receive(n, reply);
      InOrderOf(w.s, Apply(w, step).s, n, b, InFront(w, step, n, b), [], [])
  {
    hide Inbox;
    var step := Receive(n, reply);
    var s' := Apply(w, step).s;
    var p := Pending(w.s, n);
    if Bounces(w, step, n) {
      var m := Sent(w.s, n)[reply.uuid];
      assert Pending(s', n) == [m] + p;
      assert ([m] + p)[b + 1..] == p[b..] && ([m] + p)[..b + 1] == [m] + p[..b];
    } else {
      assert Pending(s', n) == p;
    }
  }

  lemma StepInOrder(w: World, step: Step, n: string, b: nat)
    requires Placed(w.s) && n in w.s.handles && n in Apply(w, step).s.handles && b <= |Pending(w.s, n)|
    ensures InOrderOf(w.s, Apply(w, step).s, n, b, InFront(w, step, n, b), FirstSent(w, step, n, b),
                      ForName(Accepting(w, step), n))
  {
    hide Apply, Connected, InOrderOf, Placed;
    PlacedNotFailed(w.s);
    if step.Send? && step.message.handle == n {
      SendInOrder(w, step.message, b);
      assert [step.message][..0] == [] && ForName([step.message], n) == [] + [step.message];
      assert ForName(Accepting(w, step), n) == [step.message];
    } else if step.Dispatch? && step.handle == n {
      DispatchInOrder(w, n, step.written, b);
    } else if step.Receive? && step.handle == n {
      ReceiveInOrder(w, n, step.reply, b);
    } else {
      OtherStepKeepsCache(w, step, n);
      SameCacheInOrder(w.s, Apply(w, step).s, n, b);
    }
  }

  lemma InOrderComposes(s: State, t: State, u: State, n: string, b: nat, c: nat, d: nat,
                        first: seq<Message>, next: seq<Message>, added: seq<Message>, more: seq<Message>)
    requires InOrderOf(s, t, n, b, c, first, added) && InOrderOf(t, u, n, c, d, next, more)
    ensures InOrderOf(s, u, n, b, d, first + next, added + more)
  {
    hide HasBeenSent;
    calc {
      (first + next) + Pending(u, n)[d..];
      first + (next + Pending(u, n)[d..]);
      first + (Pending(t, n)[c..] + more);
      (first + Pending(t, n)[c..]) + more;
      (Pending(s, n)[b..] + added) + more;
      Pending(s, n)[b..] + (added + more);
    }
  }

  // While its handle stays, messages are sent for the first time in the order they were
  // accepted, whatever the server sends back in between: first come those that were
  // pending, then those accepted since, and what is left of them is pending still, behind
  // the messages that have come back; and these have all been sent before.
  lemma {:induction false} FirstSendsKeepOrder(w: World, steps: seq<Step>, n: string, b: nat)
    requires Placed(w.s) && Present(w, steps, n) && b <= |Pending(w.s, n)|
    ensures var w' := Run(w, steps);
      var b' := InFrontAfter(w, steps, n, b);
      var first := FirstSends(w, steps, n, b);
      && w.log.accepted <= w'.log.accepted
      && b' <= |Pending(w'.s, n)|
      && first + Pending(w'.s, n)[b'..] == Pending(w.s, n)[b..] + ForName(w'.log.accepted[|w.log.accepted|..], n)
      && forall m :: HasBeenSent(w'.s, n, b', m) ==> HasBeenSent(w.s, n, b, m) || m in first
    decreases |steps|
  {
    RunInOrder(w, steps, n, b);
  }

  lemma {:induction false} RunInOrder(w: World, steps: seq<Step>, n: string, b: nat)
    requires Placed(w.s) && Present(w, steps, n) && b <= |Pending(w.s, n)|
    ensures w.log.accepted <= Run(w, steps).log.accepted
    ensures InOrderOf(w.s, Run(w, steps).s, n, b, InFrontAfter(w, steps, n, b), FirstSends(w, steps, n, b),
                      ForName(Run(w, steps).log.accepted[|w.log.accepted|..], n))
    decreases |steps|
  {
    hide Apply, Accepting, ForName, FirstSent, InFront, InOrderOf, Placed, Pending;
    var accepted := Run(w, steps).log.accepted;
    if steps == [] {
      Meanwhile([], w.log.accepted, [], accepted, n);
      SameCacheInOrder(w.s, w.s, n, b);
    } else {
      var step, w1 := steps[0], Apply(w, steps[0]);
      var c := InFront(w, step, n, b);
      StepAccepts(w, step);
      StepInOrder(w, step, n, b);
      StepPlaced(w, step);
      InOrderBound(w.s, w1.s, n, b, c, FirstSent(w, step, n, b), ForName(Accepting(w, step), n));
      RunInOrder(w1, steps[1..], n, c);
      Meanwhile([], w.log.accepted, Accepting(w, step), accepted, n);
      var added, more := ForName(Accepting(w, step), n), ForName(accepted[|w1.log.accepted|..], n);
      assert ForName(accepted[|w.log.accepted|..], n) == added + more by {
        assert [] + ForName(accepted[|w.log.accepted|..], n) == ForName(accepted[|w.log.accepted|..], n);
        assert [] + added + more == added + more;
      }
      InOrderComposes(w.s, w1.s, Run(w, steps).s, n, b, c, InFrontAfter(w, steps, n, b),
                      FirstSent(w, step, n, b), FirstSends(w1, steps[1..], n, c), added, more);
    }
  }

  // Without a queue-full reply nothing comes back, and the order of sending is just that of
  // acceptance.
  lemma {:induction false} NoneComesBack(w: World, steps: seq<Step>, n: string)
    requires forall step :: step in steps && step.Receive? && step.reply.Reply? ==>
      step.reply.code != MESSAGE_QUEUE_IS_FULL
    ensures InFrontAfter(w, steps, n, 0) == 0
    decreases |steps|
  {
    hide Apply;
    if steps != [] {
      NoneComesBack(Apply(w, steps[0]), steps[1..], n);
    }
  }

  lemma InOrderBound(s: State, s': State, n: string, b: nat, b': nat, first: seq<Message>, added: seq<Message>)
    requires InOrderOf(s, s', n, b, b', first, added)
    ensures b' <= |Pending(s', n)|
  {
  }

  // A message the server had no room for produces no response and is the next one sent;
  // sending it restores the state of the world.
  lemma BouncedMessageIsSentNext(w: World, n: string, reply: Reply)
    requires Placed(w.s) && Connected(w.s, n)
    requires reply.Reply? && reply.uuid != "" && reply.code == MESSAGE_QUEUE_IS_FULL
    requires reply.uuid in w.s.handles[n].cache.sent
    ensures var bounced := Apply(w, Receive(n, reply));
      && bounced.log == w.log
      && n in bounced.s.handles && Pending(bounced.s, n)[..1] == [w.s.handles[n].cache.sent[reply.uuid]]
      && Apply(bounced, Dispatch(n, true)) == w
  {
    hide FrontToSent, OwnQueue;
    var h := w.s.handles[n];
    assert OwnHandle(w.s, n);
    BounceAndSendCancel(h.cache, reply.uuid);
    var bounced := Apply(w, Receive(n, reply));
    assert bounced == w.(s := WithCache(w.s, n, SentToFront(h.cache, reply.uuid)));
    assert w.s.handles[n := h] == w.s.handles;
  }
}
