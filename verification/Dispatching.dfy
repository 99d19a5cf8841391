/** A turn of a handle's dispatch loop is a stretch of steps of the system. */
module Dispatching {
  import opened Messages
  import opened Links
  import opened Lifecycle
  import opened Handle

  // The readable replies, one step each.
  function Receives(n: string, c: Cache, replies: seq<Reply>): seq<Step>
    decreases |replies|
  {
    if replies == [] || Unreadable(replies[0]) then []
    else [Receive(n, replies[0])] + Receives(n, Take(c, replies[0]).cache, replies[1..])
  }

  function TurnSteps(n: string, h: HandleState, written: bool, replies: seq<Reply>): seq<Step> {
    var l := ObeyNext(h.link);
    [Command(n)] +
    if l.running && l.connected then [Dispatch(n, written)] + Receives(n, SendNext(h.cache, written), replies) else []
  }

  // What a turn comes to: the handle moves on, and its responses are queued.
  function AfterTurn(s: State, n: string, written: bool, replies: seq<Reply>): State
    requires n in s.handles
  {
    var (h, responses) := Turned(s.handles[n], written, replies);
    EnqueueAll(s.(handles := s.handles[n := h]), responses)
  }

  lemma RunFirst(w: World, step: Step, rest: seq<Step>)
    ensures Run(w, [step] + rest) == Run(Apply(w, step), rest)
  {
    hide Apply;
    assert ([step] + rest)[1..] == rest;
  }

  // ---------------------------------------------------------------- queuing responses

  lemma {:induction false} EnqueueAllAppends(s: State, a: seq<Response>, b: seq<Response>)
    ensures EnqueueAll(s, a + b) == EnqueueAll(EnqueueAll(s, a), b)
    decreases |a|
  {
    hide EnqueueResponse;
    if a == [] {
      assert a + b == b;
    } else {
      assert (a + b)[1..] == a[1..] + b;
      EnqueueAllAppends(EnqueueResponse(s, a[0]), a[1..], b);
    }
  }

  lemma {:induction false} EnqueueAllKeepsHandles(s: State, responses: seq<Response>)
    ensures var s' := EnqueueAll(s, responses); s' == s.(received := s'.received)
    decreases |responses|
  {
    if responses != [] {
      EnqueueAllKeepsHandles(EnqueueResponse(s, responses[0]), responses[1..]);
    }
  }

  lemma {:induction false} EnqueueAllElsewhere(s: State, n: string, h: HandleState, responses: seq<Response>)
    ensures EnqueueAll(s.(handles := s.handles[n := h]), responses) ==
      EnqueueAll(s, responses).(handles := s.handles[n := h])
    decreases |responses|
  {
    if responses != [] {
      var r := responses[0];
      assert EnqueueResponse(s.(handles := s.handles[n := h]), r) ==
        EnqueueResponse(s, r).(handles := s.handles[n := h]);
      EnqueueAllElsewhere(EnqueueResponse(s, r), n, h, responses[1..]);
    }
  }

  // ---------------------------------------------------------------- replies

  lemma ReceiveOne(w: World, n: string, reply: Reply)
    requires !w.s.failed && Connected(w.s, n)
    ensures var w' := Apply(w, Receive(n, reply));
      var receipt := Take(w.s.handles[n].cache, reply);
      && w'.s == EnqueueAll(WithCache(w.s, n, receipt.cache), receipt.responses)
      && w'.log.produced == w.log.produced + receipt.responses
  {
    hide SentToFront, RemoveSent, Inbox, EnqueueResponse, WithCache;
    var receipt := Take(w.s.handles[n].cache, reply);
    OneResponse(WithCache(w.s, n, receipt.cache), receipt.responses);
  }

  lemma OneResponse(s: State, responses: seq<Response>)
    ensures responses == [] ==> EnqueueAll(s, responses) == s
    ensures |responses| == 1 ==> EnqueueAll(s, responses) == EnqueueResponse(s, responses[0])
  {
    hide EnqueueResponse;
    if |responses| == 1 {
      assert EnqueueAll(EnqueueResponse(s, responses[0]), []) == EnqueueResponse(s, responses[0]);
    }
  }

  lemma {:induction false} ReceivesTakeAll(w: World, n: string, replies: seq<Reply>)
    requires !w.s.failed && Connected(w.s, n)
    ensures var c := w.s.handles[n].cache;
      var w' := Run(w, Receives(n, c, replies));
      var receipt := TakeAll(c, replies);
      && w'.s == EnqueueAll(WithCache(w.s, n, receipt.cache), receipt.responses)
      && w'.log.produced == w.log.produced + receipt.responses
    decreases |replies|
  {
    hide Apply, Take, Unreadable, EnqueueAll, Run;
    var c := w.s.handles[n].cache;
    if replies != [] && !Unreadable(replies[0]) {
      var first := Take(c, replies[0]);
      var w1 := Apply(w, Receive(n, replies[0]));
      ReceiveOne(w, n, replies[0]);
      EnqueueAllKeepsHandles(WithCache(w.s, n, first.cache), first.responses);
      ReceivesTakeAll(w1, n, replies[1..]);
      RunFirst(w, Receive(n, replies[0]), Receives(n, first.cache, replies[1..]));
      var rest := TakeAll(first.cache, replies[1..]);
      var h := w.s.handles[n].(cache := rest.cache);
      EnqueueAllElsewhere(WithCache(w.s, n, first.cache), n, h, first.responses);
      assert WithCache(w.s, n, first.cache).handles[n := h] == w.s.handles[n := h];
      EnqueueAllAppends(WithCache(w.s, n, rest.cache), first.responses, rest.responses);
    } else {
      OneResponse(w.s, []);
      assert w.s.handles[n := w.s.handles[n]] == w.s.handles;
      RunNothing(w);
    }
  }

  // One turn of the loop of a live handle is the run of its steps: the same state of the
  // service, with the responses queued, and the same responses produced.
  lemma TurnIsSteps(w: World, n: string, written: bool, replies: seq<Reply>)
    requires !w.s.failed && n in w.s.handles
    ensures var h := w.s.handles[n];
      var w' := Run(w, TurnSteps(n, h, written, replies));
      && w'.s == AfterTurn(w.s, n, written, replies)
      && w'.log.produced == w.log.produced + Turned(h, written, replies).1
  {
    hide TakeAll, Receives, SendNext, ObeyNext, Run, EnqueueAll, Apply;
    var h := w.s.handles[n];
    var l := ObeyNext(h.link);
    var w1 := Apply(w, Command(n));
    CommandApplies(w, n);
    RunNothing(w1);
    OneResponse(w1.s, []);
    if l.running && l.connected {
      var w2 := Apply(w1, Dispatch(n, written));
      var receives := Receives(n, SendNext(h.cache, written), replies);
      DispatchApplies(w1, n, written);
      RunFirst(w, Command(n), [Dispatch(n, written)] + receives);
      RunFirst(w1, Dispatch(n, written), receives);
      ReceivesTakeAll(w2, n, replies);
      var receipt := TakeAll(SendNext(h.cache, written), replies);
      assert WithCache(w2.s, n, receipt.cache) ==
        w.s.(handles := w.s.handles[n := HandleState(h.info, receipt.cache, l)]);
    } else {
      RunFirst(w, Command(n), []);
    }
  }

  lemma DispatchApplies(w: World, n: string, written: bool)
    requires !w.s.failed && Connected(w.s, n)
    ensures Apply(w, Dispatch(n, written)) == w.(s := WithCache(w.s, n, SendNext(w.s.handles[n].cache, written)))
  {
  }

  // ---------------------------------------------------------------- unreadable replies

  // A reply without an envelope, without a uuid, or announcing data that does not follow
  // ends the turn: what stands behind it is not taken.
  lemma {:induction false} NothingBehindUnreadable(c: Cache, before: seq<Reply>, bad: Reply, after: seq<Reply>)
    requires || bad.BadEnvelope? || bad.uuid == ""
             || (bad.code == 0 && !bad.completed && bad.data == NoPart)
    ensures TakeAll(c, before + [bad] + after) == TakeAll(c, before)
    decreases |before|
  {
    hide Take;
    var all := before + [bad] + after;
    if before == [] {
      assert all[0] == bad;
    } else {
      assert all[0] == before[0] && all[1..] == before[1..] + [bad] + after;
      NothingBehindUnreadable(Take(c, before[0]).cache, before[1..], bad, after);
    }
  }

  // All replies before that are taken, each as one step.
  lemma {:induction false} ReadableAreTaken(n: string, c: Cache, replies: seq<Reply>)
    requires forall r :: r in replies ==>
      r.Reply? && r.uuid != "" && (r.code == 0 && !r.completed ==> r.data.Part?)
    ensures Receives(n, c, replies) == seq(|replies|, i requires 0 <= i < |replies| => Receive(n, replies[i]))
    decreases |replies|
  {
    hide Take;
    if replies != [] {
      assert replies[0] in replies;
      ReadableAreTaken(n, Take(c, replies[0]).cache, replies[1..]);
    }
  }
}
