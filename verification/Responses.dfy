/** What the callbacks are given: for every message any number of chunks and then at most
    one final response, in the order produced. */
module Responses {
  import opened Messages
  import opened Links
  import opened Lifecycle
  import opened Conservation

  // A response followed by another for the same message is a chunk: there is at most one
  // final response, and nothing after it.
  predicate ChunksThenFinal(q: seq<Response>) {
    forall i, j :: 0 <= i < j < |q| && q[i].uuid == q[j].uuid ==> q[i].Chunk?
  }

  ghost predicate HasFinal(q: seq<Response>, u: string) {
    exists r :: r in q && !r.Chunk? && r.uuid == u
  }

  ghost predicate IsFinished(finished: multiset<Message>, u: string) {
    exists m :: m in finished && m.uuid == u
  }

  // Final responses are those of the finished messages.
  ghost predicate Answered(log: Log) {
    forall u :: HasFinal(log.produced, u) <==> IsFinished(log.finished, u)
  }

  ghost predicate Protocol(w: World) {
    Inv(w) && ChunksThenFinal(w.log.produced) && Answered(w.log)
  }

  // A message still in an index has had no final response.
  lemma SentIsUnanswered(w: World, n: string, u: string)
    requires Protocol(w) && n in w.s.handles && u in w.s.handles[n].cache.sent
    ensures var m := w.s.handles[n].cache.sent[u]; m.uuid == u && m.handle == n && m !in w.log.finished
    ensures !HasFinal(w.log.produced, u)
  {
    hide FreshUuids, Conserved, InUuidOrder, Pool;
    var c := w.s.handles[n].cache;
    assert OwnHandle(w.s, n);
    var m := c.sent[u];
    assert Pool(w.s, n)[m] >= 1 by {
      SentIsHeld(c, u);
      PoolOfLive(w.s, n);
    }
    UuidOnce(w, m, m);
    if HasFinal(w.log.produced, u) {
      assert IsFinished(w.log.finished, u);
      var o :| o in w.log.finished && o.uuid == u;
      UuidOnce(w, m, o);
    }
  }

  lemma ReceiveKeepsProtocol(w: World, n: string, reply: Reply)
    requires Protocol(w) && n in w.s.handles
    ensures ChunksThenFinal(Receiving(w, n, reply).log.produced) && Answered(Receiving(w, n, reply).log)
  {
    hide Inv, SentToFront, RemoveSent, WithCache, EnqueueResponse, ChunksThenFinal, HasFinal, IsFinished;
    var receipt := Take(w.s.handles[n].cache, reply);
    if receipt.responses != [] {
      SentIsUnanswered(w, n, reply.uuid);
      var m := w.s.handles[n].cache.sent[reply.uuid];
      var r := receipt.responses[0];
      OneMoreResponse(w.log.produced, r);
      forall u ensures HasFinal(w.log.produced + [r], u) <==>
                       IsFinished(w.log.finished + (if r.Chunk? then multiset{} else multiset{m}), u)
      {
        OneMoreFinal(w.log.produced, r, u);
        OneMoreFinished(w.log.finished, m, u);
        assert w.log.finished + multiset{} == w.log.finished;
      }
    }
  }

  lemma OneMoreResponse(q: seq<Response>, r: Response)
    requires ChunksThenFinal(q) && !HasFinal(q, r.uuid)
    ensures ChunksThenFinal(q + [r])
  {
    forall i | 0 <= i < |q| && q[i].uuid == r.uuid ensures q[i].Chunk? {
      assert q[i] in q;
    }
  }

  lemma OneMoreFinal(q: seq<Response>, r: Response, u: string)
    ensures HasFinal(q + [r], u) <==> HasFinal(q, u) || (!r.Chunk? && r.uuid == u)
  {
    if HasFinal(q, u) {
      var f :| f in q && !f.Chunk? && f.uuid == u;
      assert f in q + [r];
    }
    assert r in q + [r];
  }

  lemma OneMoreFinished(finished: multiset<Message>, m: Message, u: string)
    ensures IsFinished(finished + multiset{m}, u) <==> IsFinished(finished, u) || m.uuid == u
  {
    if IsFinished(finished, u) {
      var o :| o in finished && o.uuid == u;
      assert o in finished + multiset{m};
    }
    assert m in finished + multiset{m};
  }

  lemma StepKeepsProtocol(w: World, step: Step)
    requires Protocol(w) && Allowed(w, step)
    ensures Protocol(Apply(w, step))
  {
    hide Inv, ChunksThenFinal, HasFinal, IsFinished, SendMessage, BeginRefresh, CreateHandle, Receiving, Allowed;
    StepConserves(w, step);
    if step.Receive? && Connected(w.s, step.handle) {
      ReceiveKeepsProtocol(w, step.handle, step.reply);
    }
  }

  // ---------------------------------------------------------------- delivery

  function ForHandle(q: seq<Response>, n: string): seq<Response> {
    if q == [] then []
    else
      var front, last := q[..|q| - 1], q[|q| - 1];
      ForHandle(front, n) + (if last.handle == n then [last] else [])
  }

  lemma ForHandleOneMore(q: seq<Response>, r: Response, n: string)
    ensures ForHandle(q + [r], n) == ForHandle(q, n) + (if r.handle == n then [r] else [])
  {
    assert (q + [r])[..|q|] == q;
  }

  // What a callback was given and what is queued for it are together what has been
  // produced for its handle since it was registered.
  predicate InOrder(w: World, n: string) {
    if n in w.s.callbacks then
      && n in w.log.since && w.log.since[n] <= |w.log.produced|
      && Given(w.log, n) + Inbox(w.s, n) == ForHandle(w.log.produced[w.log.since[n]..], n)
    else Given(w.log, n) == [] && Inbox(w.s, n) == []
  }

  ghost predicate Delivery(w: World) {
    forall n :: InOrder(w, n)
  }

  lemma DeliverKeepsOrder(w: World, n: string)
    requires InOrder(w, n)
    ensures InOrder(Apply(w, Deliver), n)
  {
    hide Apply, ForHandle, Inbox, Given;
    DeliverMovesOne(w, n);
    var inbox := Inbox(w.s, n);
    assert inbox != [] ==> inbox == [inbox[0]] + inbox[1..];
  }

  lemma DeliverMovesOne(w: World, n: string)
    ensures var w' := Apply(w, Deliver);
      && w'.s.callbacks == w.s.callbacks && w'.log.since == w.log.since && w'.log.produced == w.log.produced
      && var inbox := Inbox(w.s, n);
      && (w.s.failed ==> w' == w)
      && (!w.s.failed && n in w.s.callbacks && inbox != [] ==>
            Given(w'.log, n) == Given(w.log, n) + [inbox[0]] && Inbox(w'.s, n) == inbox[1..])
      && (!w.s.failed && n in w.s.callbacks && inbox == [] ==>
            Given(w'.log, n) == Given(w.log, n) && Inbox(w'.s, n) == [])
      && (!w.s.failed && n !in w.s.callbacks ==> Given(w'.log, n) == [] && Inbox(w'.s, n) == inbox)
  {
  }

  lemma ReceiveKeepsOrder(w: World, k: string, reply: Reply, n: string)
    requires InOrder(w, n) && k in w.s.handles
    ensures InOrder(Receiving(w, k, reply), n)
  {
    hide SentToFront, RemoveSent, ForHandle, EnqueueResponse;
    var receipt := Take(w.s.handles[k].cache, reply);
    if receipt.responses != [] {
      EnqueueKeepsOrder(WithCache(w.s, k, receipt.cache), receipt.responses[0], n);
      if n in w.s.callbacks {
        SinceOneMore(w.log.produced, w.log.since[n], receipt.responses[0], n);
      }
    }
  }

  lemma SinceOneMore(q: seq<Response>, since: nat, r: Response, n: string)
    requires since <= |q|
    ensures ForHandle((q + [r])[since..], n) == ForHandle(q[since..], n) + (if r.handle == n then [r] else [])
  {
    assert (q + [r])[since..] == q[since..] + [r];
    ForHandleOneMore(q[since..], r, n);
  }

  lemma EnqueueKeepsOrder(s: State, r: Response, n: string)
    ensures var s' := EnqueueResponse(s, r);
      && s'.callbacks == s.callbacks
      && Inbox(s', n) == Inbox(s, n) + (if r.handle == n && n in s.callbacks then [r] else [])
  {
  }

  lemma StepKeepsOrder(w: World, step: Step, n: string)
    requires InOrder(w, n)
    ensures InOrder(Apply(w, step), n)
  {
    match step
    case Deliver => DeliverKeepsOrder(w, n);
    case Receive(k, reply) =>
      if Connected(w.s, k) { ReceiveKeepsOrder(w, k, reply, n); }
    case Refresh(hosts, handles) => RefreshTouches(w.s, hosts, handles);
    case _ =>
  }

  lemma {:induction false} RunKeepsProtocol(w: World, steps: seq<Step>)
    requires Protocol(w) && Delivery(w) && Lawful(w, steps)
    ensures Protocol(Run(w, steps)) && Delivery(Run(w, steps))
    decreases |steps|
  {
    hide Protocol, InOrder, Apply, Allowed;
    if steps != [] {
      StepKeepsProtocol(w, steps[0]);
      forall n ensures InOrder(Apply(w, steps[0]), n) {
        StepKeepsOrder(w, steps[0], n);
      }
      RunKeepsProtocol(Apply(w, steps[0]), steps[1..]);
    }
  }

  lemma StartsProtocol(name: string)
    ensures Protocol(Start(name)) && Delivery(Start(name))
  {
    hide Inv;
    StartConserves(name);
  }

  function Rounds(k: nat): seq<Step> {
    seq(k, _ => Deliver)
  }

  // Rounds of delivery hand over the queued responses one by one, until none is left.
  lemma {:induction false} RoundsDeliverAll(w: World, k: nat, n: string)
    requires !w.s.failed && n in w.s.callbacks && k <= |Inbox(w.s, n)|
    ensures var w' := Run(w, Rounds(k));
      Given(w'.log, n) == Given(w.log, n) + Inbox(w.s, n)[..k] && Inbox(w'.s, n) == Inbox(w.s, n)[k..]
    decreases k
  {
    hide Apply, Inbox, Given;
    var q := Inbox(w.s, n);
    if k == 0 {
      RunNothing(w);
      assert Given(w.log, n) + q[..0] == Given(w.log, n) && q[0..] == q;
    } else {
      var w1 := Apply(w, Deliver);
      DeliverMovesOne(w, n);
      assert !w1.s.failed by { DeliverKeepsGoing(w); }
      assert Rounds(k)[0] == Deliver && Rounds(k)[1..] == Rounds(k - 1);
      RoundsDeliverAll(w1, k - 1, n);
      assert q[..k] == [q[0]] + q[1..][..k - 1] && q[1..][k - 1..] == q[k..];
      assert Given(w.log, n) + [q[0]] + q[1..][..k - 1] == Given(w.log, n) + q[..k];
    }
  }

  lemma DeliverKeepsGoing(w: World)
    ensures Apply(w, Deliver).s.failed == w.s.failed
  {
  }

  // So after as many rounds as responses are queued a callback has been given all that was
  // produced for its handle since it was registered.
  lemma AllIsDelivered(name: string, steps: seq<Step>, n: string)
    requires Lawful(Start(name), steps) && n in Run(Start(name), steps).s.callbacks
    ensures var w := Run(Start(name), steps);
      var w' := Run(w, Rounds(|Inbox(w.s, n)|));
      && n in w.log.since && w.log.since[n] <= |w.log.produced|
      && Given(w'.log, n) == ForHandle(w.log.produced[w.log.since[n]..], n)
  {
    hide Run, Lawful, Rounds, Inv;
    StartsProtocol(name);
    RunKeepsProtocol(Start(name), steps);
    var w := Run(Start(name), steps);
    assert InOrder(w, n);
    var q := Inbox(w.s, n);
    assert !w.s.failed by { InvNotFailed(w); }
    RoundsDeliverAll(w, |q|, n);
    assert q[..|q|] == q;
  }

  lemma InvNotFailed(w: World)
    requires Inv(w)
    ensures !w.s.failed
  {
    hide Conserved, FreshUuids;
  }

  lemma {:induction false} ForHandleIsWithin(q: seq<Response>, n: string)
    ensures forall r :: r in ForHandle(q, n) <==> r in q && r.handle == n
    ensures ChunksThenFinal(q) ==> ChunksThenFinal(ForHandle(q, n))
  {
    if q != [] {
      var front, last := q[..|q| - 1], q[|q| - 1];
      assert q == front + [last];
      ForHandleIsWithin(front, n);
      var f := ForHandle(front, n);
      if ChunksThenFinal(q) && last.handle == n {
        forall i | 0 <= i < |f| && f[i].uuid == last.uuid ensures f[i].Chunk? {
          assert f[i] in front;
          var k :| 0 <= k < |front| && front[k] == f[i];
          assert q[k] == f[i] && q[|q| - 1] == last;
        }
      }
    }
  }

  // In every run, the responses produced for one uuid are chunks and then at most one
  // final one, which has been produced exactly for the finished messages; and what a
  // callback has been given is a prefix of what has been produced for its handle since it
  // was registered, itself chunks and then at most one final response per uuid.
  lemma ResponsesFollowProtocol(name: string, steps: seq<Step>, n: string)
    requires Lawful(Start(name), steps)
    ensures var w := Run(Start(name), steps);
      && ChunksThenFinal(w.log.produced)
      && (forall u :: HasFinal(w.log.produced, u) <==> IsFinished(w.log.finished, u))
      && (n in w.s.callbacks ==>
            && n in w.log.since && w.log.since[n] <= |w.log.produced|
            && Given(w.log, n) <= ForHandle(w.log.produced[w.log.since[n]..], n))
      && ChunksThenFinal(Given(w.log, n))
  {
    hide Run, Lawful, Inv, HasFinal, IsFinished;
    StartsProtocol(name);
    RunKeepsProtocol(Start(name), steps);
    var w := Run(Start(name), steps);
    assert InOrder(w, n);
    if n in w.s.callbacks {
      ForHandleIsWithin(w.log.produced[w.log.since[n]..], n);
    }
  }

  // ---------------------------------------------------------------- what a callback sees

  // A callback sees codes, not which branch made a response: an error carrying the code of
  // chunks finishes a message but looks like one more chunk.
  predicate LooksLikeChunk(r: Response) {
    r.Failure? && r.code == MESSAGE_CHUNK
  }

  ghost predicate HasFinalCode(q: seq<Response>, u: string) {
    exists r :: r in q && r.Code() != MESSAGE_CHUNK && r.uuid == u
  }

  lemma FinalCodes(q: seq<Response>, u: string)
    requires forall r :: r in q ==> !LooksLikeChunk(r)
    ensures HasFinalCode(q, u) <==> HasFinal(q, u)
  {
    if HasFinal(q, u) {
      var r :| r in q && !r.Chunk? && r.uuid == u;
      assert r.Code() != MESSAGE_CHUNK;
    }
    if HasFinalCode(q, u) {
      var r :| r in q && r.Code() != MESSAGE_CHUNK && r.uuid == u;
      assert !r.Chunk?;
    }
  }

  // A message finished by such an error has no response with another code.
  lemma ChunkLookalikeHidesEnd(q: seq<Response>, r: Response)
    requires ChunksThenFinal(q) && r in q && LooksLikeChunk(r)
    ensures HasFinal(q, r.uuid) && !HasFinalCode(q, r.uuid)
  {
    var i :| 0 <= i < |q| && q[i] == r;
    forall j | 0 <= j < |q| && q[j].uuid == r.uuid ensures q[j].Code() == MESSAGE_CHUNK {
      assert j < i ==> q[j].Chunk?;
      assert i < j ==> q[i].Chunk?;
    }
  }

  // Told by their codes alone, responses follow the protocol so far as no response but a
  // chunk is ever followed by another of the same uuid; that a code other than that of
  // chunks comes for exactly the finished messages holds if and only if no error carries
  // the code of chunks.
  lemma CodesFollowProtocol(name: string, steps: seq<Step>, n: string)
    requires Lawful(Start(name), steps)
    ensures var w := Run(Start(name), steps);
      var given := Given(w.log, n);
      && (forall i, j :: 0 <= i < j < |given| && given[i].uuid == given[j].uuid ==> given[i].Code() == MESSAGE_CHUNK)
      && ((forall u :: HasFinalCode(w.log.produced, u) <==> IsFinished(w.log.finished, u)) <==>
            forall r :: r in w.log.produced ==> !LooksLikeChunk(r))
  {
    hide Run, Lawful, Inv, HasFinal, HasFinalCode, IsFinished, LooksLikeChunk;
    ResponsesFollowProtocol(name, steps, n);
    var w := Run(Start(name), steps);
    var q := w.log.produced;
    if forall r :: r in q ==> !LooksLikeChunk(r) {
      forall u ensures HasFinalCode(q, u) <==> IsFinished(w.log.finished, u) {
        FinalCodes(q, u);
      }
    } else {
      var r :| r in q && LooksLikeChunk(r);
      ChunkLookalikeHidesEnd(q, r);
      assert IsFinished(w.log.finished, r.uuid);
    }
  }

  // ---------------------------------------------------------------- what is answered

  predicate Answers(r: Response, m: Message) {
    r.uuid == m.uuid && r.service == m.service && r.handle == m.handle
  }

  predicate IsAddressed(r: Response, accepted: seq<Message>) {
    exists m :: m in accepted && Answers(r, m)
  }

  predicate Addressed(log: Log) {
    forall r :: r in log.produced ==> IsAddressed(r, log.accepted)
  }

  lemma SentWasAccepted(w: World, n: string, u: string)
    requires Inv(w) && n in w.s.handles && u in w.s.handles[n].cache.sent
    ensures w.s.handles[n].cache.sent[u] in w.log.accepted && w.s.handles[n].cache.sent[u].uuid == u
  {
    hide FreshUuids, InUuidOrder, Pool;
    var c := w.s.handles[n].cache;
    assert OwnHandle(w.s, n);
    SentIsHeld(c, u);
    PoolOfLive(w.s, n);
    assert Surplus(w, c.sent[u]) == 0;
    assert c.sent[u] in multiset(w.log.accepted);
  }

  lemma TakeAnswers(c: Cache, reply: Reply)
    ensures forall r :: r in Take(c, reply).responses ==>
      && reply.Reply? && reply.uuid in c.sent && r.uuid == reply.uuid
      && r.service == c.sent[reply.uuid].service && r.handle == c.sent[reply.uuid].handle
  {
    hide SentToFront, RemoveSent;
  }

  lemma StepKeepsAddressed(w: World, step: Step)
    requires Inv(w) && Addressed(w.log)
    ensures Addressed(Apply(w, step).log)
  {
    hide Inv, SendMessage, BeginRefresh, CreateHandle, WithCache, Take, EnqueueResponse, Answers, Given, Inbox;
    var log := Apply(w, step).log;
    forall r | r in log.produced ensures IsAddressed(r, log.accepted) {
      if r in w.log.produced {
        var m :| m in w.log.accepted && Answers(r, m);
        assert m in log.accepted;
      } else {
        var c := w.s.handles[step.handle].cache;
        TakeAnswers(c, step.reply);
        assert r in Take(c, step.reply).responses;
        SentWasAccepted(w, step.handle, step.reply.uuid);
        assert Answers(r, c.sent[step.reply.uuid]) by { AnswersMeans(r, c.sent[step.reply.uuid]); }
      }
    }
  }

  lemma AnswersMeans(r: Response, m: Message)
    requires r.uuid == m.uuid && r.service == m.service && r.handle == m.handle
    ensures Answers(r, m)
  {
  }

  lemma {:induction false} RunKeepsAddressed(w: World, steps: seq<Step>)
    requires Inv(w) && Addressed(w.log) && Lawful(w, steps)
    ensures Addressed(Run(w, steps).log)
    decreases |steps|
  {
    hide Inv, Addressed, Apply, Allowed;
    if steps != [] {
      StepConserves(w, steps[0]);
      StepKeepsAddressed(w, steps[0]);
      RunKeepsAddressed(Apply(w, steps[0]), steps[1..]);
    }
  }

  // In every run each response produced, and so each one a callback is given, carries the
  // uuid, the service and the handle of a message that was accepted.
  lemma ResponsesAnswerAccepted(name: string, steps: seq<Step>, r: Response)
    requires Lawful(Start(name), steps) && r in Run(Start(name), steps).log.produced
    ensures exists m :: m in Run(Start(name), steps).log.accepted && Answers(r, m)
  {
    hide Inv, Run, Lawful;
    StartConserves(name);
    RunKeepsAddressed(Start(name), steps);
    assert IsAddressed(r, Run(Start(name), steps).log.accepted);
  }
}
