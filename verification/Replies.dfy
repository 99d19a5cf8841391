/** What a reply from the server does: which message it finishes and which response it
    causes, told from its fields alone. */
module Replies {
  import opened Messages
  import opened Links
  import opened Lifecycle
  import opened Conservation

  // The step hands a connected handle a reply to a message it has sent.
  predicate Reaches(w: World, step: Step, m: Message) {
    && step.Receive? && step.handle in w.s.handles
    && w.s.handles[step.handle].link.running && w.s.handles[step.handle].link.connected
    && step.reply.Reply? && step.reply.uuid != ""
    && step.reply.uuid in w.s.handles[step.handle].cache.sent
    && w.s.handles[step.handle].cache.sent[step.reply.uuid] == m
  }

  // The last reply to a message: an error other than a full queue, or the end of its answer.
  predicate Finishes(w: World, step: Step, m: Message) {
    && Reaches(w, step, m)
    && if step.reply.code == 0 then step.reply.completed else step.reply.code != 503
  }

  // The response to be made of a reply: its data as a chunk, its end as a choke, or its
  // error with code and text, all addressed like the message.
  predicate Causes(w: World, step: Step, m: Message, r: Response) {
    && Reaches(w, step, m)
    && r.uuid == step.reply.uuid && r.service == m.service && r.handle == m.handle
    && match r
       case Chunk(_, _, _, data) => step.reply.code == 0 && !step.reply.completed && step.reply.data == Part(data)
       case Choke(_, _, _) => step.reply.code == 0 && step.reply.completed
       case Failure(_, _, _, code, text) =>
         step.reply.code != 0 && step.reply.code != 503 && code == step.reply.code && text == step.reply.text
  }

  ghost predicate IsCaused(w: World, step: Step, r: Response) {
    exists m :: Causes(w, step, m, r)
  }

  // What one reply does to the cache of its handle.
  lemma ReplyToCache(w: World, n: string, reply: Reply)
    requires !w.s.failed && Connected(w.s, n)
    ensures var step, c := Receive(n, reply), w.s.handles[n].cache;
      var c' := Apply(w, step).s.handles[n].cache;
      && (forall m :: Finishes(w, step, m) ==> c' == Cache(c.pending, c.sent - {reply.uuid}))
      && (forall m :: Reaches(w, step, m) && reply.code == 503 ==>
            c' == Cache([m] + c.pending, c.sent - {reply.uuid}))
      && ((forall m :: !Finishes(w, step, m) && !(Reaches(w, step, m) && reply.code == 503)) ==> c' == c)
  {
    hide EnqueueResponse;
    EnqueueKeepsAll(w, n, reply);
    if reply.Reply? && reply.uuid != "" && reply.uuid in w.s.handles[n].cache.sent {
      assert Reaches(w, Receive(n, reply), w.s.handles[n].cache.sent[reply.uuid]);
    }
  }

  lemma EnqueueKeepsAll(w: World, n: string, reply: Reply)
    requires !w.s.failed && Connected(w.s, n)
    ensures Apply(w, Receive(n, reply)).s.handles ==
      WithCache(w.s, n, Take(w.s.handles[n].cache, reply).cache).handles
  {
    hide Take, Inbox;
  }

  // The messages one step finishes, and the responses it produces.
  lemma ReplyDecides(w: World, step: Step)
    requires !w.s.failed
    ensures var w' := Apply(w, step);
      && (forall m :: w'.log.finished[m] == w.log.finished[m] + if Finishes(w, step, m) then 1 else 0)
      && (forall r :: w'.log.produced == w.log.produced + [r] <==> IsCaused(w, step, r))
      && ((forall r :: !IsCaused(w, step, r)) ==> w'.log.produced == w.log.produced)
  {
    if step.Receive? && Connected(w.s, step.handle) {
      ReceiptDecides(w, step.handle, step.reply);
    } else {
      QuietStep(w, step);
      forall r ensures w.log.produced != w.log.produced + [r] {
        assert |w.log.produced + [r]| == |w.log.produced| + 1;
      }
    }
  }

  lemma QuietStep(w: World, step: Step)
    requires step.Receive? ==> !Connected(w.s, step.handle)
    ensures var w' := Apply(w, step); w'.log.finished == w.log.finished && w'.log.produced == w.log.produced
  {
    hide SendMessage, BeginRefresh, CreateHandle, WithCache, ObeyNext, SendNext, Delivered, Given, Inbox;
  }

  lemma ReceiptDecides(w: World, n: string, reply: Reply)
    requires !w.s.failed && Connected(w.s, n)
    ensures var step, w' := Receive(n, reply), Apply(w, Receive(n, reply));
      && (forall m :: w'.log.finished[m] == w.log.finished[m] + if Finishes(w, step, m) then 1 else 0)
      && (forall r :: w'.log.produced == w.log.produced + [r] <==> IsCaused(w, step, r))
      && ((forall r :: !IsCaused(w, step, r)) ==> w'.log.produced == w.log.produced)
  {
    hide WithCache, EnqueueResponse, SentToFront, RemoveSent;
    var step, w' := Receive(n, reply), Apply(w, Receive(n, reply));
    var c := w.s.handles[n].cache;
    var responses := Take(c, reply).responses;
    assert w'.log.produced == w.log.produced + responses;
    forall r ensures w'.log.produced == w.log.produced + [r] <==> IsCaused(w, step, r) {
      assert w'.log.produced == w.log.produced + [r] <==> responses == [r] by {
        Appended(w.log.produced, responses, [r]);
      }
      if responses == [r] {
        assert Causes(w, step, c.sent[reply.uuid], r);
      }
    }
    if responses != [] {
      assert Causes(w, step, c.sent[reply.uuid], responses[0]);
      assert IsCaused(w, step, responses[0]);
    }
  }

  lemma Appended(q: seq<Response>, a: seq<Response>, b: seq<Response>)
    ensures q + a == q + b <==> a == b
  {
    assert (q + a)[|q|..] == a && (q + b)[|q|..] == b;
  }

  // ---------------------------------------------------------------- over runs

  lemma {:induction false} RunLast(w: World, steps: seq<Step>, step: Step)
    ensures Run(w, steps + [step]) == Apply(Run(w, steps), step)
    decreases |steps|
  {
    hide Apply;
    if steps == [] {
      assert [step][1..] == [] && [] + [step] == [step];
    } else {
      assert (steps + [step])[0] == steps[0] && (steps + [step])[1..] == steps[1..] + [step];
      RunLast(Apply(w, steps[0]), steps[1..], step);
    }
  }

  // The world before the step at i of a run.
  ghost function Before(w: World, steps: seq<Step>, i: nat): World
    requires i <= |steps|
  {
    Run(w, steps[..i])
  }

  lemma {:induction false} RunDecides(w: World, steps: seq<Step>, m: Message, r: Response)
    requires Placed(w.s) && w.log.finished == multiset{} && w.log.produced == []
    ensures var w' := Run(w, steps);
      && (m in w'.log.finished <==> exists i :: 0 <= i < |steps| && Finishes(Before(w, steps, i), steps[i], m))
      && (r in w'.log.produced <==> exists i :: 0 <= i < |steps| && IsCaused(Before(w, steps, i), steps[i], r))
    decreases |steps|
  {
    hide Apply, Run, Placed, Finishes, IsCaused;
    if steps == [] {
      RunNothing(w);
    } else {
      var front, last := steps[..|steps| - 1], steps[|steps| - 1];
      var before := Run(w, front);
      assert steps == front + [last];
      RunLast(w, front, last);
      RunDecides(w, front, m, r);
      RunPlaced(w, front);
      PlacedNotFailed(before.s);
      ReplyDecides(before, last);
      SamePrefixes(w, steps, m, r);
      assert Before(w, steps, |front|) == before;
      var w' := Run(w, steps);
      assert m in w'.log.finished <==> m in before.log.finished || Finishes(before, last, m);
      OneMore(before, last, w'.log.produced, r);
    }
  }

  lemma OneMore(w: World, step: Step, q: seq<Response>, r: Response)
    requires forall o :: q == w.log.produced + [o] <==> IsCaused(w, step, o)
    requires (forall o :: !IsCaused(w, step, o)) ==> q == w.log.produced
    ensures r in q <==> r in w.log.produced || IsCaused(w, step, r)
  {
    hide IsCaused;
    if o :| IsCaused(w, step, o) {
      assert q == w.log.produced + [o];
      if IsCaused(w, step, r) {
        assert (w.log.produced + [r])[|w.log.produced|] == (w.log.produced + [o])[|w.log.produced|];
      }
    }
  }

  // The steps before the last are those of the run without it.
  lemma SamePrefixes(w: World, steps: seq<Step>, m: Message, r: Response)
    requires steps != []
    ensures var front, k := steps[..|steps| - 1], |steps| - 1;
      && ((exists i :: 0 <= i < |steps| && Finishes(Before(w, steps, i), steps[i], m)) <==>
            || (exists i :: 0 <= i < k && Finishes(Before(w, front, i), front[i], m))
            || Finishes(Before(w, steps, k), steps[k], m))
      && ((exists i :: 0 <= i < |steps| && IsCaused(Before(w, steps, i), steps[i], r)) <==>
            || (exists i :: 0 <= i < k && IsCaused(Before(w, front, i), front[i], r))
            || IsCaused(Before(w, steps, k), steps[k], r))
  {
    hide Run, Finishes, IsCaused;
    var front, k := steps[..|steps| - 1], |steps| - 1;
    forall i | 0 <= i < k ensures Before(w, front, i) == Before(w, steps, i) && front[i] == steps[i] {
      assert front[..i] == steps[..i];
    }
  }

  // In every run a message is finished if and only if one of the steps was its last reply,
  // and a response has been produced if and only if one of them was a reply that causes it.
  lemma RepliesDecide(name: string, steps: seq<Step>, m: Message, r: Response)
    ensures var w := Run(Start(name), steps);
      && (m in w.log.finished <==>
            exists i :: 0 <= i < |steps| && Finishes(Before(Start(name), steps, i), steps[i], m))
      && (r in w.log.produced <==>
            exists i :: 0 <= i < |steps| && IsCaused(Before(Start(name), steps, i), steps[i], r))
  {
    RunDecides(Start(name), steps, m, r);
  }
}
