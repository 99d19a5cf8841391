/** The expiry sweep of `message_cache`. The clock is read anew for every message, and a
    pending message is judged twice: once for the report and once for its removal. */
module Expiry {
  import opened Messages

  // The successive readings of the clock during one sweep.
  type Clock = nat -> real

  ghost predicate Monotone(clock: Clock) {
    forall i, j :: i <= j ==> clock(i) <= clock(j)
  }

  ghost predicate Constant(clock: Clock) {
    forall i :: clock(i) == clock(0)
  }

  lemma LaterReading(clock: Clock, i: nat, k: nat)
    requires Monotone(clock) && i <= k
    ensures clock(i) <= clock(k)
  {
  }

  predicate Expired(m: Message, now: real) {
    m.deadline != 0.0 && now > m.deadline
  }

  // The messages of q found expired, and those found alive, when q[0] is judged at
  // reading i, q[1] at the next one, and so on.
  function Dead(q: seq<Message>, clock: Clock, i: nat): seq<Message> {
    if q == [] then []
    else (if Expired(q[0], clock(i)) then [q[0]] else []) + Dead(q[1..], clock, i + 1)
  }

  function Alive(q: seq<Message>, clock: Clock, i: nat): seq<Message> {
    if q == [] then []
    else (if Expired(q[0], clock(i)) then [] else [q[0]]) + Alive(q[1..], clock, i + 1)
  }

  // Walking the index in uuid order and erasing the expired entries on the way.
  ghost function SweptIndex(sent: map<string, Message>, clock: Clock, i: nat): (r: map<string, Message>)
    ensures r.Keys <= sent.Keys
    decreases sent.Keys
  {
    if sent.Keys == {} then map[]
    else
      var k := Least(sent.Keys);
      var rest := SweptIndex(sent - {k}, clock, i + 1);
      if Expired(sent[k], clock(i)) then rest else rest[k := sent[k]]
  }

  ghost function Swept(c: Cache, clock: Clock): Cache {
    var n := |InUuidOrder(c.sent)|;
    Cache(Alive(c.pending, clock, n + |c.pending|), SweptIndex(c.sent, clock, 0))
  }

  ghost function Report(c: Cache, clock: Clock): seq<Message> {
    var s := InUuidOrder(c.sent);
    Dead(s, clock, 0) + Dead(c.pending, clock, |s|)
  }

  lemma {:induction false} DeadOrAlive(q: seq<Message>, clock: Clock, i: nat)
    ensures multiset(Dead(q, clock, i)) + multiset(Alive(q, clock, i)) == multiset(q)
  {
    if q != [] {
      DeadOrAlive(q[1..], clock, i + 1);
      assert q == [q[0]] + q[1..];
    }
  }

  // The survivors in the index are those of the ordered walk.
  lemma {:induction false} SweptIndexHolds(sent: map<string, Message>, clock: Clock, i: nat)
    ensures multiset(InUuidOrder(SweptIndex(sent, clock, i))) == multiset(Alive(InUuidOrder(sent), clock, i))
    decreases sent.Keys
  {
    if sent.Keys != {} {
      var k := Least(sent.Keys);
      SweptIndexHolds(sent - {k}, clock, i + 1);
      if !Expired(sent[k], clock(i)) {
        InUuidOrderWith(SweptIndex(sent - {k}, clock, i + 1), k, sent[k]);
      }
    }
  }

  // A message expires between its two judgements.
  predicate ExpiresBetween(m: Message, first: real, second: real) {
    !Expired(m, first) && Expired(m, second)
  }

  // ... which happens to none of q when q[0] is judged at readings i and k, and so on.
  predicate NoneBetween(q: seq<Message>, clock: Clock, i: nat, k: nat) {
    q == [] || (!ExpiresBetween(q[0], clock(i), clock(k)) && NoneBetween(q[1..], clock, i + 1, k + 1))
  }

  lemma {:induction false} NoneBetweenMeans(q: seq<Message>, clock: Clock, i: nat, k: nat)
    ensures NoneBetween(q, clock, i, k) <==>
      forall j :: 0 <= j < |q| ==> !ExpiresBetween(q[j], clock(i + j), clock(k + j))
  {
    if q != [] {
      var rest := q[1..];
      NoneBetweenMeans(rest, clock, i + 1, k + 1);
      forall j | 0 <= j < |rest|
        ensures ExpiresBetween(rest[j], clock(i + 1 + j), clock(k + 1 + j)) ==
                ExpiresBetween(q[j + 1], clock(i + (j + 1)), clock(k + (j + 1)))
      {
        assert rest[j] == q[j + 1] && i + 1 + j == i + (j + 1) && k + 1 + j == k + (j + 1);
      }
      if !NoneBetween(q, clock, i, k) {
        if !ExpiresBetween(q[0], clock(i), clock(k)) {
          var j :| 0 <= j < |rest| && ExpiresBetween(rest[j], clock(i + 1 + j), clock(k + 1 + j));
          assert ExpiresBetween(q[j + 1], clock(i + (j + 1)), clock(k + (j + 1)));
        } else {
          assert ExpiresBetween(q[0], clock(i + 0), clock(k + 0));
        }
      } else {
        forall j | 0 <= j < |q| ensures !ExpiresBetween(q[j], clock(i + j), clock(k + j)) {
          if j > 0 {
            assert !ExpiresBetween(rest[j - 1], clock(i + 1 + (j - 1)), clock(k + 1 + (j - 1)));
          }
        }
      }
    }
  }

  lemma NoDead(clock: Clock, i: nat)
    ensures Dead([], clock, i) == []
  {
  }

  lemma DeadStep(q: seq<Message>, clock: Clock, i: nat)
    requires q != []
    ensures var rest := Dead(q[1..], clock, i + 1);
      && multiset(Dead(q, clock, i)) ==
           (if Expired(q[0], clock(i)) then multiset{q[0]} else multiset{}) + multiset(rest)
      && |Dead(q, clock, i)| == (if Expired(q[0], clock(i)) then 1 else 0) + |rest|
  {
  }

  // A later judgement condemns at least as many, and exactly as many when none expires
  // in between.
  lemma {:induction false} LaterIsDeadlier(q: seq<Message>, clock: Clock, i: nat, k: nat)
    requires Monotone(clock) && i <= k
    ensures multiset(Dead(q, clock, i)) <= multiset(Dead(q, clock, k))
    ensures |Dead(q, clock, i)| <= |Dead(q, clock, k)|
    ensures |Dead(q, clock, i)| == |Dead(q, clock, k)| <==> NoneBetween(q, clock, i, k)
  {
    hide Monotone, Dead;
    if q == [] {
      assert Dead(q, clock, i) == Dead(q, clock, k) by { NoDead(clock, i); NoDead(clock, k); }
    } else {
      LaterIsDeadlier(q[1..], clock, i + 1, k + 1);
      LaterReading(clock, i, k);
      DeadStep(q, clock, i);
      DeadStep(q, clock, k);
    }
  }

  lemma SubmultisetSize<T>(a: multiset<T>, b: multiset<T>)
    requires a <= b
    ensures |a| <= |b|
    ensures |a| == |b| ==> a == b
  {
    assert b == a + (b - a);
  }

  lemma SweepBalance(c: Cache, clock: Clock)
    requires Monotone(clock)
    ensures multiset(Report(c, clock)) + Held(Swept(c, clock)) <= Held(c)
    ensures var n := |InUuidOrder(c.sent)|;
      multiset(Report(c, clock)) + Held(Swept(c, clock)) == Held(c) <==>
        NoneBetween(c.pending, clock, n, n + |c.pending|)
  {
    hide InUuidOrder, SweptIndex, NoneBetween, Monotone, Dead, Alive;
    var s := InUuidOrder(c.sent);
    var n, p := |s|, |c.pending|;
    var first, second := Dead(c.pending, clock, n), Dead(c.pending, clock, n + p);
    DeadOrAlive(s, clock, 0);
    SweptIndexHolds(c.sent, clock, 0);
    DeadOrAlive(c.pending, clock, n + p);
    LaterIsDeadlier(c.pending, clock, n, n + p);
    SubmultisetSize(multiset(first), multiset(second));
    var kept := Held(Swept(c, clock));
    assert Held(c) == multiset(Dead(s, clock, 0)) + multiset(second) + kept;
    assert multiset(Report(c, clock)) == multiset(Dead(s, clock, 0)) + multiset(first);
    if multiset(Report(c, clock)) + kept == Held(c) {
      assert multiset(first) == Held(c) - kept - multiset(Dead(s, clock, 0)) == multiset(second);
      assert |multiset(first)| == |multiset(second)|;
    }
  }

  // Under a monotone clock every reported message was held and is gone, each once. The
  // report is exactly the set of removed messages if and only if the deadline of no pending
  // message falls between its being looked at for the report and for its removal; one that
  // does is dropped without a trace.
  lemma SweepReport(c: Cache, clock: Clock)
    requires Monotone(clock)
    ensures multiset(Report(c, clock)) + Held(Swept(c, clock)) <= Held(c)
    ensures var n, p := |InUuidOrder(c.sent)|, |c.pending|;
      multiset(Report(c, clock)) + Held(Swept(c, clock)) == Held(c) <==>
        forall j :: 0 <= j < p ==> !FallsBetween(c.pending[j].deadline, clock(n + j), clock(n + p + j))
  {
    hide Held, Report, Swept, InUuidOrder, Monotone, NoneBetween, ExpiresBetween, FallsBetween;
    SweepBalance(c, clock);
    var n, p := |InUuidOrder(c.sent)|, |c.pending|;
    NoneBetweenMeans(c.pending, clock, n, n + p);
    forall j | 0 <= j < p
      ensures ExpiresBetween(c.pending[j], clock(n + j), clock(n + p + j)) <==>
              FallsBetween(c.pending[j].deadline, clock(n + j), clock(n + p + j))
    {
      BetweenMeans(c.pending[j], clock(n + j), clock(n + p + j));
    }
  }

  // A deadline, if there is one, not passed at the first reading and passed at the second.
  predicate FallsBetween(deadline: real, first: real, second: real) {
    deadline != 0.0 && first <= deadline < second
  }

  lemma BetweenMeans(m: Message, first: real, second: real)
    ensures ExpiresBetween(m, first, second) <==> FallsBetween(m.deadline, first, second)
  {
  }

  predicate Passed(deadline: real, now: real) {
    deadline != 0.0 && deadline < now
  }

  lemma {:induction false} DeadHavePassed(q: seq<Message>, clock: Clock, i: nat, m: Message)
    ensures m in Dead(q, clock, i) ==> m in q && exists k :: i <= k < i + |q| && Passed(m.deadline, clock(k))
    ensures m in Alive(q, clock, i) ==> m in q && exists k :: i <= k < i + |q| && !Passed(m.deadline, clock(k))
  {
    if q != [] {
      DeadHavePassed(q[1..], clock, i + 1, m);
      assert Expired(q[0], clock(i)) <==> Passed(q[0].deadline, clock(i));
    }
  }

  // With one reading for the whole sweep, what goes is what has a deadline that has passed.
  lemma SweptHavePassed(c: Cache, clock: Clock, m: Message)
    requires Constant(clock)
    ensures m in Report(c, clock) <==> m in Held(c) && Passed(m.deadline, clock(0))
    ensures m in Held(Swept(c, clock)) <==> m in Held(c) && !Passed(m.deadline, clock(0))
  {
    hide InUuidOrder, SweptIndex, Dead, Alive, Passed, Constant;
    var s, n := InUuidOrder(c.sent), |InUuidOrder(c.sent)|;
    SweptIndexHolds(c.sent, clock, 0);
    DeadOrAlive(s, clock, 0);
    OneReadingReportsAll(c, clock);
    DeadHavePassed(s, clock, 0, m);
    DeadHavePassed(c.pending, clock, n, m);
    DeadHavePassed(c.pending, clock, n + |c.pending|, m);
    SameReading(clock);
    var alive := InUuidOrder(SweptIndex(c.sent, clock, 0));
    assert m in multiset(alive) <==> m in multiset(Alive(s, clock, 0));
    assert m in Held(c) <==> m in Report(c, clock) || m in Held(Swept(c, clock)) by {
      assert multiset(Report(c, clock)) + Held(Swept(c, clock)) == Held(c);
      assert m in multiset(Report(c, clock)) <==> m in Report(c, clock);
    }
  }

  lemma SameReading(clock: Clock)
    requires Constant(clock)
    ensures forall i: nat :: clock(i) == clock(0)
  {
  }

  // With one reading for the whole sweep nothing can fall in between.
  lemma OneReadingReportsAll(c: Cache, clock: Clock)
    requires Constant(clock)
    ensures multiset(Report(c, clock)) + Held(Swept(c, clock)) == Held(c)
  {
    hide Held, Report, Swept, InUuidOrder, Monotone;
    ConstantIsMonotone(clock);
    SweepReport(c, clock);
    var n, p := |InUuidOrder(c.sent)|, |c.pending|;
    forall j | 0 <= j < p ensures !FallsBetween(c.pending[j].deadline, clock(n + j), clock(n + p + j)) {
      assert clock(n + j) == clock(0) == clock(n + p + j);
    }
  }

  lemma ConstantIsMonotone(clock: Clock)
    requires Constant(clock)
    ensures Monotone(clock)
  {
    forall i: nat, j: nat | i <= j ensures clock(i) <= clock(j) {
      assert clock(i) == clock(0) == clock(j);
    }
  }

  // The order of the survivors is that of the queue.
  predicate IsSubsequence(a: seq<Message>, b: seq<Message>) {
    if a == [] then true
    else if b == [] then false
    else if a[0] == b[0] then IsSubsequence(a[1..], b[1..])
    else IsSubsequence(a, b[1..])
  }

  lemma {:induction false} SubsequenceOfMore(a: seq<Message>, b: seq<Message>)
    requires a != [] && IsSubsequence(a, b)
    ensures IsSubsequence(a[1..], b)
    decreases b
  {
    if a[0] == b[0] {
      if |a| > 1 && a[1] == b[0] {
        SubsequenceOfMore(a[1..], b[1..]);
      }
    } else if |a| > 1 {
      SubsequenceOfMore(a, b[1..]);
      if a[1] == b[0] {
        SubsequenceOfMore(a[1..], b[1..]);
      }
    }
  }

  lemma {:induction false} AliveKeepsOrder(q: seq<Message>, clock: Clock, i: nat)
    ensures IsSubsequence(Alive(q, clock, i), q)
  {
    if q != [] {
      AliveKeepsOrder(q[1..], clock, i + 1);
      var a, r := Alive(q[1..], clock, i + 1), Alive(q, clock, i);
      if Expired(q[0], clock(i)) {
        assert r == a;
        if a != [] {
          SubsequenceOfMore(a, q[1..]);
        }
      } else {
        assert r[1..] == a;
      }
    }
  }

  lemma {:induction false} DeadKeepsOrder(q: seq<Message>, clock: Clock, i: nat)
    ensures IsSubsequence(Dead(q, clock, i), q)
  {
    if q != [] {
      DeadKeepsOrder(q[1..], clock, i + 1);
      var d, r := Dead(q[1..], clock, i + 1), Dead(q, clock, i);
      if Expired(q[0], clock(i)) {
        assert r[1..] == d;
      } else {
        assert r == d;
        if d != [] {
          SubsequenceOfMore(d, q[1..]);
        }
      }
    }
  }

  ghost predicate IsOrderedReport(report: seq<Message>, k: nat, listing: seq<Message>, c: Cache)
    requires k <= |report|
  {
    ListsByUuid(listing, c.sent) && IsSubsequence(report[..k], listing) && IsSubsequence(report[k..], c.pending)
  }

  // The report names sent messages by ascending uuid and then pending ones in their order.
  lemma ReportInOrder(c: Cache, clock: Clock)
    requires Keyed(c.sent)
    ensures exists k, listing :: 0 <= k <= |Report(c, clock)| && IsOrderedReport(Report(c, clock), k, listing, c)
  {
    hide Dead, ListsByUuid, IsSubsequence, InUuidOrder;
    var listing := InUuidOrder(c.sent);
    InUuidOrderIsSorted(c.sent);
    var first, second := Dead(listing, clock, 0), Dead(c.pending, clock, |listing|);
    DeadKeepsOrder(listing, clock, 0);
    DeadKeepsOrder(c.pending, clock, |listing|);
    var report := Report(c, clock);
    assert report[..|first|] == first && report[|first|..] == second;
    assert IsOrderedReport(report, |first|, listing, c);
  }
}
