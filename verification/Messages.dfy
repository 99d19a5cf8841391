/** Messages, the two stores of a `message_cache` as a value, and what each of its moves
    does to them. */
module Messages {
  import StringOrder

  // A message as the queues see it: its identity, where it goes, what it occupies, and
  // when it expires (never, if the deadline is zero).
  datatype Message = Message(uuid: string, service: string, handle: string, size: nat, deadline: real)

  // The pending deque and the index of sent messages by uuid.
  datatype Cache = Cache(pending: seq<Message>, sent: map<string, Message>)

  const EmptyCache := Cache([], map[])

  predicate Keyed(sent: map<string, Message>) {
    forall u :: u in sent ==> sent[u].uuid == u
  }

  // ---------------------------------------------------------------- uuid order

  predicate IsLeast(k: string, s: set<string>) {
    k in s && forall o :: o in s && o != k ==> StringOrder.Less(k, o)
  }

  lemma {:induction false} LeastExists(s: set<string>)
    requires s != {}
    ensures exists k :: IsLeast(k, s)
    decreases s
  {
    var x :| x in s;
    var rest := s - {x};
    assert forall o :: o in s && o != x ==> o in rest;
    if rest == {} {
      assert IsLeast(x, s);
    } else {
      LeastExists(rest);
      var k :| IsLeast(k, rest);
      StringOrder.Trichotomy(x, k);
      if StringOrder.Less(k, x) {
        assert IsLeast(k, s);
      } else {
        forall o | o in s && o != x ensures StringOrder.Less(x, o) {
          if o != k {
            StringOrder.Transitive(x, k, o);
          }
        }
        assert IsLeast(x, s);
      }
    }
  }

  lemma LeastIsUnique(a: string, b: string, s: set<string>)
    requires IsLeast(a, s) && IsLeast(b, s)
    ensures a == b
  {
    StringOrder.Trichotomy(a, b);
  }

  ghost function Least(s: set<string>): (k: string)
    requires s != {}
    ensures IsLeast(k, s)
  {
    LeastExists(s);
    var k :| IsLeast(k, s);
    k
  }

  // The sent messages in the order a `std::map` iterates over them.
  ghost function InUuidOrder(sent: map<string, Message>): seq<Message>
    decreases sent.Keys
  {
    if sent.Keys == {} then []
    else
      var k := Least(sent.Keys);
      [sent[k]] + InUuidOrder(sent - {k})
  }

  // Taking one message out of the index takes it out of the ordered sequence.
  lemma {:induction false} InUuidOrderWithout(sent: map<string, Message>, u: string)
    requires u in sent
    ensures multiset(InUuidOrder(sent)) == multiset(InUuidOrder(sent - {u})) + multiset{sent[u]}
    decreases sent.Keys
  {
    hide InUuidOrder, IsLeast;
    var k := Least(sent.Keys);
    LeastFirst(sent, k);
    if k != u {
      var less := sent - {u};
      LeastOfFewer(k, sent.Keys, u);
      LeastFirst(less, k);
      InUuidOrderWithout(sent - {k}, u);
      assert less - {k} == (sent - {k}) - {u};
    }
  }

  lemma LeastOfFewer(k: string, s: set<string>, u: string)
    requires IsLeast(k, s) && u != k
    ensures IsLeast(k, s - {u})
  {
  }

  lemma LeastFirst(sent: map<string, Message>, k: string)
    requires IsLeast(k, sent.Keys)
    ensures InUuidOrder(sent) == [sent[k]] + InUuidOrder(sent - {k})
    ensures multiset(InUuidOrder(sent)) == multiset{sent[k]} + multiset(InUuidOrder(sent - {k}))
  {
    LeastIsUnique(k, Least(sent.Keys), sent.Keys);
  }

  lemma InUuidOrderWith(sent: map<string, Message>, u: string, m: Message)
    requires u !in sent
    ensures multiset(InUuidOrder(sent[u := m])) == multiset(InUuidOrder(sent)) + multiset{m}
  {
    hide InUuidOrder;
    InUuidOrderWithout(sent[u := m], u);
    assert sent[u := m] - {u} == sent;
  }

  ghost predicate SortedByUuid(q: seq<Message>) {
    forall i, j :: 0 <= i < j < |q| ==> StringOrder.Precedes(q[i].uuid, q[j].uuid)
  }

  // q lists exactly the indexed messages, by ascending uuid.
  ghost predicate ListsByUuid(q: seq<Message>, sent: map<string, Message>) {
    SortedByUuid(q) && forall m :: m in q <==> m.uuid in sent && sent[m.uuid] == m
  }

  lemma {:induction false} InUuidOrderIsSorted(sent: map<string, Message>)
    requires Keyed(sent)
    ensures ListsByUuid(InUuidOrder(sent), sent)
    decreases sent.Keys
  {
    hide StringOrder.Precedes;
    if sent.Keys != {} {
      var k := Least(sent.Keys);
      var q := InUuidOrder(sent - {k});
      InUuidOrderIsSorted(sent - {k});
      forall j | 0 <= j < |q| ensures StringOrder.Precedes(k, q[j].uuid) {
        assert q[j] in q;
        StringOrder.LessMeans(k, q[j].uuid);
      }
    }
  }

  lemma EmptyIndex()
    ensures InUuidOrder(map[]) == []
  {
  }

  // ---------------------------------------------------------------- moves

  function Enqueue(c: Cache, m: Message): Cache {
    c.(pending := c.pending + [m])
  }

  function Append(c: Cache, q: seq<Message>): Cache {
    c.(pending := c.pending + q)
  }

  // `insert` keeps the entry already there; the front is popped either way.
  function FrontToSent(c: Cache): Cache
    requires c.pending != []
  {
    var m := c.pending[0];
    Cache(c.pending[1..], if m.uuid in c.sent then c.sent else c.sent[m.uuid := m])
  }

  function SentToBack(c: Cache, u: string): Cache {
    if u in c.sent then Cache(c.pending + [c.sent[u]], c.sent - {u}) else c
  }

  function SentToFront(c: Cache, u: string): Cache {
    if u in c.sent then Cache([c.sent[u]] + c.pending, c.sent - {u}) else c
  }

  function RemoveSent(c: Cache, u: string): Cache {
    if u in c.sent then c.(sent := c.sent - {u}) else c
  }

  // Everything pending again: the sent messages queue up behind, in uuid order.
  ghost function AllNew(c: Cache): Cache {
    Cache(c.pending + InUuidOrder(c.sent), map[])
  }

  // A message bounced to the front is the next one sent, which undoes the bounce; and a
  // bounce undoes the sending.
  lemma BounceAndSendCancel(c: Cache, u: string)
    requires Keyed(c.sent)
    ensures u in c.sent ==> FrontToSent(SentToFront(c, u)) == c
    ensures c.pending != [] && c.pending[0].uuid !in c.sent ==> SentToFront(FrontToSent(c), c.pending[0].uuid) == c
  {
    if u in c.sent {
      var m := c.sent[u];
      assert ([m] + c.pending)[1..] == c.pending;
      assert (c.sent - {u})[u := m] == c.sent;
    }
    if c.pending != [] && c.pending[0].uuid !in c.sent {
      var m := c.pending[0];
      assert c.sent[m.uuid := m] - {m.uuid} == c.sent;
    }
  }

  // What comes to the queue goes behind all that is pending, in its own order; only a
  // bounced message goes in front, and only it leaves the index.
  lemma MovesKeepOrder(c: Cache, u: string, m: Message, q: seq<Message>)
    ensures Enqueue(c, m).pending == Append(c, [m]).pending
    ensures var a := Append(c, q); c.pending <= a.pending && a.pending[|c.pending|..] == q && a.sent == c.sent
    ensures u in c.sent ==>
      && var b := SentToBack(c, u);
      && c.pending <= b.pending && b.pending[|c.pending|..] == [c.sent[u]] && b.sent.Keys == c.sent.Keys - {u}
      && var f := SentToFront(c, u);
      && f.pending[..1] == [c.sent[u]] && f.pending[1..] == c.pending && f.sent == b.sent
  {
    if u in c.sent {
      assert (c.sent - {u}).Keys == c.sent.Keys - {u};
    }
  }

  // ---------------------------------------------------------------- conservation

  // All the messages a cache is responsible for, with multiplicity.
  ghost function Held(c: Cache): multiset<Message> {
    multiset(c.pending) + multiset(InUuidOrder(c.sent))
  }

  lemma EnqueueHolds(c: Cache, m: Message)
    ensures Held(Enqueue(c, m)) == Held(c) + multiset{m}
  {
  }

  lemma AppendHolds(c: Cache, q: seq<Message>)
    ensures Held(Append(c, q)) == Held(c) + multiset(q)
  {
  }

  // Sending conserves the messages exactly when the uuid is not already among the sent.
  lemma FrontToSentHolds(c: Cache)
    requires c.pending != []
    ensures Held(FrontToSent(c)) == Held(c) <==> c.pending[0].uuid !in c.sent
    ensures c.pending[0].uuid in c.sent ==> Held(FrontToSent(c)) + multiset{c.pending[0]} == Held(c)
  {
    var m := c.pending[0];
    assert c.pending == [m] + c.pending[1..];
    if m.uuid !in c.sent {
      InUuidOrderWith(c.sent, m.uuid, m);
    } else {
      assert Held(FrontToSent(c)) + multiset{m} == Held(c);
      assert |Held(FrontToSent(c))| + 1 == |Held(c)|;
    }
  }

  lemma SentMovesHold(c: Cache, u: string)
    ensures Held(SentToFront(c, u)) == Held(c) && Held(SentToBack(c, u)) == Held(c)
    ensures u in c.sent ==> Held(RemoveSent(c, u)) + multiset{c.sent[u]} == Held(c)
    ensures u !in c.sent ==> RemoveSent(c, u) == c
  {
    if u in c.sent {
      InUuidOrderWithout(c.sent, u);
    }
  }

  lemma AllNewHolds(c: Cache)
    ensures Held(AllNew(c)) == Held(c)
  {
    EmptyIndex();
  }

  // Every sent message is held once more than the pending ones account for.
  lemma SentIsHeld(c: Cache, u: string)
    requires u in c.sent
    ensures Held(c)[c.sent[u]] >= multiset(c.pending)[c.sent[u]] + 1
  {
    InUuidOrderWithout(c.sent, u);
  }
}
