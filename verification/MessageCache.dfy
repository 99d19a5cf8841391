/** `message_cache`: a shared deque of pending messages and an index of the sent ones,
    changed in place; every method refines a move of `Messages`. */
module MessageCache {
  import opened Messages
  import opened Expiry

  // The deque behind a shared pointer: when a handle goes away, the service keeps the
  // very deque of its cache.
  class MessageQueue {
    var items: seq<Message>

    constructor ()
      ensures items == []
    {
      items := [];
    }
  }

  class MessageCache {
    const newMessages: MessageQueue
    var sentMessages: map<string, Message>

    constructor ()
      ensures fresh(newMessages) && Abs() == EmptyCache
    {
      newMessages := new MessageQueue();
      sentMessages := map[];
    }

    function Abs(): Cache
      reads this, newMessages
    {
      Cache(newMessages.items, sentMessages)
    }

    method Enqueue(message: Message)
      modifies newMessages
      ensures Abs() == Messages.Enqueue(old(Abs()), message)
    {
      newMessages.items := newMessages.items + [message];
    }

    // A null queue and an empty one are ignored.
    method AppendMessageQueue(queue: MessageQueue?)
      requires queue != newMessages
      modifies newMessages
      ensures Abs() == if queue == null then old(Abs()) else Messages.Append(old(Abs()), queue.items)
    {
      if queue == null || queue.items == [] {
        return;
      }
      newMessages.items := newMessages.items + queue.items;
    }

    method GetNewMessage() returns (message: Message)
      requires newMessages.items != []
      ensures message == Abs().pending[0]
    {
      message := newMessages.items[0];
    }

    method MoveNewMessageToSent()
      requires newMessages.items != []
      modifies this, newMessages
      ensures Abs() == FrontToSent(old(Abs()))
    {
      var msg := newMessages.items[0];
      if msg.uuid !in sentMessages {
        sentMessages := sentMessages[msg.uuid := msg];
      }
      newMessages.items := newMessages.items[1..];
    }

    method MoveSentMessageToNew(uuid: string)
      modifies this, newMessages
      ensures Abs() == SentToBack(old(Abs()), uuid)
    {
      if uuid !in sentMessages {
        return;
      }
      var msg := sentMessages[uuid];
      sentMessages := sentMessages - {uuid};
      newMessages.items := newMessages.items + [msg];
    }

    method MoveSentMessageToNewFront(uuid: string)
      modifies this, newMessages
      ensures Abs() == SentToFront(old(Abs()), uuid)
    {
      if uuid !in sentMessages {
        return;
      }
      var msg := sentMessages[uuid];
      sentMessages := sentMessages - {uuid};
      newMessages.items := [msg] + newMessages.items;
    }

    method RemoveMessageFromCache(uuid: string)
      modifies this
      ensures Abs() == RemoveSent(old(Abs()), uuid)
    {
      if uuid !in sentMessages {
        return;
      }
      sentMessages := sentMessages - {uuid};
    }

    // Walks the index in its own order, then clears it.
    method MakeAllMessagesNew()
      modifies this, newMessages
      ensures Abs() == AllNew(old(Abs()))
      ensures Keyed(old(sentMessages)) ==>
        && old(newMessages.items) <= newMessages.items && sentMessages == map[]
        && ListsByUuid(newMessages.items[|old(newMessages.items)|..], old(sentMessages))
    {
      hide InUuidOrder, IsLeast, ListsByUuid;
      if Keyed(sentMessages) {
        InUuidOrderIsSorted(sentMessages);
      }
      var rest := sentMessages;
      while rest != map[]
        invariant sentMessages == old(sentMessages)
        invariant newMessages.items + InUuidOrder(rest) == old(newMessages.items) + InUuidOrder(sentMessages)
        decreases rest.Keys
      {
        var uuid := First(rest);
        LeastFirst(rest, uuid);
        newMessages.items := newMessages.items + [rest[uuid]];
        rest := rest - {uuid};
      }
      EmptyIndex();
      sentMessages := map[];
    }

    // Erases the expired messages of the index, then reports the expired pending ones,
    // then removes the pending ones that are expired by now. `readings` is the clock.
    method ProcessExpiredMessages(readings: Clock) returns (expired: seq<Message>)
      modifies this, newMessages
      ensures expired == Report(old(Abs()), readings)
      ensures Abs() == Swept(old(Abs()), readings)
    {
      var reading: nat;
      expired, reading := SweepSent(readings);
      var pending := newMessages.items;
      expired, reading := ReportPending(pending, readings, reading, expired);
      newMessages.items := RemovePending(pending, readings, reading);
    }

    method SweepSent(readings: Clock) returns (expired: seq<Message>, reading: nat)
      modifies this
      ensures reading == |InUuidOrder(old(sentMessages))|
      ensures expired == Dead(InUuidOrder(old(sentMessages)), readings, 0)
      ensures sentMessages == SweptIndex(old(sentMessages), readings, 0)
    {
      hide InUuidOrder, IsLeast, SweptIndex, Expired, Dead;
      expired, reading := [], 0;
      var rest := sentMessages;
      ghost var all := InUuidOrder(sentMessages);
      ghost var swept := SweptIndex(sentMessages, readings, 0);
      ghost var kept: map<string, Message> := map[];
      while rest != map[]
        invariant sentMessages == kept + rest && kept.Keys !! rest.Keys
        invariant Dead(all, readings, 0) == expired + Dead(InUuidOrder(rest), readings, reading)
        invariant swept == kept + SweptIndex(rest, readings, reading)
        invariant |all| == reading + |InUuidOrder(rest)|
        decreases rest.Keys
      {
        var uuid := First(rest);
        LeastFirst(rest, uuid);
        SweptFirst(rest, uuid, readings, reading);
        var msg := rest[uuid];
        DeadFirst(msg, InUuidOrder(rest - {uuid}), readings, reading, expired);
        KeepFirst(kept, SweptIndex(rest - {uuid}, readings, reading + 1), uuid, msg);
        TakeFromRest(kept, rest, uuid);
        if Expired(msg, readings(reading)) {
          expired := expired + [msg];
          sentMessages := sentMessages - {uuid};
        } else {
          kept := kept[uuid := msg];
        }
        rest := rest - {uuid};
        reading := reading + 1;
      }
      EmptyIndex();
      EmptySweep(readings, reading);
      assert kept + rest == kept;
    }
  }

  method ReportPending(pending: seq<Message>, readings: Clock, start: nat, reported: seq<Message>)
    returns (expired: seq<Message>, reading: nat)
    ensures expired == reported + Dead(pending, readings, start) && reading == start + |pending|
  {
    hide Dead, Expired;
    EmptySweep(readings, start + |pending|);
    expired, reading := reported, start;
    for i := 0 to |pending|
      invariant reading == start + i
      invariant reported + Dead(pending, readings, start) == expired + Dead(pending[i..], readings, reading)
    {
      DeadFirst(pending[i], pending[i + 1..], readings, reading, expired);
      assert pending[i..] == [pending[i]] + pending[i + 1..];
      if Expired(pending[i], readings(reading)) {
        expired := expired + [pending[i]];
      }
      reading := reading + 1;
    }
  }

  method RemovePending(pending: seq<Message>, readings: Clock, start: nat) returns (kept: seq<Message>)
    ensures kept == Alive(pending, readings, start)
  {
    hide Alive, Expired;
    EmptySweep(readings, start + |pending|);
    kept := [];
    for i := 0 to |pending|
      invariant Alive(pending, readings, start) == kept + Alive(pending[i..], readings, start + i)
    {
      AliveFirst(pending[i], pending[i + 1..], readings, start + i, kept);
      assert pending[i..] == [pending[i]] + pending[i + 1..];
      if !Expired(pending[i], readings(start + i)) {
        kept := kept + [pending[i]];
      }
    }
  }

  lemma DeadFirst(m: Message, q: seq<Message>, readings: Clock, i: nat, before: seq<Message>)
    ensures before + Dead([m] + q, readings, i) ==
      (if Expired(m, readings(i)) then before + [m] else before) + Dead(q, readings, i + 1)
  {
    assert ([m] + q)[1..] == q;
  }

  lemma AliveFirst(m: Message, q: seq<Message>, readings: Clock, i: nat, before: seq<Message>)
    ensures before + Alive([m] + q, readings, i) ==
      (if Expired(m, readings(i)) then before else before + [m]) + Alive(q, readings, i + 1)
  {
    assert ([m] + q)[1..] == q;
  }

  lemma KeepFirst(kept: map<string, Message>, rest: map<string, Message>, k: string, m: Message)
    requires k !in rest
    ensures kept + rest[k := m] == kept[k := m] + rest
  {
  }

  lemma TakeFromRest(kept: map<string, Message>, rest: map<string, Message>, k: string)
    requires kept.Keys !! rest.Keys && k in rest
    ensures (kept + rest) - {k} == kept + (rest - {k})
    ensures kept + rest == kept[k := rest[k]] + (rest - {k})
  {
  }

  lemma EmptySweep(readings: Clock, i: nat)
    ensures SweptIndex(map[], readings, i) == map[]
    ensures Dead([], readings, i) == [] && Alive([], readings, i) == []
  {
  }

  lemma SweptFirst(sent: map<string, Message>, k: string, readings: Clock, i: nat)
    requires IsLeast(k, sent.Keys)
    ensures var rest := SweptIndex(sent - {k}, readings, i + 1);
      SweptIndex(sent, readings, i) == if Expired(sent[k], readings(i)) then rest else rest[k := sent[k]]
  {
    LeastIsUnique(k, Least(sent.Keys), sent.Keys);
  }

  // The first key in iteration order.
  method First(m: map<string, Message>) returns (k: string)
    requires m != map[]
    ensures IsLeast(k, m.Keys)
  {
    LeastExists(m.Keys);
    k :| IsLeast(k, m.Keys);
  }
}
