/** `handle`: the object behind one live handle. The service's threads call its connecting
    methods, which only queue a command; its dispatch thread obeys the commands and moves
    the messages of its cache. */
module Handle {
  import opened Messages
  import opened Links
  import opened Lifecycle
  import opened MessageCache

  // The replies found on a socket are taken in turn until one cannot be read.
  predicate Unreadable(reply: Reply) {
    || reply.BadEnvelope?
    || reply.uuid == ""
    || (reply.code == 0 && !reply.completed && reply.data.NoPart?)
  }

  function TakeAll(c: Cache, replies: seq<Reply>): Receipt
    decreases |replies|
  {
    if replies == [] || Unreadable(replies[0]) then Receipt(c, [])
    else
      var first := Take(c, replies[0]);
      var rest := TakeAll(first.cache, replies[1..]);
      Receipt(rest.cache, first.responses + rest.responses)
  }

  // One turn of the dispatch loop: a command, a message, then whatever replies there are.
  function Turned(h: HandleState, written: bool, replies: seq<Reply>): (HandleState, seq<Response>) {
    var l := ObeyNext(h.link);
    if !l.running || !l.connected then (h.(link := l), [])
    else
      var receipt := TakeAll(SendNext(h.cache, written), replies);
      (HandleState(h.info, receipt.cache, l), receipt.responses)
  }

  class Handle {
    const info: HandleInfo
    const messageCache: MessageCache
    var isRunning: bool
    var isConnected: bool
    var hosts: seq<Ip>
    var newHosts: seq<Ip>
    // The hosts the main socket is connected to, and what the control socket holds.
    var peers: set<Ip>
    var control: seq<Control>

    constructor (handleInfo: HandleInfo, hostList: seq<Ip>)
      ensures info == handleInfo && fresh(messageCache) && fresh(messageCache.newMessages)
      ensures Abs() == HandleState(handleInfo, EmptyCache, NewLink(hostList))
    {
      info := handleInfo;
      messageCache := new MessageCache();
      hosts, newHosts, peers, control := hostList, [], {}, [];
      isConnected := false;
      isRunning := true;
    }

    function Link(): Link
      reads this
    {
      Links.Link(isRunning, isConnected, hosts, newHosts, peers, control)
    }

    function Abs(): HandleState
      reads this, messageCache, messageCache.newMessages
    {
      HandleState(info, messageCache.Abs(), Link())
    }

    // -------------------------------------------------------------- called by the service

    method Send(command: Control)
      modifies `control
      ensures control == old(control) + [command]
    {
      control := control + [command];
    }

    method Connect()
      modifies `control
      ensures control ==
        if !isRunning || hosts == [] || isConnected then old(control) else old(control) + [Control.Connect]
    {
      if !isRunning || hosts == [] || isConnected {
        return;
      }
      Send(Control.Connect);
    }

    method ConnectTo(hostList: seq<Ip>)
      modifies this
      ensures Abs() == old(Abs()).(link := Links.ConnectTo(old(Abs()).link, hostList))
    {
      if !isRunning || isConnected || hostList == [] {
        return;
      }
      hosts := hostList;
      Connect();
    }

    method ConnectNewHosts(hostList: seq<Ip>)
      modifies this
      ensures Abs() == old(Abs()).(link := AddHosts(old(Abs()).link, hostList))
    {
      if !isRunning || hostList == [] {
        return;
      }
      newHosts := newHosts + hostList;
      Send(Control.ConnectNewHosts);
    }

    method Reconnect(hostList: seq<Ip>)
      modifies this
      ensures Abs() == old(Abs()).(link := ReconnectTo(old(Abs()).link, hostList))
    {
      if !isRunning || hostList == [] {
        return;
      }
      hosts := hostList;
      Send(Control.Reconnect);
    }

    method Disconnect()
      modifies `control
      ensures control == if isRunning then old(control) + [Control.Disconnect] else old(control)
    {
      if !isRunning {
        return;
      }
      Send(Control.Disconnect);
    }

    // What the service does to a handle it is about to remove.
    method Consolidate()
      modifies `control, messageCache, messageCache.newMessages
      ensures Abs() == Consolidated(old(Abs()))
      ensures messageCache.newMessages.items == Abs().cache.pending
    {
      hide InUuidOrder;
      Disconnect();
      messageCache.MakeAllMessagesNew();
    }

    method EnqueueMessage(message: Message)
      modifies messageCache.newMessages
      ensures Abs() == old(Abs()).(cache := Messages.Enqueue(old(Abs()).cache, message))
    {
      messageCache.Enqueue(message);
    }

    // -------------------------------------------------------------- the dispatch thread

    method ConnectSocketToHosts(hostList: seq<Ip>)
      modifies `peers
      ensures peers == old(peers) + SetOf(hostList)
    {
      for i := 0 to |hostList|
        invariant peers == old(peers) + SetOf(hostList[..i])
      {
        assert hostList[..i + 1] == hostList[..i] + [hostList[i]];
        peers := peers + {hostList[i]};
      }
      assert hostList[..|hostList|] == hostList;
    }

    method ReceiveControlMessage() returns (commands: seq<Control>)
      modifies `control
      ensures if !isRunning || old(control) == [] then commands == [] && control == old(control)
              else commands == [old(control)[0]] && control == old(control)[1..]
    {
      if !isRunning || control == [] {
        return [];
      }
      commands := [control[0]];
      control := control[1..];
    }

    method DispatchControlMessages()
      modifies this
      ensures Link() == ObeyNext(old(Link()))
    {
      var commands := ReceiveControlMessage();
      if commands == [] {
        return;
      }
      match commands[0] {
        case Kill =>
          isRunning := false;
        case Connect =>
          if !isConnected {
            peers := {};
            ConnectSocketToHosts(hosts);
            isConnected := true;
          }
        case Reconnect =>
          peers := {};
          ConnectSocketToHosts(hosts);
          isConnected := true;
        case Disconnect =>
          peers := {};
          isConnected := false;
        case ConnectNewHosts =>
          if isConnected && newHosts != [] {
            var added := newHosts;
            newHosts := [];
            ConnectSocketToHosts(added);
          }
      }
    }

    // `written` says whether the socket took all three parts of the message.
    method DispatchNextAvailableMessage(written: bool) returns (sent: bool)
      modifies messageCache, messageCache.newMessages
      ensures messageCache.Abs() == SendNext(old(messageCache.Abs()), written)
      ensures sent <==> old(messageCache.Abs()).pending != [] && written
    {
      if messageCache.newMessages.items == [] {
        return false;
      }
      if !written {
        return false;
      }
      messageCache.MoveNewMessageToSent();
      sent := true;
    }

    method DispatchResponse(reply: Reply) returns (responses: seq<Response>)
      requires !Unreadable(reply)
      modifies messageCache, messageCache.newMessages
      ensures Receipt(messageCache.Abs(), responses) == Take(old(messageCache.Abs()), reply)
    {
      responses := [];
      var uuid := reply.uuid;
      var fetched := uuid in messageCache.sentMessages;
      if reply.code == MESSAGE_QUEUE_IS_FULL && fetched {
        messageCache.MoveSentMessageToNewFront(uuid);
      } else if reply.code != 0 {
        if fetched {
          var msg := messageCache.sentMessages[uuid];
          messageCache.RemoveMessageFromCache(uuid);
          responses := [Failure(uuid, msg.service, msg.handle, reply.code, reply.text)];
        }
      } else if !reply.completed {
        if fetched {
          var msg := messageCache.sentMessages[uuid];
          responses := [Chunk(uuid, msg.service, msg.handle, reply.data.bytes)];
        }
      } else {
        if fetched {
          var msg := messageCache.sentMessages[uuid];
          responses := [Choke(uuid, msg.service, msg.handle)];
        }
        messageCache.RemoveMessageFromCache(uuid);
      }
    }

    method DispatchResponses(replies: seq<Reply>) returns (responses: seq<Response>)
      modifies messageCache, messageCache.newMessages
      ensures Receipt(messageCache.Abs(), responses) == TakeAll(old(messageCache.Abs()), replies)
    {
      hide Take, Unreadable;
      responses := [];
      var i := 0;
      ghost var all := TakeAll(messageCache.Abs(), replies);
      while i < |replies|
        invariant 0 <= i <= |replies|
        invariant var rest := TakeAll(messageCache.Abs(), replies[i..]);
          all == Receipt(rest.cache, responses + rest.responses)
      {
        if Unreadable(replies[i]) {
          break;
        }
        assert replies[i..][1..] == replies[i + 1..];
        ghost var before := messageCache.Abs();
        var produced := DispatchResponse(replies[i]);
        TakeAllFirst(before, replies[i..]);
        responses := responses + produced;
        i := i + 1;
      }
      TakeAllStops(messageCache.Abs(), replies[i..]);
    }

    method DispatchTurn(written: bool, replies: seq<Reply>) returns (responses: seq<Response>)
      modifies this, messageCache, messageCache.newMessages
      ensures (Abs(), responses) == Turned(old(Abs()), written, replies)
    {
      hide ObeyNext, SendNext, TakeAll;
      responses := [];
      DispatchControlMessages();
      if isRunning && isConnected {
        var _ := DispatchNextAvailableMessage(written);
        responses := DispatchResponses(replies);
      }
    }
  }

  lemma TakeAllFirst(c: Cache, replies: seq<Reply>)
    requires replies != [] && !Unreadable(replies[0])
    ensures var first := Take(c, replies[0]);
      var rest := TakeAll(first.cache, replies[1..]);
      TakeAll(c, replies) == Receipt(rest.cache, first.responses + rest.responses)
  {
  }

  lemma TakeAllStops(c: Cache, replies: seq<Reply>)
    requires replies == [] || Unreadable(replies[0])
    ensures TakeAll(c, replies) == Receipt(c, [])
  {
  }
}
