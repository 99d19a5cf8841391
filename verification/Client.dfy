/** `client_impl`: the services of one client behind the admission check. */
module Client {
  import opened Messages
  import opened Lifecycle
  import opened Conservation
  import opened Service
  import opened Admission

  ghost predicate Together(services: map<string, Service>)
    reads set n | n in services :: services[n]
  {
    forall n :: n in services ==> services[n].Valid()
  }

  ghost function Footprint(service: Service): set<object>
    reads service
  {
    {service} + service.live + service.stored
  }

  // Each service is in the state of its world.
  ghost predicate InStates(services: map<string, Service>, worlds: map<string, World>)
    requires Together(services) && worlds.Keys == services.Keys
    reads set n | n in services :: services[n],
          set n, o | n in services && o in services[n].live :: o,
          set n, o | n in services && o in services[n].stored :: o
  {
    forall n :: n in services ==> services[n].Abs() == worlds[n].s
  }

  ghost function SizesOf(services: map<string, Service>): map<string, nat>
    reads set n | n in services :: services[n]
  {
    map n | n in services :: services[n].cacheSize
  }

  class Client {
    const limits: Limits
    const services: map<string, Service>
    var messagesCacheSize: nat

    constructor (configured: Limits)
      ensures Valid() && limits == configured && messagesCacheSize == 0
      ensures Represents(NewClient(configured))
    {
      hide Service.Abs, Service.Valid;
      limits := configured;
      var made := MakeServices(configured.config);
      services := made;
      messagesCacheSize := 0;
    }

    // The services share nothing.
    ghost predicate Valid()
      reads this, set n | n in services :: services[n]
    {
      && Together(services)
      && (forall n :: n in services ==> this !in Footprint(services[n]))
      && (forall n, k :: n in services && k in services && n != k ==> Footprint(services[n]) !! Footprint(services[k]))
    }

    // This is the client the theorems about admission speak of.
    ghost predicate Represents(c: Admission.Client)
      requires Valid()
      reads this,
            set n | n in services :: services[n],
            set n, o | n in services && o in services[n].live :: o,
            set n, o | n in services && o in services[n].stored :: o
    {
      && c.limits == limits && c.services.Keys == services.Keys && c.cacheSize == messagesCacheSize
      && InStates(services, c.services)
    }

    method UpdateMessagesCacheSize()
      modifies `messagesCacheSize
      ensures messagesCacheSize == SumOf(SizesOf(services)) % SIZE_RANGE
    {
      hide SumOf;
      messagesCacheSize := 0;
      var rest := services.Keys;
      ghost var sizes := SizesOf(services);
      ghost var left := sizes;
      while rest != {}
        invariant rest <= services.Keys && left.Keys == rest
        invariant forall n :: n in left ==> left[n] == services[n].cacheSize
        invariant (messagesCacheSize + SumOf(left)) % SIZE_RANGE == SumOf(sizes) % SIZE_RANGE
        invariant messagesCacheSize < SIZE_RANGE
        decreases rest
      {
        var n :| n in rest;
        SumWithout(left, n);
        AddingKeepsRemainder(messagesCacheSize, services[n].cacheSize, SumOf(left - {n}));
        messagesCacheSize := AddSizes(messagesCacheSize, services[n].cacheSize);
        left := left - {n};
        rest := rest - {n};
      }
      NothingHeld(left);
    }

    method PassOn(n: string, message: Message)
      requires Valid() && n in services
      modifies Footprint(services[n])
      ensures Valid()
      ensures services[n].Abs() == Lifecycle.SendMessage(old(services[n].Abs()), message)
      ensures forall k :: k in services && k != n ==> services[k].Abs() == old(services[k].Abs())
    {
      hide Service.Abs, Service.Valid, Lifecycle.SendMessage;
      services[n].SendMessage(message);
    }

    method HandOver(n: string, message: Message, ghost worlds: map<string, World>)
      requires Valid() && n in services
      requires worlds.Keys == services.Keys && InStates(services, worlds)
      modifies Footprint(services[n])
      ensures Valid() && InStates(services, Handed(worlds, n, message))
    {
      hide Service.Abs, Service.Valid, Lifecycle.SendMessage, Footprint;
      PassOn(n, message);
    }

    // A rejected send changes nothing; an accepted one hands the message to its service
    // and brings the account up to date. Either way the client it represents has reacted.
    method SendMessage(payload: Payload, path: Path, uuid: string, deadline: real, ghost c: Admission.Client)
      returns (verdict: Verdict)
      requires Valid() && Represents(c)
      modifies `messagesCacheSize
      modifies if path.service in services then Footprint(services[path.service]) else {}
      ensures Valid() && verdict == Admit(limits, services.Keys, old(messagesCacheSize), payload, path)
      ensures !verdict.Accepted? ==> Represents(c)
      ensures verdict.Accepted? ==>
        && path.service in services
        && InStates(services, Handed(c.services, path.service, NewMessage(limits, payload, path, uuid, deadline)))
        && messagesCacheSize == SumOf(SizesOf(services)) % SIZE_RANGE
      ensures Sound(c) ==> Represents(React(c, ClientSend(payload, path, uuid, deadline)))
    {
      hide Service.Abs, Service.Valid, Lifecycle.SendMessage, SumOf, NewMessage, SizesOf, InStates, AddSizes,
           ContainerSize;
      var messageSize := ContainerSize(limits, payload.size, path);
      if AddSizes(messagesCacheSize, messageSize) > limits.maxCacheSize {
        return OverCapacity;
      }
      if path.service !in limits.config {
        return UnknownService;
      }
      if path.service !in services {
        return NoService;
      }
      if payload.size > MAX_MESSAGE_DATA_SIZE {
        return TooBig;
      }
      var message := NewMessage(limits, payload, path, uuid, deadline);
      ghost var worlds := Handed(c.services, path.service, message);
      HandOver(path.service, message, c.services);
      UpdateMessagesCacheSize();
      SameSizes(services, worlds);
      if Sound(c) {
        NotFailed(c.services[path.service].s);
        SendApplies(c.services, path.service, message);
        SameStates(services, worlds, React(c, ClientSend(payload, path, uuid, deadline)).services);
      }
      verdict := Accepted;
    }
  }

  lemma SameStates(services: map<string, Service>, a: map<string, World>, b: map<string, World>)
    requires Together(services) && a.Keys == b.Keys == services.Keys
    requires InStates(services, a) && forall n :: n in services ==> b[n].s == a[n].s
    ensures InStates(services, b)
  {
    hide Service.Abs, Service.Valid;
  }

  lemma SameSizes(services: map<string, Service>, worlds: map<string, World>)
    requires Together(services) && worlds.Keys == services.Keys && InStates(services, worlds)
    ensures SizesOf(services) == Sizes(worlds)
  {
    hide Service.Valid;
    forall n | n in services ensures services[n].cacheSize == worlds[n].s.cacheSize {
      assert services[n].Abs() == worlds[n].s;
      services[n].Fields();
    }
  }

  // One service holds one message more.
  function Handed(worlds: map<string, World>, n: string, m: Message): map<string, World>
    requires n in worlds
  {
    worlds[n := worlds[n].(s := Lifecycle.SendMessage(worlds[n].s, m))]
  }

  lemma SendApplies(worlds: map<string, World>, n: string, m: Message)
    requires n in worlds && !worlds[n].s.failed
    ensures var applied := worlds[n := Apply(worlds[n], Send(m))];
      && Sizes(applied) == Sizes(Handed(worlds, n, m))
      && forall k :: k in worlds ==> applied[k].s == Handed(worlds, n, m)[k].s
  {
    hide Lifecycle.SendMessage;
  }

  ghost predicate IsNew(service: Service, name: string)
    reads service, service.live, service.stored
  {
    service.Valid() && service.live == {} == service.stored && service.Abs() == Initial(name)
  }

  method MakeServices(names: set<string>) returns (services: map<string, Service>)
    ensures services.Keys == names
    ensures forall n :: n in services ==>
      IsNew(services[n], n) && fresh(services[n])
    ensures forall n, k :: n in services && k in services && n != k ==> services[n] != services[k]
  {
    hide Service.Abs, Service.Valid, Initial;
    services := map[];
    var rest := names;
    while rest != {}
      invariant rest <= names && services.Keys == names - rest
      invariant forall n :: n in services ==>
        IsNew(services[n], n) && fresh(services[n])
      invariant forall n, k :: n in services && k in services && n != k ==> services[n] != services[k]
      decreases rest
    {
      var n :| n in rest;
      var service := new Service(n);
      services := services[n := service];
      rest := rest - {n};
    }
  }

  lemma AddingKeepsRemainder(a: nat, b: nat, rest: nat)
    ensures (AddSizes(a, b) + rest) % SIZE_RANGE == (a + (b + rest)) % SIZE_RANGE
  {
    var q := (a + b) / SIZE_RANGE;
    assert a + b == q * SIZE_RANGE + AddSizes(a, b);
    RemainderOfMore(AddSizes(a, b) + rest, q);
  }

  lemma {:induction false} RemainderOfMore(a: nat, q: nat)
    ensures (a + q * SIZE_RANGE) % SIZE_RANGE == a % SIZE_RANGE
  {
    if q > 0 {
      RemainderOfMore(a, q - 1);
      assert a + q * SIZE_RANGE == (a + (q - 1) * SIZE_RANGE) + SIZE_RANGE;
    }
  }
}
