/**
 The request handlers that tie the subscription index to the connections. Each is one step, but for the callback of a
 delayed event, which takes no lock.
 */
module Logic {
  import opened Bytes
  import opened Delivery
  import opened Subscribe

  /** An event a timer will hand over later, and the delay that timer was set to. */
  datatype Delayed = Delayed(conn: Connection, event: Event, delay: int)

  /** What each connection has gone through. */
  type Journal = map<Connection, seq<ConnAction>>

  const STORM := 500
  const NAMEMAX := 39

  /** The nodes that take an event at once. */
  function Immediate(nodes: seq<EventNode<Connection>>): seq<EventNode<Connection>> {
    if nodes == [] then []
    else
      var last := nodes[|nodes| - 1];
      Immediate(nodes[..|nodes| - 1]) + if last.eventid == DEFAULT then [last] else []
  }

  /** What the nodes that asked for a delay will get, under the name each of them chose. */
  function Postponed(nodes: seq<EventNode<Connection>>, body: seq<byte>): seq<Delayed> {
    if nodes == [] then []
    else
      var last := nodes[|nodes| - 1];
      Postponed(nodes[..|nodes| - 1], body)
      + if last.eventid != POST_DELAY then []
        else [Delayed(last.subscriber, Event(last.eventname, body), last.eventarg)]
  }

  /** One arrival at `c` for each node of `c`. */
  function Arrivals(nodes: seq<EventNode<Connection>>, c: Connection, event: Event,
                    inTime: set<int>): (r: seq<ConnAction>)
    ensures forall a :: a in r ==> a == Arrive(event, inTime)
  {
    if nodes == [] then []
    else
      Arrivals(nodes[..|nodes| - 1], c, event, inTime)
      + if nodes[|nodes| - 1].subscriber == c then [Arrive(event, inTime)] else []
  }

  // ---- Who is told what, by counting ----

  /** The places of the nodes of one connection, before place `n`, that asked for events of this kind. */
  function PlacesOf(nodes: seq<EventNode<Connection>>, n: nat, c: Connection, eventid: int): set<nat> {
    set i: nat | i < n && i < |nodes| && nodes[i].subscriber == c && nodes[i].eventid == eventid
  }

  /** The places of all nodes, before place `n`, that asked for events of this kind. */
  function Places(nodes: seq<EventNode<Connection>>, n: nat, eventid: int): set<nat> {
    set i: nat | i < n && i < |nodes| && nodes[i].eventid == eventid
  }

  /** Each connection got the event as often as it has nodes of kind 1, after all it had gone through before. */
  ghost predicate Told(h: Journal, h': Journal, nodes: seq<EventNode<Connection>>, tag: string, body: seq<byte>,
                       inTime: set<int>) {
    h'.Keys == h.Keys && forall c :: c in h ==>
      && |h'[c]| == |h[c]| + |PlacesOf(nodes, |nodes|, c, 1)| && h[c] <= h'[c]
      && forall i :: |h[c]| <= i < |h'[c]| ==> h'[c][i] == Arrive(Event(tag, body), inTime)
  }

  /** Each node of kind 2 has its event put off by its own delay and under its own name, in the order of the nodes. */
  ghost predicate PutOff(was: seq<Delayed>, now: seq<Delayed>, nodes: seq<EventNode<Connection>>, body: seq<byte>) {
    && |now| == |was| + |Places(nodes, |nodes|, 2)| && was <= now
    && forall i :: 0 <= i < |nodes| && nodes[i].eventid == 2 ==>
      var k := |was| + |Places(nodes, i, 2)|;
      k < |now| && now[k] == Delayed(nodes[i].subscriber, Event(nodes[i].eventname, body), nodes[i].eventarg)
  }

  lemma PlacesMore(nodes: seq<EventNode<Connection>>, n: nat, eventid: int)
    requires n < |nodes|
    ensures
      |Places(nodes, n + 1, eventid)| == |Places(nodes, n, eventid)| + if nodes[n].eventid == eventid then 1 else 0
  {
    assert Places(nodes, n + 1, eventid) ==
      Places(nodes, n, eventid) + if nodes[n].eventid == eventid then {n} else {};
  }

  lemma PlacesOfMore(nodes: seq<EventNode<Connection>>, n: nat, c: Connection, eventid: int)
    requires n < |nodes|
    ensures
      |PlacesOf(nodes, n + 1, c, eventid)|
      == |PlacesOf(nodes, n, c, eventid)| + if nodes[n].subscriber == c && nodes[n].eventid == eventid then 1 else 0
  {
    assert PlacesOf(nodes, n + 1, c, eventid) ==
      PlacesOf(nodes, n, c, eventid) + if nodes[n].subscriber == c && nodes[n].eventid == eventid then {n} else {};
  }

  lemma {:induction false} ArrivalsCounted(nodes: seq<EventNode<Connection>>, n: nat, c: Connection, event: Event,
                                           inTime: set<int>)
    requires n <= |nodes|
    ensures |Arrivals(Immediate(nodes[..n]), c, event, inTime)| == |PlacesOf(nodes, n, c, 1)|
  {
    if n == 0 {
      assert PlacesOf(nodes, 0, c, 1) == {};
    } else {
      ArrivalsCounted(nodes, n - 1, c, event, inTime);
      PlacesOfMore(nodes, n - 1, c, 1);
      assert nodes[..n][..n - 1] == nodes[..n - 1];
      var last := if nodes[n - 1].eventid == DEFAULT then [nodes[n - 1]] else [];
      ArrivalsConcat(Immediate(nodes[..n - 1]), last, c, event, inTime);
      assert last != [] ==> last[..0] == [];
    }
  }

  lemma DeliveredIsTold(h: Journal, h': Journal, nodes: seq<EventNode<Connection>>, tag: string, body: seq<byte>,
                        inTime: set<int>)
    requires Delivered(h, h', Immediate(nodes), Event(tag, body), inTime)
    ensures Told(h, h', nodes, tag, body, inTime)
  {
    assert nodes[..|nodes|] == nodes;
    forall c | c in h
      ensures |h'[c]| == |h[c]| + |PlacesOf(nodes, |nodes|, c, 1)|
      ensures forall i :: |h[c]| <= i < |h'[c]| ==> h'[c][i] == Arrive(Event(tag, body), inTime)
    {
      ArrivalsCounted(nodes, |nodes|, c, Event(tag, body), inTime);
      assert forall i :: |h[c]| <= i < |h'[c]| ==>
        h'[c][i] in Arrivals(Immediate(nodes), c, Event(tag, body), inTime);
    }
  }

  /** The places of all nodes of one connection before place `n`. */
  function OwnPlaces(nodes: seq<EventNode<Connection>>, n: nat, c: Connection): set<nat> {
    set i: nat | i < n && i < |nodes| && nodes[i].subscriber == c
  }

  /** Each connection got the event once for each of its nodes, of whatever kind. */
  ghost predicate Ticked(h: Journal, h': Journal, nodes: seq<EventNode<Connection>>, event: Event, inTime: set<int>) {
    h'.Keys == h.Keys && forall c :: c in h ==>
      && |h'[c]| == |h[c]| + |OwnPlaces(nodes, |nodes|, c)| && h[c] <= h'[c]
      && forall i :: |h[c]| <= i < |h'[c]| ==> h'[c][i] == Arrive(event, inTime)
  }

  lemma {:induction false} OwnArrivals(nodes: seq<EventNode<Connection>>, n: nat, c: Connection, event: Event,
                                       inTime: set<int>)
    requires n <= |nodes|
    ensures |Arrivals(nodes[..n], c, event, inTime)| == |OwnPlaces(nodes, n, c)|
  {
    if n == 0 {
      assert OwnPlaces(nodes, 0, c) == {};
    } else {
      OwnArrivals(nodes, n - 1, c, event, inTime);
      assert nodes[..n][..n - 1] == nodes[..n - 1];
      assert OwnPlaces(nodes, n, c) ==
        OwnPlaces(nodes, n - 1, c) + if nodes[n - 1].subscriber == c then {n - 1} else {};
    }
  }

  lemma DeliveredIsTicked(h: Journal, h': Journal, nodes: seq<EventNode<Connection>>, event: Event, inTime: set<int>)
    requires Delivered(h, h', nodes, event, inTime)
    ensures Ticked(h, h', nodes, event, inTime)
  {
    assert nodes[..|nodes|] == nodes;
    forall c | c in h
      ensures |h'[c]| == |h[c]| + |OwnPlaces(nodes, |nodes|, c)|
      ensures forall i :: |h[c]| <= i < |h'[c]| ==> h'[c][i] == Arrive(event, inTime)
    {
      OwnArrivals(nodes, |nodes|, c, event, inTime);
      assert forall i :: |h[c]| <= i < |h'[c]| ==> h'[c][i] in Arrivals(nodes, c, event, inTime);
    }
  }

  lemma {:induction false} PostponedCounted(nodes: seq<EventNode<Connection>>, n: nat, body: seq<byte>)
    requires n <= |nodes|
    ensures |Postponed(nodes[..n], body)| == |Places(nodes, n, 2)|
    ensures forall i :: 0 <= i < n && nodes[i].eventid == 2 ==>
      && |Places(nodes, i, 2)| < |Postponed(nodes[..n], body)|
      && Postponed(nodes[..n], body)[|Places(nodes, i, 2)|]
        == Delayed(nodes[i].subscriber, Event(nodes[i].eventname, body), nodes[i].eventarg)
  {
    if n == 0 {
      assert Places(nodes, 0, 2) == {};
    } else {
      PostponedCounted(nodes, n - 1, body);
      PlacesMore(nodes, n - 1, 2);
      assert nodes[..n][..n - 1] == nodes[..n - 1];
    }
  }

  lemma PostponedIsPutOff(was: seq<Delayed>, nodes: seq<EventNode<Connection>>, body: seq<byte>)
    ensures PutOff(was, was + Postponed(nodes, body), nodes, body)
  {
    PostponedCounted(nodes, |nodes|, body);
    assert nodes[..|nodes|] == nodes;
  }

  function Asker(r: Request<Connection>): Connection {
    match r
    case Subscribed(_, node) => node.subscriber
    case Registered(_, server) => server
    case Cancelled(conn) => conn
    case Freed(conn) => conn
  }

  ghost predicate Asked(requests: seq<Request<Connection>>, n: EventNode<Connection>) {
    exists r :: r in requests && r.Subscribed? && r.node == n
  }

  /** The connection has asked for delayed events. */
  ghost predicate AskedDelay(requests: seq<Request<Connection>>, c: Connection) {
    exists r :: r in requests && r.Subscribed? && r.node.subscriber == c && r.node.eventid == POST_DELAY
  }

  /** Only connections that asked for delayed events have any under way, or ever had. */
  ghost predicate DelaysAsked(h: Journal, delayed: seq<Delayed>, requests: seq<Request<Connection>>) {
    && (forall d :: d in delayed ==> d.conn in h && AskedDelay(requests, d.conn))
    && (forall c, a :: c in h && a in h[c] && a.Begin? ==> AskedDelay(requests, c))
  }

  lemma AskedMore(h: Journal, delayed: seq<Delayed>, requests: seq<Request<Connection>>, r: Request<Connection>)
    requires DelaysAsked(h, delayed, requests)
    ensures DelaysAsked(h, delayed, requests + [r])
  {
    forall c | AskedDelay(requests, c) ensures AskedDelay(requests + [r], c) {
      var q :| q in requests && q.Subscribed? && q.node.subscriber == c && q.node.eventid == POST_DELAY;
      assert q in requests + [r];
    }
  }

  lemma JournalMore(h: Journal, c: Connection, a: ConnAction, delayed: seq<Delayed>, requests: seq<Request<Connection>>)
    requires DelaysAsked(h, delayed, requests) && c in h && (a.Begin? ==> AskedDelay(requests, c))
    ensures DelaysAsked(h[c := h[c] + [a]], delayed, requests)
  {
    hide AskedDelay;
  }

  class CLogicSocket {
    const subscriber: CSubscribe<Connection>
    ghost const pool: set<Connection>
    ghost const start: Index<Connection>
    var delayed: seq<Delayed>
    /** The connection whose delayed event the timer thread is working on. */
    var running: Option<Connection>
    ghost var requests: seq<Request<Connection>>

    ghost function Ix(): Index<Connection>
      reads subscriber, pool`listTag, pool`listPlcTag
    {
      Index(subscriber.mapSubject, subscriber.mapSubjectPlcIoServer, TagsOf(pool), PlcTagsOf(pool))
    }

    ghost predicate Valid()
      reads this, subscriber, pool
    {
      && AllValid(pool)
      && IndexOk(Ix(), start, requests, pool)
      && OneCallback(pool, running)
      && DelaysAsked(Histories(pool), delayed, requests)
    }

    constructor (connections: set<Connection>)
      requires forall c :: c in connections ==> c.Valid() && c.history == [] && c.phase == Quiet
      ensures Valid() && fresh(subscriber) && pool == connections
      ensures requests == [] && delayed == [] && running == None
    {
      var s := new CSubscribe<Connection>();
      subscriber := s;
      pool, delayed, running, requests := connections, [], None, [];
      start := Index(map[], map[], TagsOf(connections), PlcTagsOf(connections));
    }

    method HandleSubscribe(c: Connection, tag: string, eventname: string, eventid: int, eventarg: int)
      requires Valid() && c in pool
      modifies this`requests, subscriber`mapSubject, c`listTag
      ensures Valid() && requests == old(requests) + [Subscribed(tag, EventNode(c, eventname, eventid, eventarg))]
    {
      hide AllValid, IndexOk, AttachTo, OneCallback, DelaysAsked, Histories;
      ghost var ix := Ix();
      c.listTag := c.listTag + [tag];
      var node := EventNode(c, eventname, eventid, eventarg);
      subscriber.Attach(tag, node);
      assert Ix().tags == ix.tags[c := ix.tags[c] + [tag]];
      assert Ix() == Apply(ix, Subscribed(tag, node));
      Answered(ix, start, requests, pool, Subscribed(tag, node));
      AskedMore(Histories(pool), delayed, requests, Subscribed(tag, node));
      requests := requests + [Subscribed(tag, node)];
    }

    method HandleRegisterPlcServer(c: Connection, tag: string)
      requires Valid() && c in pool
      modifies this`requests, subscriber`mapSubjectPlcIoServer, c`listPlcTag
      ensures Valid() && requests == old(requests) + [Registered(tag, c)]
    {
      hide AllValid, IndexOk, OneCallback, DelaysAsked, Histories;
      ghost var ix := Ix();
      c.listPlcTag := c.listPlcTag + [tag];
      subscriber.AttachPlcIoServer(tag, c);
      assert Ix().plcTags == ix.plcTags[c := ix.plcTags[c] + [tag]];
      assert Ix() == Apply(ix, Registered(tag, c));
      Answered(ix, start, requests, pool, Registered(tag, c));
      AskedMore(Histories(pool), delayed, requests, Registered(tag, c));
      requests := requests + [Registered(tag, c)];
    }

    /** Looks under every tag in the lists of the connection. */
    method DetachEverywhere(c: Connection)
      modifies subscriber
      ensures subscriber.mapSubject == DetachAll(old(subscriber.mapSubject), c.listTag, c)
      ensures subscriber.mapSubjectPlcIoServer == DetachPlcAll(old(subscriber.mapSubjectPlcIoServer), c.listPlcTag, c)
    {
      hide DetachFrom, DetachPlcFrom;
      var tags, plcTags := c.listTag, c.listPlcTag;
      for i := 0 to |tags|
        invariant subscriber.mapSubject == DetachAll(old(subscriber.mapSubject), tags[..i], c)
        invariant subscriber.mapSubjectPlcIoServer == old(subscriber.mapSubjectPlcIoServer)
      {
        assert tags[..i + 1][..i] == tags[..i];
        subscriber.Detach(tags[i], c);
      }
      assert tags[..|tags|] == tags;
      for i := 0 to |plcTags|
        invariant subscriber.mapSubject == DetachAll(old(subscriber.mapSubject), tags, c)
        invariant subscriber.mapSubjectPlcIoServer
          == DetachPlcAll(old(subscriber.mapSubjectPlcIoServer), plcTags[..i], c)
      {
        assert plcTags[..i + 1][..i] == plcTags[..i];
        subscriber.DetachPlcIoServer(plcTags[i], c);
      }
      assert plcTags[..|plcTags|] == plcTags;
    }

    method ClearTagList(c: Connection)
      requires c in pool
      modifies c`listTag, c`listPlcTag
      ensures TagsOf(pool) == old(TagsOf(pool))[c := []] && PlcTagsOf(pool) == old(PlcTagsOf(pool))[c := []]
    {
      c.listTag, c.listPlcTag := [], [];
    }

    /** Takes the connection out of the index and out of its own lists. */
    method Withdraw(c: Connection)
      requires c in pool
      modifies subscriber, c`listTag, c`listPlcTag
      ensures Ix() == Apply(old(Ix()), Cancelled(c))
    {
      hide DetachAll, DetachPlcAll;
      ghost var ix := Ix();
      assert Tags(ix.tags, c) == c.listTag && Tags(ix.plcTags, c) == c.listPlcTag;
      hide TagsOf, PlcTagsOf, Apply;
      DetachEverywhere(c);
      ClearTagList(c);
      CancelledIndex(ix, Ix(), c);
    }

    method CancelSubscribe(c: Connection)
      requires Valid() && c in pool
      modifies this`requests, subscriber, c`listTag, c`listPlcTag
      ensures Valid() && requests == old(requests) + [Cancelled(c)]
    {
      hide AllValid, IndexOk, Apply, TagsOf, PlcTagsOf, OneCallback, DelaysAsked, Histories;
      Answered(Ix(), start, requests, pool, Cancelled(c));
      AskedMore(Histories(pool), delayed, requests, Cancelled(c));
      Withdraw(c);
      requests := requests + [Cancelled(c)];
    }

    /** The connection goes back to the pool: its lists are cleared, and the index is left as it is. */
    method PutOneToFree(c: Connection)
      requires Valid() && c in pool
      modifies this`requests, c`listTag, c`listPlcTag
      ensures Valid() && requests == old(requests) + [Freed(c)]
    {
      hide AllValid, IndexOk, TagsOf, PlcTagsOf, OneCallback, DelaysAsked, Histories;
      Answered(Ix(), start, requests, pool, Freed(c));
      AskedMore(Histories(pool), delayed, requests, Freed(c));
      ClearTagList(c);
      requests := requests + [Freed(c)];
    }

    method DeliverOne(c: Connection, event: Event, ghost inTime: set<int>)
      requires Valid() && c in pool
      modifies pool`waitingPost, pool`waitingTimeout, pool`listPost, pool`timers, pool`sent, pool`history
      ensures Valid() && Histories(pool) == old(Histories(pool)[c := c.history + [Arrive(event, inTime)]])
    {
      hide Connection.Valid, IndexOk, DelaysAsked, OneCallback;
      JournalMore(Histories(pool), c, Arrive(event, inTime), delayed, requests);
      ghost var h := Histories(pool);
      c.Deliver(event, inTime);
      assert Histories(pool) == h[c := h[c] + [Arrive(event, inTime)]];
    }

    /** One event to each of the listed nodes, in order. */
    method DeliverTo(nodes: seq<EventNode<Connection>>, event: Event, ghost inTime: set<int>)
      requires Valid() && forall n :: n in nodes ==> n.subscriber in pool
      modifies pool`waitingPost, pool`waitingTimeout, pool`listPost, pool`timers, pool`sent, pool`history
      ensures Valid() && Delivered(old(Histories(pool)), Histories(pool), nodes, event, inTime)
    {
      hide Valid, Delivered;
      NoneDelivered(Histories(pool), event, inTime);
      for i := 0 to |nodes|
        invariant Valid() && Delivered(old(Histories(pool)), Histories(pool), nodes[..i], event, inTime)
      {
        assert nodes[..i + 1] == nodes[..i] + [nodes[i]];
        ghost var before := Histories(pool);
        DeliverOne(nodes[i].subscriber, event, inTime);
        OneDelivered(before, nodes[i], event, inTime);
        DeliveredMore(old(Histories(pool)), before, Histories(pool), nodes[..i], [nodes[i]], event, inTime);
      }
      assert nodes[..|nodes|] == nodes;
    }

    method PostponeOne(d: Delayed)
      requires Valid() && d.conn in pool && AskedDelay(requests, d.conn)
      modifies this`delayed
      ensures Valid() && delayed == old(delayed) + [d]
    {
      hide AllValid, IndexOk, OneCallback, AskedDelay;
      delayed := delayed + [d];
    }

    /** One event for one node: at once, later under the name it chose, or not at all. */
    method PostNode(n: EventNode<Connection>, event: Event, ghost inTime: set<int>)
      requires Valid() && n.subscriber in pool && Asked(requests, n)
      modifies this`delayed, pool`waitingPost, pool`waitingTimeout, pool`listPost, pool`timers, pool`sent, pool`history
      ensures Valid() && Delivered(old(Histories(pool)), Histories(pool), Immediate([n]), event, inTime)
      ensures delayed == old(delayed) + Postponed([n], event.body)
    {
      assert Immediate([n]) == if n.eventid == DEFAULT then [n] else [];
      assert Postponed([n], event.body) ==
        if n.eventid == POST_DELAY then [Delayed(n.subscriber, Event(n.eventname, event.body), n.eventarg)] else [];
      hide Valid, Delivered, Immediate, Postponed, Histories;
      ghost var before := Histories(pool);
      NoneDelivered(before, event, inTime);
      if n.eventid == DEFAULT {
        DeliverOne(n.subscriber, event, inTime);
        OneDelivered(before, n, event, inTime);
      } else if n.eventid == POST_DELAY {
        assert AskedDelay(requests, n.subscriber);
        PostponeOne(Delayed(n.subscriber, Event(n.eventname, event.body), n.eventarg));
      }
    }

    /**
     Tells the subscribers of a tag: each node of kind 1 at once, each of kind 2 later, and no other. More than 500
     nodes stop the server.
     */
    method NotifySubscriber(tag: string, body: seq<byte>, ghost inTime: set<int>) returns (storm: bool)
      requires Valid()
      modifies this`delayed, pool`waitingPost, pool`waitingTimeout, pool`listPost, pool`timers, pool`sent, pool`history
      ensures Valid() && (storm <==> |Nodes(subscriber.mapSubject, tag)| > 500)
      ensures storm ==> Histories(pool) == old(Histories(pool)) && delayed == old(delayed)
      ensures !storm ==>
        var nodes := Nodes(subscriber.mapSubject, tag);
        && Told(old(Histories(pool)), Histories(pool), nodes, tag, body, inTime)
        && PutOff(old(delayed), delayed, nodes, body)
      ensures Clean(requests) ==> Nodes(subscriber.mapSubject, tag) == Live(requests, tag)
    {
      var nodes := subscriber.GetSubscriber(tag);
      NodesAreKnown(Ix(), start, requests, pool, tag);
      hide Valid, Histories, Delivered, Immediate, Postponed, Live, Told, PutOff;
      storm := |nodes| > STORM;
      if !storm {
        PostNodes(nodes, Event(tag, body), inTime);
        DeliveredIsTold(old(Histories(pool)), Histories(pool), nodes, tag, body, inTime);
        PostponedIsPutOff(old(delayed), nodes, body);
      }
    }

    method PostNodes(nodes: seq<EventNode<Connection>>, event: Event, ghost inTime: set<int>)
      requires Valid() && forall n :: n in nodes ==> n.subscriber in pool && Asked(requests, n)
      modifies this`delayed, pool`waitingPost, pool`waitingTimeout, pool`listPost, pool`timers, pool`sent, pool`history
      ensures Valid() && delayed == old(delayed) + Postponed(nodes, event.body)
      ensures Delivered(old(Histories(pool)), Histories(pool), Immediate(nodes), event, inTime)
    {
      hide Valid, Histories, Delivered, Immediate, Postponed;
      NoNodes(event.body);
      NoneDelivered(Histories(pool), event, inTime);
      for i := 0 to |nodes|
        invariant Valid() && delayed == old(delayed) + Postponed(nodes[..i], event.body)
        invariant Delivered(old(Histories(pool)), Histories(pool), Immediate(nodes[..i]), event, inTime)
      {
        OneMoreNode(nodes, i, event.body);
        ghost var before := Histories(pool);
        PostNode(nodes[i], event, inTime);
        DeliveredMore(old(Histories(pool)), before, Histories(pool), Immediate(nodes[..i]), Immediate([nodes[i]]),
            event, inTime);
      }
      assert nodes[..|nodes|] == nodes;
    }

    /**
     A server timer ticked: every subscriber gets the event at once, whatever kind of event it asked for. The tick comes
     on the thread of the timer manager, so no callback is under way.
     */
    method NotifyTimerSubscriber(timerName: string, body: seq<byte>, ghost inTime: set<int>)
      requires Valid() && running.None?
      modifies pool`waitingPost, pool`waitingTimeout, pool`listPost, pool`timers, pool`sent, pool`history
      ensures Valid()
      ensures
        var name := if |timerName| > 39 then timerName[..39] else timerName;
        Ticked(old(Histories(pool)), Histories(pool), Nodes(subscriber.mapSubject, timerName), Event(name, body),
          inTime)
      ensures Clean(requests) ==> Nodes(subscriber.mapSubject, timerName) == Live(requests, timerName)
    {
      var nodes := subscriber.GetSubscriber(timerName);
      NodesAreKnown(Ix(), start, requests, pool, timerName);
      hide Valid, Delivered, Histories, Ticked;
      var name := if |timerName| > NAMEMAX then timerName[..NAMEMAX] else timerName;
      DeliverTo(nodes, Event(name, body), inTime);
      DeliveredIsTicked(old(Histories(pool)), Histories(pool), nodes, Event(name, body), inTime);
    }

    /** A value for a PLC goes to the server registered for the tag, if there is one. */
    method NotifyPlcIoServer(tag: string, body: seq<byte>, ghost inTime: set<int>) returns (found: bool)
      requires Valid()
      modifies pool`waitingPost, pool`waitingTimeout, pool`listPost, pool`timers, pool`sent, pool`history
      ensures Valid() && (found <==> tag in subscriber.mapSubjectPlcIoServer)
      ensures !found ==> Histories(pool) == old(Histories(pool))
      ensures found ==>
        var c := subscriber.mapSubjectPlcIoServer[tag];
        c in pool && Histories(pool) == old(Histories(pool))[c := old(c.history) + [Arrive(Event(tag, body), inTime)]]
      ensures Clean(requests) ==> Lookup(subscriber.mapSubjectPlcIoServer, tag) == LivePlc(requests, tag)
    {
      hide Connection.Valid, IndexOk, DelaysAsked, OneCallback;
      var server := subscriber.GetPlcIoServer(tag);
      NodesAreKnown(Ix(), start, requests, pool, tag);
      found := server.Some?;
      if found {
        DeliverOne(server.value, Event(tag, body), inTime);
      }
    }

    method TakeDelayed(k: nat) returns (d: Delayed)
      requires Valid() && k < |delayed|
      modifies this`delayed
      ensures Valid() && d == old(delayed[k]) && delayed == old(delayed[..k] + delayed[k + 1..])
      ensures d.conn in pool && AskedDelay(requests, d.conn)
    {
      hide AllValid, IndexOk, OneCallback, AskedDelay;
      d := delayed[k];
      assert forall e :: e in delayed[..k] + delayed[k + 1..] ==> e in delayed;
      delayed := delayed[..k] + delayed[k + 1..];
    }

    method BeginOne(d: Delayed)
      requires Valid() && running.None? && d.conn in pool && AskedDelay(requests, d.conn)
      modifies this`running, pool`phase, pool`history
      ensures Valid() && running == Some(d.conn)
      ensures Histories(pool) == old(Histories(pool)[d.conn := d.conn.history + [Begin(d.event)]])
    {
      hide Connection.Valid, Ix, IndexOk, DelaysAsked;
      JournalMore(Histories(pool), d.conn, Begin(d.event), delayed, requests);
      ghost var h := Histories(pool);
      d.conn.DelayedBegin(d.event);
      running := Some(d.conn);
      assert Histories(pool) == h[d.conn := h[d.conn] + [Begin(d.event)]];
      assert OneCallback(pool, running);
    }

    /** The timer of a delayed event rings, of which several may be due in any order. */
    method BeginDelayed(k: nat)
      requires Valid() && running.None? && k < |delayed|
      modifies this`delayed, this`running, pool`phase, pool`history
      ensures Valid() && delayed == old(delayed[..k] + delayed[k + 1..]) && running == Some(old(delayed[k].conn))
      ensures Histories(pool)
        == old(Histories(pool)[delayed[k].conn := delayed[k].conn.history + [Begin(delayed[k].event)]])
    {
      hide Valid;
      var d := TakeDelayed(k);
      BeginOne(d);
    }

    /** The callback under way goes on by one piece; handlers on other threads may run before the next. */
    method StepDelayed(ghost inTime: set<int>)
      requires Valid() && running.Some?
      modifies this`running, pool`waitingPost, pool`waitingTimeout, pool`listPost, pool`timers, pool`sent, pool`phase,
        pool`history
      ensures Valid()
      ensures running == if old(running.value).phase.Quiet? then None else old(running)
      ensures Histories(pool)
        == old(Histories(pool)[running.value := running.value.history + [Next(inTime)]])
    {
      hide Connection.Valid, Ix, IndexOk, DelaysAsked;
      var c := running.value;
      JournalMore(Histories(pool), c, Next(inTime), delayed, requests);
      ghost var h := Histories(pool);
      c.DelayedNext(inTime);
      running := if c.phase.Quiet? then None else running;
      assert Histories(pool) == h[c := h[c] + [Next(inTime)]];
      assert OneCallback(pool, running);
    }

    method HandlePostWait(c: Connection, timeout: int, newTimer: int)
      requires Valid() && c in pool
      modifies c`waitingPost, c`waitingTimeout, c`listPost, c`timerId, c`timers, c`sent, c`history
      ensures Valid() && c.history == old(c.history) + [Wait(timeout, newTimer)]
    {
      hide Connection.Valid, IndexOk, DelaysAsked;
      JournalMore(Histories(pool), c, Wait(timeout, newTimer), delayed, requests);
      ghost var h := Histories(pool);
      c.HandlePostWait(timeout, newTimer);
      assert Histories(pool) == h[c := h[c] + [Wait(timeout, newTimer)]];
    }

    /** Timeouts run on the thread of the timer manager, between its callbacks. */
    method TimeoutCallback(c: Connection, ghost timer: int)
      requires Valid() && running.None? && c in pool && timer in c.timers
      modifies c`waitingPost, c`waitingTimeout, c`timers, c`sent, c`history
      ensures Valid() && c.history == old(c.history) + [TimerFires(timer)]
    {
      hide Connection.Valid, IndexOk, DelaysAsked;
      JournalMore(Histories(pool), c, TimerFires(timer), delayed, requests);
      ghost var h := Histories(pool);
      c.TimeoutCallback(timer);
      assert Histories(pool) == h[c := h[c] + [TimerFires(timer)]];
    }

    method HangUpOne(c: Connection, ghost inTime: set<int>)
      requires Valid() && c in pool
      modifies c`waitingTimeout, c`timers, c`history
      ensures Valid() && !c.waitingTimeout && c.history == old(c.history) + [ConnAction.HangUp(inTime)]
    {
      hide Connection.Valid, IndexOk, DelaysAsked;
      JournalMore(Histories(pool), c, ConnAction.HangUp(inTime), delayed, requests);
      ghost var h := Histories(pool);
      c.HangUp(inTime);
      assert Histories(pool) == h[c := h[c] + [ConnAction.HangUp(inTime)]];
    }

    /** The client has gone. */
    method ReadFailed(c: Connection, ghost inTime: set<int>)
      requires Valid() && c in pool
      modifies this`requests, subscriber, c
      ensures Valid() && requests == old(requests) + [Cancelled(c)] && !c.waitingTimeout
      ensures c.history == old(c.history) + [ConnAction.HangUp(inTime)]
      ensures Clean(requests) ==> forall tag :: Absent(Ix(), c, tag)
    {
      CancelSubscribe(c);
      hide Valid;
      HangUpOne(c, inTime);
      NothingLeft(Ix(), start, old(requests), pool, c);
    }
  }

  /** After a clean history a cancelled connection has nothing left in the index. */
  lemma NothingLeft(ix: Index<Connection>, start: Index<Connection>, requests: seq<Request<Connection>>,
                    pool: set<Connection>, c: Connection)
    requires IndexOk(ix, start, requests + [Cancelled(c)], pool)
    ensures Clean(requests + [Cancelled(c)]) ==> forall tag :: Absent(ix, c, tag)
  {
    if Clean(requests + [Cancelled(c)]) {
      IndexIsHistory(start, requests + [Cancelled(c)]);
      hide Live, LivePlc, Reversed;
      forall tag ensures Absent(ix, c, tag) {
        LiveOneMore(requests, Cancelled(c), tag);
        LivePlcOneMore(requests, Cancelled(c), tag);
        OthersHasNone(Live(requests, tag), c);
      }
    }
  }

  lemma NoNodes(body: seq<byte>)
    ensures Immediate([]) == [] && Postponed([], body) == []
  {
  }

  lemma OneMoreNode(nodes: seq<EventNode<Connection>>, i: nat, body: seq<byte>)
    requires i < |nodes|
    ensures Postponed(nodes[..i + 1], body) == Postponed(nodes[..i], body) + Postponed([nodes[i]], body)
    ensures Immediate(nodes[..i + 1]) == Immediate(nodes[..i]) + Immediate([nodes[i]])
  {
    assert nodes[..i + 1][..i] == nodes[..i];
    assert [nodes[i]][..0] == [];
  }

  /** What each connection of the pool has gone through. */
  ghost function Histories(pool: set<Connection>): Journal
    reads pool`history
  {
    map c | c in pool :: c.history
  }

  /** Between `h` and `h'` every connection got the event once for each of its nodes, and nothing else. */
  ghost predicate Delivered(h: Journal, h': Journal,
                            nodes: seq<EventNode<Connection>>, event: Event, inTime: set<int>) {
    h'.Keys == h.Keys && forall c :: c in h ==> h'[c] == h[c] + Arrivals(nodes, c, event, inTime)
  }

  lemma NoneDelivered(h: Journal, event: Event, inTime: set<int>)
    ensures Delivered(h, h, [], event, inTime)
  {
  }

  lemma OneDelivered(h: Journal, n: EventNode<Connection>, event: Event, inTime: set<int>)
    requires n.subscriber in h
    ensures Delivered(h, h[n.subscriber := h[n.subscriber] + [Arrive(event, inTime)]], [n], event, inTime)
  {
    var h' := h[n.subscriber := h[n.subscriber] + [Arrive(event, inTime)]];
    assert [n][..0] == [];
    forall c | c in h ensures h'[c] == h[c] + Arrivals([n], c, event, inTime) {
      assert Arrivals([n], c, event, inTime) == if c == n.subscriber then [Arrive(event, inTime)] else [];
    }
  }

  lemma {:induction false} ArrivalsConcat(a: seq<EventNode<Connection>>, b: seq<EventNode<Connection>>, c: Connection,
                                          event: Event, inTime: set<int>)
    ensures Arrivals(a + b, c, event, inTime) == Arrivals(a, c, event, inTime) + Arrivals(b, c, event, inTime)
  {
    if b == [] {
      assert a + b == a;
    } else {
      assert (a + b)[..|a + b| - 1] == a + b[..|b| - 1];
      ArrivalsConcat(a, b[..|b| - 1], c, event, inTime);
    }
  }

  lemma DeliveredMore(h: Journal, h1: Journal, h2: Journal,
                      a: seq<EventNode<Connection>>, b: seq<EventNode<Connection>>, event: Event, inTime: set<int>)
    requires Delivered(h, h1, a, event, inTime) && Delivered(h1, h2, b, event, inTime)
    ensures Delivered(h, h2, a + b, event, inTime)
  {
    forall c | c in h ensures h2[c] == h[c] + Arrivals(a + b, c, event, inTime) {
      ArrivalsConcat(a, b, c, event, inTime);
    }
  }

  /** The index holds what connections of the pool asked for; after a clean history, all that is live and no more. */
  lemma NodesAreKnown(ix: Index<Connection>, start: Index<Connection>, requests: seq<Request<Connection>>,
                      pool: set<Connection>, tag: string)
    requires IndexOk(ix, start, requests, pool)
    ensures forall n :: n in Nodes(ix.subjects, tag) ==> n.subscriber in pool && Asked(requests, n)
    ensures tag in ix.plc ==> ix.plc[tag] in pool
    ensures Clean(requests) ==> Nodes(ix.subjects, tag) == Live(requests, tag)
    ensures Clean(requests) ==> Lookup(ix.plc, tag) == LivePlc(requests, tag)
  {
    hide Live, LivePlc, Reversed;
    forall n | n in Nodes(ix.subjects, tag) ensures n.subscriber in pool && Asked(requests, n) {
      NodesWereAsked(start, requests, tag, n);
      assert Asker(Subscribed(tag, n)) in pool;
    }
    if tag in ix.plc {
      ServerWasAsked(start, requests, tag, ix.plc[tag]);
      assert Asker(Registered(tag, ix.plc[tag])) in pool;
    }
    if Clean(requests) {
      IndexIsHistory(start, requests);
    }
  }

  /** The timer thread works on one delayed event at a time. */
  ghost predicate OneCallback(pool: set<Connection>, running: Option<Connection>)
    reads pool`phase
  {
    && (forall c :: c in pool && running != Some(c) ==> c.phase.Quiet?)
    && (running.Some? ==> running.value in pool && !running.value.phase.Quiet?)
  }

  /** A connection that never asked for delayed events keeps all three promises. */
  lemma UndelayedKeepsPromises(s: CLogicSocket, c: Connection)
    requires s.Valid() && c in s.pool && !AskedDelay(s.requests, c)
    ensures Consistent(c.State()) && InOrder(c.born, c.history)
    ensures Owed(c.State()) + Overlapping(c.born, c.history) == |Waits(c.history)|
  {
    hide IndexOk, AskedDelay, Consistent, InOrder, Owed, Overlapping, Waits;
    assert Histories(s.pool)[c] == c.history;
    ConnectionKeepsItsPromise(c);
  }

  ghost predicate AllValid(pool: set<Connection>)
    reads pool`waitingPost, pool`waitingTimeout, pool`listPost, pool`timerId, pool`timers, pool`sent, pool`phase,
        pool`born, pool`history
  {
    forall c :: c in pool ==> c.Valid()
  }

  ghost function TagsOf(pool: set<Connection>): map<Connection, seq<string>>
    reads pool`listTag
  {
    map c | c in pool :: c.listTag
  }

  ghost function PlcTagsOf(pool: set<Connection>): map<Connection, seq<string>>
    reads pool`listPlcTag
  {
    map c | c in pool :: c.listPlcTag
  }

  /** The index is what the requests so far made of an empty one. */
  ghost predicate IndexOk(ix: Index<Connection>, start: Index<Connection>, requests: seq<Request<Connection>>,
                          pool: set<Connection>) {
    && start.subjects == map[] && start.plc == map[] && ix == Serve(start, requests)
    && (forall r :: r in requests ==> Asker(r) in pool)
  }

  lemma CancelledIndex(ix: Index<Connection>, ix': Index<Connection>, c: Connection)
    requires ix'.subjects == DetachAll(ix.subjects, Tags(ix.tags, c), c)
      && ix'.plc == DetachPlcAll(ix.plc, Tags(ix.plcTags, c), c)
    requires ix'.tags == ix.tags[c := []] && ix'.plcTags == ix.plcTags[c := []]
    ensures ix' == Apply(ix, Cancelled(c))
  {
  }

  lemma Answered(ix: Index<Connection>, start: Index<Connection>, asked: seq<Request<Connection>>,
                 pool: set<Connection>, r: Request<Connection>)
    requires IndexOk(ix, start, asked, pool) && Asker(r) in pool
    ensures IndexOk(Apply(ix, r), start, asked + [r], pool)
  {
    assert (asked + [r])[..|asked|] == asked;
  }
}
