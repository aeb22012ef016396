/**
 The timer manager: a heap of nodes by expiry, a table of the timers that can still be cancelled, nodes that are marked
 invalid in place, and one pass over everything that is due. A node is known by the number of its timer.
 */
module Timers {
  import opened Bytes

  const WORD := 0x1_0000_0000_0000_0000

  /** Milliseconds, as the 64-bit words they are kept in. */
  type uint64 = x: int | 0 <= x < WORD

  datatype Node = Node(expire: uint64, interval: uint64, valid: bool)

  /** `nodes` are all nodes ever made, `heap` the numbers of those in the heap, `timers` those in the table. */
  datatype Timers = Timers(nodes: map<int, Node>, heap: seq<int>, timers: set<int>, nextId: int)

  /** A sum as it is kept in a 64-bit word. */
  function Wrapped(n: nat): uint64 {
    n % WORD
  }

  lemma WrappedSmall(n: nat)
    requires n < WORD
    ensures Wrapped(n) == n
  {
  }

  // ---- Rescheduling ----

  function Max(a: int, b: int): int {
    if a > b then a else b
  }

  function Min(a: int, b: int): int {
    if a < b then a else b
  }

  /** The next expiry of a periodic timer, computed in 64-bit words. */
  function Rescheduled(expire: uint64, interval: uint64, now: uint64): uint64 {
    var drift := (now - expire) % WORD;
    (now + interval - Min(drift, interval)) % WORD
  }

  /** The compensation is one interval later, or now if that has passed already, exactly when that fits in a word. */
  lemma RescheduleIff(expire: uint64, interval: uint64, now: uint64)
    requires expire <= now
    ensures Rescheduled(expire, interval, now) == Max(expire + interval, now) <==> expire + interval < WORD
  {
  }

  /**
   A timer with the longest interval there is, looked at ten milliseconds after the clock started, is due four times
   in a row.
   */
  lemma LongIntervalRunsWild()
    ensures
      var interval: uint64 := WORD - 3;
      var e1: uint64 := Rescheduled((10 + interval) % WORD, interval, 10);
      var e2: uint64 := Rescheduled(e1, interval, 10);
      (10 + interval) % WORD <= 10 && e1 <= 10 && e2 <= 10 && Rescheduled(e2, interval, 10) > 10
  {
  }

  /** The expiry after a timer was rescheduled at each of the given times. */
  function Expiry(expire: uint64, interval: uint64, times: seq<uint64>): uint64 {
    if times == [] then expire
    else Rescheduled(Expiry(expire, interval, times[..|times| - 1]), interval, times[|times| - 1])
  }

  function Phase(expire: uint64, interval: uint64, n: nat): int {
    if n == 0 then expire else Phase(expire, interval, n - 1) + interval
  }

  /**
   A timer looked at when it is due, over and over: it keeps its exact phase as long as no look is more than one
   interval late.
   */
  lemma {:induction false} PhaseIsKeptIff(expire: uint64, interval: uint64, times: seq<uint64>)
    requires forall k :: 0 <= k < |times| ==>
      Expiry(expire, interval, times[..k]) <= times[k] && times[k] + interval < WORD
    ensures Expiry(expire, interval, times) >= Phase(expire, interval, |times|)
    ensures Expiry(expire, interval, times) == Phase(expire, interval, |times|)
      <==> forall k :: 0 <= k < |times| ==> times[k] <= Phase(expire, interval, k) + interval
  {
    hide Rescheduled;
    if times != [] {
      var n := |times| - 1;
      var init := times[..n];
      forall k | 0 <= k < n ensures init[..k] == times[..k] && init[k] == times[k] {
      }
      PhaseIsKeptIff(expire, interval, init);
      RescheduleIff(Expiry(expire, interval, init), interval, times[n]);
    }
  }

  /** A run more than one interval late gives the phase up. */
  lemma LateRunLosesPhase(expire: uint64, interval: uint64, now: uint64)
    requires expire + interval < WORD && expire <= now
    ensures Rescheduled(expire, interval, now) == expire + interval <==> now - expire <= interval
  {
  }

  // ---- The steps ----

  function Added(tm: Timers, now: uint64, delay: uint64, interval: uint64): Timers {
    var id := tm.nextId;
    Timers(tm.nodes[id := Node(Wrapped(now + delay), interval, true)], tm.heap + [id], tm.timers + {id}, id + 1)
  }

  function Cancelled(tm: Timers, id: int): Timers {
    if id in tm.timers && id in tm.nodes then
      tm.(nodes := tm.nodes[id := tm.nodes[id].(valid := false)], timers := tm.timers - {id})
    else tm
  }

  function Popped(tm: Timers, i: nat): Timers
    requires i < |tm.heap|
  {
    tm.(heap := Without(tm.heap, i))
  }

  function Finished(tm: Timers, id: int, now: uint64): Timers
    requires id in tm.nodes
  {
    var n := tm.nodes[id];
    if n.interval > 0 && n.valid then
      tm.(nodes := tm.nodes[id := n.(expire := Rescheduled(n.expire, n.interval, now))], heap := tm.heap + [id])
    else
      tm.(timers := tm.timers - {id})
  }

  /** The node is valid, and in the heap or running. */
  ghost predicate Stands(tm: Timers, running: Option<int>, id: int) {
    id in tm.nodes && tm.nodes[id].valid && (id in tm.heap || running == Some(id))
  }

  /** The table holds the valid nodes of the heap and the one whose callback runs, and nothing else. */
  ghost predicate Ok(tm: Timers, running: Option<int>) {
    && (forall id :: id in tm.nodes ==> id < tm.nextId)
    && (forall i :: 0 <= i < |tm.heap| ==> tm.heap[i] in tm.nodes && running != Some(tm.heap[i]))
    && (forall i, j :: 0 <= i < j < |tm.heap| ==> tm.heap[i] != tm.heap[j])
    && (running.Some? ==> running.value in tm.nodes)
    && (forall id :: id in tm.timers <==> Stands(tm, running, id))
  }

  predicate IsTop(tm: Timers, i: nat) {
    && i < |tm.heap| && tm.heap[i] in tm.nodes
    && forall j :: 0 <= j < |tm.heap| && tm.heap[j] in tm.nodes ==>
      tm.nodes[tm.heap[i]].expire <= tm.nodes[tm.heap[j]].expire
  }

  lemma AddedOk(tm: Timers, running: Option<int>, now: uint64, delay: uint64, interval: uint64)
    requires Ok(tm, running)
    ensures Ok(Added(tm, now, delay, interval), running)
  {
  }

  lemma CancelledOk(tm: Timers, running: Option<int>, id: int)
    requires Ok(tm, running)
    ensures Ok(Cancelled(tm, id), running) && id !in Cancelled(tm, id).timers
  {
  }

  lemma PoppedOk(tm: Timers, i: nat)
    requires Ok(tm, None) && i < |tm.heap|
    ensures Ok(Popped(tm, i), if tm.nodes[tm.heap[i]].valid then Some(tm.heap[i]) else None)
  {
    var id, heap' := tm.heap[i], Without(tm.heap, i);
    assert forall j :: 0 <= j < |heap'| ==> heap'[j] == tm.heap[if j < i then j else j + 1];
    forall o ensures o in tm.heap <==> o in heap' || o == id {
      if o in tm.heap && o != id {
        var j :| 0 <= j < |tm.heap| && tm.heap[j] == o;
        assert heap'[if j < i then j else j - 1] == o;
      }
    }
  }

  lemma FinishedOk(tm: Timers, id: int, now: uint64)
    requires Ok(tm, Some(id))
    ensures Ok(Finished(tm, id, now), None)
  {
  }

  // ---- How often a timer is due within one pass ----

  /** How many callbacks a pass at `now` owes a timer; `running` has one of them under way. */
  function Due(tm: Timers, id: int, now: uint64, running: Option<int>): int {
    if id !in tm.timers || id !in tm.nodes || tm.nodes[id].expire > now then 0
    else Turns(tm.nodes[id], now) - if running == Some(id) then 1 else 0
  }

  /** A timer that is due runs once, one that is a whole interval late twice. */
  function Turns(n: Node, now: uint64): nat {
    if n.interval > 0 && n.expire + n.interval <= now then 2 else 1
  }

  function TurnsOf(tm: Timers, id: int, now: uint64): nat {
    if id in tm.nodes then Turns(tm.nodes[id], now) else 0
  }

  /** The clock is far enough from its end for every periodic timer. */
  ghost predicate Roomy(tm: Timers, now: uint64) {
    forall id :: id in tm.timers && id in tm.nodes ==> now + tm.nodes[id].interval < WORD
  }

  /** What the pass has still to do: the sum over the heap. */
  function Work(nodes: map<int, Node>, heap: seq<int>, now: uint64): nat {
    if heap == [] then 0
    else Work(nodes, heap[..|heap| - 1], now) + WorkOf(nodes, heap[|heap| - 1], now)
  }

  function WorkOf(nodes: map<int, Node>, id: int, now: uint64): nat {
    if id !in nodes || nodes[id].expire > now then 0 else if nodes[id].valid then Turns(nodes[id], now) else 1
  }

  lemma {:induction false} WorkConcat(nodes: map<int, Node>, a: seq<int>, b: seq<int>, now: uint64)
    ensures Work(nodes, a + b, now) == Work(nodes, a, now) + Work(nodes, b, now)
  {
    if b == [] {
      assert a + b == a;
    } else {
      assert (a + b)[..|a + b| - 1] == a + b[..|b| - 1];
      WorkConcat(nodes, a, b[..|b| - 1], now);
    }
  }

  lemma WorkWithout(nodes: map<int, Node>, heap: seq<int>, i: nat, now: uint64)
    requires i < |heap|
    ensures Work(nodes, heap, now) == Work(nodes, Without(heap, i), now) + WorkOf(nodes, heap[i], now)
  {
    assert heap == heap[..i] + [heap[i]] + heap[i + 1..];
    WorkConcat(nodes, heap[..i] + [heap[i]], heap[i + 1..], now);
    WorkConcat(nodes, heap[..i], [heap[i]], now);
    WorkConcat(nodes, heap[..i], heap[i + 1..], now);
    assert [heap[i]][..0] == [];
  }

  lemma {:induction false} WorkFrame(nodes: map<int, Node>, nodes': map<int, Node>, heap: seq<int>, now: uint64)
    requires forall i :: 0 <= i < |heap| ==> WorkOf(nodes', heap[i], now) <= WorkOf(nodes, heap[i], now)
    ensures Work(nodes', heap, now) <= Work(nodes, heap, now)
  {
    if heap != [] {
      WorkFrame(nodes, nodes', heap[..|heap| - 1], now);
    }
  }

  // ---- What other threads, or the callback itself, do while a callback runs ----

  /** Each with what the clock showed. */
  datatype Op = Add(now: uint64, delay: uint64, interval: uint64) | Cancel(now: uint64, id: int)

  function Effect(tm: Timers, op: Op): Timers {
    match op
    case Add(now, delay, interval) => Added(tm, now, delay, interval)
    case Cancel(_, id) => Cancelled(tm, id)
  }

  predicate Cancels(op: Op, id: int) {
    op.Cancel? && op.id == id
  }

  /** The clock has not gone back since the pass began at `now`, and the times of an addition fit in words. */
  predicate Sane(op: Op, now: uint64) {
    op.Add? ==> now <= op.now && op.now + op.delay < WORD && now + op.interval < WORD
  }

  /** The additions among some operations; each can be due at once. */
  function Additions(ops: seq<Op>): nat {
    if ops == [] then 0 else Additions(ops[..|ops| - 1]) + Adding(ops[|ops| - 1])
  }

  function Adding(op: Op): nat {
    if op.Add? then 1 else 0
  }

  /** The additions still to come from place `k` on. */
  function AdditionsLeft(script: seq<seq<Op>>, k: nat): nat
    decreases |script| - k
  {
    if k >= |script| then 0 else Additions(script[k]) + AdditionsLeft(script, k + 1)
  }

  lemma EffectKeeps(tm: Timers, running: Option<int>, op: Op, now: uint64)
    requires Ok(tm, running) && Roomy(tm, now) && Sane(op, now)
    ensures Ok(Effect(tm, op), running) && Roomy(Effect(tm, op), now) && tm.nextId <= Effect(tm, op).nextId
    ensures Work(Effect(tm, op).nodes, Effect(tm, op).heap, now) <= Work(tm.nodes, tm.heap, now) + Adding(op)
  {
    if op.Add? {
      AddKeeps(tm, running, op.now, op.delay, op.interval, now);
    } else {
      CancelKeeps(tm, running, op.id, now);
    }
  }

  lemma AddKeeps(tm: Timers, running: Option<int>, at: uint64, delay: uint64, interval: uint64, now: uint64)
    requires Ok(tm, running) && Roomy(tm, now) && now <= at && at + delay < WORD && now + interval < WORD
    ensures var tm' := Added(tm, at, delay, interval);
      Ok(tm', running) && Roomy(tm', now) && Work(tm'.nodes, tm'.heap, now) <= Work(tm.nodes, tm.heap, now) + 1
  {
    var tm' := Added(tm, at, delay, interval);
    AddedOk(tm, running, at, delay, interval);
    AddedRoomy(tm, running, at, delay, interval, now);
    hide Ok, Roomy, Work, WorkOf;
    assert tm'.heap == tm.heap + [tm.nextId];
    WorkFrame(tm.nodes, tm'.nodes, tm.heap, now);
    WorkOneMore(tm'.nodes, tm.heap, tm.nextId, now);
  }

  lemma AddedRoomy(tm: Timers, running: Option<int>, at: uint64, delay: uint64, interval: uint64, now: uint64)
    requires Ok(tm, running) && Roomy(tm, now) && now <= at && at + delay < WORD && now + interval < WORD
    ensures Roomy(Added(tm, at, delay, interval), now)
    ensures WorkOf(Added(tm, at, delay, interval).nodes, tm.nextId, now) <= 1
    ensures forall i :: 0 <= i < |tm.heap| ==>
      WorkOf(Added(tm, at, delay, interval).nodes, tm.heap[i], now) == WorkOf(tm.nodes, tm.heap[i], now)
  {
    WrappedSmall(at + delay);
    hide Wrapped;
  }

  lemma WorkOneMore(nodes: map<int, Node>, heap: seq<int>, id: int, now: uint64)
    ensures Work(nodes, heap + [id], now) == Work(nodes, heap, now) + WorkOf(nodes, id, now)
  {
    assert (heap + [id])[..|heap|] == heap;
  }

  lemma CancelKeeps(tm: Timers, running: Option<int>, id: int, now: uint64)
    requires Ok(tm, running) && Roomy(tm, now)
    ensures var tm' := Cancelled(tm, id);
      Ok(tm', running) && Roomy(tm', now) && Work(tm'.nodes, tm'.heap, now) <= Work(tm.nodes, tm.heap, now)
  {
    CancelledOk(tm, running, id);
    hide Ok, Work;
    WorkFrame(tm.nodes, Cancelled(tm, id).nodes, tm.heap, now);
  }

  lemma EffectOnDue(tm: Timers, running: Option<int>, op: Op, now: uint64, id: int)
    requires Ok(tm, running) && Sane(op, now) && id < tm.nextId
    ensures Due(Effect(tm, op), id, now, running) <= Due(tm, id, now, running)
    ensures !Cancels(op, id) ==> Due(Effect(tm, op), id, now, running) == Due(tm, id, now, running)
  {
  }

  // ---- One pass over the due timers ----

  datatype Firing = Firing(id: int, expire: int)

  function Count(fired: seq<Firing>, id: int): nat {
    if fired == [] then 0
    else Count(fired[..|fired| - 1], id) + if fired[|fired| - 1].id == id then 1 else 0
  }

  /**
   For the timers there were at the start: callbacks already run plus callbacks still owed are what was owed at the
   start, less what was cancelled.
   */
  ghost predicate Balance(tm0: Timers, tm: Timers, now: uint64, fired: seq<Firing>, cancelled: set<int>,
                          running: Option<int>) {
    && (forall id :: id < tm0.nextId ==> Count(fired, id) + Due(tm, id, now, running) <= Due(tm0, id, now, None))
    && (forall id :: id < tm0.nextId && id !in cancelled ==>
      Count(fired, id) + Due(tm, id, now, running) == Due(tm0, id, now, None))
  }

  /** Callbacks ran in order of expiry, all due, and before everything still in the heap. */
  ghost predicate Ordered(tm: Timers, now: uint64, fired: seq<Firing>) {
    && (forall i, j :: 0 <= i < j < |fired| ==> fired[i].expire <= fired[j].expire)
    && (forall i :: 0 <= i < |fired| ==> fired[i].expire <= now)
    && (forall i, k :: 0 <= i < |fired| && 0 <= k < |tm.heap| && tm.heap[k] in tm.nodes ==>
      fired[i].expire <= tm.nodes[tm.heap[k]].expire)
  }

  /** The node of a timer that a pass has run `n` times, and the pass has not yet put it off to after `now`. */
  function AfterRuns(node: Node, now: uint64, n: nat): Node {
    if n == 0 || node.interval == 0 then node
    else if n == 1 then node.(expire := Wrapped(Max(node.expire + node.interval, now)))
    else node.(expire := Wrapped(now + node.interval))
  }

  /** Where the node of a timer is that nobody cancelled, given how often the pass has run it. */
  ghost predicate OnItsWay(tm0: Timers, tm: Timers, now: uint64, fired: seq<Firing>, running: Option<int>, id: int)
    requires id in tm0.nodes
  {
    var n := Count(fired, id);
    && id in tm.nodes && n <= 2 && (n > 0 ==> tm0.nodes[id].expire <= now)
    && (running == Some(id) ==> n > 0 && id in tm.timers && tm.nodes[id] == AfterRuns(tm0.nodes[id], now, n - 1))
    && (running != Some(id) ==>
          && tm.nodes[id] == AfterRuns(tm0.nodes[id], now, n)
          && (id in tm.timers <==> n == 0 || tm0.nodes[id].interval > 0))
  }

  ghost predicate Progress(tm0: Timers, tm: Timers, now: uint64, fired: seq<Firing>, cancelled: set<int>,
                           running: Option<int>) {
    forall id :: id in tm0.timers && id in tm0.nodes && id !in cancelled ==>
      OnItsWay(tm0, tm, now, fired, running, id)
  }

  ghost predicate NoneRevived(tm0: Timers, tm: Timers) {
    tm0.nextId <= tm.nextId && forall id :: id in tm.timers ==> id in tm0.timers || id >= tm0.nextId
  }

  ghost predicate PassOk(tm0: Timers, tm: Timers, now: uint64, fired: seq<Firing>, cancelled: set<int>,
                         running: Option<int>) {
    && Ok(tm, running) && Roomy(tm, now) && NoneRevived(tm0, tm)
    && Balance(tm0, tm, now, fired, cancelled, running) && Ordered(tm, now, fired)
    && Progress(tm0, tm, now, fired, cancelled, running)
    && (running.Some? ==> running.value in tm.nodes && tm.nodes[running.value].expire <= now)
  }

  lemma PassStarts(tm: Timers, now: uint64)
    requires Ok(tm, None) && Roomy(tm, now)
    ensures PassOk(tm, tm, now, [], {}, None)
  {
  }

  lemma WayFired(tm0: Timers, tm: Timers, now: uint64, fired: seq<Firing>, i: nat, o: int)
    requires Ok(tm, None) && Roomy(tm, now) && i < |tm.heap| && tm.nodes[tm.heap[i]].expire <= now
    requires tm.nodes[tm.heap[i]].valid
    requires o in tm0.nodes && OnItsWay(tm0, tm, now, fired, None, o)
    ensures
      var id := tm.heap[i];
      OnItsWay(tm0, Popped(tm, i), now, fired + [Firing(id, tm.nodes[id].expire)], Some(id), o)
  {
    var id := tm.heap[i];
    CountOneMore(fired, Firing(id, tm.nodes[id].expire));
    assert id in tm.heap && id in tm.timers;
    hide Count;
    if o == id {
      WrappedSmall(now + tm.nodes[id].interval);
    }
  }

  lemma WayOn(tm0: Timers, tm: Timers, now: uint64, fired: seq<Firing>, running: Option<int>, op: Op, o: int)
    requires Ok(tm, running) && o in tm0.nodes && OnItsWay(tm0, tm, now, fired, running, o) && !Cancels(op, o)
    ensures OnItsWay(tm0, Effect(tm, op), now, fired, running, o)
  {
    hide Count, AfterRuns;
  }

  lemma WayFinished(tm0: Timers, tm: Timers, now: uint64, fired: seq<Firing>, id: int, o: int)
    requires Ok(tm, Some(id)) && Roomy(tm, now) && tm.nodes[id].expire <= now
    requires o in tm0.nodes && OnItsWay(tm0, tm, now, fired, Some(id), o)
    ensures OnItsWay(tm0, Finished(tm, id, now), now, fired, None, o)
  {
    hide Count, Rescheduled;
    var n := tm.nodes[id];
    if o == id && n.interval > 0 {
      RescheduleIff(n.expire, n.interval, now);
      WrappedSmall(Max(tm0.nodes[id].expire + n.interval, now));
      WrappedSmall(now + n.interval);
    }
  }

  lemma CountOneMore(fired: seq<Firing>, f: Firing)
    ensures forall id :: Count(fired + [f], id) == Count(fired, id) + if f.id == id then 1 else 0
  {
    assert (fired + [f])[..|fired|] == fired;
  }

  lemma HeapWithout(tm: Timers, i: nat)
    requires i < |tm.heap|
    ensures forall k :: 0 <= k < |Popped(tm, i).heap| ==> Popped(tm, i).heap[k] == tm.heap[if k < i then k else k + 1]
  {
  }

  /** A cancelled node is thrown away. */
  lemma DropStep(tm0: Timers, tm: Timers, now: uint64, fired: seq<Firing>, cancelled: set<int>, i: nat)
    requires PassOk(tm0, tm, now, fired, cancelled, None) && IsTop(tm, i) && tm.nodes[tm.heap[i]].expire <= now
      && !tm.nodes[tm.heap[i]].valid
    ensures PassOk(tm0, Popped(tm, i), now, fired, cancelled, None)
    ensures Work(Popped(tm, i).nodes, Popped(tm, i).heap, now) < Work(tm.nodes, tm.heap, now)
  {
    hide Work, Ok, Count;
    PoppedOk(tm, i);
    WorkWithout(tm.nodes, tm.heap, i, now);
    HeapWithout(tm, i);
    hide Without;
  }

  /** A valid node is taken out and its callback starts. */
  lemma FireStep(tm0: Timers, tm: Timers, now: uint64, fired: seq<Firing>, cancelled: set<int>, i: nat)
    requires PassOk(tm0, tm, now, fired, cancelled, None) && IsTop(tm, i) && tm.nodes[tm.heap[i]].expire <= now
      && tm.nodes[tm.heap[i]].valid
    ensures
      var id := tm.heap[i];
      && PassOk(tm0, Popped(tm, i), now, fired + [Firing(id, tm.nodes[id].expire)], cancelled, Some(id))
      && Work(Popped(tm, i).nodes, Popped(tm, i).heap, now) + Turns(tm.nodes[id], now) == Work(tm.nodes, tm.heap, now)
  {
    hide Work, Count, Turns, Ordered, Due, OnItsWay;
    var id := tm.heap[i];
    PoppedOk(tm, i);
    forall o | o in tm0.timers && o in tm0.nodes && o !in cancelled
      ensures OnItsWay(tm0, Popped(tm, i), now, fired + [Firing(id, tm.nodes[id].expire)], Some(id), o) {
      WayFired(tm0, tm, now, fired, i, o);
    }
    WorkWithout(tm.nodes, tm.heap, i, now);
    FireOrder(tm, now, fired, i);
    CountOneMore(fired, Firing(id, tm.nodes[id].expire));
    forall o ensures Due(Popped(tm, i), o, now, Some(id)) == Due(tm, o, now, None) - if o == id then 1 else 0 {
      FireDue(tm, now, i, o);
    }
  }

  lemma FireDue(tm: Timers, now: uint64, i: nat, o: int)
    requires Ok(tm, None) && i < |tm.heap| && tm.nodes[tm.heap[i]].expire <= now && tm.nodes[tm.heap[i]].valid
    ensures Due(Popped(tm, i), o, now, Some(tm.heap[i])) == Due(tm, o, now, None) - if o == tm.heap[i] then 1 else 0
  {
    var id := tm.heap[i];
    assert id in tm.heap && id in tm.timers;
  }

  lemma FireOrder(tm: Timers, now: uint64, fired: seq<Firing>, i: nat)
    requires Ok(tm, None) && Ordered(tm, now, fired) && IsTop(tm, i) && tm.nodes[tm.heap[i]].expire <= now
    ensures Ordered(Popped(tm, i), now, fired + [Firing(tm.heap[i], tm.nodes[tm.heap[i]].expire)])
  {
    HeapWithout(tm, i);
    hide Without;
  }

  lemma EffectStep(tm0: Timers, tm: Timers, now: uint64, fired: seq<Firing>, cancelled: set<int>, id: int, op: Op)
    requires PassOk(tm0, tm, now, fired, cancelled, Some(id)) && Sane(op, now)
    ensures PassOk(tm0, Effect(tm, op), now, fired, if op.Cancel? then cancelled + {op.id} else cancelled, Some(id))
    ensures Work(Effect(tm, op).nodes, Effect(tm, op).heap, now) <= Work(tm.nodes, tm.heap, now) + Adding(op)
    ensures id in tm.nodes && id in Effect(tm, op).nodes
      && Turns(Effect(tm, op).nodes[id], now) == Turns(tm.nodes[id], now)
  {
    hide Work, Count, OnItsWay;
    EffectKeeps(tm, Some(id), op, now);
    forall o | o in tm0.timers && o in tm0.nodes && o !in cancelled && !Cancels(op, o)
      ensures OnItsWay(tm0, Effect(tm, op), now, fired, Some(id), o) {
      WayOn(tm0, tm, now, fired, Some(id), op, o);
    }
    forall o | o < tm.nextId
      ensures Due(Effect(tm, op), o, now, Some(id)) <= Due(tm, o, now, Some(id))
      ensures !Cancels(op, o) ==> Due(Effect(tm, op), o, now, Some(id)) == Due(tm, o, now, Some(id))
    {
      EffectOnDue(tm, Some(id), op, now, o);
    }
  }

  lemma RescheduledLater(n: Node, now: uint64)
    requires n.expire <= now && n.interval > 0 && now + n.interval < WORD
    ensures Rescheduled(n.expire, n.interval, now) >= now
    ensures Turns(n, now) == if Rescheduled(n.expire, n.interval, now) > now then 1 else 2
    ensures Turns(n.(expire := Rescheduled(n.expire, n.interval, now)), now) == 1
  {
    RescheduleIff(n.expire, n.interval, now);
  }

  lemma FinishedWork(tm: Timers, id: int, now: uint64)
    requires Ok(tm, Some(id)) && Roomy(tm, now) && tm.nodes[id].expire <= now
    ensures Work(Finished(tm, id, now).nodes, Finished(tm, id, now).heap, now) < Work(tm.nodes, tm.heap, now)
      + Turns(tm.nodes[id], now)
  {
    hide Rescheduled;
    var n, tm' := tm.nodes[id], Finished(tm, id, now);
    if n.interval > 0 && n.valid {
      RescheduledLater(n, now);
      assert tm'.heap[..|tm'.heap| - 1] == tm.heap;
      WorkFrame(tm.nodes, tm'.nodes, tm.heap, now);
    }
  }

  /** The end of a callback neither pays nor adds to what is owed. */
  lemma FinishedDue(tm: Timers, id: int, now: uint64, o: int)
    requires Ok(tm, Some(id)) && Roomy(tm, now) && tm.nodes[id].expire <= now
    ensures Due(Finished(tm, id, now), o, now, None) == Due(tm, o, now, Some(id))
  {
    hide Rescheduled;
    if tm.nodes[id].interval > 0 && tm.nodes[id].valid {
      RescheduledLater(tm.nodes[id], now);
    }
  }

  lemma FinishedOrder(tm: Timers, id: int, now: uint64, fired: seq<Firing>)
    requires Ok(tm, Some(id)) && Roomy(tm, now) && tm.nodes[id].expire <= now && Ordered(tm, now, fired)
    ensures Ordered(Finished(tm, id, now), now, fired)
  {
    hide Rescheduled;
    if tm.nodes[id].interval > 0 && tm.nodes[id].valid {
      RescheduledLater(tm.nodes[id], now);
    }
  }

  /** The callback is over: a periodic timer that was not cancelled goes back into the heap. */
  lemma FinishStep(tm0: Timers, tm: Timers, now: uint64, fired: seq<Firing>, cancelled: set<int>, id: int)
    requires PassOk(tm0, tm, now, fired, cancelled, Some(id))
    ensures PassOk(tm0, Finished(tm, id, now), now, fired, cancelled, None)
    ensures Work(Finished(tm, id, now).nodes, Finished(tm, id, now).heap, now) < Work(tm.nodes, tm.heap, now)
      + Turns(tm.nodes[id], now)
  {
    hide Work, Count, Due, Turns, Ordered, Rescheduled, OnItsWay;
    forall o | o in tm0.timers && o in tm0.nodes && o !in cancelled
      ensures OnItsWay(tm0, Finished(tm, id, now), now, fired, None, o) {
      WayFinished(tm0, tm, now, fired, id, o);
    }
    FinishedOk(tm, id, now);
    FinishedWork(tm, id, now);
    FinishedOrder(tm, id, now, fired);
    forall o ensures Due(Finished(tm, id, now), o, now, None) == Due(tm, o, now, Some(id)) {
      FinishedDue(tm, id, now, o);
    }
  }

  // What a caller may rely on after a pass.

  ghost predicate NothingDue(tm: Timers, now: uint64) {
    forall i :: 0 <= i < |tm.heap| && tm.heap[i] in tm.nodes ==> tm.nodes[tm.heap[i]].expire > now
  }

  /**
   Nothing is due any more: a one-shot ran at most once, a periodic timer at most twice, and no less unless
   cancelled.
   */
  lemma PassCounts(tm0: Timers, tm: Timers, now: uint64, fired: seq<Firing>, cancelled: set<int>, id: int)
    requires Ok(tm0, None) && PassOk(tm0, tm, now, fired, cancelled, None) && NothingDue(tm, now)
    ensures id !in tm0.timers && id < tm0.nextId ==> Count(fired, id) == 0
    ensures id in tm0.timers ==>
      && Count(fired, id) <= (if tm0.nodes[id].interval > 0 then 2 else 1)
      && (tm0.nodes[id].expire > now ==> Count(fired, id) == 0)
      && (id !in cancelled && tm0.nodes[id].expire <= now ==> Count(fired, id) == Turns(tm0.nodes[id], now))
  {
    assert Due(tm, id, now, None) == 0 by {
      if id in tm.timers {
        var k :| 0 <= k < |tm.heap| && tm.heap[k] == id;
      }
    }
  }

  /** The timer is still to run, and at `due`. */
  ghost predicate Waits(tm: Timers, id: int, due: int, interval: int) {
    id in tm.timers && id in tm.nodes && tm.nodes[id].expire == due && tm.nodes[id].interval == interval
  }

  /**
   What a pass at `now` does to a timer that is due at `due` and that nobody cancels: nothing before that; then a
   one-shot runs once and is gone, a periodic timer runs once and is due one interval later, and if it is a whole
   interval late it runs twice and counts its interval from now.
   */
  lemma PassMeans(tm0: Timers, tm: Timers, now: uint64, fired: seq<Firing>, cancelled: set<int>, id: int,
                  due: uint64, interval: uint64)
    requires Ok(tm0, None) && PassOk(tm0, tm, now, fired, cancelled, None) && NothingDue(tm, now)
    requires Waits(tm0, id, due, interval) && id !in cancelled && now + interval < WORD
    ensures now < due ==> Count(fired, id) == 0 && Waits(tm, id, due, interval)
    ensures due <= now && interval == 0 ==> Count(fired, id) == 1 && id !in tm.timers
    ensures due <= now < due + interval ==> Count(fired, id) == 1 && Waits(tm, id, due + interval, interval)
    ensures 0 < interval && due + interval <= now ==> Count(fired, id) == 2 && Waits(tm, id, now + interval, interval)
  {
    PassCounts(tm0, tm, now, fired, cancelled, id);
    assert OnItsWay(tm0, tm, now, fired, None, id);
    hide Count, PassOk, NothingDue, Ok;
    if due <= now {
      WrappedSmall(now + interval);
      WrappedSmall(Max(due + interval, now));
    }
  }

  // ---- Any interleaving, over any number of passes ----

  /** The steps the lock makes atomic; a node may be popped and a callback end at any time. */
  datatype Step = Other(op: Op) | Drop(i: nat) | Start(i: nat, at: uint64) | End(at: uint64)

  datatype Sys = Sys(tm: Timers, running: Option<int>, ran: seq<int>)

  function Next(s: Sys, step: Step): Option<Sys> {
    match step
    case Other(op) => Some(s.(tm := Effect(s.tm, op)))
    case Drop(i) =>
      if s.running.None? && IsTop(s.tm, i) && !s.tm.nodes[s.tm.heap[i]].valid then
        Some(s.(tm := Popped(s.tm, i)))
      else None
    case Start(i, at) =>
      if s.running.None? && IsTop(s.tm, i) && s.tm.nodes[s.tm.heap[i]].valid
        && s.tm.nodes[s.tm.heap[i]].expire <= at then
        Some(Sys(Popped(s.tm, i), Some(s.tm.heap[i]), s.ran + [s.tm.heap[i]]))
      else None
    case End(at) =>
      if s.running.Some? && s.running.value in s.tm.nodes then
        Some(Sys(Finished(s.tm, s.running.value, at), None, s.ran))
      else None
  }

  function Steps(s: Sys, run: seq<Step>): Option<Sys> {
    if run == [] then Some(s)
    else
      var before := Steps(s, run[..|run| - 1]);
      if before.None? then None else Next(before.value, run[|run| - 1])
  }

  lemma StepOk(s: Sys, step: Step)
    requires Ok(s.tm, s.running) && Next(s, step).Some?
    ensures Ok(Next(s, step).value.tm, Next(s, step).value.running)
  {
    match step
    case Other(op) =>
      if op.Add? {
        AddedOk(s.tm, s.running, op.now, op.delay, op.interval);
      } else {
        CancelledOk(s.tm, s.running, op.id);
      }
    case Drop(i) => PoppedOk(s.tm, i);
    case Start(i, _) => PoppedOk(s.tm, i);
    case End(at) => FinishedOk(s.tm, s.running.value, at);
  }

  lemma StepLeavesGone(s: Sys, step: Step, id: int)
    requires Ok(s.tm, s.running) && Next(s, step).Some? && id < s.tm.nextId && id !in s.tm.timers
    ensures id < Next(s, step).value.tm.nextId && id !in Next(s, step).value.tm.timers
    ensures multiset(Next(s, step).value.ran)[id] == multiset(s.ran)[id]
  {
    if step.Start? {
      assert s.tm.heap[step.i] in s.tm.heap;
    }
  }

  /** From the moment a timer is out of the table, its callback is never started again. */
  lemma {:induction false} CancelledNeverRuns(s: Sys, run: seq<Step>, id: int)
    requires Ok(s.tm, s.running) && Steps(s, run).Some? && id < s.tm.nextId && id !in s.tm.timers
    ensures
      var s' := Steps(s, run).value;
      Ok(s'.tm, s'.running) && id < s'.tm.nextId && id !in s'.tm.timers && multiset(s'.ran)[id] == multiset(s.ran)[id]
  {
    hide Ok, Next;
    if run != [] {
      var init, step := run[..|run| - 1], run[|run| - 1];
      CancelledNeverRuns(s, init, id);
      StepOk(Steps(s, init).value, step);
      StepLeavesGone(Steps(s, init).value, step, id);
    }
  }

  /** The step starts no callback before `due`. */
  predicate Early(step: Step, due: int) {
    step.Start? ==> step.at < due
  }

  lemma StepIsEarly(s: Sys, step: Step, id: int, due: int, interval: int)
    requires Ok(s.tm, s.running) && Next(s, step).Some? && Early(step, due) && !(step.Other? && Cancels(step.op, id))
    requires Waits(s.tm, id, due, interval) && s.running != Some(id)
    ensures
      var s' := Next(s, step).value;
      Waits(s'.tm, id, due, interval) && s'.running != Some(id) && multiset(s'.ran)[id] == multiset(s.ran)[id]
  {
  }

  /** Whatever happens, no pass before its time runs a timer, and if nobody cancels it, it is still to run. */
  lemma {:induction false} NeverEarly(s: Sys, run: seq<Step>, id: int, due: int, interval: int)
    requires Ok(s.tm, s.running) && Steps(s, run).Some? && forall step :: step in run ==> Early(step, due)
    requires forall step :: step in run ==> !(step.Other? && Cancels(step.op, id))
    requires Waits(s.tm, id, due, interval) && s.running != Some(id)
    ensures
      var s' := Steps(s, run).value;
      && Ok(s'.tm, s'.running) && Waits(s'.tm, id, due, interval) && s'.running != Some(id)
      && multiset(s'.ran)[id] == multiset(s.ran)[id]
  {
    if run != [] {
      hide Ok, Next;
      var init, step := run[..|run| - 1], run[|run| - 1];
      NeverEarly(s, init, id, due, interval);
      assert step in run;
      StepOk(Steps(s, init).value, step);
      StepIsEarly(Steps(s, init).value, step, id, due, interval);
    }
  }

  // ---- A pass has no bound of its own ----

  /** `n` callbacks of one pass, each of which adds a timer that is due at once. */
  function Rounds(at: uint64, n: nat): seq<Step> {
    if n == 0 then [] else Rounds(at, n - 1) + [Start(0, at)] + [Other(Add(at, 0, 0))] + [End(at)]
  }

  /** The heap holds a single one-shot timer, the newest, and it is due at `at`. */
  ghost predicate OneDue(s: Sys, at: uint64) {
    && s.running.None? && s.tm.heap == [s.tm.nextId - 1] && s.tm.timers == {s.tm.nextId - 1}
    && s.tm.nextId - 1 in s.tm.nodes && s.tm.nodes[s.tm.nextId - 1] == Node(at, 0, true)
  }

  lemma StepsOneMore(s: Sys, run: seq<Step>, step: Step)
    requires Steps(s, run).Some?
    ensures Steps(s, run + [step]) == Next(Steps(s, run).value, step)
  {
    assert (run + [step])[..|run|] == run;
  }

  lemma OneRound(s: Sys, at: uint64)
    requires OneDue(s, at)
    ensures
      var a := Next(s, Start(0, at));
      && a.Some?
      && var b := Next(a.value, Other(Add(at, 0, 0)));
      && b.Some?
      && var c := Next(b.value, End(at));
      c.Some? && OneDue(c.value, at) && |c.value.ran| == |s.ran| + 1
  {
    WrappedSmall(at);
    assert Without(s.tm.heap, 0) == [];
  }

  lemma {:induction false} RoundsGoOn(s: Sys, at: uint64, n: nat)
    requires OneDue(s, at)
    ensures Steps(s, Rounds(at, n)).Some?
    ensures OneDue(Steps(s, Rounds(at, n)).value, at) && |Steps(s, Rounds(at, n)).value.ran| == |s.ran| + n
  {
    if n > 0 {
      RoundsGoOn(s, at, n - 1);
      var before := Rounds(at, n - 1);
      OneRound(Steps(s, before).value, at);
      hide Next;
      StepsOneMore(s, before, Start(0, at));
      StepsOneMore(s, before + [Start(0, at)], Other(Add(at, 0, 0)));
      StepsOneMore(s, before + [Start(0, at)] + [Other(Add(at, 0, 0))], End(at));
    }
  }

  /**
   However many callbacks are asked for, there is a pass at one moment that runs them all and still has one due. It
   begins with a single timer.
   */
  lemma PassesHaveNoBound(at: uint64, n: nat)
    ensures
      var s := Sys(Added(Timers(map[], [], {}, 1), at, 0, 0), None, []);
      && OneDue(s, at) && Steps(s, Rounds(at, n)).Some?
      && OneDue(Steps(s, Rounds(at, n)).value, at) && |Steps(s, Rounds(at, n)).value.ran| == n
  {
    WrappedSmall(at);
    RoundsGoOn(Sys(Added(Timers(map[], [], {}, 1), at, 0, 0), None, []), at, n);
  }

  // ---- The manager ----

  /** The alarm of the operating system: set at `at` to ring after `delay`. */
  datatype Alarm = Alarm(at: uint64, delay: int)

  /** The alarm rings no later than the first expiry, or at once if that is past. */
  ghost predicate AlarmOk(tm: Timers, alarm: Option<Alarm>) {
    forall i :: 0 <= i < |tm.heap| && tm.heap[i] in tm.nodes ==>
      alarm.Some? && alarm.value.at + alarm.value.delay <= Max(tm.nodes[tm.heap[i]].expire, alarm.value.at + 1)
  }

  /** The alarm for a timer rings when that is due, or a millisecond on. */
  lemma AlarmInTime(tm: Timers, alarm: Option<Alarm>, i: nat, due: int, interval: int)
    requires AlarmOk(tm, alarm) && i < |tm.heap| && Waits(tm, tm.heap[i], due, interval)
    ensures alarm.Some? && alarm.value.at + alarm.value.delay <= Max(due, alarm.value.at + 1)
  {
  }

  lemma {:induction false} TopExists(tm: Timers, n: nat) returns (i: nat)
    requires 0 < n <= |tm.heap| && forall j :: 0 <= j < n ==> tm.heap[j] in tm.nodes
    ensures i < n && forall j :: 0 <= j < n ==> tm.nodes[tm.heap[i]].expire <= tm.nodes[tm.heap[j]].expire
  {
    if n == 1 {
      i := 0;
    } else {
      i := TopExists(tm, n - 1);
      if tm.nodes[tm.heap[n - 1]].expire < tm.nodes[tm.heap[i]].expire {
        i := n - 1;
      }
    }
  }

  class TimerManager {
    var nodes: map<int, Node>
    var heap: seq<int>
    var timers: set<int>
    var nextId: int
    var alarm: Option<Alarm>
    ghost var running: Option<int>

    ghost function State(): Timers
      reads this`nodes, this`heap, this`timers, this`nextId
    {
      Timers(nodes, heap, timers, nextId)
    }

    ghost predicate Valid()
      reads this`nodes, this`heap, this`timers, this`nextId, this`running
    {
      Ok(State(), running)
    }

    constructor ()
      ensures Valid() && running == None && State() == Timers(map[], [], {}, 1) && AlarmOk(State(), alarm)
    {
      nodes, heap, timers, nextId, alarm, running := map[], [], {}, 1, None, None;
    }

    /** Some node that expires first; which one among equals is left open. */
    method Top() returns (i: nat)
      requires Valid() && heap != []
      ensures IsTop(State(), i)
    {
      ghost var w := TopExists(State(), |heap|);
      hide Ok;
      assert IsTop(State(), w);
      i :| i < |heap| && IsTop(Timers(nodes, heap, timers, nextId), i);
    }

    method ResetTimerFd(now: uint64)
      requires Valid()
      modifies this`alarm
      ensures AlarmOk(State(), alarm) && (heap == [] ==> alarm == None)
      ensures heap != [] ==>
        && alarm.Some? && alarm.value.at == now
        && exists i: nat :: IsTop(State(), i) && now + alarm.value.delay == Max(nodes[heap[i]].expire, now + 1)
    {
      if heap == [] {
        alarm := None;
      } else {
        var i := Top();
        var expire := nodes[heap[i]].expire;
        alarm := Some(Alarm(now, if expire > now then expire - now else 1));
      }
    }

    /** The new node and whether it comes first, in which case the alarm no longer fits. */
    method Enter(now: uint64, delay: uint64, interval: uint64) returns (id: int, first: bool)
      requires Valid()
      modifies this`nodes, this`heap, this`timers, this`nextId
      ensures Valid() && id == old(nextId) && State() == Added(old(State()), now, delay, interval)
      ensures !first && old(AlarmOk(State(), alarm)) ==> AlarmOk(State(), alarm)
    {
      AddedOk(State(), running, now, delay, interval);
      id := nextId;
      nextId := nextId + 1;
      var expire := Wrapped(now + delay);
      var isNext := false;
      if heap != [] {
        var i := Top();
        isNext := expire < nodes[heap[i]].expire;
      }
      nodes := nodes[id := Node(expire, interval, true)];
      timers := timers + {id};
      heap := heap + [id];
      first := isNext || |heap| == 1;
    }

    method AddTimer(now: uint64, delay: uint64, interval: uint64) returns (id: int)
      requires Valid()
      modifies this`nodes, this`heap, this`timers, this`nextId, this`alarm
      ensures Valid() && id == old(nextId) && State() == Added(old(State()), now, delay, interval)
      ensures old(AlarmOk(State(), alarm)) ==> AlarmOk(State(), alarm)
      ensures now + delay < WORD ==> Waits(State(), id, now + delay, interval)
      ensures now + delay < WORD && old(AlarmOk(State(), alarm)) ==>
        alarm.Some? && alarm.value.at + alarm.value.delay <= Max(now + delay, alarm.value.at + 1)
    {
      hide Ok, AlarmOk, IsTop, Wrapped;
      var first;
      id, first := Enter(now, delay, interval);
      if first {
        ResetTimerFd(now);
      }
      if now + delay < WORD {
        WrappedSmall(now + delay);
        if old(AlarmOk(State(), alarm)) {
          AlarmInTime(State(), alarm, |heap| - 1, now + delay, interval);
        }
      }
    }

    method Cancel(timerId: int, now: uint64) returns (found: bool)
      requires Valid()
      modifies this`nodes, this`timers, this`alarm
      ensures Valid() && State() == Cancelled(old(State()), timerId) && found == (timerId in old(timers))
      ensures old(AlarmOk(State(), alarm)) ==> AlarmOk(State(), alarm)
    {
      CancelledOk(State(), running, timerId);
      found := timerId in timers;
      if found {
        nodes := nodes[timerId := nodes[timerId].(valid := false)];
        timers := timers - {timerId};
        if heap != [] {
          var i := Top();
          if heap[i] == timerId {
            ResetTimerFd(now);
          }
        }
      }
    }
  
    /** What happens while the lock is released for the callback of `id`. */
    method WhileUnlocked(id: int, now: uint64, ops: seq<Op>, ghost tm0: Timers, ghost fired: seq<Firing>,
                         ghost cancelled: set<int>)
        returns (ghost cancelled': set<int>)
      requires Valid() && running == Some(id) && PassOk(tm0, State(), now, fired, cancelled, running)
      requires forall k :: 0 <= k < |ops| ==> Sane(ops[k], now)
      modifies this`nodes, this`heap, this`timers, this`nextId, this`alarm
      ensures Valid() && PassOk(tm0, State(), now, fired, cancelled', running)
      ensures cancelled' == cancelled + CancelledIn(ops)
      ensures Work(nodes, heap, now) <= old(Work(nodes, heap, now)) + Additions(ops)
      ensures TurnsOf(State(), id, now) == old(TurnsOf(State(), id, now))
    {
      hide Valid, State, Work, TurnsOf, PassOk, Sane, CancelledIn, Additions, Adding;
      NothingCancelled();
      cancelled' := cancelled;
      for k := 0 to |ops|
        invariant Valid() && PassOk(tm0, State(), now, fired, cancelled', running)
        invariant cancelled' == cancelled + CancelledIn(ops[..k])
        invariant Work(nodes, heap, now) <= old(Work(nodes, heap, now)) + Additions(ops[..k])
        invariant TurnsOf(State(), id, now) == old(TurnsOf(State(), id, now))
      {
        CancelledInNext(ops, k);
        cancelled' := DoOne(id, now, ops[k], tm0, fired, cancelled');
      }
      assert ops[..|ops|] == ops;
    }

    method DoOne(id: int, now: uint64, op: Op, ghost tm0: Timers, ghost fired: seq<Firing>, ghost cancelled: set<int>)
        returns (ghost cancelled': set<int>)
      requires Valid() && running == Some(id) && PassOk(tm0, State(), now, fired, cancelled, running) && Sane(op, now)
      modifies this`nodes, this`heap, this`timers, this`nextId, this`alarm
      ensures Valid() && PassOk(tm0, State(), now, fired, cancelled', running)
      ensures cancelled' == cancelled + if op.Cancel? then {op.id} else {}
      ensures Work(nodes, heap, now) <= old(Work(nodes, heap, now)) + Adding(op)
      ensures TurnsOf(State(), id, now) == old(TurnsOf(State(), id, now))
    {
      hide Work, Turns, PassOk, Ok, Effect;
      EffectStep(tm0, State(), now, fired, cancelled, id, op);
      Do(op);
      cancelled' := if op.Cancel? then cancelled + {op.id} else cancelled;
    }

    method Do(op: Op)
      requires Valid()
      modifies this`nodes, this`heap, this`timers, this`nextId, this`alarm
      ensures Valid() && State() == Effect(old(State()), op)
    {
      match op
      case Add(now, delay, interval) => var id := AddTimer(now, delay, interval);
      case Cancel(now, id) => var found := Cancel(id, now);
    }

    /**
     Runs the callbacks of all timers that are due at `now`. `script[k]` is what happens while the k-th callback runs,
     and `after` what the clock shows at the end.
     */
    method ProcessExpiredTimers(now: uint64, script: seq<seq<Op>>, after: uint64)
        returns (fired: seq<Firing>, ghost cancelled: set<int>)
      requires Valid() && running == None && Roomy(State(), now)
      requires forall k, j :: 0 <= k < |script| && 0 <= j < |script[k]| ==> Sane(script[k][j], now)
      modifies this
      ensures Valid() && running == None && AlarmOk(State(), alarm)
      ensures PassOk(old(State()), State(), now, fired, cancelled, None) && NothingDue(State(), now)
      ensures forall id :: id in cancelled ==> exists k :: 0 <= k < |script| && id in CancelledIn(script[k])
    {
      hide Work, Turns, PassOk, Finished, Without, NothingDue, Additions, AdditionsLeft, CancelledIn, Sane;
      ghost var tm0 := State();
      fired, cancelled := [], {};
      PassStarts(State(), now);
      var k := 0;
      while heap != []
        invariant Valid() && running == None && PassOk(tm0, State(), now, fired, cancelled, None)
        invariant forall id :: id in cancelled ==> exists k :: 0 <= k < |script| && id in CancelledIn(script[k])
        decreases Work(nodes, heap, now) + AdditionsLeft(script, k)
      {
        var i := Top();
        var id := heap[i];
        if nodes[id].expire > now {
          StopsHere(State(), i, now);
          break;
        }
        if !nodes[id].valid {
          DropStep(tm0, State(), now, fired, cancelled, i);
          PoppedOk(State(), i);
          heap := Without(heap, i);
        } else {
          var ops := if k < |script| then script[k] else [];
          NextAdditions(script, k);
          NothingCancelled();
          fired, cancelled := RunTop(i, now, ops, tm0, fired, cancelled);
          k := k + 1;
        }
      }
      if heap == [] {
        EmptyIsDone(State(), now);
      }
      ResetTimerFd(after);
    }

    /** Takes the valid top out of the heap, runs its callback, and puts a periodic timer back. */
    method RunTop(i: nat, now: uint64, ops: seq<Op>, ghost tm0: Timers, fired: seq<Firing>,
                  ghost cancelled: set<int>)
        returns (fired': seq<Firing>, ghost cancelled': set<int>)
      requires Valid() && running == None && PassOk(tm0, State(), now, fired, cancelled, None)
      requires IsTop(State(), i) && nodes[heap[i]].expire <= now && nodes[heap[i]].valid
      requires forall k :: 0 <= k < |ops| ==> Sane(ops[k], now)
      modifies this
      ensures Valid() && running == None && PassOk(tm0, State(), now, fired', cancelled', None)
      ensures fired' == fired + [old(Firing(heap[i], nodes[heap[i]].expire))]
        && cancelled' == cancelled + CancelledIn(ops)
      ensures Work(nodes, heap, now) < old(Work(nodes, heap, now)) + Additions(ops)
    {
      hide Work, Turns, PassOk, Finished, Without, Additions;
      var id := heap[i];
      FireStep(tm0, State(), now, fired, cancelled, i);
      PoppedOk(State(), i);
      fired' := fired + [Firing(id, nodes[id].expire)];
      heap := Without(heap, i);
      running := Some(id);
      cancelled' := WhileUnlocked(id, now, ops, tm0, fired', cancelled);
      hide Ok;
      FinishStep(tm0, State(), now, fired', cancelled', id);
      FinishCallback(id, now);
    }

    method FinishCallback(id: int, now: uint64)
      requires Valid() && running == Some(id) && id in nodes
      modifies this`nodes, this`heap, this`timers, this`running
      ensures Valid() && State() == Finished(old(State()), id, now) && running == None
    {
      FinishedOk(State(), id, now);
      var n := nodes[id];
      if n.interval > 0 && n.valid {
        var drift: uint64 := (now - n.expire) % WORD;
        nodes := nodes[id := n.(expire := (now + n.interval - Min(drift, n.interval)) % WORD)];
        heap := heap + [id];
      } else {
        timers := timers - {id};
      }
      running := None;
    }
  }

  // ---- One timer, from its addition on ----

  lemma RoomyOn(tm: Timers, op: Op, at: uint64)
    requires Roomy(tm, at) && (op.Add? ==> at + op.interval < WORD)
    ensures Roomy(Effect(tm, op), at)
  {
  }

  /** Some calls, one after the other, none of which cancels `id`. */
  method DoAll(m: TimerManager, ops: seq<Op>, ghost id: int, ghost due: int, ghost interval: int, ghost at: uint64)
    requires m.Valid() && m.running == None && Waits(m.State(), id, due, interval) && Roomy(m.State(), at)
    requires forall op :: op in ops ==> !Cancels(op, id) && (op.Add? ==> at + op.interval < WORD)
    modifies m`nodes, m`heap, m`timers, m`nextId, m`alarm
    ensures m.Valid() && m.running == None && Waits(m.State(), id, due, interval) && Roomy(m.State(), at)
  {
    hide Roomy, Ok;
    for k := 0 to |ops|
      invariant m.Valid() && m.running == None && Waits(m.State(), id, due, interval) && Roomy(m.State(), at)
    {
      RoomyOn(m.State(), ops[k], at);
      StillWaits(m.State(), ops[k], id, due, interval);
      assert ops[k] in ops;
      m.Do(ops[k]);
    }
  }

  lemma StillWaits(tm: Timers, op: Op, id: int, due: int, interval: int)
    requires Ok(tm, None) && Waits(tm, id, due, interval) && !Cancels(op, id)
    ensures Waits(Effect(tm, op), id, due, interval)
  {
  }

  /**
   A timer added at `now`, then any calls that leave it alone, then a pass at `at`: its callback runs if and only if
   `at` has reached `now + delay`; once, or twice when it is periodic and a whole interval late.
   */
  method AddedTimerRunsWhenDue(m: TimerManager, now: uint64, delay: uint64, interval: uint64, ops: seq<Op>, at: uint64,
                               script: seq<seq<Op>>, after: uint64)
      returns (id: int, fired: seq<Firing>)
    requires m.Valid() && m.running == None && Roomy(m.State(), at) && now + delay < WORD && at + interval < WORD
    requires forall op :: op in ops ==> !Cancels(op, m.nextId) && (op.Add? ==> at + op.interval < WORD)
    requires forall k, j :: 0 <= k < |script| && 0 <= j < |script[k]| ==>
      Sane(script[k][j], at) && !Cancels(script[k][j], m.nextId)
    modifies m
    ensures m.Valid() && id == old(m.nextId)
    ensures at < now + delay ==> Count(fired, id) == 0
    ensures at >= now + delay ==>
      Count(fired, id) == if 0 < interval && now + delay + interval <= at then 2 else 1
  {
    hide Ok, Roomy, PassOk, NothingDue, Count, Sane;
    RoomyOn(m.State(), Add(now, delay, interval), at);
    id := m.AddTimer(now, delay, interval);
    DoAll(m, ops, id, now + delay, interval, at);
    ghost var tm0, cancelled := m.State(), {};
    fired, cancelled := m.ProcessExpiredTimers(at, script, after);
    if id in cancelled {
      ghost var k :| 0 <= k < |script| && id in CancelledIn(script[k]);
      NotAmongCancelled(script[k], id);
    }
    PassMeans(tm0, m.State(), at, fired, cancelled, id, now + delay, interval);
  }

  lemma {:induction false} NotAmongCancelled(ops: seq<Op>, id: int)
    requires forall j :: 0 <= j < |ops| ==> !Cancels(ops[j], id)
    ensures id !in CancelledIn(ops)
  {
    if ops != [] {
      NotAmongCancelled(ops[..|ops| - 1], id);
    }
  }

  lemma NothingCancelled()
    ensures CancelledIn([]) == {} && Additions([]) == 0
  {
  }

  lemma CancelledInNext(ops: seq<Op>, k: nat)
    requires k < |ops|
    ensures CancelledIn(ops[..k + 1]) == CancelledIn(ops[..k]) + if ops[k].Cancel? then {ops[k].id} else {}
    ensures Additions(ops[..k + 1]) == Additions(ops[..k]) + Adding(ops[k])
  {
    assert ops[..k + 1][..k] == ops[..k];
  }

  lemma NextAdditions(script: seq<seq<Op>>, k: nat)
    ensures AdditionsLeft(script, k) == if k < |script| then Additions(script[k]) + AdditionsLeft(script, k + 1) else 0
    ensures k >= |script| ==> AdditionsLeft(script, k + 1) == 0
  {
  }

  lemma EmptyIsDone(tm: Timers, now: uint64)
    requires tm.heap == []
    ensures NothingDue(tm, now)
  {
  }

  lemma StopsHere(tm: Timers, i: nat, now: uint64)
    requires IsTop(tm, i) && tm.nodes[tm.heap[i]].expire > now
    ensures NothingDue(tm, now)
  {
  }

  /** The timers that a sequence of operations cancels. */
  function CancelledIn(ops: seq<Op>): set<int> {
    if ops == [] then {}
    else CancelledIn(ops[..|ops| - 1]) + if ops[|ops| - 1].Cancel? then {ops[|ops| - 1].id} else {}
  }
}
