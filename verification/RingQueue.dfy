/** Queues of fixed-size records in a ring of slots: a bounded FIFO, or a shifting history of the latest writes. */
module RingQueue {
  import opened Arithmetic
  import opened Bytes
  import Store

  datatype Mode = Normal | Shift

  datatype Status = Ok | RecordSize | Empty | Full | StartPosition | Prohibited

  /** A slot of the ring: the record head and the record. */
  datatype Record = Record(date: string, ip: string, ack: int, index: int, body: seq<byte>)

  /** One write, as the caller made it. */
  datatype Entry = Entry(date: string, ip: string, body: seq<byte>)

  ghost predicate Holds(r: Record, e: Entry) {
    r.date == e.date && r.ip == e.ip && r.ack == 0 && r.body == e.body
  }

  /** `x` reduced into the ring, for positions at most one lap ahead. */
  function Wrap(x: int, num: int): int {
    if x < num then x else x - num
  }

  function Distance(readPoint: int, writePoint: int, num: int): int {
    if readPoint <= writePoint then writePoint - readPoint else writePoint - readPoint + num
  }

  /** In a NORMAL queue the waiting records sit between the read point and the write point. */
  ghost predicate FifoOk(ring: seq<Record>, readPoint: int, writePoint: int, fifo: seq<Entry>) {
    && 0 <= readPoint < |ring| && 0 <= writePoint < |ring|
    && |fifo| == Distance(readPoint, writePoint, |ring|)
    && forall i :: 0 <= i < |fifo| ==> Holds(ring[Wrap(readPoint + 1 + i, |ring|)], fifo[i])
  }

  /** The slot `age` writes behind the write point holds the write of that age, or is still blank. */
  ghost predicate AgeOk(ring: seq<Record>, size: nat, writePoint: int, history: seq<Entry>, age: int)
    requires 0 <= writePoint < |ring| && 0 <= age < |ring|
  {
    var r := ring[Wrap(writePoint + |ring| - age, |ring|)];
    if age < |history| then Holds(r, history[|history| - 1 - age]) else r.body == Zeros(size)
  }

  /** In a SHIFT queue the slots behind the write point hold the latest writes by age. */
  ghost predicate HistoryOk(ring: seq<Record>, size: nat, writePoint: int, history: seq<Entry>) {
    && 0 <= writePoint < |ring|
    && forall age :: 0 <= age < |ring| ==> AgeOk(ring, size, writePoint, history, age)
  }

  lemma FifoWrite(ring: seq<Record>, readPoint: int, writePoint: int, fifo: seq<Entry>, r: Record, e: Entry)
    requires FifoOk(ring, readPoint, writePoint, fifo) && |fifo| < |ring| - 1 && Holds(r, e)
    ensures var w := Wrap(writePoint + 1, |ring|); FifoOk(ring[w := r], readPoint, w, fifo + [e])
  {
    var n, w := |ring|, Wrap(writePoint + 1, |ring|);
    forall i | 0 <= i < |fifo| + 1
      ensures Holds(ring[w := r][Wrap(readPoint + 1 + i, n)], (fifo + [e])[i])
    {
      assert i < |fifo| ==> Wrap(readPoint + 1 + i, n) != w;
    }
  }

  lemma FifoRead(ring: seq<Record>, readPoint: int, writePoint: int, fifo: seq<Entry>)
    requires FifoOk(ring, readPoint, writePoint, fifo) && fifo != []
    ensures FifoOk(ring, Wrap(readPoint + 1, |ring|), writePoint, fifo[1..])
  {
    var n, r := |ring|, Wrap(readPoint + 1, |ring|);
    forall i | 0 <= i < |fifo| - 1 ensures Holds(ring[Wrap(r + 1 + i, n)], fifo[1..][i]) {
      assert Wrap(r + 1 + i, n) == Wrap(readPoint + 1 + (i + 1), n);
    }
  }

  lemma HistoryWrite(ring: seq<Record>, size: nat, writePoint: int, history: seq<Entry>, r: Record, e: Entry)
    requires HistoryOk(ring, size, writePoint, history) && Holds(r, e)
    ensures var w := Wrap(writePoint + 1, |ring|); HistoryOk(ring[w := r], size, w, history + [e])
  {
    var w := Wrap(writePoint + 1, |ring|);
    var ring', history' := ring[w := r], history + [e];
    forall age | 0 <= age < |ring'| ensures AgeOk(ring', size, w, history', age) {
      if age > 0 {
        OlderByOne(ring, size, writePoint, history, r, e, age);
      }
    }
  }

  lemma OlderByOne(ring: seq<Record>, size: nat, writePoint: int, history: seq<Entry>, r: Record, e: Entry, age: int)
    requires 0 <= writePoint < |ring| && 0 < age < |ring| && AgeOk(ring, size, writePoint, history, age - 1)
    ensures var w := Wrap(writePoint + 1, |ring|); AgeOk(ring[w := r], size, w, history + [e], age)
  {
    var n, w := |ring|, Wrap(writePoint + 1, |ring|);
    assert Wrap(w + n - age, n) == Wrap(writePoint + n - (age - 1), n) != w;
  }

  /** The bodies of a queue's entries. */
  function Bodies(fifo: seq<Entry>): (w: seq<seq<byte>>)
    ensures |w| == |fifo|
  {
    seq(|fifo|, i requires 0 <= i < |fifo| => fifo[i].body)
  }

  class Queue {
    const mode: Mode
    const num: nat
    const size: nat
    const ring: array<Record>
    var readPoint: int
    var writePoint: int
    ghost var fifo: seq<Entry>      // NORMAL: the records waiting, oldest first
    ghost var history: seq<Entry>   // SHIFT: every write so far, oldest first
    ghost var ops: seq<Op>          // NORMAL: the calls so far
    ghost var taken: seq<seq<byte>> // NORMAL: what was taken out since the last clear

    ghost predicate Valid()
      reads this, ring
    {
      && 0 < num == ring.Length && 0 <= writePoint < num
      && (mode == Normal ==> 0 <= readPoint < num && |fifo| == Distance(readPoint, writePoint, num))
      && (mode == Normal ==> FifoOk(ring[..], readPoint, writePoint, fifo))
      && (mode == Shift ==> HistoryOk(ring[..], size, writePoint, history) && (readPoint != 0 ==> history != []))
      && (mode == Normal ==> Follows(fifo, taken, num - 1, ops))
    }

    constructor Blank(recordSize: nat, recordNum: nat, operateMode: Mode)
      requires recordNum > 0
      ensures Valid() && fresh(ring) && ops == [] && taken == []
      ensures mode == operateMode && num == recordNum && size == recordSize
      ensures fifo == [] && history == [] && (mode == Shift ==> readPoint == 0)
    {
      mode, num, size := operateMode, recordNum, recordSize;
      ring := new Record[recordNum](i => Record("", "", 0, i, Zeros(recordSize)));
      writePoint := recordNum - 1;
      readPoint := if operateMode == Normal then recordNum - 1 else 0;
      fifo, history, ops, taken := [], [], [], [];
      new;
      forall age | 0 <= age < num ensures AgeOk(ring[..], size, writePoint, [], age) {
      }
    }

    /** A new queue, unless its records or its type description are too large. */
    static method CreateQ(recordSize: nat, recordNum: nat, operateMode: Mode, typeSize: nat) returns (q: Option<Queue>)
      requires recordNum > 0
      ensures q.None? <==> recordSize > 16384 || typeSize > 2048
      ensures q.Some? ==>
        var v := q.value;
        && fresh(v) && fresh(v.ring) && v.Valid() && v.mode == operateMode && v.num == recordNum && v.size == recordSize
        && v.fifo == [] && v.history == [] && v.ops == [] && (v.mode == Shift ==> v.readPoint == 0)
    {
      if recordSize > Store.MAXMSGLEN || typeSize > Store.TYPEMAXSIZE {
        return None;
      }
      var v := new Queue.Blank(recordSize, recordNum, operateMode);
      return Some(v);
    }

    /** A full NORMAL queue refuses the record; a SHIFT queue pushes the oldest one out. */
    method WriteQ(body: seq<byte>, now: string, remoteIp: Option<string>) returns (status: Status)
      requires Valid()
      modifies this, ring
      ensures Valid()
      ensures status == if |body| != size then RecordSize
                        else if mode == Normal && |old(fifo)| == num - 1 then Full else Ok
      ensures var e := Entry(now, if remoteIp.Some? then remoteIp.value else "127.0.0.1", body);
              && fifo == (if status == Ok && mode == Normal then old(fifo) + [e] else old(fifo))
              && history == (if status == Ok && mode == Shift then old(history) + [e] else old(history))
      ensures mode == Normal ==> taken == old(taken) && ops == old(ops) + if |body| == size then [Put(body)] else []
      ensures mode == Shift ==> readPoint == if status == Ok then 1 else old(readPoint)
      ensures status != Ok ==> unchanged(this`readPoint, this`writePoint) && unchanged(ring)
    {
      hide FifoOk, HistoryOk, Follows;
      if |body| != size {
        return RecordSize;
      }
      ModWrap(writePoint + 1, num);
      if mode == Normal {
        Called(fifo, taken, num - 1, ops, Put(body));
        if (writePoint + 1) % num == readPoint {
          ops := ops + [Put(body)];
          return Full;
        }
      }
      PutRecord(body, now, if remoteIp.Some? then remoteIp.value else "127.0.0.1");
      return Ok;
    }

    /** The write point moves on and the record goes there. */
    method PutRecord(body: seq<byte>, now: string, ip: string)
      requires Valid() && |body| == size && (mode == Normal ==> |fifo| < num - 1)
      modifies this, ring
      ensures Valid() && taken == old(taken)
      ensures mode == Normal ==>
                fifo == old(fifo) + [Entry(now, ip, body)] && history == old(history) && ops == old(ops) + [Put(body)]
      ensures mode == Shift ==> fifo == old(fifo) && history == old(history) + [Entry(now, ip, body)] && readPoint == 1
    {
      hide FifoOk, HistoryOk, Follows;
      ModWrap(writePoint + 1, num);
      ghost var was, e := ring[..], Entry(now, ip, body);
      writePoint := (writePoint + 1) % num;
      var r := Record(now, ip, 0, ring[writePoint].index, body);
      ring[writePoint] := r;
      assert ring[..] == was[writePoint := r];
      if mode == Normal {
        FifoWrite(was, readPoint, old(writePoint), fifo, r, e);
        Written(fifo, e, taken, num - 1, ops);
        fifo, ops := fifo + [e], ops + [Put(body)];
      } else {
        HistoryWrite(was, size, old(writePoint), history, r, e);
        history := history + [e];
        readPoint := 1;
      }
    }

    /** NORMAL: take the oldest record. SHIFT: the newest record, which stays. */
    method ReadQ(actSize: nat) returns (r: Reading)
      requires Valid()
      modifies this
      ensures Valid() && history == old(history)
      ensures actSize != size ==> r.status == RecordSize && unchanged(this)
      ensures actSize == size && mode == Normal ==>
                if old(fifo) == [] then r == Reading(Empty, [], "") && fifo == []
                  && unchanged(this`readPoint, this`writePoint)
                else r == Reading(Ok, old(fifo)[0].body, old(fifo)[0].ip) && fifo == old(fifo)[1..]
      ensures actSize == size && mode == Normal ==>
                ops == old(ops) + [Take] && taken == old(taken) + if r.status == Ok then [r.body] else []
      ensures actSize == size && mode == Shift ==> unchanged(this)
      ensures actSize == size && mode == Shift ==>
                if readPoint == 0 then r == Reading(Empty, [], "")
                else r == Reading(Ok, history[|history| - 1].body, history[|history| - 1].ip)
    {
      hide Follows;
      if actSize != size {
        return Reading(RecordSize, [], "");
      }
      if mode == Normal {
        Called(fifo, taken, num - 1, ops, Take);
        ops := ops + [Take];
        if readPoint != writePoint {
          ModWrap(readPoint + 1, num);
          FifoRead(ring[..], readPoint, writePoint, fifo);
          readPoint := (readPoint + 1) % num;
          assert Holds(ring[..][readPoint], fifo[0]);
          taken, fifo := taken + [fifo[0].body], fifo[1..];
          return Reading(Ok, ring[readPoint].body, ring[readPoint].ip);
        }
      } else if readPoint != 0 {
        assert AgeOk(ring[..], size, writePoint, history, 0);
        assert Holds(ring[..][writePoint], history[|history| - 1]);
        return Reading(Ok, ring[writePoint].body, ring[writePoint].ip);
      }
      return Reading(Empty, [], "");
    }

    /** Drop the oldest record of a NORMAL queue without copying it out. */
    method PopJustRecordFromQueue() returns (ok: bool)
      requires Valid()
      modifies this
      ensures Valid()
      ensures ok == (mode == Normal && old(fifo) != [])
      ensures if ok then fifo == old(fifo)[1..] && history == old(history) else unchanged(this)
      ensures ok ==> ops == old(ops) + [Take] && taken == old(taken) + [old(fifo)[0].body]
    {
      hide Follows;
      if mode == Normal && readPoint != writePoint {
        Called(fifo, taken, num - 1, ops, Take);
        ModWrap(readPoint + 1, num);
        FifoRead(ring[..], readPoint, writePoint, fifo);
        readPoint := (readPoint + 1) % num;
        ops, taken, fifo := ops + [Take], taken + [fifo[0].body], fifo[1..];
        return true;
      }
      return false;
    }

    /** Show the record the next read of a NORMAL queue would take. */
    method PeekQ(actSize: nat) returns (r: Reading)
      requires Valid()
      ensures actSize != size ==> r.status == RecordSize
      ensures actSize == size && mode == Shift ==> r.status == Prohibited
      ensures actSize == size && mode == Normal ==>
                if fifo == [] then r.status == Empty else r.status == Ok && r.body == fifo[0].body
    {
      if actSize != size {
        return Reading(RecordSize, [], "");
      }
      if mode == Shift {
        return Reading(Prohibited, [], "");
      }
      if readPoint != writePoint {
        ModWrap(readPoint + 1, num);
        assert Holds(ring[..][(readPoint + 1) % num], fifo[0]);
        return Reading(Ok, ring[(readPoint + 1) % num].body, "");
      }
      return Reading(Empty, [], "");
    }

    method IsEmptyQ() returns (empty: bool)
      requires Valid()
      ensures empty == if mode == Normal then fifo == [] else readPoint == 0
    {
      empty := if mode == Normal then readPoint == writePoint else readPoint == 0;
    }

    method IsFullQ() returns (full: bool)
      requires Valid()
      ensures full == (mode == Normal && |fifo| == num - 1)
    {
      ModWrap(writePoint + 1, num);
      full := mode == Normal && (writePoint + 1) % num == readPoint;
    }

    /** Empties the queue, and reports failure even so. A SHIFT queue keeps its history but reads as empty. */
    method ClearQ() returns (ok: bool)
      requires Valid()
      modifies this
      ensures Valid() && !ok
      ensures mode == Normal ==> fifo == [] && history == old(history)
      ensures mode == Normal ==> ops == old(ops) + [Clear] && taken == []
      ensures mode == Shift ==> readPoint == 0 && fifo == old(fifo) && history == old(history)
    {
      if mode == Normal {
        Called(fifo, taken, num - 1, ops, Clear);
        readPoint, writePoint := num - 1, num - 1;
        ops, taken, fifo := ops + [Clear], [], [];
      } else {
        readPoint := 0;
      }
      return false;
    }

    /**
     Copy out up to `count` slots. In SHIFT mode the first is the record written `start` writes ago, and they go
     back in time from there; ages no write has reached yet are blank. In NORMAL mode the slots are taken raw.
     */
    method MulReadQ(start: nat, count: int) returns (status: Status, records: seq<Record>)
      requires Valid()
      ensures if start > num - 1 then status == StartPosition && records == []
              else status == Ok
      ensures start <= num - 1 && mode == Shift ==>
                && AsManyAs(|records|, num - start, count)
                && forall i :: 0 <= i < |records| ==>
                     if start + i < |history| then Holds(records[i], history[|history| - 1 - start - i])
                     else records[i].body == Zeros(size)
      ensures start <= num - 1 && mode == Normal ==>
                && AsManyAs(|records|, num, count)
                && forall i :: 0 <= i < |records| ==> records[i] == ring[Wrap(start + i, num)]
    {
      if start > num - 1 {
        return StartPosition, [];
      }
      status := Ok;
      if mode == Normal {
        records := ReadSlots(start, count);
      } else {
        records := ReadBack(start, count);
      }
    }

    method ReadSlots(start: nat, count: int) returns (records: seq<Record>)
      requires Valid() && start <= num - 1
      ensures AsManyAs(|records|, num, count) && forall i :: 0 <= i < |records| ==>
        records[i] == ring[Wrap(start + i, num)]
    {
      records := [];
      var readCount := if num < count then num else count;
      var i := 0;
      while i < readCount
        invariant |records| == i && (0 < i ==> i <= readCount)
        invariant forall j :: 0 <= j < i ==> records[j] == ring[Wrap(start + j, num)]
      {
        ModWrap(start + i, num);
        records := records + [ring[(start + i) % num]];
        i := i + 1;
      }
    }

    method ReadBack(start: nat, count: int) returns (records: seq<Record>)
      requires Valid() && start <= num - 1 && mode == Shift
      ensures
        && AsManyAs(|records|, num - start, count)
        && forall i :: 0 <= i < |records| ==>
             if start + i < |history| then Holds(records[i], history[|history| - 1 - start - i])
             else records[i].body == Zeros(size)
    {
      records := [];
      var readCount := if num - start < count then num - start else count;
      ModWrap(writePoint + num - start, num);
      var actstart := (writePoint + num - start) % num;
      var i := 0;
      while i < readCount
        invariant |records| == i && (0 < i ==> i <= readCount)
        invariant forall j :: 0 <= j < i ==>
                    if start + j < |history| then Holds(records[j], history[|history| - 1 - start - j])
                    else records[j].body == Zeros(size)
      {
        ModWrap(actstart + num - i, num);
        assert (actstart + num - i) % num == Wrap(writePoint + num - (start + i), num);
        assert AgeOk(ring[..], size, writePoint, history, start + i);
        records := records + [ring[..][(actstart + num - i) % num]];
        i := i + 1;
      }
    }
  }

  datatype Reading = Reading(status: Status, body: seq<byte>, ip: string)

  /** `n` is how many of `bound` records are copied out for a caller who asks for `count`: as many, if there are. */
  ghost predicate AsManyAs(n: nat, bound: nat, count: int) {
    n <= bound && (count <= 0 ==> n == 0) && (count > 0 ==> n <= count) && (n < count ==> n == bound)
  }

  // ---- Whole runs of a NORMAL queue ----

  datatype Op = Put(body: seq<byte>) | Take | Clear

  /** A bounded FIFO: what is waiting, and what has been taken out since the last clear. */
  datatype State = State(waiting: seq<seq<byte>>, taken: seq<seq<byte>>)

  function Step(s: State, capacity: nat, op: Op): State {
    match op
    case Put(body) => if |s.waiting| == capacity then s else s.(waiting := s.waiting + [body])
    case Take => if s.waiting == [] then s else State(s.waiting[1..], s.taken + [s.waiting[0]])
    case Clear => State([], [])
  }

  function Run(capacity: nat, ops: seq<Op>): State {
    if ops == [] then State([], []) else Step(Run(capacity, ops[..|ops| - 1]), capacity, ops[|ops| - 1])
  }

  /** The queue is what its calls make of an empty one. */
  ghost predicate Follows(fifo: seq<Entry>, taken: seq<seq<byte>>, capacity: nat, ops: seq<Op>) {
    Run(capacity, ops) == State(Bodies(fifo), taken)
  }

  /** What one more call makes of the bookkeeping. */
  lemma Called(fifo: seq<Entry>, taken: seq<seq<byte>>, capacity: nat, ops: seq<Op>, op: Op)
    requires Follows(fifo, taken, capacity, ops)
    ensures op.Put? && |fifo| == capacity ==> Follows(fifo, taken, capacity, ops + [op])
    ensures op.Take? && fifo == [] ==> Follows(fifo, taken, capacity, ops + [op])
    ensures op.Take? && fifo != [] ==> Follows(fifo[1..], taken + [fifo[0].body], capacity, ops + [op])
    ensures op.Clear? ==> Follows([], [], capacity, ops + [op])
  {
    assert (ops + [op])[..|ops|] == ops;
    if op.Take? && fifo != [] {
      assert Bodies(fifo[1..]) == Bodies(fifo)[1..];
    }
  }

  lemma Written(fifo: seq<Entry>, e: Entry, taken: seq<seq<byte>>, capacity: nat, ops: seq<Op>)
    requires Follows(fifo, taken, capacity, ops) && |fifo| < capacity
    ensures Follows(fifo + [e], taken, capacity, ops + [Put(e.body)])
  {
    assert (ops + [Put(e.body)])[..|ops|] == ops;
    assert Bodies(fifo + [e]) == Bodies(fifo) + [e.body];
  }

  /** The records accepted since the last clear, in order. */
  function Accepted(capacity: nat, ops: seq<Op>): seq<seq<byte>> {
    if ops == [] then []
    else
      var init, last := ops[..|ops| - 1], ops[|ops| - 1];
      match last
      case Put(body) => Accepted(capacity, init) + if |Run(capacity, init).waiting| != capacity then [body] else []
      case Take => Accepted(capacity, init)
      case Clear => []
  }

  /** What was taken followed by what waits is what was accepted, and no more waits than the queue holds. */
  lemma {:induction false} RunIsFifo(capacity: nat, ops: seq<Op>)
    ensures var e := Run(capacity, ops);
            e.taken + e.waiting == Accepted(capacity, ops) && |e.waiting| <= capacity
  {
    if ops != [] {
      var init, last := ops[..|ops| - 1], ops[|ops| - 1];
      RunIsFifo(capacity, init);
      var e := Run(capacity, init);
      if last.Take? && e.waiting != [] {
        assert e.waiting == [e.waiting[0]] + e.waiting[1..];
      }
    }
  }

  /**
   First in, first out: whatever calls a NORMAL queue has seen, what was taken and what waits are what it accepted,
   in order.
   */
  lemma FirstInFirstOut(q: Queue)
    requires q.Valid() && q.mode == Normal
    ensures q.taken + Bodies(q.fifo) == Accepted(q.num - 1, q.ops) && |q.fifo| <= q.num - 1
  {
    RunIsFifo(q.num - 1, q.ops);
  }
}
