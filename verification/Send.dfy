/**
 The sending side: one thread walks the queue of outgoing frames, and the write handler of a connection finishes
 what the thread could send only in part. Both are cut into the steps at which the other one may run.
 */
module Send {
  import opened Bytes

  /** A queued message: which connection it is for, the connection's sequence number when it was made, its bytes. */
  datatype Frame = Frame(id: nat, conn: nat, epoch: nat, bytes: seq<byte>)

  /** The frame a connection is transmitting, and the part of it not yet accounted as sent. */
  datatype Flight = Flight(frame: Frame, left: seq<byte>)

  /**
   Where the write handler of a connection is: `send` returned `n`, the write notification was just removed, or the send
   thread was told that there is room again.
   */
  datatype HandlerAt = HIdle | HReturned(n: nat) | HDisarmed | HPosted

  /**
   `born` is the sequence number at which the current socket was opened, `asked` the frames queued for this socket,
   `done` those it was sent completely. `fd` is the number of the socket; once it is closed another may get that number.
   */
  datatype Conn = Conn(open: bool, seqno: nat, born: nat, throwCount: int, flight: Option<Flight>, armed: bool,
                       handler: HandlerAt, output: seq<byte>, asked: seq<Frame>, done: seq<Frame>, fd: nat)

  /**
   Where the send thread is. A `send` that found no room returns 0 here. With `Late` the thread has taken a frame that
   was made for a connection after its socket was closed.
   */
  datatype SenderAt =
    | SIdle
    | Scanning(pos: nat)
    | Holding(pos: nat, conn: nat)
    | Returned(pos: nat, conn: nat, n: nat)
    | Recorded(pos: nat, conn: nat)
    | Counted(pos: nat, conn: nat)
    | Late(pos: nat, frame: Frame)

  /** The first `n` bytes of the frame went to the socket of `owner`, which has the number of a closed one. */
  datatype Stray = Stray(owner: nat, frame: Frame, n: nat)

  /**
   `sem` counts how often the thread was told to look at the queue and has not yet done so. Nothing is said of what
   comes after the thread has used the socket of another connection.
   */
  datatype State = State(conns: map<nat, Conn>, queue: seq<Frame>, nextId: nat, sender: SenderAt, sem: nat,
                         stray: Option<Stray>)

  datatype Action =
    | MsgSend(conn: nat, epoch: nat, bytes: seq<byte>)
    | StartPass
    | Visit
    | SendCall(n: nat)
    | Record
    | Count
    | Arm
    | EndPass
    | WriteCall(conn: nat, n: nat)
    | WriteRecord(conn: nat)
    | WritePost(conn: nat)
    | WriteRelease(conn: nat)
    | Close(conn: nat)
    | Reopen(conn: nat, fd: nat)
    | DropLate
    | GoAstray(owner: nat, n: nat)

  function SetConn(s: State, id: nat, c: Conn): State {
    s.(conns := s.conns[id := c])
  }

  function Holds(sender: SenderAt, id: nat): bool {
    match sender
    case SIdle => false
    case Scanning(_) => false
    case Holding(_, c) => c == id
    case Returned(_, c, _) => c == id
    case Recorded(_, c) => c == id
    case Counted(_, c) => c == id
    case Late(_, _) => false
  }

  /** No open socket has the number. */
  predicate Unowned(conns: map<nat, Conn>, fd: nat) {
    forall o :: o in conns && conns[o].open ==> conns[o].fd != fd
  }

  /** The thread is about to use the number of a closed socket: the connection, the frame and what it would send. */
  function Dangling(s: State): Option<(nat, Flight)> {
    match s.sender
    case Holding(_, c) =>
      if c in s.conns && !s.conns[c].open && s.conns[c].flight.Some? then Some((c, s.conns[c].flight.value)) else None
    case Counted(_, c) =>
      if c in s.conns && !s.conns[c].open && s.conns[c].flight.Some? then
        Some((c, s.conns[c].flight.value.(left := [])))
      else None
    case Late(_, f) => if f.conn in s.conns && !s.conns[f.conn].open then Some((f.conn, Flight(f, f.bytes))) else None
    case _ => None
  }

  /** The thread looks at the queued frame it has reached: stale ones are dropped, those of busy connections left. */
  function VisitFrame(s: State, pos: nat): State
    requires pos < |s.queue| && s.queue[pos].conn in s.conns
  {
    var f := s.queue[pos];
    var c := s.conns[f.conn];
    if c.seqno != f.epoch then
      s.(queue := Without(s.queue, pos))
    else if c.throwCount > 0 then
      s.(sender := Scanning(pos + 1))
    else if !c.open then
      s.(queue := Without(s.queue, pos), sender := Late(pos, f))
    else
      SetConn(s, f.conn, c.(flight := Some(Flight(f, f.bytes))))
      .(queue := Without(s.queue, pos), sender := Holding(pos, f.conn))
  }

  /** The state after an action, if the action can happen. */
  function Next(s: State, a: Action): (r: Option<State>)
    ensures r.Some? ==> r.value.conns.Keys == s.conns.Keys
  {
    if s.stray.Some? then None
    else match a
    case MsgSend(id, epoch, bytes) =>
      if s.sender.SIdle? && id in s.conns && epoch <= s.conns[id].seqno && bytes != [] then
        var f := Frame(s.nextId, id, epoch, bytes);
        var c := s.conns[id];
        Some(SetConn(s, id, if epoch == c.born then c.(asked := c.asked + [f]) else c)
             .(queue := s.queue + [f], nextId := s.nextId + 1, sem := s.sem + 1))
      else None
    case StartPass =>
      if s.sender.SIdle? && s.sem > 0 then Some(s.(sender := Scanning(0), sem := s.sem - 1)) else None
    case Visit =>
      if s.sender.Scanning? && s.sender.pos < |s.queue| && s.queue[s.sender.pos].conn in s.conns then
        Some(VisitFrame(s, s.sender.pos))
      else None
    case SendCall(n) =>
      if s.sender.Holding? && s.sender.conn in s.conns && s.conns[s.sender.conn].flight.Some?
         && n <= |s.conns[s.sender.conn].flight.value.left|
         && (s.conns[s.sender.conn].open || Unowned(s.conns, s.conns[s.sender.conn].fd)) then
        var c := s.conns[s.sender.conn];
        if !c.open then
          Some(SetConn(s, s.sender.conn, c.(flight := None, throwCount := 0)).(sender := Scanning(s.sender.pos)))
        else
          Some(SetConn(s, s.sender.conn, c.(output := c.output + c.flight.value.left[..n]))
             .(sender := Returned(s.sender.pos, s.sender.conn, n)))
      else None
    case Record =>
      if s.sender.Returned? && s.sender.conn in s.conns && s.conns[s.sender.conn].flight.Some?
         && s.sender.n <= |s.conns[s.sender.conn].flight.value.left| then
        var c := s.conns[s.sender.conn];
        var fl := c.flight.value;
        if s.sender.n == |fl.left| then
          Some(SetConn(s, s.sender.conn, c.(flight := None, throwCount := 0, done := c.done + [fl.frame]))
               .(sender := Scanning(s.sender.pos)))
        else
          Some(SetConn(s, s.sender.conn, c.(flight := Some(fl.(left := fl.left[s.sender.n..]))))
               .(sender := Recorded(s.sender.pos, s.sender.conn)))
      else None
    case Count =>
      if s.sender.Recorded? && s.sender.conn in s.conns then
        var c := s.conns[s.sender.conn];
        Some(SetConn(s, s.sender.conn, c.(throwCount := c.throwCount + 1))
             .(sender := Counted(s.sender.pos, s.sender.conn)))
      else None
    case Arm =>
      if s.sender.Counted? && s.sender.conn in s.conns
         && (s.conns[s.sender.conn].open || Unowned(s.conns, s.conns[s.sender.conn].fd)) then
        var c := s.conns[s.sender.conn];
        Some(SetConn(s, s.sender.conn, c.(armed := c.open)).(sender := Scanning(s.sender.pos)))
      else None
    case EndPass =>
      if s.sender.Scanning? && s.sender.pos == |s.queue| then Some(s.(sender := SIdle)) else None
    case WriteCall(id, n) =>
      if id in s.conns && s.conns[id].open && s.conns[id].armed && s.conns[id].handler.HIdle?
         && s.conns[id].flight.Some? && n <= |s.conns[id].flight.value.left| then
        var c := s.conns[id];
        Some(SetConn(s, id, c.(output := c.output + c.flight.value.left[..n], handler := HReturned(n))))
      else None
    case WriteRecord(id) =>
      if id in s.conns && s.conns[id].handler.HReturned? && s.conns[id].flight.Some?
         && s.conns[id].handler.n <= |s.conns[id].flight.value.left| then
        var c := s.conns[id];
        var fl := c.flight.value;
        var fl' := fl.(left := fl.left[c.handler.n..]);
        if c.handler.n == |fl.left| then
          Some(SetConn(s, id, c.(flight := Some(fl'), armed := false, handler := HDisarmed)))
        else
          Some(SetConn(s, id, c.(flight := Some(fl'), handler := HIdle)))
      else None
    case WritePost(id) =>
      if id in s.conns && s.conns[id].handler.HDisarmed? then
        Some(SetConn(s, id, s.conns[id].(handler := HPosted)).(sem := s.sem + 1))
      else None
    case WriteRelease(id) =>
      if id in s.conns && s.conns[id].handler.HPosted? && s.conns[id].flight.Some? then
        var c := s.conns[id];
        Some(SetConn(s, id, c.(flight := None, handler := HIdle, throwCount := c.throwCount - 1,
                               done := c.done + [c.flight.value.frame])))
      else None
    case Close(id) =>
      if id in s.conns && s.conns[id].open && s.conns[id].handler.HIdle? then
        Some(SetConn(s, id, s.conns[id].(open := false, seqno := s.conns[id].seqno + 1, armed := false)))
      else None
    case Reopen(id, fd) =>
      if id in s.conns && !s.conns[id].open && !Holds(s.sender, id) && !(s.sender.Late? && s.sender.frame.conn == id)
         && Unowned(s.conns, fd) then
        var q := s.conns[id].seqno + 2;
        Some(SetConn(s, id, Conn(true, q, q, 0, None, false, HIdle, [], [], [], fd)))
      else None
    case DropLate =>
      if s.sender.Late? && s.sender.frame.conn in s.conns && Unowned(s.conns, s.conns[s.sender.frame.conn].fd) then
        Some(s.(sender := Scanning(s.sender.pos)))
      else None
    case GoAstray(owner, n) =>
      if Dangling(s).Some? && owner in s.conns && s.conns[owner].open && Dangling(s).value.0 in s.conns
         && s.conns[owner].fd == s.conns[Dangling(s).value.0].fd && n <= |Dangling(s).value.1.left| then
        Some(s.(stray := Some(Stray(owner, Dangling(s).value.1.frame, n))))
      else None
  }

  // ---- What holds in every reachable state ----

  function FrameBytes(frames: seq<Frame>): (b: seq<seq<byte>>)
    ensures |b| == |frames| && forall i :: 0 <= i < |frames| ==> b[i] == frames[i].bytes
  {
    seq(|frames|, i requires 0 <= i < |frames| => frames[i].bytes)
  }

  /** The part of the frame in flight already accounted as sent. */
  function Progress(c: Conn): seq<byte> {
    if c.flight.Some? && |c.flight.value.left| <= |c.flight.value.frame.bytes| then
      c.flight.value.frame.bytes[..|c.flight.value.frame.bytes| - |c.flight.value.left|]
    else []
  }

  /** Bytes the last `send` took that are not accounted yet. */
  function Unaccounted(c: Conn, id: nat, sender: SenderAt): nat {
    if sender.Returned? && sender.conn == id then sender.n
    else if c.handler.HReturned? then c.handler.n
    else 0
  }

  /** The frames whose transmission on the current socket has begun, in order. */
  function Started(c: Conn): seq<Frame> {
    c.done + if c.flight.Some? then [c.flight.value.frame] else []
  }

  /** Which fields go with which place of the thread and the handler. */
  ghost predicate PhaseOk(c: Conn, id: nat, sender: SenderAt) {
    if !Holds(sender, id) then
      if c.flight.None? then c.throwCount == 0 && !c.armed && c.handler == HIdle
      else
        && c.throwCount == 1
        && match c.handler
           case HIdle => (c.open ==> c.armed) && c.flight.value.left != []
           case HReturned(n) => c.armed && c.open && n <= |c.flight.value.left| && c.flight.value.left != []
           case HDisarmed => !c.armed && c.open && c.flight.value.left == []
           case HPosted => !c.armed && c.open && c.flight.value.left == []
    else
      && c.flight.Some? && !c.armed && c.handler == HIdle && c.flight.value.left != []
      && (sender.Holding? ==> c.flight.value.left == c.flight.value.frame.bytes)
      && c.throwCount == (if sender.Counted? then 1 else 0)
      && (sender.Returned? ==> sender.n <= |c.flight.value.left|)
  }

  /** The output is whole frames, then the beginning of the one in flight. */
  ghost predicate WireOk(c: Conn, id: nat, sender: SenderAt) {
    && (c.flight.Some? ==>
          var fl := c.flight.value;
          |fl.left| <= |fl.frame.bytes| && fl.left == fl.frame.bytes[|fl.frame.bytes| - |fl.left|..])
    && Unaccounted(c, id, sender) <= (if c.flight.Some? then |c.flight.value.left| else 0)
    && c.output == Flatten(FrameBytes(c.done)) + Progress(c)
                   + if c.flight.Some? then c.flight.value.left[..Unaccounted(c, id, sender)] else []
  }

  /** Started frames are this connection's, of this socket's epoch, each started once and no longer queued. */
  ghost predicate StartedOk(c: Conn, id: nat, queue: seq<Frame>, nextId: nat) {
    && (c.open ==> c.seqno == c.born)
    && (forall i :: 0 <= i < |Started(c)| ==>
      Started(c)[i].conn == id && Started(c)[i].epoch == c.born && Started(c)[i].id < nextId)
    && (forall i, j :: 0 <= i < j < |Started(c)| ==> Started(c)[i].id != Started(c)[j].id)
    && (forall i, k :: 0 <= i < |Started(c)| && 0 <= k < |queue| ==> Started(c)[i].id != queue[k].id)
  }

  ghost predicate QueueOk(queue: seq<Frame>, nextId: nat, ids: set<nat>) {
    && (forall i :: 0 <= i < |queue| ==> queue[i].id < nextId && queue[i].bytes != [] && queue[i].conn in ids)
    && (forall i, j :: 0 <= i < j < |queue| ==> queue[i].id < queue[j].id)
  }

  ghost predicate ConnOk(c: Conn, id: nat, s: State) {
    PhaseOk(c, id, s.sender) && WireOk(c, id, s.sender) && StartedOk(c, id, s.queue, s.nextId)
  }

  ghost predicate SenderOk(s: State) {
    match s.sender
    case SIdle => true
    case Scanning(pos) => pos <= |s.queue|
    case Holding(pos, c) => pos <= |s.queue| && c in s.conns
    case Returned(pos, c, _) => pos <= |s.queue| && c in s.conns
    case Recorded(pos, c) => pos <= |s.queue| && c in s.conns
    case Counted(pos, c) => pos <= |s.queue| && c in s.conns
    case Late(pos, f) => pos <= |s.queue| && f.conn in s.conns && !s.conns[f.conn].open
  }

  ghost predicate Inv(s: State) {
    && SenderOk(s) && QueueOk(s.queue, s.nextId, s.conns.Keys)
    && forall id :: id in s.conns ==> ConnOk(s.conns[id], id, s)
  }

  /** The thread did not turn to connection `id`, nor away from it. */
  ghost predicate Elsewhere(sender: SenderAt, sender': SenderAt, id: nat) {
    sender' == sender || (!Holds(sender, id) && !Holds(sender', id))
  }

  /** Every queued frame was queued before or is new. */
  ghost predicate QueueFrom(s: State, s': State) {
    && s.nextId <= s'.nextId
    && forall k :: 0 <= k < |s'.queue| ==> s'.queue[k] in s.queue || s'.queue[k].id >= s.nextId
  }

  /** Starting no frame keeps what is known of the started ones. */
  lemma StartedStays(c: Conn, c': Conn, id: nat, s: State, s': State)
    requires StartedOk(c, id, s.queue, s.nextId) && QueueFrom(s, s')
    requires Started(c') == Started(c) && c'.born == c.born && (c'.open ==> c.open && c'.seqno == c.seqno)
    ensures StartedOk(c', id, s'.queue, s'.nextId)
  {
    forall i, k | 0 <= i < |Started(c')| && 0 <= k < |s'.queue| ensures Started(c')[i].id != s'.queue[k].id {
      if s'.queue[k] in s.queue {
        var j :| 0 <= j < |s.queue| && s.queue[j] == s'.queue[k];
      }
    }
  }

  /** A connection no step touches keeps its part of the invariant. */
  lemma OthersOk(s: State, s': State, id: nat)
    requires id in s.conns && ConnOk(s.conns[id], id, s)
    requires id in s'.conns && s'.conns[id] == s.conns[id]
    requires Elsewhere(s.sender, s'.sender, id) && QueueFrom(s, s')
    ensures ConnOk(s'.conns[id], id, s')
  {
    hide Started, StartedOk, QueueFrom;
    StartedStays(s.conns[id], s'.conns[id], id, s, s');
  }

  /** A step that concerns one connection keeps the invariant if it keeps that connection's part. */
  lemma OneConnStep(s: State, s': State, id: nat)
    requires Inv(s) && id in s.conns && s'.conns.Keys == s.conns.Keys
    requires forall o :: o in s.conns && o != id ==> s'.conns[o] == s.conns[o]
    requires SenderOk(s') && QueueOk(s'.queue, s'.nextId, s'.conns.Keys) && QueueFrom(s, s')
    requires forall o :: o in s.conns && o != id ==> Elsewhere(s.sender, s'.sender, o)
    requires ConnOk(s'.conns[id], id, s')
    ensures Inv(s')
  {
    hide ConnOk, SenderOk, QueueOk, Elsewhere, QueueFrom;
    forall o | o in s'.conns ensures ConnOk(s'.conns[o], o, s') {
      if o != id {
        OthersOk(s, s', o);
      }
    }
  }

  lemma WithoutKeeps(queue: seq<Frame>, k: nat, nextId: nat, ids: set<nat>)
    requires k < |queue| && QueueOk(queue, nextId, ids)
    ensures QueueOk(Without(queue, k), nextId, ids)
    ensures forall j :: 0 <= j < |Without(queue, k)| ==>
      Without(queue, k)[j] in queue && Without(queue, k)[j].id != queue[k].id
  {
    var q := Without(queue, k);
    assert forall j :: 0 <= j < |q| ==> q[j] == queue[if j < k then j else j + 1];
  }

  /** Starting the frame taken off the queue at `k`. */
  lemma TakenStarts(c: Conn, c': Conn, id: nat, queue: seq<Frame>, k: nat, nextId: nat, ids: set<nat>)
    requires k < |queue| && QueueOk(queue, nextId, ids) && StartedOk(c, id, queue, nextId)
    requires c.open && c.seqno == queue[k].epoch && queue[k].conn == id
    requires Started(c') == Started(c) + [queue[k]] && c'.born == c.born && c'.open && c'.seqno == c.seqno
    ensures StartedOk(c', id, Without(queue, k), nextId)
  {
    hide Started, QueueOk, Without;
    WithoutKeeps(queue, k, nextId, ids);
    var q := Without(queue, k);
    QueuedFrame(queue, nextId, ids);
    forall i, j | 0 <= i < |Started(c')| && 0 <= j < |q| ensures Started(c')[i].id != q[j].id {
      if i < |Started(c)| {
        assert Started(c')[i] == Started(c)[i] && q[j] in queue;
      }
    }
  }

  lemma QueuedFrame(queue: seq<Frame>, nextId: nat, ids: set<nat>)
    requires QueueOk(queue, nextId, ids)
    ensures forall i :: 0 <= i < |queue| ==> queue[i].id < nextId && queue[i].bytes != []
  {
  }

  /** The thread takes a frame off the queue for a connection that is free. */
  lemma TakeKeeps(s: State, pos: nat)
    requires Inv(s) && s.sender == Scanning(pos) && pos < |s.queue| && s.queue[pos].conn in s.conns
    requires var c := s.conns[s.queue[pos].conn]; c.seqno == s.queue[pos].epoch && c.open && c.throwCount <= 0
    ensures Inv(VisitFrame(s, pos))
  {
    hide WireOk, StartedOk, QueueOk, Without;
    var f, s' := s.queue[pos], VisitFrame(s, pos);
    var c, c' := s.conns[f.conn], s'.conns[f.conn];
    QueuedFrame(s.queue, s.nextId, s.conns.Keys);
    WithoutKeeps(s.queue, pos, s.nextId, s.conns.Keys);
    assert ConnOk(c, f.conn, s);
    FlightStarts(c, c', f, s.sender, s'.sender);
    TakenStarts(c, c', f.conn, s.queue, pos, s.nextId, s.conns.Keys);
    WithoutLength(s.queue, pos);
    assert f in s.queue;
    OneConnStep(s, s', f.conn);
  }

  lemma WithoutLength(queue: seq<Frame>, k: nat)
    requires k < |queue|
    ensures |Without(queue, k)| == |queue| - 1
  {
  }

  lemma DropKeeps(s: State, pos: nat, sender: SenderAt)
    requires Inv(s) && s.sender == Scanning(pos) && pos < |s.queue|
    requires sender == s.sender || (sender == Late(pos, s.queue[pos]) && s.queue[pos].conn in s.conns
                                    && !s.conns[s.queue[pos].conn].open)
    ensures Inv(s.(queue := Without(s.queue, pos), sender := sender))
  {
    hide ConnOk;
    var s' := s.(queue := Without(s.queue, pos), sender := sender);
    WithoutLength(s.queue, pos);
    WithoutKeeps(s.queue, pos, s.nextId, s.conns.Keys);
    forall o | o in s'.conns ensures ConnOk(s'.conns[o], o, s') {
      OthersOk(s, s', o);
    }
  }

  // What each step does to the bytes on the wire.

  lemma FlightStarts(c: Conn, c': Conn, f: Frame, sender: SenderAt, sender': SenderAt)
    requires WireOk(c, f.conn, sender) && c.flight.None? && c'.flight == Some(Flight(f, f.bytes))
    requires c'.done == c.done && c'.output == c.output && Unaccounted(c', f.conn, sender') == 0
    ensures WireOk(c', f.conn, sender')
    ensures Started(c') == Started(c) + [f]
  {
    assert f.bytes[|f.bytes| - |f.bytes|..] == f.bytes && f.bytes[..0] == [];
    assert f.bytes[..|f.bytes| - |f.bytes|] == [];
  }

  lemma FinishFrame(c: Conn, c': Conn, id: nat, sender: SenderAt, sender': SenderAt)
    requires c.flight.Some? && WireOk(c, id, sender) && Unaccounted(c, id, sender) == |c.flight.value.left|
    requires c'.flight.None? && c'.done == c.done + [c.flight.value.frame] && c'.output == c.output
    requires Unaccounted(c', id, sender') == 0
    ensures WireOk(c', id, sender')
    ensures Started(c') == Started(c)
  {
    hide Unaccounted, WireOk;
    var f, left := c.flight.value.frame, c.flight.value.left;
    FlightBytes(c, id, sender);
    assert FrameBytes(c.done + [f]) == FrameBytes(c.done) + [f.bytes];
    OneMore(FrameBytes(c.done), f.bytes);
    assert left[..|left|] == left;
    Associates(Flatten(FrameBytes(c.done)), Progress(c), left);
    assert c'.output == Flatten(FrameBytes(c'.done));
    assert WireOk(c', id, sender') by { Landed(c', id, sender'); }
  }

  lemma OneMore(s: seq<seq<byte>>, b: seq<byte>)
    ensures Flatten(s + [b]) == Flatten(s) + b
  {
    assert (s + [b])[..|s|] == s;
  }

  lemma Landed(c: Conn, id: nat, sender: SenderAt)
    requires c.flight.None? && c.output == Flatten(FrameBytes(c.done)) && Unaccounted(c, id, sender) == 0
    ensures WireOk(c, id, sender)
  {
  }

  lemma CallExtends(c: Conn, c': Conn, id: nat, sender: SenderAt, sender': SenderAt, n: nat)
    requires c.flight.Some? && WireOk(c, id, sender) && Unaccounted(c, id, sender) == 0
    requires n <= |c.flight.value.left| && Unaccounted(c', id, sender') == n
    requires c'.flight == c.flight && c'.done == c.done && c'.output == c.output + c.flight.value.left[..n]
    ensures WireOk(c', id, sender')
  {
    hide Unaccounted;
    assert c.flight.value.left[..0] == [];
    assert c.output == Flatten(FrameBytes(c.done)) + Progress(c);
  }

  lemma RecordKeeps(c: Conn, c': Conn, id: nat, sender: SenderAt, sender': SenderAt, n: nat)
    requires c.flight.Some? && WireOk(c, id, sender) && Unaccounted(c, id, sender) == n
    requires n <= |c.flight.value.left| && Unaccounted(c', id, sender') == 0
    requires c'.flight == Some(c.flight.value.(left := c.flight.value.left[n..])) && c'.done == c.done
      && c'.output == c.output
    ensures WireOk(c', id, sender')
  {
    hide Unaccounted;
    var f, left := c.flight.value.frame, c.flight.value.left;
    assert left[n..] == f.bytes[|f.bytes| - |left[n..]|..];
    assert Progress(c') == Progress(c) + left[..n];
    assert left[n..][..0] == [];
    Associates(Flatten(FrameBytes(c.done)), Progress(c), left[..n]);
  }

  lemma QuietKeeps(c: Conn, c': Conn, id: nat, sender: SenderAt, sender': SenderAt)
    requires WireOk(c, id, sender) && Unaccounted(c', id, sender') == Unaccounted(c, id, sender)
    requires c'.flight == c.flight && c'.done == c.done && c'.output == c.output
    ensures WireOk(c', id, sender') && Started(c') == Started(c)
  {
  }

  lemma SendCallKeeps(s: State, n: nat)
    requires Inv(s) && Next(s, SendCall(n)).Some?
    ensures Inv(Next(s, SendCall(n)).value)
  {
    hide WireOk, StartedOk, QueueOk;
    var id, s' := s.sender.conn, Next(s, SendCall(n)).value;
    var c, c' := s.conns[id], s'.conns[id];
    assert ConnOk(c, id, s);
    if c.open {
      CallExtends(c, c', id, s.sender, s'.sender, n);
      StartedStays(c, c', id, s, s');
    } else {
      FlightDropped(c, c', id, s.sender, s'.sender);
      StartedDropped(c, c', id, s.queue, s.nextId);
    }
    OneConnStep(s, s', id);
  }

  /** A frame no byte of which was sent is given up because its socket has been closed. */
  lemma FlightDropped(c: Conn, c': Conn, id: nat, sender: SenderAt, sender': SenderAt)
    requires c.flight.Some? && c.flight.value.left == c.flight.value.frame.bytes
    requires WireOk(c, id, sender) && Unaccounted(c, id, sender) == 0 && Unaccounted(c', id, sender') == 0
    requires c'.flight.None? && c'.done == c.done && c'.output == c.output
    ensures WireOk(c', id, sender')
  {
    hide Unaccounted;
    assert Progress(c) == [] && c.flight.value.left[..0] == [];
  }

  lemma StartedDropped(c: Conn, c': Conn, id: nat, queue: seq<Frame>, nextId: nat)
    requires StartedOk(c, id, queue, nextId) && c'.done == c.done && c'.flight.None? && c'.born == c.born && !c'.open
    ensures StartedOk(c', id, queue, nextId)
  {
    assert Started(c') == Started(c)[..|c.done|];
  }

  lemma SenderRecordKeeps(s: State)
    requires Inv(s) && Next(s, Record).Some?
    ensures Inv(Next(s, Record).value)
  {
    hide WireOk, StartedOk, QueueOk;
    var id, s' := s.sender.conn, Next(s, Record).value;
    var c, c' := s.conns[id], s'.conns[id];
    assert ConnOk(c, id, s);
    if s.sender.n == |c.flight.value.left| {
      FinishFrame(c, c', id, s.sender, s'.sender);
    } else {
      RecordKeeps(c, c', id, s.sender, s'.sender, s.sender.n);
    }
    StartedStays(c, c', id, s, s');
    OneConnStep(s, s', id);
  }

  lemma CountArmKeeps(s: State, a: Action)
    requires Inv(s) && (a == Count || a == Arm) && Next(s, a).Some?
    ensures Inv(Next(s, a).value)
  {
    hide WireOk, StartedOk, QueueOk;
    var id, s' := s.sender.conn, Next(s, a).value;
    var c, c' := s.conns[id], s'.conns[id];
    assert ConnOk(c, id, s);
    QuietKeeps(c, c', id, s.sender, s'.sender);
    StartedStays(c, c', id, s, s');
    OneConnStep(s, s', id);
  }

  lemma WriteCallKeeps(s: State, id: nat, n: nat)
    requires Inv(s) && Next(s, WriteCall(id, n)).Some?
    ensures Inv(Next(s, WriteCall(id, n)).value)
  {
    hide WireOk, StartedOk, QueueOk;
    var s' := Next(s, WriteCall(id, n)).value;
    var c, c' := s.conns[id], s'.conns[id];
    assert ConnOk(c, id, s);
    CallExtends(c, c', id, s.sender, s'.sender, n);
    StartedStays(c, c', id, s, s');
    OneConnStep(s, s', id);
  }

  lemma WriteRecordKeeps(s: State, id: nat)
    requires Inv(s) && Next(s, WriteRecord(id)).Some?
    ensures Inv(Next(s, WriteRecord(id)).value)
  {
    hide WireOk, StartedOk, QueueOk;
    var s' := Next(s, WriteRecord(id)).value;
    var c, c' := s.conns[id], s'.conns[id];
    assert ConnOk(c, id, s);
    RecordKeeps(c, c', id, s.sender, s'.sender, c.handler.n);
    StartedStays(c, c', id, s, s');
    OneConnStep(s, s', id);
  }

  lemma WritePostKeeps(s: State, id: nat)
    requires Inv(s) && Next(s, WritePost(id)).Some?
    ensures Inv(Next(s, WritePost(id)).value)
  {
    hide WireOk, StartedOk, QueueOk;
    var s' := Next(s, WritePost(id)).value;
    var c, c' := s.conns[id], s'.conns[id];
    assert ConnOk(c, id, s);
    QuietKeeps(c, c', id, s.sender, s'.sender);
    StartedStays(c, c', id, s, s');
    OneConnStep(s, s', id);
  }

  lemma WriteReleaseKeeps(s: State, id: nat)
    requires Inv(s) && Next(s, WriteRelease(id)).Some?
    ensures Inv(Next(s, WriteRelease(id)).value)
  {
    hide WireOk, StartedOk, QueueOk;
    var s' := Next(s, WriteRelease(id)).value;
    var c, c' := s.conns[id], s'.conns[id];
    assert ConnOk(c, id, s);
    FinishFrame(c, c', id, s.sender, s'.sender);
    StartedStays(c, c', id, s, s');
    OneConnStep(s, s', id);
  }

  lemma CloseKeeps(s: State, id: nat)
    requires Inv(s) && Next(s, Close(id)).Some?
    ensures Inv(Next(s, Close(id)).value)
  {
    hide WireOk, StartedOk, QueueOk;
    var s' := Next(s, Close(id)).value;
    var c, c' := s.conns[id], s'.conns[id];
    assert ConnOk(c, id, s);
    QuietKeeps(c, c', id, s.sender, s'.sender);
    StartedStays(c, c', id, s, s');
    OneConnStep(s, s', id);
  }

  lemma ReopenKeeps(s: State, id: nat, fd: nat)
    requires Inv(s) && Next(s, Reopen(id, fd)).Some?
    ensures Inv(Next(s, Reopen(id, fd)).value)
  {
    hide Next, Inv, ConnOk, QueueOk, SenderOk;
    var s' := Next(s, Reopen(id, fd)).value;
    ReopenState(s, id, fd);
    FreshOk(s'.conns[id], id, s');
    assert QueueOk(s'.queue, s'.nextId, s'.conns.Keys) by { QueueIsOk(s); }
    OneConnStep(s, s', id);
  }

  lemma QueueIsOk(s: State)
    requires Inv(s)
    ensures QueueOk(s.queue, s.nextId, s.conns.Keys)
  {
  }

  lemma ReopenState(s: State, id: nat, fd: nat)
    requires Inv(s) && Next(s, Reopen(id, fd)).Some?
    ensures
      var s' := Next(s, Reopen(id, fd)).value;
      && id in s.conns && id in s'.conns && s' == s.(conns := s.conns[id := s'.conns[id]])
      && s'.conns[id] == Conn(true, s'.conns[id].seqno, s'.conns[id].seqno, 0, None, false, HIdle, [], [], [],
                              s'.conns[id].fd)
      && !Holds(s'.sender, id) && SenderOk(s')
  {
    hide ConnOk, QueueOk;
  }

  lemma MsgSendKeeps(s: State, id: nat, epoch: nat, bytes: seq<byte>)
    requires Inv(s) && Next(s, MsgSend(id, epoch, bytes)).Some?
    ensures Inv(Next(s, MsgSend(id, epoch, bytes)).value)
  {
    hide WireOk, StartedOk;
    var s' := Next(s, MsgSend(id, epoch, bytes)).value;
    var c, c' := s.conns[id], s'.conns[id];
    assert forall k :: 0 <= k < |s'.queue| ==>
      s'.queue[k] == if k < |s.queue| then s.queue[k] else Frame(s.nextId, id, epoch, bytes);
    assert ConnOk(c, id, s);
    QuietKeeps(c, c', id, s.sender, s'.sender);
    StartedStays(c, c', id, s, s');
    OneConnStep(s, s', id);
  }

  lemma VisitKeeps(s: State)
    requires Inv(s) && Next(s, Visit).Some?
    ensures Inv(Next(s, Visit).value)
  {
    hide ConnOk, QueueOk;
    var pos := s.sender.pos;
    var f, s' := s.queue[pos], Next(s, Visit).value;
    var c := s.conns[f.conn];
    if c.seqno != f.epoch {
      DropKeeps(s, pos, s.sender);
    } else if c.throwCount > 0 {
      SenderMoves(s, s');
    } else if !c.open {
      DropKeeps(s, pos, s'.sender);
    } else {
      TakeKeeps(s, pos);
    }
  }

  /** Moving the thread between frames concerns no connection. */
  lemma SenderMoves(s: State, s': State)
    requires Inv(s) && s'.conns == s.conns && s'.queue == s.queue && s'.nextId == s.nextId && SenderOk(s')
    requires s.sender.SIdle? || s.sender.Scanning? || s.sender.Late?
    requires s'.sender.SIdle? || s'.sender.Scanning?
    ensures Inv(s')
  {
    hide ConnOk;
    forall o | o in s'.conns ensures ConnOk(s'.conns[o], o, s') {
      OthersOk(s, s', o);
    }
  }

  lemma NothingMoves(s: State, s': State)
    requires Inv(s) && s' == s.(stray := s'.stray)
    ensures Inv(s')
  {
    hide ConnOk;
    forall o | o in s'.conns ensures ConnOk(s'.conns[o], o, s') {
      OthersOk(s, s', o);
    }
  }

  lemma StepKeeps(s: State, a: Action)
    requires Inv(s) && Next(s, a).Some?
    ensures Inv(Next(s, a).value)
  {
    hide ConnOk, QueueOk;
    match a
    case MsgSend(id, epoch, bytes) => MsgSendKeeps(s, id, epoch, bytes);
    case StartPass => SenderMoves(s, Next(s, a).value);
    case Visit => VisitKeeps(s);
    case SendCall(n) => SendCallKeeps(s, n);
    case Record => SenderRecordKeeps(s);
    case Count => CountArmKeeps(s, a);
    case Arm => CountArmKeeps(s, a);
    case EndPass => SenderMoves(s, Next(s, a).value);
    case WriteCall(id, n) => WriteCallKeeps(s, id, n);
    case WriteRecord(id) => WriteRecordKeeps(s, id);
    case WritePost(id) => WritePostKeeps(s, id);
    case WriteRelease(id) => WriteReleaseKeeps(s, id);
    case Close(id) => CloseKeeps(s, id);
    case Reopen(id, fd) => ReopenKeeps(s, id, fd);
    case DropLate => SenderMoves(s, Next(s, a).value);
    case GoAstray(_, _) => NothingMoves(s, Next(s, a).value);
  }

  // ---- Whole runs ----

  /** The state after a run of actions, each of which could happen. */
  function Run(s: State, run: seq<Action>): Option<State> {
    if run == [] then Some(s)
    else
      var before := Run(s, run[..|run| - 1]);
      if before.None? then None else Next(before.value, run[|run| - 1])
  }

  /** No two open sockets have the same number. */
  ghost predicate NumbersOk(conns: map<nat, Conn>) {
    forall i, j :: i in conns && j in conns && i != j && conns[i].open && conns[j].open ==> conns[i].fd != conns[j].fd
  }

  ghost predicate Initial(s: State) {
    && s.queue == [] && s.sender == SIdle && s.stray.None? && NumbersOk(s.conns)
    && forall id :: id in s.conns ==>
      s.conns[id] == Conn(true, s.conns[id].seqno, s.conns[id].seqno, 0, None, false, HIdle, [], [], [], s.conns[id].fd)
  }

  lemma InitialOk(s: State)
    requires Initial(s)
    ensures Inv(s)
  {
    hide ConnOk;
    forall id | id in s.conns ensures ConnOk(s.conns[id], id, s) {
      FreshOk(s.conns[id], id, s);
    }
  }

  lemma FreshOk(c: Conn, id: nat, s: State)
    requires c == Conn(true, c.seqno, c.seqno, 0, None, false, HIdle, [], [], [], c.fd) && !Holds(s.sender, id)
    ensures ConnOk(c, id, s)
  {
    assert FrameBytes([]) == [] && Started(c) == [];
  }

  lemma {:induction false} RunKeeps(s: State, run: seq<Action>)
    requires Inv(s) && Run(s, run).Some?
    ensures Inv(Run(s, run).value)
  {
    hide Inv, Next;
    if run != [] {
      RunKeeps(s, run[..|run| - 1]);
      StepKeeps(Run(s, run[..|run| - 1]).value, run[|run| - 1]);
    }
  }

  /** What was written to the socket of a connection by mistake. */
  function Foreign(s: State, id: nat): seq<byte> {
    if s.stray.Some? && s.stray.value.owner == id && s.stray.value.n <= |s.stray.value.frame.bytes| then
      s.stray.value.frame.bytes[..s.stray.value.n]
    else []
  }

  /** All that was written to the current socket of a connection. */
  function Wire(s: State, id: nat): seq<byte>
    requires id in s.conns
  {
    s.conns[id].output + Foreign(s, id)
  }

  /**
   What was written to a socket: whole frames of its own epoch, none twice, and the beginning of one more; in case a
   frame went astray, then also the beginning of that.
   */
  lemma FramesStayWhole(s: State, run: seq<Action>, id: nat)
    requires Initial(s) && Run(s, run).Some? && id in Run(s, run).value.conns
    ensures
      var c := Run(s, run).value.conns[id];
      && Flatten(FrameBytes(c.done)) <= c.output <= Flatten(FrameBytes(Started(c)))
      && Wire(Run(s, run).value, id) == c.output + Foreign(Run(s, run).value, id)
      && (forall i :: 0 <= i < |Started(c)| ==> Started(c)[i].conn == id && Started(c)[i].epoch == c.born)
      && (forall i, j :: 0 <= i < j < |Started(c)| ==> Started(c)[i].id != Started(c)[j].id)
  {
    InitialOk(s);
    RunKeeps(s, run);
    var s' := Run(s, run).value;
    assert ConnOk(s'.conns[id], id, s');
    OutputBetween(s'.conns[id], id, s'.sender);
  }

  lemma OutputBetween(c: Conn, id: nat, sender: SenderAt)
    requires WireOk(c, id, sender)
    ensures Flatten(FrameBytes(c.done)) <= c.output <= Flatten(FrameBytes(Started(c)))
  {
    var whole := Flatten(FrameBytes(c.done));
    if c.flight.None? {
      assert Started(c) == c.done;
    } else {
      hide Unaccounted, WireOk;
      var f, left := c.flight.value.frame, c.flight.value.left;
      var n := Unaccounted(c, id, sender);
      assert n <= |left| && c.output == whole + Progress(c) + left[..n] && Progress(c) + left == f.bytes by {
        FlightBytes(c, id, sender);
      }
      assert FrameBytes(Started(c)) == FrameBytes(c.done) + [f.bytes];
      OneMore(FrameBytes(c.done), f.bytes);
      assert whole + f.bytes == c.output + left[n..] by {
        assert left == left[..n] + left[n..];
        Associates(whole, Progress(c), left);
        Associates(whole + Progress(c), left[..n], left[n..]);
      }
    }
  }

  lemma FlightBytes(c: Conn, id: nat, sender: SenderAt)
    requires c.flight.Some? && WireOk(c, id, sender)
    ensures var left := c.flight.value.left; var n := Unaccounted(c, id, sender);
      n <= |left| && c.output == Flatten(FrameBytes(c.done)) + Progress(c) + left[..n]
        && Progress(c) + left == c.flight.value.frame.bytes
  {
  }

  predicate Reopens(a: Action, id: nat) {
    a.Reopen? && a.conn == id
  }

  /** From the moment a connection is closed nothing more is written for it, whatever the thread was about to send. */
  lemma ClosedIsSilent(s: State, a: Action, id: nat)
    requires Next(s, a).Some? && id in s.conns && !s.conns[id].open && Inv(s)
    ensures
      var c, c' := s.conns[id], Next(s, a).value.conns[id];
      if Reopens(a, id) then c' == Conn(true, c.seqno + 2, c.seqno + 2, 0, None, false, HIdle, [], [], [], a.fd)
      else !c'.open && c'.output == c.output && c'.seqno == c.seqno
  {
    hide WireOk, StartedOk, QueueOk, Inv, VisitFrame;
    assert ConnOk(s.conns[id], id, s) by { ConnIsOk(s, id); }
    if a.Visit? {
      ClosedVisit(s, id);
    }
  }

  lemma ConnIsOk(s: State, id: nat)
    requires Inv(s) && id in s.conns
    ensures ConnOk(s.conns[id], id, s)
  {
  }

  lemma ClosedVisit(s: State, id: nat)
    requires Next(s, Visit).Some? && id in s.conns && !s.conns[id].open
    ensures Next(s, Visit).value.conns[id] == s.conns[id]
  {
  }

  lemma {:induction false} ClosedStaysSilent(s: State, run: seq<Action>, id: nat)
    requires Inv(s) && Run(s, run).Some? && id in s.conns && !s.conns[id].open
    requires forall a :: a in run ==> !Reopens(a, id)
    ensures Inv(Run(s, run).value) && id in Run(s, run).value.conns
    ensures !Run(s, run).value.conns[id].open && Run(s, run).value.conns[id].output == s.conns[id].output
  {
    hide Inv, Next;
    if run != [] {
      var init, a := run[..|run| - 1], run[|run| - 1];
      assert a in run;
      ClosedStaysSilent(s, init, id);
      StepKeeps(Run(s, init).value, a);
      ClosedIsSilent(Run(s, init).value, a, id);
    }
  }

  // ---- Nothing lost, nothing overtaken ----

  /** The queued frames of one epoch of a connection. */
  function Mine(queue: seq<Frame>, id: nat, epoch: nat): (mine: seq<Frame>) {
    if queue == [] then []
    else
      var f := queue[|queue| - 1];
      Mine(queue[..|queue| - 1], id, epoch) + if f.conn == id && f.epoch == epoch then [f] else []
  }

  lemma {:induction false} MineConcat(a: seq<Frame>, b: seq<Frame>, id: nat, epoch: nat)
    ensures Mine(a + b, id, epoch) == Mine(a, id, epoch) + Mine(b, id, epoch)
  {
    if b == [] {
      assert a + b == a;
    } else {
      var init := b[..|b| - 1];
      assert (a + b)[..|a + b| - 1] == a + init;
      MineConcat(a, init, id, epoch);
    }
  }

  lemma MineSplit(queue: seq<Frame>, k: nat, id: nat, epoch: nat)
    requires k < |queue|
    ensures Mine(queue, id, epoch) == Mine(queue[..k], id, epoch) + Mine([queue[k]], id, epoch)
      + Mine(queue[k + 1..], id, epoch)
    ensures Mine(Without(queue, k), id, epoch) == Mine(queue[..k], id, epoch) + Mine(queue[k + 1..], id, epoch)
  {
    assert queue == queue[..k] + [queue[k]] + queue[k + 1..];
    MineConcat(queue[..k] + [queue[k]], queue[k + 1..], id, epoch);
    MineConcat(queue[..k], [queue[k]], id, epoch);
    MineConcat(queue[..k], queue[k + 1..], id, epoch);
  }

  lemma {:induction false} MineIncreases(queue: seq<Frame>, id: nat, epoch: nat, bound: nat)
    requires forall i, j :: 0 <= i < j < |queue| ==> queue[i].id < queue[j].id
    requires forall i :: 0 <= i < |queue| ==> queue[i].id < bound
    ensures Increasing(Mine(queue, id, epoch), bound)
  {
    if queue != [] {
      var f := queue[|queue| - 1];
      MineIncreases(queue[..|queue| - 1], id, epoch, f.id);
    }
  }

  ghost predicate Increasing(frames: seq<Frame>, bound: nat) {
    && (forall i :: 0 <= i < |frames| ==> frames[i].id < bound)
    && (forall i, j :: 0 <= i < j < |frames| ==> frames[i].id < frames[j].id)
  }

  /** The frames of a connection's current socket: begun, waiting in the queue, and all that were ever queued. */
  datatype View = View(started: seq<Frame>, waiting: seq<Frame>, asked: seq<Frame>)

  function ViewOf(s: State, id: nat): View
    requires id in s.conns
  {
    var c := s.conns[id];
    View(Started(c), Mine(s.queue, id, c.born), c.asked)
  }

  /** The thread takes a frame of connection `id`. */
  predicate Takes(s: State, a: Action, id: nat) {
    && a == Visit && s.sender.Scanning? && s.sender.pos < |s.queue| && s.queue[s.sender.pos].conn == id && id in s.conns
    && s.conns[id].seqno == s.queue[s.sender.pos].epoch && s.conns[id].open && s.conns[id].throwCount <= 0
  }

  /** How many frames of the connection the pass has left behind. */
  function LeftBehind(s: State, id: nat): nat {
    if !s.sender.SIdle? && s.sender.pos <= |s.queue| && id in s.conns then
      |Mine(s.queue[..s.sender.pos], id, s.conns[id].born)|
    else 0
  }

  /** The frames of a connection after an action, told without the queue of the others. */
  function ViewNext(s: State, a: Action, id: nat): View
    requires id in s.conns
  {
    var v := ViewOf(s, id);
    if a.MsgSend? && a.conn == id && a.epoch == s.conns[id].born then
      var f := Frame(s.nextId, id, a.epoch, a.bytes);
      v.(waiting := v.waiting + [f], asked := v.asked + [f])
    else if Takes(s, a, id) && LeftBehind(s, id) < |v.waiting| then
      View(v.started + [v.waiting[LeftBehind(s, id)]], Without(v.waiting, LeftBehind(s, id)), v.asked)
    else if Reopens(a, id) then View([], [], [])
    else v
  }

  /** No frame carries a sequence number its connection has not reached. */
  ghost predicate CaptureOk(s: State) {
    forall k :: 0 <= k < |s.queue| ==> s.queue[k].conn in s.conns && s.queue[k].epoch <= s.conns[s.queue[k].conn].seqno
  }

  lemma SeqnoGrows(s: State, a: Action, id: nat)
    requires Next(s, a).Some? && id in s.conns
    ensures id in Next(s, a).value.conns && Next(s, a).value.conns[id].seqno >= s.conns[id].seqno
  {
  }

  lemma CaptureKeeps(s: State, a: Action)
    requires CaptureOk(s) && Next(s, a).Some?
    ensures CaptureOk(Next(s, a).value)
    ensures Next(s, a).value.conns.Keys == s.conns.Keys
  {
    if a.Visit? {
      CaptureVisit(s);
    } else {
      hide VisitFrame;
      forall id | id in s.conns ensures Next(s, a).value.conns[id].seqno >= s.conns[id].seqno {
        SeqnoGrows(s, a, id);
      }
    }
  }

  lemma CaptureVisit(s: State)
    requires CaptureOk(s) && Next(s, Visit).Some?
    ensures CaptureOk(Next(s, Visit).value)
  {
    var q := Without(s.queue, s.sender.pos);
    assert forall k :: 0 <= k < |q| ==> q[k] == s.queue[if k < s.sender.pos then k else k + 1];
  }

  lemma {:induction false} NoneMine(queue: seq<Frame>, id: nat, epoch: nat)
    requires forall k :: 0 <= k < |queue| ==> queue[k].conn != id || queue[k].epoch != epoch
    ensures Mine(queue, id, epoch) == []
  {
    if queue != [] {
      NoneMine(queue[..|queue| - 1], id, epoch);
    }
  }

  /** What the invariant says of an open connection the thread does not hold. */
  lemma AtRest(s: State, id: nat)
    requires Inv(s) && id in s.conns && s.conns[id].open
    ensures s.conns[id].seqno == s.conns[id].born
    ensures s.sender.Scanning? && s.conns[id].throwCount <= 0 ==> s.conns[id].flight.None?
  {
    hide QueueOk, WireOk;
    assert ConnOk(s.conns[id], id, s);
  }

  lemma TakeView(s: State, id: nat)
    requires Takes(s, Visit, id) && s.conns[id].seqno == s.conns[id].born && s.conns[id].flight.None?
    ensures ViewOf(VisitFrame(s, s.sender.pos), id) == ViewNext(s, Visit, id)
    ensures LeftBehind(s, id) < |ViewOf(s, id).waiting|
  {
    hide Mine;
    var pos, born := s.sender.pos, s.conns[id].born;
    MineSplit(s.queue, pos, id, born);
    OneMine(s.queue[pos], id, born);
    var v := ViewOf(s, id);
    assert v.waiting[LeftBehind(s, id)] == s.queue[pos];
    assert Without(v.waiting, LeftBehind(s, id)) == Mine(Without(s.queue, pos), id, born);
  }

  lemma VisitView(s: State, id: nat)
    requires Inv(s) && Next(s, Visit).Some? && id in s.conns && s.conns[id].open
    ensures ViewOf(Next(s, Visit).value, id) == ViewNext(s, Visit, id)
  {
    hide Inv, Mine, Without;
    var pos, born := s.sender.pos, s.conns[id].born;
    AtRest(s, id);
    if Takes(s, Visit, id) {
      TakeView(s, id);
    } else {
      OneMine(s.queue[pos], id, born);
      MineSplit(s.queue, pos, id, born);
    }
  }

  lemma QueueView(s: State, id: nat, epoch: nat, bytes: seq<byte>, o: nat)
    requires Next(s, MsgSend(id, epoch, bytes)).Some? && o in s.conns
    ensures ViewOf(Next(s, MsgSend(id, epoch, bytes)).value, o) == ViewNext(s, MsgSend(id, epoch, bytes), o)
  {
    hide Mine;
    var f := Frame(s.nextId, id, epoch, bytes);
    MineConcat(s.queue, [f], o, s.conns[o].born);
    OneMine(f, o, s.conns[o].born);
  }

  /** Every action changes the frames of a connection as `ViewNext` says. */
  lemma ViewStep(s: State, a: Action, id: nat)
    requires Inv(s) && CaptureOk(s) && Next(s, a).Some? && id in s.conns && Next(s, a).value.conns[id].open
    ensures ViewOf(Next(s, a).value, id) == ViewNext(s, a, id)
  {
    hide Inv, Mine, VisitFrame;
    if a.MsgSend? {
      QueueView(s, a.conn, a.epoch, a.bytes, id);
    } else if a.Visit? {
      assert s.conns[id].open by { VisitOpens(s, id); }
      VisitView(s, id);
    } else if Reopens(a, id) {
      NoneMine(s.queue, id, Next(s, a).value.conns[id].born);
    } else {
      OtherView(s, a, id);
    }
  }

  lemma VisitOpens(s: State, id: nat)
    requires Next(s, Visit).Some? && id in s.conns && Next(s, Visit).value.conns[id].open
    ensures s.conns[id].open
  {
  }

  lemma OtherView(s: State, a: Action, id: nat)
    requires Next(s, a).Some? && id in s.conns && !a.MsgSend? && !a.Visit? && !Reopens(a, id)
      && Next(s, a).value.conns[id].open
    ensures ViewOf(Next(s, a).value, id) == ViewNext(s, a, id) == ViewOf(s, id)
  {
    hide Mine, Without;
    var c, c' := s.conns[id], Next(s, a).value.conns[id];
    assert Started(c') == Started(c);
  }

  lemma OneMine(f: Frame, id: nat, epoch: nat)
    ensures Mine([f], id, epoch) == if f.conn == id && f.epoch == epoch then [f] else []
  {
    assert [f][..0] == [];
  }

  /** Every queued frame was begun or waits, once. */
  ghost predicate Conserved(v: View) {
    multiset(v.started) + multiset(v.waiting) == multiset(v.asked)
  }

  /** Frames begin in the order they were queued. */
  ghost predicate InOrder(v: View) {
    v.started + v.waiting == v.asked
  }

  lemma TakeConserves(v: View, k: nat)
    requires Conserved(v) && k < |v.waiting|
    ensures Conserved(View(v.started + [v.waiting[k]], Without(v.waiting, k), v.asked))
  {
    assert v.waiting == v.waiting[..k] + [v.waiting[k]] + v.waiting[k + 1..];
  }

  /** Starting a waiting frame keeps the order exactly when it is the first one waiting. */
  lemma TakeOrder(v: View, k: nat, bound: nat)
    requires k < |v.waiting| && Increasing(v.asked, bound) && Increasing(v.waiting, bound)
    ensures InOrder(View(v.started + [v.waiting[k]], Without(v.waiting, k), v.asked)) <==> InOrder(v) && k == 0
  {
    var n, rest := |v.started|, Without(v.waiting, k);
    if k == 0 {
      assert v.waiting == [v.waiting[0]] + rest;
      Associates(v.started, [v.waiting[0]], rest);
    } else {
      var taken := v.started + [v.waiting[k]] + rest;
      assert taken[n] == v.waiting[k] && taken[n + 1] == rest[0] == v.waiting[0];
    }
  }

  /** Queueing a frame with a fresh number. */
  lemma QueueHistory(v: View, f: Frame, bound: nat)
    requires Conserved(v) && Increasing(v.asked, bound) && f.id == bound
    ensures Conserved(v.(waiting := v.waiting + [f], asked := v.asked + [f]))
    ensures Increasing(v.asked + [f], bound + 1)
    ensures InOrder(v.(waiting := v.waiting + [f], asked := v.asked + [f])) <==> InOrder(v)
  {
    Associates(v.started, v.waiting, [f]);
    var w := v.started + v.waiting;
    if w + [f] == v.asked + [f] {
      assert w == (w + [f])[..|w|] == (v.asked + [f])[..|w|] == v.asked;
    }
  }

  ghost predicate HistoryOk(s: State, id: nat)
    requires id in s.conns
  {
    s.conns[id].open ==> Conserved(ViewOf(s, id)) && Increasing(s.conns[id].asked, s.nextId)
  }

  ghost predicate Accounted(s: State) {
    Inv(s) && CaptureOk(s) && forall id :: id in s.conns ==> HistoryOk(s, id)
  }

  /** The action starts a frame of the connection past one queued before it. */
  predicate Overtakes(s: State, a: Action, id: nat) {
    Takes(s, a, id) && LeftBehind(s, id) > 0
  }

  lemma WaitingIncreases(s: State, id: nat)
    requires Inv(s) && id in s.conns
    ensures Increasing(ViewOf(s, id).waiting, s.nextId)
  {
    hide ConnOk, SenderOk;
    MineIncreases(s.queue, id, s.conns[id].born, s.nextId);
  }

  lemma StillOpen(s: State, a: Action, id: nat)
    requires Next(s, a).Some? && id in s.conns && Next(s, a).value.conns[id].open && !Reopens(a, id)
    ensures s.conns[id].open && Next(s, a).value.conns[id].born == s.conns[id].born
    ensures s.nextId <= Next(s, a).value.nextId
  {
  }

  /** One action: nothing is lost, and the order survives unless the action overtakes. */
  lemma HistoryStep(s: State, a: Action, id: nat)
    requires Inv(s) && CaptureOk(s) && id in s.conns && HistoryOk(s, id)
    requires Next(s, a).Some? && Next(s, a).value.conns[id].open
    ensures HistoryOk(Next(s, a).value, id)
    ensures InOrder(ViewOf(Next(s, a).value, id)) <==>
      (Reopens(a, id) || (InOrder(ViewOf(s, id)) && !Overtakes(s, a, id)))
  {
    hide Inv, CaptureOk, Mine, Next, Started, InOrder, Conserved, Increasing, Without;
    ViewStep(s, a, id);
    var v := ViewOf(s, id);
    if Reopens(a, id) {
      EmptyHistory(Next(s, a).value.nextId);
    } else {
      StillOpen(s, a, id);
      if Takes(s, a, id) {
        AtRest(s, id);
        TakeView(s, id);
        WaitingIncreases(s, id);
        TakeConserves(v, LeftBehind(s, id));
        TakeOrder(v, LeftBehind(s, id), s.nextId);
        NextKeepsCount(s, a);
      } else if a.MsgSend? && a.conn == id && a.epoch == s.conns[id].born {
        QueuedNext(s, a);
        QueueHistory(v, Frame(s.nextId, id, a.epoch, a.bytes), s.nextId);
      } else {
        LaterBound(v.asked, s.nextId, Next(s, a).value.nextId);
      }
    }
  }

  lemma EmptyHistory(bound: nat)
    ensures Conserved(View([], [], [])) && InOrder(View([], [], [])) && Increasing([], bound)
  {
  }

  lemma LaterBound(frames: seq<Frame>, bound: nat, bound': nat)
    requires Increasing(frames, bound) && bound <= bound'
    ensures Increasing(frames, bound')
  {
  }

  lemma NextKeepsCount(s: State, a: Action)
    requires a == Visit && Next(s, a).Some?
    ensures Next(s, a).value.nextId == s.nextId
  {
  }

  lemma QueuedNext(s: State, a: Action)
    requires a.MsgSend? && Next(s, a).Some?
    ensures Next(s, a).value.nextId == s.nextId + 1
  {
  }

  lemma AccountedStep(s: State, a: Action)
    requires Accounted(s) && Next(s, a).Some?
    ensures Accounted(Next(s, a).value)
  {
    hide Inv, Next, CaptureOk, HistoryOk;
    StepKeeps(s, a);
    CaptureKeeps(s, a);
    var s' := Next(s, a).value;
    forall id | id in s'.conns ensures HistoryOk(s', id) {
      if s'.conns[id].open {
        HistoryStep(s, a, id);
      } else {
        ClosedOk(s', id);
      }
    }
  }

  lemma ClosedOk(s: State, id: nat)
    requires id in s.conns && !s.conns[id].open
    ensures HistoryOk(s, id)
  {
  }

  lemma InitialAccounted(s: State)
    requires Initial(s)
    ensures Accounted(s)
    ensures forall id :: id in s.conns ==> ViewOf(s, id) == View([], [], [])
  {
    InitialOk(s);
    hide Inv;
    forall id | id in s.conns ensures HistoryOk(s, id) && ViewOf(s, id) == View([], [], []) {
      hide Increasing, Conserved;
      EmptyHistory(s.nextId);
    }
  }

  lemma {:induction false} AccountedRun(s: State, run: seq<Action>)
    requires Initial(s) && Run(s, run).Some?
    ensures Accounted(Run(s, run).value) && Run(s, run).value.conns.Keys == s.conns.Keys
  {
    hide Accounted, Next;
    if run == [] {
      InitialAccounted(s);
    } else {
      AccountedRun(s, run[..|run| - 1]);
      AccountedStep(Run(s, run[..|run| - 1]).value, run[|run| - 1]);
      AccountedParts(Run(s, run[..|run| - 1]).value);
      CaptureKeeps(Run(s, run[..|run| - 1]).value, run[|run| - 1]);
    }
  }

  lemma AccountedParts(s: State)
    requires Accounted(s)
    ensures Inv(s) && CaptureOk(s) && forall id :: id in s.conns ==> HistoryOk(s, id)
  {
  }

  /** Every frame queued for an open socket has been begun or waits in the queue, exactly once: none is lost. */
  lemma NothingIsLost(s: State, run: seq<Action>, id: nat)
    requires Initial(s) && Run(s, run).Some? && id in s.conns
    ensures id in Run(s, run).value.conns
    ensures Run(s, run).value.conns[id].open ==> Conserved(ViewOf(Run(s, run).value, id))
  {
    hide Inv;
    AccountedRun(s, run);
  }

  /** Some action since the socket of the connection was opened has overtaken. */
  ghost predicate Overtaken(s: State, run: seq<Action>, id: nat) {
    if run == [] then false
    else
      var init, a := run[..|run| - 1], run[|run| - 1];
      !Reopens(a, id) && (Overtaken(s, init, id) || (Run(s, init).Some? && Overtakes(Run(s, init).value, a, id)))
  }

  /** The frames of an open socket begin in the order they were queued exactly when none was overtaken. */
  lemma {:induction false} OrderIff(s: State, run: seq<Action>, id: nat)
    requires Initial(s) && Run(s, run).Some? && id in s.conns
    requires id in Run(s, run).value.conns && Run(s, run).value.conns[id].open
    ensures InOrder(ViewOf(Run(s, run).value, id)) <==> !Overtaken(s, run, id)
  {
    hide Inv, CaptureOk, HistoryOk, Next, Overtakes, InOrder;
    if run == [] {
      InitialAccounted(s);
      assert InOrder(View([], [], [])) by { EmptyHistory(0); }
    } else {
      var init, a := run[..|run| - 1], run[|run| - 1];
      AccountedRun(s, init);
      var before := Run(s, init).value;
      HistoryStep(before, a, id);
      if !Reopens(a, id) {
        StillOpen(before, a, id);
        OrderIff(s, init, id);
      }
    }
  }

  // ---- Completions between passes ----

  /** A completed write frees its connection only while the pass has left none of its frames behind. */
  predicate Orderly(s: State, a: Action, id: nat) {
    a == WriteRelease(id) ==> LeftBehind(s, id) == 0
  }

  ghost predicate PassOk(s: State, id: nat) {
    id in s.conns && s.conns[id].open && LeftBehind(s, id) > 0 ==> s.conns[id].flight.Some? && !Holds(s.sender, id)
  }

  lemma PassAtVisit(s: State, id: nat)
    requires Inv(s) && PassOk(s, id) && Next(s, Visit).Some? && id in s.conns && s.conns[id].open
    ensures PassOk(Next(s, Visit).value, id)
  {
    hide Inv, Mine, WireOk, StartedOk;
    var pos, s' := s.sender.pos, Next(s, Visit).value;
    var f := s.queue[pos];
    AtRest(s, id);
    if s'.sender.Scanning? && s'.queue == s.queue {
      PassedFrame(s, id);
    } else {
      WithoutLength(s.queue, pos);
      assert s'.queue[..pos] == s.queue[..pos];
    }
  }

  /** Leaving a frame behind. */
  lemma PassedFrame(s: State, id: nat)
    requires Inv(s) && PassOk(s, id) && id in s.conns && s.conns[id].open
    requires s.sender.Scanning? && s.sender.pos < |s.queue| && s.queue[s.sender.pos].conn in s.conns
    requires s.conns[s.queue[s.sender.pos].conn].throwCount > 0
    ensures PassOk(s.(sender := Scanning(s.sender.pos + 1)), id)
  {
    hide Mine, WireOk, StartedOk, QueueOk;
    var pos := s.sender.pos;
    var f := s.queue[pos];
    assert ConnOk(s.conns[f.conn], f.conn, s);
    hide Inv, PhaseOk;
    assert s.queue[..pos + 1] == s.queue[..pos] + [f];
    MineConcat(s.queue[..pos], [f], id, s.conns[id].born);
    OneMine(f, id, s.conns[id].born);
  }

  lemma PassKeeps(s: State, a: Action, id: nat)
    requires Inv(s) && CaptureOk(s) && PassOk(s, id) && Orderly(s, a, id) && Next(s, a).Some? && id in s.conns
    ensures PassOk(Next(s, a).value, id)
  {
    hide Inv, Mine, CaptureOk, VisitFrame;
    CaptureKeeps(s, a);
    var s' := Next(s, a).value;
    if s'.conns[id].open {
      if Reopens(a, id) {
        if !s.sender.SIdle? && s.sender.pos <= |s.queue| {
          NotYetMine(s, id, a.fd);
        }
      } else {
        StillOpen(s, a, id);
        if a.Visit? {
          PassAtVisit(s, id);
        } else if a.MsgSend? || a.StartPass? || a.EndPass? {
          assert LeftBehind(s', id) == 0 by { assert s'.queue[..0] == []; NoneMine([], id, s'.conns[id].born); }
        } else {
          assert LeftBehind(s', id) == LeftBehind(s, id);
        }
      }
    }
  }

  lemma NotYetMine(s: State, id: nat, fd: nat)
    requires CaptureOk(s) && Next(s, Reopen(id, fd)).Some? && !s.sender.SIdle? && s.sender.pos <= |s.queue|
    ensures LeftBehind(Next(s, Reopen(id, fd)).value, id) == 0
  {
    NoneMine(s.queue[..s.sender.pos], id, s.conns[id].seqno + 2);
  }

  /** Every action of the run is orderly for the connection. */
  ghost predicate OrderlyRun(s: State, run: seq<Action>, id: nat) {
    if run == [] then true
    else
      var init := run[..|run| - 1];
      OrderlyRun(s, init, id) && (Run(s, init).Some? ==> Orderly(Run(s, init).value, run[|run| - 1], id))
  }

  lemma {:induction false} PassRun(s: State, run: seq<Action>, id: nat)
    requires Initial(s) && Run(s, run).Some? && id in s.conns && OrderlyRun(s, run, id)
    ensures id in Run(s, run).value.conns && PassOk(Run(s, run).value, id) && !Overtaken(s, run, id)
  {
    hide Inv, CaptureOk, HistoryOk, Next, Orderly;
    AccountedRun(s, run);
    if run != [] {
      var init, a := run[..|run| - 1], run[|run| - 1];
      AccountedRun(s, init);
      PassRun(s, init, id);
      var before := Run(s, init).value;
      if Takes(before, a, id) {
        AtRest(before, id);
      }
      PassKeeps(before, a, id);
    }
  }

  /** Order is kept when every completed write falls where the pass has left none of its connection's frames behind. */
  lemma OrderlyRunsKeepOrder(s: State, run: seq<Action>, id: nat)
    requires Initial(s) && Run(s, run).Some? && id in s.conns && OrderlyRun(s, run, id)
    ensures id in Run(s, run).value.conns
    ensures Run(s, run).value.conns[id].open ==> InOrder(ViewOf(Run(s, run).value, id))
  {
    hide Inv, Next;
    PassRun(s, run, id);
    if Run(s, run).value.conns[id].open {
      OrderIff(s, run, id);
    }
  }

  /** A frame made for an earlier use of its connection is dropped when the thread comes to it, and nothing else is. */
  lemma StaleIsDropped(s: State)
    requires Next(s, Visit).Some?
    ensures
      var f, s' := s.queue[s.sender.pos], Next(s, Visit).value;
      && (s'.queue == s.queue || s'.queue == Without(s.queue, s.sender.pos))
      && (s'.queue != s.queue && s'.conns == s.conns && s'.sender == s.sender <==> f.epoch != s.conns[f.conn].seqno)
  {
    WithoutLength(s.queue, s.sender.pos);
  }

  // ---- No frame goes astray ----

  /** Nothing on the way is for a closed socket. */
  ghost predicate Safe(s: State) {
    && s.stray.None? && !s.sender.Late?
    && (forall id :: id in s.conns && Holds(s.sender, id) ==> s.conns[id].open)
    && (forall k :: 0 <= k < |s.queue| ==>
          var f := s.queue[k];
          f.conn in s.conns && !s.conns[f.conn].open ==> f.epoch != s.conns[f.conn].seqno)
  }

  /** No frame is made for a connection that is closed, and none is closed while the thread is sending for it. */
  ghost predicate Careful(s: State, a: Action) {
    && (a.MsgSend? && a.conn in s.conns && !s.conns[a.conn].open ==> a.epoch != s.conns[a.conn].seqno)
    && (a.Close? ==> !Holds(s.sender, a.conn))
  }

  lemma SafeVisit(s: State)
    requires Safe(s) && Next(s, Visit).Some?
    ensures Safe(Next(s, Visit).value)
  {
    var q := Without(s.queue, s.sender.pos);
    assert forall k :: 0 <= k < |q| ==> q[k] == s.queue[if k < s.sender.pos then k else k + 1];
  }

  lemma SafeSend(s: State, a: Action)
    requires Safe(s) && a.MsgSend? && Next(s, a).Some?
    ensures Safe(Next(s, a).value) <==> Careful(s, a)
  {
    var s' := Next(s, a).value;
    assert s'.queue[|s.queue|] == Frame(s.nextId, a.conn, a.epoch, a.bytes);
    assert forall k :: 0 <= k < |s.queue| ==> s'.queue[k] == s.queue[k];
  }

  lemma SafeStep(s: State, a: Action)
    requires CaptureOk(s) && Safe(s) && Next(s, a).Some?
    ensures Safe(Next(s, a).value) <==> Careful(s, a)
  {
    if a.Visit? {
      SafeVisit(s);
    } else if a.MsgSend? {
      SafeSend(s, a);
    } else if a.Close? {
      SafeClose(s, a.conn);
    } else {
      hide CaptureOk;
      assert Next(s, a).value.queue == s.queue;
    }
  }

  lemma SafeClose(s: State, id: nat)
    requires CaptureOk(s) && Safe(s) && Next(s, Close(id)).Some?
    ensures Safe(Next(s, Close(id)).value) <==> !Holds(s.sender, id)
  {
    assert s.sender == Next(s, Close(id)).value.sender;
  }

  ghost predicate AllCareful(s: State, run: seq<Action>) {
    run != [] ==>
      var init := run[..|run| - 1];
      AllCareful(s, init) && (Run(s, init).Some? ==> Careful(Run(s, init).value, run[|run| - 1]))
  }

  ghost predicate AlwaysSafe(s: State, run: seq<Action>) {
    forall k :: 0 <= k <= |run| ==> Run(s, run[..k]).Some? && Safe(Run(s, run[..k]).value)
  }

  lemma {:induction false} AlwaysSafeIff(s: State, run: seq<Action>)
    requires Initial(s) && Run(s, run).Some?
    ensures AlwaysSafe(s, run) <==> AllCareful(s, run)
  {
    hide Next, Inv, CaptureOk, Safe, Careful, Initial;
    assert run[..|run|] == run;
    if run == [] {
      assert Safe(s) by { SafeAtFirst(s); }
    } else {
      var init, a := run[..|run| - 1], run[|run| - 1];
      AlwaysSafeIff(s, init);
      assert forall k :: 0 <= k < |run| ==> run[..k] == init[..k];
      assert init[..|init|] == init;
      AccountedRun(s, init);
      AccountedParts(Run(s, init).value);
      if Safe(Run(s, init).value) {
        SafeStep(Run(s, init).value, a);
      }
    }
  }

  lemma SafeAtFirst(s: State)
    requires Initial(s)
    ensures Safe(s)
  {
  }

  /** In a careful run a socket gets nothing but the frames of its own connection. */
  lemma CarefulRunsStayHome(s: State, run: seq<Action>, id: nat)
    requires Initial(s) && Run(s, run).Some? && AllCareful(s, run) && id in s.conns
    ensures id in Run(s, run).value.conns && Run(s, run).value.stray.None?
    ensures
      var c := Run(s, run).value.conns[id];
      Flatten(FrameBytes(c.done)) <= Wire(Run(s, run).value, id) <= Flatten(FrameBytes(Started(c)))
  {
    hide Inv, Next, Initial, AllCareful, Flatten;
    AlwaysSafeIff(s, run);
    assert run[..|run|] == run;
    AccountedRun(s, run);
    FramesStayWhole(s, run, id);
    assert Foreign(Run(s, run).value, id) == [];
  }

  /** Bytes go astray only from a frame of another connection, whose socket is closed, and to one socket only. */
  lemma AstrayStep(s: State, owner: nat, n: nat)
    requires Inv(s) && NumbersOk(s.conns) && Next(s, GoAstray(owner, n)).Some?
    ensures
      var s' := Next(s, GoAstray(owner, n)).value;
      var f := s'.stray.value.frame;
      && f.conn != owner && f.conn in s.conns && !s.conns[f.conn].open && s.conns[owner].open
      && Wire(s', owner) == s.conns[owner].output + f.bytes[..n]
      && (forall o :: o in s.conns && o != owner ==> Wire(s', o) == s.conns[o].output)
      && (forall o, m :: Next(s, GoAstray(o, m)).Some? ==> o == owner)
  {
    hide WireOk, QueueOk;
    if s.sender.Holding? || s.sender.Counted? {
      assert ConnOk(s.conns[s.sender.conn], s.sender.conn, s);
      HeldIsOwn(s, s.sender.conn);
    }
  }

  lemma HeldIsOwn(s: State, id: nat)
    requires Inv(s) && id in s.conns && s.conns[id].flight.Some?
    ensures s.conns[id].flight.value.frame.conn == id
  {
    var c := s.conns[id];
    assert StartedOk(c, id, s.queue, s.nextId);
    assert Started(c)[|c.done|] == c.flight.value.frame;
  }

  predicate SameSocket(c: Conn, c': Conn) {
    c'.fd == c.fd && (c'.open ==> c.open)
  }

  lemma SocketStays(s: State, a: Action, id: nat)
    requires Next(s, a).Some? && !a.Reopen? && id in s.conns
    ensures id in Next(s, a).value.conns && SameSocket(s.conns[id], Next(s, a).value.conns[id])
  {
  }

  lemma SameNumbers(conns: map<nat, Conn>, conns': map<nat, Conn>)
    requires NumbersOk(conns) && conns'.Keys == conns.Keys
    requires forall i :: i in conns ==> SameSocket(conns[i], conns'[i])
    ensures NumbersOk(conns')
  {
  }

  lemma NumbersStep(s: State, a: Action)
    requires NumbersOk(s.conns) && Next(s, a).Some?
    ensures NumbersOk(Next(s, a).value.conns)
  {
    if a.Reopen? {
      assert Unowned(s.conns, a.fd);
    } else {
      hide NumbersOk, Next;
      forall i | i in s.conns ensures SameSocket(s.conns[i], Next(s, a).value.conns[i]) {
        SocketStays(s, a, i);
      }
      SameNumbers(s.conns, Next(s, a).value.conns);
    }
  }

  lemma {:induction false} NumbersDiffer(s: State, run: seq<Action>)
    requires Initial(s) && Run(s, run).Some?
    ensures NumbersOk(Run(s, run).value.conns)
  {
    hide Next, NumbersOk;
    if run != [] {
      NumbersDiffer(s, run[..|run| - 1]);
      NumbersStep(Run(s, run[..|run| - 1]).value, run[|run| - 1]);
    }
  }

  // ---- No frame is forgotten ----

  /** A pass that came to this frame would send it. */
  predicate Ready(s: State, k: nat)
    requires k < |s.queue|
  {
    var f := s.queue[k];
    && f.conn in s.conns && s.conns[f.conn].open && s.conns[f.conn].seqno == f.epoch
    && s.conns[f.conn].throwCount <= 0
  }

  /** How much of the queue the thread will not look at unless it is told again. */
  function Passed(s: State): nat {
    if s.sender.SIdle? then |s.queue| else s.sender.pos
  }

  /** Every frame that could be sent is still in front of the pass, or there will be another one. */
  ghost predicate Covered(s: State) {
    s.sem > 0 || forall k :: 0 <= k < |s.queue| && Ready(s, k) ==> Passed(s) <= k
  }

  /** The count is taken back when the thread has used up what it was told, and has passed a frame of the connection. */
  ghost predicate Forgets(s: State, a: Action) {
    && a.WriteRelease? && s.sem == 0 && a.conn in s.conns
    && exists k :: 0 <= k < |s.queue| && k < Passed(s) && s.queue[k].conn == a.conn
                   && s.queue[k].epoch == s.conns[a.conn].seqno
  }

  predicate OfThread(a: Action) {
    || a.StartPass? || a.Visit? || a.SendCall? || a.Record? || a.Count? || a.Arm? || a.EndPass? || a.DropLate?
    || a.GoAstray?
  }

  ghost predicate Blocked(s: State) {
    forall a :: OfThread(a) ==> Next(s, a).None?
  }

  /** A closed connection whose number is taken has someone to whom the bytes go. */
  lemma SomeoneOwns(s: State)
    requires s.stray.None? && Dangling(s).Some? && Dangling(s).value.0 in s.conns
    requires !Unowned(s.conns, s.conns[Dangling(s).value.0].fd)
    ensures !Blocked(s)
  {
    var owner :| owner in s.conns && s.conns[owner].open && s.conns[owner].fd == s.conns[Dangling(s).value.0].fd;
    assert Next(s, GoAstray(owner, 0)).Some?;
  }

  lemma HeldGoesOn(s: State, id: nat)
    requires Inv(s) && s.stray.None? && id in s.conns && Holds(s.sender, id)
    ensures !Blocked(s)
  {
    hide WireOk, StartedOk, QueueOk;
    assert ConnOk(s.conns[id], id, s);
    match s.sender
    case Holding(_, _) =>
      if s.conns[id].open || Unowned(s.conns, s.conns[id].fd) {
        assert Next(s, SendCall(0)).Some?;
      } else {
        SomeoneOwns(s);
      }
    case Counted(_, _) =>
      if s.conns[id].open || Unowned(s.conns, s.conns[id].fd) {
        assert Next(s, Arm).Some?;
      } else {
        SomeoneOwns(s);
      }
    case Returned(_, _, _) => assert Next(s, Record).Some?;
    case Recorded(_, _) => assert Next(s, Count).Some?;
    case _ =>
  }

  /** The thread can always go on, unless it has done all it was told. */
  lemma BlockedIff(s: State)
    requires Inv(s) && s.stray.None?
    ensures Blocked(s) <==> s.sender.SIdle? && s.sem == 0
  {
    hide ConnOk;
    match s.sender
    case SIdle =>
      assert s.sem > 0 ==> Next(s, StartPass).Some?;
    case Scanning(pos) =>
      if pos < |s.queue| {
        assert s.queue[pos].conn in s.conns;
        assert Next(s, Visit).Some?;
      } else {
        assert Next(s, EndPass).Some?;
      }
    case Late(_, f) =>
      if Unowned(s.conns, s.conns[f.conn].fd) {
        assert Next(s, DropLate).Some?;
      } else {
        SomeoneOwns(s);
      }
    case _ => HeldGoesOn(s, s.sender.conn);
  }

  /** A thread that cannot go on has left nothing that could be sent. */
  lemma RestsWhenDone(s: State, k: nat)
    requires Inv(s) && s.stray.None?
    requires Covered(s) && Blocked(s) && k < |s.queue|
    ensures !Ready(s, k)
  {
    BlockedIff(s);
  }

  lemma CoveredVisit(s: State)
    requires Covered(s) && Next(s, Visit).Some?
    ensures Covered(Next(s, Visit).value)
  {
    var pos, s' := s.sender.pos, Next(s, Visit).value;
    var q := Without(s.queue, pos);
    assert forall k :: 0 <= k < |q| ==> q[k] == s.queue[if k < pos then k else k + 1];
    if s'.queue == q {
      forall k | 0 <= k < |s'.queue| && Ready(s', k) && s.sem == 0 ensures Passed(s') <= k {
        assert Ready(s, if k < pos then k else k + 1);
      }
    } else {
      forall k | 0 <= k < |s'.queue| && Ready(s', k) && s.sem == 0 ensures Passed(s') <= k {
        assert Ready(s, k) && k != pos;
      }
    }
  }

  /** What is ready after a step that does not end a write was ready before. */
  lemma NothingFreed(s: State, a: Action)
    requires Inv(s) && CaptureOk(s) && Next(s, a).Some? && !a.MsgSend? && !a.Visit? && !a.WriteRelease?
    ensures Next(s, a).value.queue == s.queue
    ensures forall k :: 0 <= k < |s.queue| && Ready(Next(s, a).value, k) ==> Ready(s, k)
  {
    hide WireOk, StartedOk, QueueOk;
    if s.sender.Returned? {
      assert ConnOk(s.conns[s.sender.conn], s.sender.conn, s);
    }
  }

  /** A pass that begins has the whole queue in front of it. */
  lemma PassMoves(s: State, a: Action)
    requires Next(s, a).Some? && !a.Visit? && !a.WriteRelease?
    ensures a.MsgSend? ==> Next(s, a).value.sem > 0
    ensures a.StartPass? ==> Passed(Next(s, a).value) == 0
    ensures !a.MsgSend? && !a.StartPass? ==> Passed(Next(s, a).value) == Passed(s) && Next(s, a).value.sem >= s.sem
  {
  }

  lemma CoveredStep(s: State, a: Action)
    requires Inv(s) && CaptureOk(s) && Covered(s) && Next(s, a).Some?
    ensures Covered(Next(s, a).value) <==> !Forgets(s, a)
  {
    hide Inv, CaptureOk, Next, Ready, Passed;
    if a.Visit? {
      CoveredVisit(s);
    } else if a.WriteRelease? {
      CoveredRelease(s, a.conn);
    } else {
      PassMoves(s, a);
      if !a.MsgSend? {
        NothingFreed(s, a);
      }
    }
  }

  lemma CoveredRelease(s: State, id: nat)
    requires Inv(s) && Covered(s) && Next(s, WriteRelease(id)).Some?
    ensures Covered(Next(s, WriteRelease(id)).value) <==> !Forgets(s, WriteRelease(id))
  {
    hide WireOk, StartedOk, QueueOk;
    var s' := Next(s, WriteRelease(id)).value;
    assert ConnOk(s.conns[id], id, s);
    hide Inv;
    forall k | 0 <= k < |s.queue| && s.queue[k].conn != id ensures Ready(s', k) <==> Ready(s, k) {
    }
    forall k | 0 <= k < |s.queue| && s.queue[k].conn == id
      ensures Ready(s', k) <==> s.queue[k].epoch == s.conns[id].seqno {
    }
  }

  ghost predicate NoneForgets(s: State, run: seq<Action>) {
    run != [] ==>
      var init := run[..|run| - 1];
      NoneForgets(s, init) && (Run(s, init).Some? ==> !Forgets(Run(s, init).value, run[|run| - 1]))
  }

  /** At every moment of the run, that is after each beginning of it. */
  ghost predicate AlwaysCovered(s: State, run: seq<Action>) {
    forall k :: 0 <= k <= |run| ==> Run(s, run[..k]).Some? && Covered(Run(s, run[..k]).value)
  }

  lemma {:induction false} AlwaysCoveredIff(s: State, run: seq<Action>)
    requires Initial(s) && Run(s, run).Some?
    ensures AlwaysCovered(s, run) <==> NoneForgets(s, run)
  {
    hide Next, Inv, CaptureOk, Covered, Forgets, Initial;
    assert run[..|run|] == run;
    if run == [] {
      assert Covered(s) by { NothingQueued(s); }
    } else {
      var init, a := run[..|run| - 1], run[|run| - 1];
      AlwaysCoveredIff(s, init);
      assert forall k :: 0 <= k < |run| ==> run[..k] == init[..k];
      assert init[..|init|] == init;
      AccountedRun(s, init);
      AccountedParts(Run(s, init).value);
      if Covered(Run(s, init).value) {
        CoveredStep(Run(s, init).value, a);
      }
    }
  }

  lemma NothingQueued(s: State)
    requires Initial(s)
    ensures Covered(s)
  {
  }

  // ---- Runs that reorder or forget ----

  function Start(): State {
    State(map[0 := Conn(true, 0, 0, 0, None, false, HIdle, [], [], [], 7)], [], 0, SIdle, 0, None)
  }

  function SendHalf(): seq<Action> {
    [MsgSend(0, 0, [1, 1]), StartPass, Visit, SendCall(1)] + [Record, Count, Arm, EndPass]
  }

  function CompleteMidPass(): seq<Action> {
    [MsgSend(0, 0, [2]), MsgSend(0, 0, [3]), StartPass, Visit]
    + [WriteCall(0, 1), WriteRecord(0), WritePost(0), WriteRelease(0)] + [Visit]
  }

  lemma {:induction false} RunConcat(s: State, a: seq<Action>, b: seq<Action>)
    requires Run(s, a).Some?
    ensures Run(s, a + b) == Run(Run(s, a).value, b)
  {
    hide Next;
    if b == [] {
      assert a + b == a;
    } else {
      assert (a + b)[..|a + b| - 1] == a + b[..|b| - 1];
      RunConcat(s, a, b[..|b| - 1]);
    }
  }

  function HalfSent(): State {
    var f := Frame(0, 0, 0, [1, 1]);
    State(map[0 := Conn(true, 0, 0, 1, Some(Flight(f, [1])), true, HIdle, [1], [f], [], 7)], [], 1, SIdle, 0, None)
  }

  /** The thread has just been told that one byte went out. */
  function Called(): State {
    var f := Frame(0, 0, 0, [1, 1]);
    State(map[0 := Conn(true, 0, 0, 0, Some(Flight(f, [1, 1])), false, HIdle, [1], [f], [], 7)], [], 1,
          Returned(0, 0, 1), 0, None)
  }

  lemma AfterCall()
    ensures Run(Start(), [MsgSend(0, 0, [1, 1]), StartPass, Visit, SendCall(1)]) == Some(Called())
  {
    hide Run;
    var r := [MsgSend(0, 0, [1, 1]), StartPass, Visit, SendCall(1)];
    var s1 := Next(Start(), r[0]).value;
    assert s1.queue == [Frame(0, 0, 0, [1, 1])];
    var s2 := Next(s1, r[1]).value;
    assert Without(s2.queue, 0) == [];
    var s3 := Next(s2, r[2]).value;
    assert [] + [1 as byte, 1][..1] == [1];
    var s4 := Next(s3, r[3]).value;
    assert s4.conns[0] == Called().conns[0];
    assert s4 == Called();
    hide Next, Called, Without;
    Four(Start(), r, s1, s2, s3, Called());
  }

  lemma AfterSendHalf()
    ensures Run(Start(), SendHalf()) == Some(HalfSent())
  {
    hide Run;
    AfterCall();
    var r := [Record, Count, Arm, EndPass];
    assert [1 as byte, 1][1..] == [1];
    var s1 := Next(Called(), r[0]).value;
    var s2 := Next(s1, r[1]).value;
    var s3 := Next(s2, r[2]).value;
    var s4 := Next(s3, r[3]).value;
    assert s4.conns[0] == HalfSent().conns[0];
    assert s4 == HalfSent();
    hide Next, HalfSent, Called;
    Four(Called(), r, s1, s2, s3, HalfSent());
    RunConcat(Start(), [MsgSend(0, 0, [1, 1]), StartPass, Visit, SendCall(1)], r);
  }

  lemma Four(s: State, r: seq<Action>, s1: State, s2: State, s3: State, s4: State)
    requires |r| == 4 && Next(s, r[0]) == Some(s1) && Next(s1, r[1]) == Some(s2) && Next(s2, r[2]) == Some(s3)
      && Next(s3, r[3]) == Some(s4)
    ensures Run(s, r) == Some(s4)
  {
    hide Next;
    assert r[..3][..2] == r[..2] && r[..2][..1] == r[..1] && r[..1][..0] == [];
    assert Run(s, r[..1]) == Some(s1);
    assert Run(s, r[..2]) == Some(s2);
    assert Run(s, r[..3]) == Some(s3);
  }

  function Released(): State {
    var f, f1, f2 := Frame(0, 0, 0, [1, 1]), Frame(1, 0, 0, [2]), Frame(2, 0, 0, [3]);
    State(map[0 := Conn(true, 0, 0, 0, None, false, HIdle, [1, 1], [f, f1, f2], [f], 7)], [f1, f2], 3,
          Scanning(1), 2, None)
  }

  /** The pass has left the second frame behind. */
  function Passing(): State {
    var f, f1, f2 := Frame(0, 0, 0, [1, 1]), Frame(1, 0, 0, [2]), Frame(2, 0, 0, [3]);
    State(map[0 := Conn(true, 0, 0, 1, Some(Flight(f, [1])), true, HIdle, [1], [f, f1, f2], [], 7)], [f1, f2], 3,
          Scanning(1), 1, None)
  }

  lemma AfterPassing()
    ensures Run(HalfSent(), [MsgSend(0, 0, [2]), MsgSend(0, 0, [3]), StartPass, Visit]) == Some(Passing())
  {
    hide Run;
    var r, s := [MsgSend(0, 0, [2]), MsgSend(0, 0, [3]), StartPass, Visit], HalfSent();
    var f1, f2 := Frame(1, 0, 0, [2]), Frame(2, 0, 0, [3]);
    var s1 := Next(s, r[0]).value;
    assert s1.queue == [f1];
    var s2 := Next(s1, r[1]).value;
    assert s2.queue == [f1, f2];
    var s3 := Next(s2, r[2]).value;
    var s4 := Next(s3, r[3]).value;
    assert s4.conns[0] == Passing().conns[0];
    assert s4 == Passing();
    hide Next, HalfSent, Passing;
    Four(s, r, s1, s2, s3, s4);
  }

  lemma AfterRelease()
    ensures Run(Passing(), [WriteCall(0, 1), WriteRecord(0), WritePost(0), WriteRelease(0)]) == Some(Released())
  {
    hide Run;
    var r, s := [WriteCall(0, 1), WriteRecord(0), WritePost(0), WriteRelease(0)], Passing();
    var s1 := Next(s, r[0]).value;
    assert [1] + [1 as byte][..1] == [1, 1];
    var s2 := Next(s1, r[1]).value;
    var s3 := Next(s2, r[2]).value;
    var s4 := Next(s3, r[3]).value;
    assert s4.conns[0] == Released().conns[0];
    assert s4 == Released();
    hide Next, Passing, Released;
    Four(s, r, s1, s2, s3, s4);
  }

  lemma AfterCompletion()
    ensures Run(Start(), SendHalf() + CompleteMidPass()) == Next(Released(), Visit)
  {
    AfterSendHalf();
    AfterPassing();
    AfterRelease();
    hide Next, HalfSent, Passing, Released, Start;
    var a := [MsgSend(0, 0, [2]), MsgSend(0, 0, [3]), StartPass, Visit];
    var b := [WriteCall(0, 1), WriteRecord(0), WritePost(0), WriteRelease(0)];
    RunConcat(HalfSent(), a, b);
    var all := a + b + [Visit];
    assert all[..|all| - 1] == a + b;
    RunConcat(Start(), SendHalf(), all);
  }

  /** A completion in the middle of a pass lets the third frame begin before the second. */
  lemma MidPassCompletionReorders()
    ensures Initial(Start()) && Run(Start(), SendHalf() + CompleteMidPass()).Some?
    ensures
      var s := Run(Start(), SendHalf() + CompleteMidPass()).value;
      && 0 in s.conns && s.conns[0].open
      && (var v := ViewOf(s, 0); |v.started| == 2 && |v.waiting| == 1 && v.waiting[0].id < v.started[1].id)
  {
    AfterCompletion();
    hide Run;
    var s := Released();
    var f1, f2 := s.queue[0], s.queue[1];
    var t := Next(s, Visit).value;
    assert Without([f1, f2], 1) == [f1];
    OneMine(f1, 0, 0);
    assert Started(t.conns[0])[1] == f2;
  }

  /** All that the thread was told of came before the count was taken back. */
  function PostTooEarly(): seq<Action> {
    [WriteCall(0, 1), WriteRecord(0)] + [MsgSend(0, 0, [2]), WritePost(0)] + [StartPass, Visit, EndPass, StartPass]
    + [Visit, EndPass, WriteRelease(0)]
  }

  function Posted(): State {
    var f, f1 := Frame(0, 0, 0, [1, 1]), Frame(1, 0, 0, [2]);
    State(map[0 := Conn(true, 0, 0, 1, Some(Flight(f, [])), false, HPosted, [1, 1], [f, f1], [], 7)], [f1], 2, SIdle, 2,
          None)
  }

  function Forgotten(): State {
    var f, f1 := Frame(0, 0, 0, [1, 1]), Frame(1, 0, 0, [2]);
    State(map[0 := Conn(true, 0, 0, 0, None, false, HIdle, [1, 1], [f, f1], [f], 7)], [f1], 2, SIdle, 0, None)
  }

  function Written(): State {
    var f := Frame(0, 0, 0, [1, 1]);
    HalfSent().(conns := map[0 := HalfSent().conns[0].(flight := Some(Flight(f, [])), armed := false,
                                                       handler := HDisarmed, output := [1, 1])])
  }

  lemma AfterWrite()
    ensures Run(HalfSent(), [WriteCall(0, 1), WriteRecord(0)]) == Some(Written())
  {
    var s1 := Next(HalfSent(), WriteCall(0, 1)).value;
    assert [1] + [1 as byte][..1] == [1, 1] && [1 as byte][1..] == [];
    var s2 := Next(s1, WriteRecord(0)).value;
    assert s2.conns == Written().conns;
    assert s2 == Written();
    hide Next, HalfSent, Written, Run;
    Two(HalfSent(), [WriteCall(0, 1), WriteRecord(0)], s1, s2);
  }

  lemma AfterPost()
    ensures Run(Written(), [MsgSend(0, 0, [2]), WritePost(0)]) == Some(Posted())
  {
    var s1 := Next(Written(), MsgSend(0, 0, [2])).value;
    assert s1.queue == [Frame(1, 0, 0, [2])];
    var s2 := Next(s1, WritePost(0)).value;
    assert s2.conns[0] == Posted().conns[0];
    assert s2 == Posted();
    hide Next, Written, Posted, Run;
    Two(Written(), [MsgSend(0, 0, [2]), WritePost(0)], s1, s2);
  }

  lemma AfterTwoPasses()
    ensures Run(Posted(), [StartPass, Visit, EndPass, StartPass]) == Some(Posted().(sem := 0, sender := Scanning(0)))
  {
    hide Run;
    var r, s := [StartPass, Visit, EndPass, StartPass], Posted();
    var s1 := Next(s, r[0]).value;
    var s2 := Next(s1, r[1]).value;
    var s3 := Next(s2, r[2]).value;
    var s4 := Next(s3, r[3]).value;
    assert s4 == Posted().(sem := 0, sender := Scanning(0));
    hide Next, Posted;
    Four(s, r, s1, s2, s3, s4);
  }

  lemma AfterLastPass()
    ensures Run(Posted().(sem := 0, sender := Scanning(0)), [Visit, EndPass, WriteRelease(0)]) == Some(Forgotten())
  {
    var r, s := [Visit, EndPass, WriteRelease(0)], Posted().(sem := 0, sender := Scanning(0));
    var s1 := Next(s, r[0]).value;
    var s2 := Next(s1, r[1]).value;
    var s3 := Next(s2, r[2]).value;
    assert s3.conns[0] == Forgotten().conns[0];
    assert s3 == Forgotten();
    hide Next, Posted, Forgotten, Run;
    Three(s, r, s1, s2, s3);
  }

  /** The thread rests although a frame waits for a connection that is free. */
  lemma FrameIsForgotten()
    ensures Run(Start(), SendHalf() + PostTooEarly()).Some?
    ensures
      var s := Run(Start(), SendHalf() + PostTooEarly()).value;
      s.sender == SIdle && s.sem == 0 && |s.queue| == 1 && Ready(s, 0)
  {
    AfterSendHalf();
    AfterWrite();
    AfterPost();
    AfterTwoPasses();
    AfterLastPass();
    assert Ready(Forgotten(), 0) && |Forgotten().queue| == 1 && Forgotten().sender == SIdle && Forgotten().sem == 0;
    hide Next, HalfSent, Written, Posted, Forgotten, Start, Ready;
    var a := [WriteCall(0, 1), WriteRecord(0)] + [MsgSend(0, 0, [2]), WritePost(0)];
    var b := [StartPass, Visit, EndPass, StartPass];
    RunConcat(HalfSent(), [WriteCall(0, 1), WriteRecord(0)], [MsgSend(0, 0, [2]), WritePost(0)]);
    RunConcat(HalfSent(), a, b);
    RunConcat(HalfSent(), a + b, [Visit, EndPass, WriteRelease(0)]);
    RunConcat(Start(), SendHalf(), PostTooEarly());
  }

  /** Two clients leave, another comes and gets the number of the first, and a late frame for the first is sent. */
  function NumberReused(): seq<Action> {
    [Close(0), Close(1)] + [Reopen(1, 7), MsgSend(0, 1, [9])] + [StartPass, Visit, GoAstray(1, 1)]
  }

  function Pair(): State {
    Start().(conns := map[0 := Start().conns[0], 1 := Start().conns[0].(fd := 8)])
  }

  function LateQueued(): State {
    Pair().(conns := map[0 := Start().conns[0].(open := false, seqno := 1),
                         1 := Start().conns[0].(seqno := 3, born := 3)],
            queue := [Frame(0, 0, 1, [9])], nextId := 1, sem := 1)
  }

  function BothClosed(): State {
    Pair().(conns := map[0 := Start().conns[0].(open := false, seqno := 1),
                         1 := Start().conns[0].(open := false, seqno := 1, fd := 8)])
  }

  lemma AfterCloses()
    ensures Run(Pair(), [Close(0), Close(1)]) == Some(BothClosed())
  {
    var s1 := Next(Pair(), Close(0)).value;
    var s2 := Next(s1, Close(1)).value;
    assert s2.conns == BothClosed().conns;
    assert s2 == BothClosed();
    hide Next, Pair, BothClosed, Run;
    Two(Pair(), [Close(0), Close(1)], s1, s2);
  }

  lemma AfterReuse()
    ensures Run(BothClosed(), [Reopen(1, 7), MsgSend(0, 1, [9])]) == Some(LateQueued())
  {
    var s1 := Next(BothClosed(), Reopen(1, 7)).value;
    var s2 := Next(s1, MsgSend(0, 1, [9])).value;
    assert s2.queue == [Frame(0, 0, 1, [9])];
    assert s2.conns == LateQueued().conns;
    assert s2 == LateQueued();
    hide Next, BothClosed, LateQueued, Run;
    Two(BothClosed(), [Reopen(1, 7), MsgSend(0, 1, [9])], s1, s2);
  }

  lemma Two(s: State, r: seq<Action>, s1: State, s2: State)
    requires |r| == 2 && Next(s, r[0]) == Some(s1) && Next(s1, r[1]) == Some(s2)
    ensures Run(s, r) == Some(s2)
  {
    hide Next;
    assert r[..1][..0] == [];
    assert Run(s, r[..1]) == Some(s1);
  }

  lemma AfterStray()
    ensures Run(LateQueued(), [StartPass, Visit, GoAstray(1, 1)]).Some?
    ensures
      var s := Run(LateQueued(), [StartPass, Visit, GoAstray(1, 1)]).value;
      1 in s.conns && s.conns[1].open && s.conns[1].asked == [] && Wire(s, 1) == [9]
  {
    var r, s := [StartPass, Visit, GoAstray(1, 1)], LateQueued();
    var s1 := Next(s, r[0]).value;
    var s2 := Next(s1, r[1]).value;
    assert s2.sender == Late(0, Frame(0, 0, 1, [9])) && s2.conns == s.conns;
    var s3 := Next(s2, r[2]).value;
    assert s3 == s2.(stray := Some(Stray(1, Frame(0, 0, 1, [9]), 1)));
    assert [9 as byte][..1] == [9];
    assert Foreign(s3, 1) == [9] && s3.conns[1].output == [];
    hide Next, LateQueued, Run;
    Three(s, r, s1, s2, s3);
  }

  lemma Three(s: State, r: seq<Action>, s1: State, s2: State, s3: State)
    requires |r| == 3 && Next(s, r[0]) == Some(s1) && Next(s1, r[1]) == Some(s2) && Next(s2, r[2]) == Some(s3)
    ensures Run(s, r) == Some(s3)
  {
    hide Next;
    Two(s, r[..2], s1, s2);
  }

  lemma PairStarts()
    ensures Initial(Pair())
  {
  }

  /** The new client is sent a byte that was meant for the one before. */
  lemma LateFrameGoesAstray()
    ensures Initial(Pair()) && Run(Pair(), NumberReused()).Some?
    ensures
      var s := Run(Pair(), NumberReused()).value;
      1 in s.conns && s.conns[1].open && s.conns[1].asked == [] && Wire(s, 1) == [9]
  {
    AfterCloses();
    AfterReuse();
    AfterStray();
    PairStarts();
    hide Next, Pair, BothClosed, LateQueued, Run, Wire, Initial;
    RunConcat(Pair(), [Close(0), Close(1)], [Reopen(1, 7), MsgSend(0, 1, [9])]);
    RunConcat(Pair(), [Close(0), Close(1)] + [Reopen(1, 7), MsgSend(0, 1, [9])], [StartPass, Visit, GoAstray(1, 1)]);
  }

  /** In an orderly run the bytes written to an open socket are a beginning of the queued frames, one after another. */
  lemma OrderlyOutput(s: State, run: seq<Action>, id: nat)
    requires Initial(s) && Run(s, run).Some? && id in s.conns && OrderlyRun(s, run, id)
    ensures
      id in Run(s, run).value.conns
      && var c := Run(s, run).value.conns[id]; c.open ==> c.output <= Flatten(FrameBytes(c.asked))
  {
    hide Inv, Next;
    OrderlyRunsKeepOrder(s, run, id);
    FramesStayWhole(s, run, id);
    var t := Run(s, run).value;
    if t.conns[id].open {
      var started, waiting := Started(t.conns[id]), ViewOf(t, id).waiting;
      assert FrameBytes(started + waiting) == FrameBytes(started) + FrameBytes(waiting);
      FlattenConcat(FrameBytes(started), FrameBytes(waiting));
    }
  }
}
