/**
 Events on their way to one connection: the client asks with POSTWAIT, the server answers with an event it holds, with
 the next one to arrive, or with a timeout. All this happens under the lock of the connection, but for the callback of
 a delayed event: it takes no lock, looks at the flags first and acts on what it saw later. Its pieces are separate
 actions here, and locked ones may come in between.
 */
module Delivery {
  import opened Bytes

  datatype Event = Event(name: string, body: seq<byte>)

  /** What answers a POSTWAIT. */
  datatype Reply = Posted(event: Event) | TimedOut

  /** How far the timer thread is with a delayed event for this connection, and what it saw when it looked. */
  datatype Phase =
    | Quiet
    | SawTimeout(event: Event, seen: bool)
    | Stopping(event: Event)
    | Looking(event: Event)
    | SawPost(event: Event, seen: bool)
    | Sending(event: Event)

  /**
   `timers` are the timeout timers whose callback may still run, those of earlier users of the connection included.
   */
  datatype ConnState = ConnState(waitingPost: bool, waitingTimeout: bool, listPost: seq<Event>, timerId: int,
                                 timers: set<int>, sent: seq<Reply>, phase: Phase)

  /**
   `Begin` starts the callback of a delayed event with its first look, `Next` is its next piece. `inTime` are the timers
   that a cancellation still stops; the callback of any other runs all the same.
   */
  datatype ConnAction =
    | Wait(timeout: int, newTimer: int)
    | Arrive(event: Event, inTime: set<int>)
    | TimerFires(timer: int)
    | HangUp(inTime: set<int>)
    | Begin(event: Event)
    | Next(inTime: set<int>)

  function Cancel(s: ConnState, inTime: set<int>): ConnState {
    if s.timerId >= 0 then s.(timers := s.timers - ({s.timerId} * inTime)) else s
  }

  function StopTimer(s: ConnState, inTime: set<int>): ConnState {
    if s.waitingTimeout then Cancel(s.(waitingTimeout := false), inTime) else s
  }

  /** Timeouts and delayed events run on one thread, so no timer fires while a callback is under way. */
  function Act(s: ConnState, a: ConnAction): ConnState {
    match a
    case Wait(timeout, newTimer) =>
      if s.listPost != [] then
        s.(waitingPost := false, listPost := s.listPost[1..], sent := s.sent + [Posted(s.listPost[0])])
      else if timeout == -1 then s.(waitingPost := true, waitingTimeout := false)
      else if timeout == 0 then s.(waitingPost := false, waitingTimeout := false, sent := s.sent + [TimedOut])
      else s.(waitingPost := true, waitingTimeout := true, timerId := newTimer, timers := s.timers + {newTimer})
    case Arrive(event, inTime) =>
      var s := StopTimer(s, inTime);
      if s.waitingPost then s.(waitingPost := false, sent := s.sent + [Posted(event)])
      else s.(listPost := s.listPost + [event])
    case TimerFires(timer) =>
      if timer !in s.timers || !s.phase.Quiet? then s
      else if s.waitingTimeout then
        s.(timers := s.timers - {timer}, waitingTimeout := false, waitingPost := false, sent := s.sent + [TimedOut])
      else s.(timers := s.timers - {timer})
    case HangUp(inTime) => StopTimer(s, inTime)
    case Begin(event) => if s.phase.Quiet? then s.(phase := SawTimeout(event, s.waitingTimeout)) else s
    case Next(inTime) => Piece(s, inTime)
  }

  /** The next piece of the callback. */
  function Piece(s: ConnState, inTime: set<int>): ConnState {
    match s.phase
    case Quiet => s
    case SawTimeout(event, seen) =>
      if seen then s.(waitingTimeout := false, phase := Stopping(event))
      else s.(phase := SawPost(event, s.waitingPost))
    case Stopping(event) => Cancel(s, inTime).(phase := Looking(event))
    case Looking(event) => s.(phase := SawPost(event, s.waitingPost))
    case SawPost(event, seen) =>
      if seen then s.(waitingPost := false, phase := Sending(event))
      else s.(listPost := s.listPost + [event], phase := Quiet)
    case Sending(event) => s.(sent := s.sent + [Posted(event)], phase := Quiet)
  }

  function Run(s: ConnState, run: seq<ConnAction>): ConnState {
    if run == [] then s else Act(Run(s, run[..|run| - 1]), run[|run| - 1])
  }

  /** A connection just taken from the pool; callbacks of old timers may still come, and old events may be held. */
  ghost predicate Fresh(s: ConnState) {
    !s.waitingPost && !s.waitingTimeout && s.sent == [] && s.phase.Quiet?
  }

  // ---- What a run asks for and brings ----

  /** The events that an action brings; a delayed event arrives when its callback has decided what to do with it. */
  function Brings(s: ConnState, a: ConnAction): seq<Event> {
    if a.Arrive? then [a.event] else if a.Next? && s.phase.SawPost? then [s.phase.event] else []
  }

  /** The events that arrive, in order. */
  function Arrived(s: ConnState, run: seq<ConnAction>): seq<Event> {
    if run == [] then []
    else Arrived(s, run[..|run| - 1]) + Brings(Run(s, run[..|run| - 1]), run[|run| - 1])
  }

  /** The timeouts of the client's waits, in order. */
  function Waits(run: seq<ConnAction>): seq<int> {
    if run == [] then []
    else Waits(run[..|run| - 1]) + if run[|run| - 1].Wait? then [run[|run| - 1].timeout] else []
  }

  /** The waits made while an earlier one was still unanswered. */
  function Overlapping(s: ConnState, run: seq<ConnAction>): nat {
    if run == [] then 0
    else Overlapping(s, run[..|run| - 1])
         + if run[|run| - 1].Wait? && Run(s, run[..|run| - 1]).waitingPost then 1 else 0
  }

  /** The action decides on a reply while nobody waits. */
  predicate Unprompted(s: ConnState, a: ConnAction) {
    && !s.waitingPost
    && ((a.Next? && s.phase.SawPost? && s.phase.seen)
        || (a.TimerFires? && s.phase.Quiet? && a.timer in s.timers && s.waitingTimeout))
  }

  /** The replies that nobody waited for when they were decided on. */
  function Unasked(s: ConnState, run: seq<ConnAction>): nat {
    if run == [] then 0
    else Unasked(s, run[..|run| - 1]) + if Unprompted(Run(s, run[..|run| - 1]), run[|run| - 1]) then 1 else 0
  }

  /** The event that has left its callback's hands for the client but is not sent yet. */
  function InFlight(s: ConnState): seq<Event> {
    if s.phase.Sending? then [s.phase.event] else []
  }

  /** The events among the replies. */
  function EventsOf(sent: seq<Reply>): seq<Event> {
    if sent == [] then []
    else EventsOf(sent[..|sent| - 1]) + if sent[|sent| - 1].Posted? then [sent[|sent| - 1].event] else []
  }

  lemma EventsOfOneMore(sent: seq<Reply>, r: Reply)
    ensures EventsOf(sent + [r]) == EventsOf(sent) + if r.Posted? then [r.event] else []
  {
    assert (sent + [r])[..|sent|] == sent;
  }

  // ---- Whoever waits has nothing held ----

  /** A timed wait is a wait and its timer is alive; whoever waits has nothing held for it. */
  ghost predicate Consistent(s: ConnState) {
    && (s.waitingTimeout ==> s.waitingPost && s.timerId in s.timers)
    && (s.waitingPost ==> s.listPost == [])
  }

  /**
   What the callback does next does not meet a wait made since it looked: it stops no new timer, ends no timed wait as
   if it were an untimed one, and holds no event for a client that waits.
   */
  ghost predicate Undisturbed(s: ConnState, a: ConnAction) {
    a.Next? ==>
      && (s.phase.Stopping? && s.waitingTimeout ==> s.timerId < 0 || s.timerId !in a.inTime)
      && (s.phase.SawPost? && s.phase.seen ==> !s.waitingTimeout)
      && (s.phase.SawPost? && !s.phase.seen ==> !s.waitingPost)
  }

  lemma ConsistentStep(s: ConnState, a: ConnAction)
    requires Consistent(s)
    ensures Consistent(Act(s, a)) <==> Undisturbed(s, a)
  {
  }

  ghost predicate AllUndisturbed(s: ConnState, run: seq<ConnAction>) {
    run != [] ==> AllUndisturbed(s, run[..|run| - 1]) && Undisturbed(Run(s, run[..|run| - 1]), run[|run| - 1])
  }

  /** At every moment of the run, that is after each beginning of it. */
  ghost predicate AlwaysConsistent(s: ConnState, run: seq<ConnAction>) {
    forall k :: 0 <= k <= |run| ==> Consistent(Run(s, run[..k]))
  }

  lemma {:induction false} AlwaysConsistentIff(s: ConnState, run: seq<ConnAction>)
    requires Fresh(s)
    ensures AlwaysConsistent(s, run) <==> AllUndisturbed(s, run)
  {
    assert run[..|run|] == run;
    if run != [] {
      var init := run[..|run| - 1];
      AlwaysConsistentIff(s, init);
      assert forall k :: 0 <= k < |run| ==> run[..k] == init[..k];
      if Consistent(Run(s, init)) {
        ConsistentStep(Run(s, init), run[|run| - 1]);
      } else {
        assert init[..|init|] == init;
      }
    }
  }

  // ---- The order of events ----

  /** Events reach the client in the order they arrived; those not yet sent are held, in that order. */
  ghost predicate InOrder(s: ConnState, run: seq<ConnAction>) {
    var s' := Run(s, run);
    EventsOf(s'.sent) + InFlight(s') + s'.listPost == s.listPost + Arrived(s, run)
  }

  /** The action lets an event pass a different one that came before it. */
  ghost predicate Overtakes(s: ConnState, a: ConnAction) {
    match a
    case Wait(_, _) => s.listPost != [] && s.phase.Sending? && s.phase.event != s.listPost[0]
    case Arrive(event, _) => s.waitingPost && exists e :: e in InFlight(s) + s.listPost && e != event
    case Next(_) => s.phase.SawPost? && s.phase.seen && exists e :: e in s.listPost && e != s.phase.event
    case _ => false
  }

  lemma {:induction false} Rotates(xs: seq<Event>, e: Event)
    ensures xs + [e] == [e] + xs <==> forall x :: x in xs ==> x == e
  {
    if forall x :: x in xs ==> x == e {
      forall i | 0 <= i <= |xs| ensures (xs + [e])[i] == ([e] + xs)[i] {
        assert i > 0 ==> xs[i - 1] in xs;
        assert i < |xs| ==> xs[i] in xs;
      }
    } else if xs + [e] == [e] + xs {
      AllAlike(xs, e, |xs|);
    }
  }

  lemma {:induction false} AllAlike(xs: seq<Event>, e: Event, n: nat)
    requires xs + [e] == [e] + xs && n <= |xs|
    ensures forall i :: 0 <= i < n ==> xs[i] == e
  {
    if n > 0 {
      AllAlike(xs, e, n - 1);
      assert (xs + [e])[n - 1] == ([e] + xs)[n - 1];
    }
  }

  /** The events sent, under way and held, in this order. */
  function Line(s: ConnState): seq<Event> {
    EventsOf(s.sent) + InFlight(s) + s.listPost
  }

  lemma OrderStep(s: ConnState, a: ConnAction)
    ensures Line(Act(s, a)) == Line(s) + Brings(s, a) <==> !Overtakes(s, a)
  {
    hide EventsOf;
    match a
    case Wait(_, _) =>
      if s.listPost != [] {
        TakenFromList(s, a);
      } else {
        EventsOfOneMore(s.sent, TimedOut);
      }
    case Arrive(event, _) => Arriving(s, a);
    case TimerFires(_) => EventsOfOneMore(s.sent, TimedOut);
    case Next(_) =>
      if s.phase.SawPost? {
        Decided(s, a);
      } else if s.phase.Sending? {
        EventsOfOneMore(s.sent, Posted(s.phase.event));
      }
    case _ =>
  }

  lemma TakenFromList(s: ConnState, a: ConnAction)
    requires a.Wait? && s.listPost != []
    ensures Line(Act(s, a)) == Line(s) <==> !Overtakes(s, a)
  {
    hide EventsOf;
    var done, way, held := EventsOf(s.sent), InFlight(s), s.listPost;
    EventsOfOneMore(s.sent, Posted(held[0]));
    assert Line(Act(s, a)) == done + ([held[0]] + way + held[1..]);
    assert held == [held[0]] + held[1..];
    assert Line(s) == done + (way + [held[0]] + held[1..]);
    if s.phase.Sending? {
      assert ([held[0]] + way + held[1..])[0] == held[0] && (way + [held[0]] + held[1..])[0] == s.phase.event;
    }
    Cut(done, [held[0]] + way + held[1..], way + [held[0]] + held[1..]);
  }

  lemma Arriving(s: ConnState, a: ConnAction)
    requires a.Arrive?
    ensures Line(Act(s, a)) == Line(s) + [a.event] <==> !Overtakes(s, a)
  {
    hide EventsOf;
    var done, rest := EventsOf(s.sent), InFlight(s) + s.listPost;
    EventsOfOneMore(s.sent, Posted(a.event));
    if s.waitingPost {
      assert Line(Act(s, a)) == done + ([a.event] + rest);
      assert Line(s) + [a.event] == done + (rest + [a.event]);
      Rotates(rest, a.event);
      Cut(done, [a.event] + rest, rest + [a.event]);
    } else {
      assert Line(Act(s, a)) == Line(s) + [a.event];
    }
  }

  lemma Decided(s: ConnState, a: ConnAction)
    requires a.Next? && s.phase.SawPost?
    ensures Line(Act(s, a)) == Line(s) + [s.phase.event] <==> !Overtakes(s, a)
  {
    hide EventsOf;
    var done, held, event := EventsOf(s.sent), s.listPost, s.phase.event;
    assert Line(s) == done + held;
    if s.phase.seen {
      assert Line(Act(s, a)) == done + ([event] + held);
      assert Line(s) + [event] == done + (held + [event]);
      Rotates(held, event);
      Cut(done, [event] + held, held + [event]);
    } else {
      assert Line(Act(s, a)) == done + (held + [event]);
    }
  }

  lemma Cut(a: seq<Event>, b: seq<Event>, c: seq<Event>)
    ensures a + b == a + c <==> b == c
  {
    if a + b == a + c {
      assert b == (a + b)[|a|..];
      assert c == (a + c)[|a|..];
    }
  }

  ghost predicate NoneOvertakes(s: ConnState, run: seq<ConnAction>) {
    run != [] ==> NoneOvertakes(s, run[..|run| - 1]) && !Overtakes(Run(s, run[..|run| - 1]), run[|run| - 1])
  }

  ghost predicate AlwaysInOrder(s: ConnState, run: seq<ConnAction>) {
    forall k :: 0 <= k <= |run| ==> InOrder(s, run[..k])
  }

  lemma {:induction false} AlwaysInOrderIff(s: ConnState, run: seq<ConnAction>)
    requires Fresh(s)
    ensures AlwaysInOrder(s, run) <==> NoneOvertakes(s, run)
  {
    hide InOrder, Overtakes;
    assert run[..|run|] == run;
    if run == [] {
      assert InOrder(s, []) by { NoneYet(s); }
    } else {
      var init := run[..|run| - 1];
      AlwaysInOrderIff(s, init);
      assert forall k :: 0 <= k < |run| ==> run[..k] == init[..k];
      assert init[..|init|] == init;
      if InOrder(s, init) {
        InOrderStep(s, run);
      }
    }
  }

  lemma NoneYet(s: ConnState)
    requires Fresh(s)
    ensures InOrder(s, [])
  {
  }

  lemma InOrderStep(s: ConnState, run: seq<ConnAction>)
    requires run != [] && InOrder(s, run[..|run| - 1])
    ensures InOrder(s, run) <==> !Overtakes(Run(s, run[..|run| - 1]), run[|run| - 1])
  {
    hide Act, Overtakes, EventsOf, Brings;
    var init, a := run[..|run| - 1], run[|run| - 1];
    OrderStep(Run(s, init), a);
    Associates(s.listPost, Arrived(s, init), Brings(Run(s, init), a));
  }

  // ---- One reply for each wait ----

  /** What the waits of the client have got, or are sure to get. */
  function Answers(s: ConnState, run: seq<ConnAction>): nat {
    Owed(Run(s, run)) + Overlapping(s, run)
  }

  /** Each wait is answered once, is the one outstanding, or was overtaken by another; the rest nobody asked for. */
  lemma {:induction false} RepliesAccounted(s: ConnState, run: seq<ConnAction>)
    requires Fresh(s)
    ensures Answers(s, run) == |Waits(run)| + Unasked(s, run)
  {
    if run != [] {
      var init, a := run[..|run| - 1], run[|run| - 1];
      RepliesAccounted(s, init);
      hide Act;
      ReplyStep(Run(s, init), a);
    }
  }

  /** The replies sent or on their way, and the one the client waits for. */
  function Owed(s: ConnState): nat {
    |s.sent| + |InFlight(s)| + if s.waitingPost then 1 else 0
  }

  /** What an action adds to the account: a wait one more, unless it overtakes one, and what nobody asked for. */
  function Adds(s: ConnState, a: ConnAction): int {
    (if a.Wait? && !s.waitingPost then 1 else 0) + (if Unprompted(s, a) then 1 else 0)
  }

  lemma ReplyStep(s: ConnState, a: ConnAction)
    ensures Owed(Act(s, a)) == Owed(s) + Adds(s, a)
  {
  }

  /** The client does not wait while an earlier wait has no reply yet. */
  ghost predicate OneAtATime(s: ConnState, run: seq<ConnAction>) {
    run != [] ==>
      && OneAtATime(s, run[..|run| - 1])
      && (run[|run| - 1].Wait? ==>
            !Run(s, run[..|run| - 1]).waitingPost && !Run(s, run[..|run| - 1]).phase.Sending?)
  }

  /** Reply number k answers wait number k, and a timeout answers a wait with a limit. */
  ghost predicate Paired(s: ConnState, waits: seq<int>) {
    && Owed(s) == |waits|
    && (forall k :: 0 <= k < |s.sent| && s.sent[k] == TimedOut ==> waits[k] != -1)
    && (s.waitingPost ==> !s.phase.Sending?)
    && (s.waitingTimeout && s.waitingPost ==> waits[|s.sent|] != -1)
  }

  lemma PairedStep(s: ConnState, a: ConnAction, waits: seq<int>)
    requires Paired(s, waits) && !Unprompted(s, a)
    requires a.Wait? ==> !s.waitingPost && !s.phase.Sending?
    ensures Paired(Act(s, a), waits + if a.Wait? then [a.timeout] else [])
  {
  }

  /** A client that waits for one reply at a time has no wait without a limit timed out, whatever old timers do. */
  lemma {:induction false} OnlyTimedWaitsTimeOut(s: ConnState, run: seq<ConnAction>)
    requires Fresh(s) && OneAtATime(s, run) && Unasked(s, run) == 0
    ensures Paired(Run(s, run), Waits(run))
  {
    if run != [] {
      var init, a := run[..|run| - 1], run[|run| - 1];
      OnlyTimedWaitsTimeOut(s, init);
      hide Act, Paired;
      PairedStep(Run(s, init), a, Waits(init));
    }
  }

  /**
   What a wait comes to: an event held is the answer; without one, a wait of no time is answered with a timeout, and the
   client waits only if it asked to, with a timer only if it gave a limit.
   */
  lemma WaitMeans(s: ConnState, timeout: int, timer: int)
    ensures
      var s' := Act(s, Wait(timeout, timer));
      && (s.listPost != [] ==>
            !s'.waitingPost && s'.sent == s.sent + [Posted(s.listPost[0])] && s'.listPost == s.listPost[1..])
      && (s.listPost == [] && timeout == 0 ==>
            !s'.waitingPost && !s'.waitingTimeout && s'.sent == s.sent + [TimedOut] && s'.timers == s.timers)
      && (s.listPost == [] && timeout != 0 ==>
            && s'.waitingPost && s'.sent == s.sent && (s'.waitingTimeout <==> timeout != -1)
            && s'.timers == if timeout == -1 then s.timers else s.timers + {timer})
  {
  }

  /** The callback of a timer answers a client that waits with a limit, and nobody else. */
  lemma TimeoutMeans(s: ConnState, timer: int)
    requires s.phase.Quiet? && timer in s.timers
    ensures
      var s' := Act(s, TimerFires(timer));
      && s'.listPost == s.listPost && s'.timers == s.timers - {timer} && !s'.waitingTimeout
      && s'.sent == (if s.waitingTimeout then s.sent + [TimedOut] else s.sent)
      && s'.waitingPost == (s.waitingPost && !s.waitingTimeout)
  {
  }

  // ---- When nothing comes in between ----

  /** No wait is handled while a callback is under way. */
  ghost predicate Calm(s: ConnState, run: seq<ConnAction>) {
    run != [] ==>
      Calm(s, run[..|run| - 1]) && (run[|run| - 1].Wait? ==> Run(s, run[..|run| - 1]).phase.Quiet?)
  }

  /** Neither a wait nor another event is handled while a callback is under way. */
  ghost predicate Whole(s: ConnState, run: seq<ConnAction>) {
    run != [] ==>
      && Whole(s, run[..|run| - 1])
      && (run[|run| - 1].Wait? || run[|run| - 1].Arrive? ==> Run(s, run[..|run| - 1]).phase.Quiet?)
  }

  /** What the callback saw, as far as it still has to be so. */
  ghost predicate Settled(s: ConnState) {
    match s.phase
    case Quiet => true
    case SawTimeout(_, seen) => !seen ==> !s.waitingTimeout
    case Stopping(_) => !s.waitingTimeout
    case Looking(_) => !s.waitingTimeout
    case SawPost(_, seen) => !s.waitingTimeout && (!seen ==> !s.waitingPost)
    case Sending(_) => !s.waitingTimeout && !s.waitingPost
  }

  lemma {:induction false} CalmIsConsistent(s: ConnState, run: seq<ConnAction>)
    requires Fresh(s) && Calm(s, run)
    ensures AllUndisturbed(s, run) && Consistent(Run(s, run)) && Settled(Run(s, run))
  {
    if run != [] {
      var init, a := run[..|run| - 1], run[|run| - 1];
      CalmIsConsistent(s, init);
      ConsistentStep(Run(s, init), a);
    }
  }

  /** With no wait inside a callback, the order is kept as well unless the callback answers a wait already answered. */
  lemma {:induction false} CalmKeepsOrder(s: ConnState, run: seq<ConnAction>)
    requires Fresh(s) && Calm(s, run) && Unasked(s, run) == 0
    ensures NoneOvertakes(s, run)
  {
    if run != [] {
      CalmKeepsOrder(s, run[..|run| - 1]);
      CalmIsConsistent(s, run[..|run| - 1]);
    }
  }

  lemma {:induction false} WholeIsCalm(s: ConnState, run: seq<ConnAction>)
    requires Fresh(s) && Whole(s, run)
    ensures Calm(s, run) && Unasked(s, run) == 0
    ensures Run(s, run).phase.SawPost? && Run(s, run).phase.seen ==> Run(s, run).waitingPost
  {
    if run != [] {
      WholeIsCalm(s, run[..|run| - 1]);
      CalmIsConsistent(s, run[..|run| - 1]);
    }
  }

  /** Callbacks that nothing comes in between of keep all three promises. */
  lemma WholeKeepsPromises(s: ConnState, run: seq<ConnAction>)
    requires Fresh(s) && Whole(s, run)
    ensures Consistent(Run(s, run)) && InOrder(s, run) && Answers(s, run) == |Waits(run)|
  {
    WholeIsCalm(s, run);
    CalmIsConsistent(s, run);
    CalmKeepsOrder(s, run);
    AlwaysInOrderIff(s, run);
    assert run[..|run|] == run;
    RepliesAccounted(s, run);
  }

  /** So does a connection without delayed events. */
  lemma {:induction false} UndelayedIsWhole(s: ConnState, run: seq<ConnAction>)
    requires Fresh(s) && forall a :: a in run ==> !a.Begin?
    ensures Whole(s, run) && Run(s, run).phase.Quiet?
  {
    if run != [] {
      assert run[|run| - 1] in run;
      UndelayedIsWhole(s, run[..|run| - 1]);
    }
  }

  function Pieces(s: ConnState, inTime: set<int>, n: nat): ConnState {
    if n == 0 then s else Piece(Pieces(s, inTime, n - 1), inTime)
  }

  /** A callback in one go does what the locked delivery of its event does. */
  lemma WholeCallback(s: ConnState, event: Event, inTime: set<int>)
    requires s.phase.Quiet?
    ensures Pieces(Act(s, Begin(event)), inTime, 5) == Act(s, Arrive(event, inTime))
  {
    var s0 := Act(s, Begin(event));
    var s1 := Piece(s0, inTime);
    var s2 := Piece(s1, inTime);
    var s3 := Piece(s2, inTime);
    var s4 := Piece(s3, inTime);
    assert Pieces(s0, inTime, 0) == s0;
    assert Pieces(s0, inTime, 1) == s1;
    assert Pieces(s0, inTime, 2) == s2;
    assert Pieces(s0, inTime, 3) == s3;
    assert Pieces(s0, inTime, 4) == s4;
  }

  // ---- Timers ----

  /** A timed wait is answered when its timer fires, and that timer is always still to come. */
  lemma TimedWaitEnds(s: ConnState, run: seq<ConnAction>)
    requires Fresh(s) && AllUndisturbed(s, run) && Run(s, run).waitingTimeout
    ensures
      var s' := Run(s, run);
      && s'.timerId in s'.timers && s'.waitingPost
      && (s'.phase.Quiet? ==>
            && Act(s', TimerFires(s'.timerId)).sent == s'.sent + [TimedOut]
            && !Act(s', TimerFires(s'.timerId)).waitingPost)
  {
    AlwaysConsistentIff(s, run);
    assert run[..|run|] == run;
  }

  /** A waiting client is sure to be timed out by its own timer exactly when no other callback may still come. */
  lemma OwnTimerIff(s: ConnState)
    requires Consistent(s) && s.waitingTimeout && s.phase.Quiet?
    ensures (forall t :: t in s.timers && Act(s, TimerFires(t)).sent == s.sent + [TimedOut] ==> t == s.timerId)
      <==> s.timers == {s.timerId}
  {
    if forall t :: t in s.timers && Act(s, TimerFires(t)).sent == s.sent + [TimedOut] ==> t == s.timerId {
      forall t | t in s.timers ensures t == s.timerId {
        assert Act(s, TimerFires(t)).sent == s.sent + [TimedOut];
      }
    }
  }

  /** Whatever stops a timed wait stops its timer in time. */
  ghost predicate InTime(s: ConnState, a: ConnAction) {
    && ((a.Arrive? || a.HangUp?) && s.waitingTimeout ==> s.timerId >= 0 && s.timerId in a.inTime)
    && (a.Next? && s.phase.Stopping? && s.timerId in s.timers ==> s.timerId >= 0 && s.timerId in a.inTime)
  }

  ghost predicate AllInTime(s: ConnState, run: seq<ConnAction>) {
    if run == [] then true
    else AllInTime(s, run[..|run| - 1]) && InTime(Run(s, run[..|run| - 1]), run[|run| - 1])
  }

  /** Only the timer of the outstanding wait is pending, or the one that the callback is about to stop. */
  ghost predicate OwnTimers(s: ConnState) {
    && (s.waitingTimeout ==> s.timers == {s.timerId})
    && (!s.waitingTimeout ==> s.timers == {} || (s.phase.Stopping? && s.timers == {s.timerId}))
  }

  /**
   With every cancellation in time, one wait at a time and none inside a callback, a timed wait has its own timer
   pending and there is no other.
   */
  lemma {:induction false} OnlyOwnTimers(s: ConnState, run: seq<ConnAction>)
    requires Fresh(s) && s.timers == {} && Overlapping(s, run) == 0 && Calm(s, run) && AllInTime(s, run)
    ensures OwnTimers(Run(s, run))
  {
    if run != [] {
      var init := run[..|run| - 1];
      OnlyOwnTimers(s, init);
      CalmIsConsistent(s, init);
    }
  }

  // ---- Runs that go wrong ----

  const NEW := ConnState(false, false, [], -1, {}, [], Quiet)

  lemma RunOneMore(s: ConnState, run: seq<ConnAction>, a: ConnAction)
    ensures Run(s, run + [a]) == Act(Run(s, run), a)
    ensures Waits(run + [a]) == Waits(run) + if a.Wait? then [a.timeout] else []
  {
    assert (run + [a])[..|run|] == run;
  }

  lemma RunFour(s: ConnState, r: seq<ConnAction>)
    requires |r| >= 4
    ensures Run(s, r[..4]) == Act(Act(Act(Act(s, r[0]), r[1]), r[2]), r[3])
  {
    hide Act;
    assert r[..4][..3] == r[..3] && r[..3][..2] == r[..2] && r[..2][..1] == r[..1] && r[..1][..0] == [];
    assert Run(s, r[..1]) == Act(s, r[0]);
    assert Run(s, r[..2]) == Act(Act(s, r[0]), r[1]);
    assert Run(s, r[..3]) == Act(Act(Act(s, r[0]), r[1]), r[2]);
  }

  lemma WaitsFour(r: seq<ConnAction>)
    requires |r| >= 4
    ensures Waits(r[..4]) == Waits([r[0]]) + Waits([r[1]]) + Waits([r[2]]) + Waits([r[3]])
  {
    OneWait(r[0]);
    OneWait(r[1]);
    OneWait(r[2]);
    OneWait(r[3]);
    assert r[..4][..3] == r[..3] && r[..3][..2] == r[..2] && r[..2][..1] == r[..1] && r[..1][..0] == [];
    assert Waits(r[..1]) == Waits([r[0]]);
    assert Waits(r[..2]) == Waits([r[0]]) + Waits([r[1]]);
    assert Waits(r[..3]) == Waits([r[0]]) + Waits([r[1]]) + Waits([r[2]]);
  }

  lemma OneWait(a: ConnAction)
    ensures Waits([a]) == if a.Wait? then [a.timeout] else []
  {
    assert [a][..0] == [];
  }

  lemma RunSix(s: ConnState, r: seq<ConnAction>)
    requires |r| == 6
    ensures Run(s, r) == Act(Act(Run(s, r[..4]), r[4]), r[5])
    ensures Waits(r) == Waits(r[..4]) + Waits([r[4]]) + Waits([r[5]])
  {
    hide Act;
    assert r == (r[..4] + [r[4]]) + [r[5]];
    RunOneMore(s, r[..4], r[4]);
    RunOneMore(s, r[..4] + [r[4]], r[5]);
    OneWait(r[4]);
    OneWait(r[5]);
  }

  function WaitAfterLook(e1: Event): seq<ConnAction> {
    [Begin(e1), Next({}), Wait(-1, 0), Next({})]
  }

  /** A wait between the look and the push: an event is held for a client that waits. */
  lemma WaitWhileHeld(e1: Event)
    ensures Fresh(NEW) && !Consistent(Run(NEW, WaitAfterLook(e1)))
    ensures Run(NEW, WaitAfterLook(e1)) == NEW.(waitingPost := true, listPost := [e1])
  {
    var r := WaitAfterLook(e1);
    var s1 := Act(NEW, r[0]);
    var s2 := Act(s1, r[1]);
    var s3 := Act(s2, r[2]);
    var s4 := Act(s3, r[3]);
    assert s4 == NEW.(waitingPost := true, listPost := [e1]);
    hide Act, Run;
    assert r[..4] == r;
    RunFour(NEW, r);
  }

  /** The next event then goes out before the one held. */
  lemma NextOneOvertakes(e1: Event, e2: Event)
    requires e1 != e2
    ensures Line(Run(NEW, WaitAfterLook(e1) + [Arrive(e2, {})])) == [e2, e1]
    ensures Overtakes(Run(NEW, WaitAfterLook(e1)), Arrive(e2, {}))
  {
    var r := WaitAfterLook(e1);
    WaitWhileHeld(e1);
    RunOneMore(NEW, r, Arrive(e2, {}));
    EventsOfOneMore([], Posted(e2));
    assert e1 in InFlight(Run(NEW, r)) + Run(NEW, r).listPost;
  }

  function AnswerAfterLook(e1: Event, e2: Event): seq<ConnAction> {
    [Wait(-1, 0), Begin(e1), Next({}), Arrive(e2, {}), Next({}), Next({})]
  }

  /** Another event between the look and the reply: one wait gets two replies. */
  lemma TwoRepliesToOneWait(e1: Event, e2: Event)
    ensures Waits(AnswerAfterLook(e1, e2)) == [-1] && !Run(NEW, AnswerAfterLook(e1, e2)).waitingPost
    ensures Run(NEW, AnswerAfterLook(e1, e2)).sent == [Posted(e2), Posted(e1)]
  {
    var r := AnswerAfterLook(e1, e2);
    var s1 := Act(NEW, r[0]);
    var s2 := Act(s1, r[1]);
    var s3 := Act(s2, r[2]);
    var s4 := Act(s3, r[3]);
    var s5 := Act(s4, r[4]);
    var s6 := Act(s5, r[5]);
    assert s6.sent == [Posted(e2), Posted(e1)] && !s6.waitingPost;
    OneWait(r[0]);
    OneWait(r[1]);
    OneWait(r[2]);
    OneWait(r[3]);
    OneWait(r[4]);
    OneWait(r[5]);
    hide Act, Run;
    RunFour(NEW, r);
    WaitsFour(r);
    RunSix(NEW, r);
  }

  function TimedWaitAfterLook(e: Event): seq<ConnAction> {
    [Begin(e), Wait(100, 1), Next({}), Next({}), Next({}), TimerFires(1)]
  }

  /** A timed wait between the two looks: it is answered, and then its timer answers it once more. */
  lemma AnsweredWaitTimesOut(e: Event)
    ensures Waits(TimedWaitAfterLook(e)) == [100]
    ensures Run(NEW, TimedWaitAfterLook(e)).sent == [Posted(e), TimedOut]
  {
    var r := TimedWaitAfterLook(e);
    var s1 := Act(NEW, r[0]);
    var s2 := Act(s1, r[1]);
    var s3 := Act(s2, r[2]);
    var s4 := Act(s3, r[3]);
    var s5 := Act(s4, r[4]);
    var s6 := Act(s5, r[5]);
    assert s6.sent == [Posted(e), TimedOut] && !s6.waitingPost;
    OneWait(r[0]);
    OneWait(r[1]);
    OneWait(r[2]);
    OneWait(r[3]);
    OneWait(r[4]);
    OneWait(r[5]);
    hide Act, Run;
    RunFour(NEW, r);
    WaitsFour(r);
    RunSix(NEW, r);
  }

  function LateCancel(e: Event): seq<ConnAction> {
    [Wait(100, 1), Arrive(e, {}), Wait(5000, 2), TimerFires(1)]
  }

  /**
   A cancellation too late: the callback of the first wait ends the second one early, while its own timer is pending.
   */
  lemma StaleTimerAnswersEarly(e: Event)
    ensures Waits(LateCancel(e)) == [100, 5000] && Run(NEW, LateCancel(e)).sent == [Posted(e), TimedOut]
    ensures Run(NEW, LateCancel(e)).timerId == 2 && Run(NEW, LateCancel(e)).timers == {2}
  {
    var r := LateCancel(e);
    var s1 := Act(NEW, r[0]);
    var s2 := Act(s1, r[1]);
    var s3 := Act(s2, r[2]);
    var s4 := Act(s3, r[3]);
    assert s4.sent == [Posted(e), TimedOut] && s4.timerId == 2 && s4.timers == {2};
    OneWait(r[0]);
    OneWait(r[1]);
    OneWait(r[2]);
    OneWait(r[3]);
    hide Act, Run;
    assert r[..4] == r;
    RunFour(NEW, r);
    WaitsFour(r);
  }

  // ---- The connection object ----

  /** `history` are the actions since `born`, the state in which the connection was taken into use. */
  class Connection {
    var waitingPost: bool
    var waitingTimeout: bool
    var listPost: seq<Event>
    var timerId: int
    var listTag: seq<string>
    var listPlcTag: seq<string>
    var sent: seq<Reply>
    var phase: Phase
    ghost var timers: set<int>
    ghost var born: ConnState
    ghost var history: seq<ConnAction>

    ghost function State(): ConnState
      reads this`waitingPost, this`waitingTimeout, this`listPost, this`timerId, this`timers, this`sent,
          this`phase
    {
      ConnState(waitingPost, waitingTimeout, listPost, timerId, timers, sent, phase)
    }

    ghost predicate Valid()
      reads this`waitingPost, this`waitingTimeout, this`listPost, this`timerId, this`timers, this`sent, this`phase,
          this`born, this`history
    {
      Fresh(born) && State() == Run(born, history)
    }

    constructor ()
      ensures Valid() && history == [] && timers == {} && phase == Quiet && listTag == [] && listPlcTag == []
    {
      waitingPost, waitingTimeout := false, false;
      listPost, timerId := [], -1;
      listTag, listPlcTag := [], [];
      timers, sent, phase := {}, [], Quiet;
      history, born := [], NEW;
    }

    /** Answers a POSTWAIT; `newTimer` is the number the timer manager gives to a timer started now. */
    method HandlePostWait(timeout: int, newTimer: int)
      requires Valid()
      modifies this`waitingPost, this`waitingTimeout, this`listPost, this`timerId, this`timers, this`sent, this`history
      ensures Valid() && history == old(history) + [Wait(timeout, newTimer)]
      ensures State() == Act(old(State()), Wait(timeout, newTimer))
    {
      if listPost != [] {
        waitingPost := false;
        sent := sent + [Posted(listPost[0])];
        listPost := listPost[1..];
      } else if timeout == -1 {
        waitingPost, waitingTimeout := true, false;
      } else if timeout == 0 {
        waitingPost, waitingTimeout := false, false;
        sent := sent + [TimedOut];
      } else {
        waitingPost, waitingTimeout := true, true;
        timerId := newTimer;
        timers := timers + {newTimer};
      }
      assert State() == Act(old(State()), Wait(timeout, newTimer));
      hide Act, Run;
      history := history + [Wait(timeout, newTimer)];
      Recorded(born, old(State()), State(), old(history), Wait(timeout, newTimer));
    }

    method StopTimeoutTimer(ghost inTime: set<int>)
      modifies this`timers
      ensures timers == if timerId >= 0 then old(timers) - ({timerId} * inTime) else old(timers)
    {
      if timerId >= 0 {
        timers := timers - ({timerId} * inTime);
      }
    }

    /** Hands over one event: to the waiting client, else to the list. */
    method Deliver(event: Event, ghost inTime: set<int>)
      requires Valid()
      modifies this`waitingPost, this`waitingTimeout, this`listPost, this`timers, this`sent, this`history
      ensures Valid() && history == old(history) + [Arrive(event, inTime)]
      ensures State() == Act(old(State()), Arrive(event, inTime))
    {
      if waitingTimeout {
        waitingTimeout := false;
        StopTimeoutTimer(inTime);
      }
      if waitingPost {
        waitingPost := false;
        sent := sent + [Posted(event)];
      } else {
        listPost := listPost + [event];
      }
      assert State() == Act(old(State()), Arrive(event, inTime));
      hide Act, Run;
      history := history + [Arrive(event, inTime)];
      Recorded(born, old(State()), State(), old(history), Arrive(event, inTime));
    }

    /** The client is gone: its timer is stopped. */
    method HangUp(ghost inTime: set<int>)
      requires Valid()
      modifies this`waitingTimeout, this`timers, this`history
      ensures Valid() && history == old(history) + [ConnAction.HangUp(inTime)]
      ensures State() == Act(old(State()), ConnAction.HangUp(inTime))
    {
      if waitingTimeout {
        waitingTimeout := false;
        StopTimeoutTimer(inTime);
      }
      assert State() == Act(old(State()), ConnAction.HangUp(inTime));
      hide Act, Run;
      history := history + [ConnAction.HangUp(inTime)];
      Recorded(born, old(State()), State(), old(history), ConnAction.HangUp(inTime));
    }

    /** The callback of timer `timer`. */
    method TimeoutCallback(ghost timer: int)
      requires Valid() && timer in timers && phase.Quiet?
      modifies this`waitingPost, this`waitingTimeout, this`timers, this`sent, this`history
      ensures Valid() && history == old(history) + [TimerFires(timer)]
      ensures State() == Act(old(State()), TimerFires(timer))
    {
      timers := timers - {timer};
      if waitingTimeout {
        waitingTimeout, waitingPost := false, false;
        sent := sent + [TimedOut];
      }
      assert State() == Act(old(State()), TimerFires(timer));
      hide Act, Run;
      history := history + [TimerFires(timer)];
      Recorded(born, old(State()), State(), old(history), TimerFires(timer));
    }

    /** The timer of a delayed event rings. */
    method DelayedBegin(event: Event)
      requires Valid() && phase.Quiet?
      modifies this`phase, this`history
      ensures Valid() && history == old(history) + [Begin(event)]
      ensures State() == Act(old(State()), Begin(event))
    {
      phase := SawTimeout(event, waitingTimeout);
      assert State() == Act(old(State()), Begin(event));
      hide Act, Run;
      history := history + [Begin(event)];
      Recorded(born, old(State()), State(), old(history), Begin(event));
    }

    /** One piece of its callback, from one access to a flag or the list to the next. */
    method DelayedNext(ghost inTime: set<int>)
      requires Valid() && !phase.Quiet?
      modifies this`waitingPost, this`waitingTimeout, this`listPost, this`timers, this`sent, this`phase, this`history
      ensures Valid() && history == old(history) + [Next(inTime)]
      ensures State() == Act(old(State()), Next(inTime))
    {
      match phase {
      case SawTimeout(event, seen) =>
        if seen {
          waitingTimeout, phase := false, Stopping(event);
        } else {
          phase := SawPost(event, waitingPost);
        }
      case Stopping(event) =>
        StopTimeoutTimer(inTime);
        phase := Looking(event);
      case Looking(event) =>
        phase := SawPost(event, waitingPost);
      case SawPost(event, seen) =>
        if seen {
          waitingPost, phase := false, Sending(event);
        } else {
          listPost, phase := listPost + [event], Quiet;
        }
      case Sending(event) =>
        sent, phase := sent + [Posted(event)], Quiet;
      }
      assert State() == Act(old(State()), Next(inTime));
      hide Act, Run;
      history := history + [Next(inTime)];
      Recorded(born, old(State()), State(), old(history), Next(inTime));
    }
  }

  /** What the methods of a connection keep, whatever they were called with and in whatever order. */
  lemma ConnectionKeepsItsPromise(c: Connection)
    requires c.Valid()
    ensures Answers(c.born, c.history) == |Waits(c.history)| + Unasked(c.born, c.history)
    ensures AlwaysConsistent(c.born, c.history) <==> AllUndisturbed(c.born, c.history)
    ensures AlwaysInOrder(c.born, c.history) <==> NoneOvertakes(c.born, c.history)
    ensures (forall a :: a in c.history ==> !a.Begin?) ==> Whole(c.born, c.history)
    ensures Whole(c.born, c.history) ==>
      && Consistent(c.State()) && InOrder(c.born, c.history)
      && Owed(c.State()) + Overlapping(c.born, c.history) == |Waits(c.history)|
  {
    RepliesAccounted(c.born, c.history);
    AlwaysConsistentIff(c.born, c.history);
    AlwaysInOrderIff(c.born, c.history);
    hide AllUndisturbed, NoneOvertakes, InOrder, Consistent, Unasked, Overlapping, Waits;
    if forall a :: a in c.history ==> !a.Begin? {
      UndelayedIsWhole(c.born, c.history);
    }
    if Whole(c.born, c.history) {
      WholeKeepsPromises(c.born, c.history);
    }
  }

  lemma Recorded(born: ConnState, was: ConnState, now: ConnState, run: seq<ConnAction>, a: ConnAction)
    requires was == Run(born, run) && now == Act(was, a)
    ensures now == Run(born, run + [a])
  {
    assert (run + [a])[..|run|] == run;
  }
}
