/** A POSTWAIT with a limit, from the request to the callback of its timer: connection and timer manager together. */
module PostWait {
  import opened Bytes
  import Timers
  import Delivery

  /**
   A client that has nothing held for it waits at most `timeout` milliseconds, and no event comes: a pass before
   `now + timeout` leaves it waiting, a pass from then on answers it with a timeout.
   */
  method WaitIsAnsweredInTime(m: Timers.TimerManager, c: Delivery.Connection, now: Timers.uint64,
                              timeout: Timers.uint64, at: Timers.uint64, script: seq<seq<Timers.Op>>,
                              after: Timers.uint64)
    requires m.Valid() && m.running == None && Timers.Roomy(m.State(), at)
    requires c.Valid() && c.phase.Quiet? && c.listPost == [] && !c.waitingPost
    requires 0 < timeout && now + timeout < Timers.WORD
    requires forall k, j :: 0 <= k < |script| && 0 <= j < |script[k]| ==>
      Timers.Sane(script[k][j], at) && !Timers.Cancels(script[k][j], m.nextId)
    modifies m, c
    ensures m.Valid() && c.Valid()
    ensures at < now + timeout ==> c.waitingPost && c.sent == old(c.sent)
    ensures at >= now + timeout ==> !c.waitingPost && c.sent == old(c.sent) + [Delivery.TimedOut]
  {
    hide Timers.Ok, Timers.Roomy, Timers.Sane, Timers.Cancels, Timers.Count, Delivery.Run;
    var id := m.nextId;
    Delivery.WaitMeans(c.State(), timeout, id);
    c.HandlePostWait(timeout, id);
    hide Delivery.Act;
    var timer, fired := Timers.AddedTimerRunsWhenDue(m, now, timeout, 0, [], at, script, after);
    if Timers.Count(fired, id) > 0 {
      Delivery.TimeoutMeans(c.State(), id);
      c.TimeoutCallback(id);
    }
  }
}
