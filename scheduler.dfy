/**
 * The worker's scheduling loop: at the top of every iteration it stops if cancellation was
 * requested; otherwise it runs a whole pass when the wall-clock minute is 3, and sleeps 20 s
 * when it is not. Nothing limits it to one pass an hour: after a pass the gate is tested
 * again at once.
 */
module Scheduler {
  import opened Types
  import opened Naming
  import opened Store
  import opened Orchestrator

  /** The minute of the hour in which passes run. */
  const RunMinute: nat := 3

  /** How long an iteration outside the run minute sleeps, in milliseconds. */
  const PollDelay: nat := 20 * 1000

  /** The gate: is it the run minute? */
  predicate CheckTime(now: Time) {
    now.minute == RunMinute
  }

  /** What one loop iteration observes: whether cancellation was requested, and the time. */
  datatype Tick = Tick(cancelled: bool, now: Time)

  /**
   * How the loop ends: cancellation was seen; a pass threw, which nothing in the loop
   * catches; or the model's clock or responses ran out (the service would go on).
   */
  datatype Exit = Cancelled | Crashed | Horizon

  /** What one iteration did. */
  datatype Iteration = Slept(now: Time) | Ran(now: Time, status: Status)

  datatype Run = Run(exit: Exit, store: Db, events: seq<Event>, remote: Remote, iterations: seq<Iteration>)

  /** The same run, as seen from an earlier iteration that logged `evs` and did `its`. */
  function Later(evs: seq<Event>, its: seq<Iteration>, r: Run): Run {
    r.(events := evs + r.events, iterations := its + r.iterations)
  }

  /** Two earlier stretches of the loop, one after the other. */
  lemma {:induction false} LaterLater(a: seq<Event>, x: seq<Iteration>, b: seq<Event>, y: seq<Iteration>, r: Run)
    ensures Later(a, x, Later(b, y, r)) == Later(a + b, x + y, r)
  {
    hide IsSuffix, Consumed, ParseInt32, CollectionName;
    Reassociate(a, b, r.events);
    assert x + (y + r.iterations) == (x + y) + r.iterations;
  }

  /** The loop over the ticks still to come, one tick per iteration. */
  function Schedule(clock: seq<Tick>, db: Db, remote: Remote): (r: Run)
    ensures |r.iterations| <= |clock| && Consumed(remote, r.remote)
    decreases |clock|
  {
    if clock == [] then Run(Horizon, db, [], remote, [])
    else if clock[0].cancelled then Run(Cancelled, db, [], remote, [])
    else if CheckTime(clock[0].now) then
      var p := Pass(clock[0].now, db, remote);
      match p.status
      case Completed =>
        var t := Schedule(clock[1..], p.store, p.remote);
        ConsumedTrans(remote, p.remote, t.remote);
        Later(p.events, [Ran(clock[0].now, Completed)], t)
      case Aborted => Run(Crashed, p.store, p.events, p.remote, [Ran(clock[0].now, Aborted)])
      case Pending => Run(Horizon, p.store, p.events, p.remote, [Ran(clock[0].now, Pending)])
    else Later([Delayed(PollDelay)], [Slept(clock[0].now)], Schedule(clock[1..], db, remote))
  }

  /** One iteration of the loop, taken apart by the tick it observes. */
  lemma {:induction false} ScheduleStep(clock: seq<Tick>, db: Db, remote: Remote)
    ensures clock == [] ==> Schedule(clock, db, remote) == Run(Horizon, db, [], remote, [])
    ensures clock != [] && clock[0].cancelled ==> Schedule(clock, db, remote) == Run(Cancelled, db, [], remote, [])
    ensures clock != [] && !clock[0].cancelled && !CheckTime(clock[0].now) ==>
      Schedule(clock, db, remote) == Later([Delayed(PollDelay)], [Slept(clock[0].now)], Schedule(clock[1..], db, remote))
    ensures clock != [] && !clock[0].cancelled && CheckTime(clock[0].now) ==>
      (var r, t, p := Schedule(clock, db, remote), clock[0].now, Pass(clock[0].now, db, remote);
       && (p.status == Completed ==> r == Later(p.events, [Ran(t, Completed)], Schedule(clock[1..], p.store, p.remote)))
       && (p.status == Aborted ==> r == Run(Crashed, p.store, p.events, p.remote, [Ran(t, Aborted)]))
       && (p.status == Pending ==> r == Run(Horizon, p.store, p.events, p.remote, [Ran(t, Pending)])))
  {
    hide Pass, IsSuffix, Consumed, ParseInt32, CollectionName;
  }

  /**
   * The gate: iteration `i` runs a pass exactly when the minute observed at tick `i` is the
   * run minute, and otherwise sleeps; no iteration happens at a cancelled tick. Every
   * iteration but the last one continued the loop.
   */
  lemma {:induction false} ScheduleGate(clock: seq<Tick>, db: Db, remote: Remote)
    ensures var r := Schedule(clock, db, remote);
      && |r.iterations| <= |clock|
      && (forall i :: 0 <= i < |r.iterations| ==>
            !clock[i].cancelled && r.iterations[i].now == clock[i].now
            && (r.iterations[i].Ran? <==> clock[i].now.minute == 3))
      && (forall i :: 0 <= i < |r.iterations| - 1 ==>
            r.iterations[i].Slept? || r.iterations[i].status == Completed)
    decreases |clock|
  {
    hide Pass, IsSuffix, Consumed, ParseInt32, CollectionName;
    if clock != [] && !clock[0].cancelled {
      var r := Schedule(clock, db, remote);
      if CheckTime(clock[0].now) {
        var p := Pass(clock[0].now, db, remote);
        if p.status == Completed {
          ScheduleGate(clock[1..], p.store, p.remote);
          var t := Schedule(clock[1..], p.store, p.remote);
          assert forall i :: 1 <= i < |r.iterations| ==> r.iterations[i] == t.iterations[i - 1] && clock[i] == clock[1..][i - 1];
        }
      } else {
        ScheduleGate(clock[1..], db, remote);
        var t := Schedule(clock[1..], db, remote);
        assert forall i :: 1 <= i < |r.iterations| ==> r.iterations[i] == t.iterations[i - 1] && clock[i] == clock[1..][i - 1];
      }
    }
  }

  /**
   * Why the loop ended: a cancelled exit saw cancellation at the tick after its last
   * iteration; a crash is a pass that aborted; the horizon is the clock running out or a pass
   * still waiting for responses.
   */
  lemma {:induction false} ScheduleExit(clock: seq<Tick>, db: Db, remote: Remote)
    ensures var r, n := Schedule(clock, db, remote), |Schedule(clock, db, remote).iterations|;
      && n <= |clock|
      && (r.exit == Cancelled ==> n < |clock| && clock[n].cancelled)
      && (r.exit == Crashed ==> n > 0 && r.iterations[n - 1] == Ran(clock[n - 1].now, Aborted))
      && (r.exit == Horizon ==> n == |clock| || (n > 0 && r.iterations[n - 1] == Ran(clock[n - 1].now, Pending)))
    decreases |clock|
  {
    hide Pass, IsSuffix, Consumed, ParseInt32, CollectionName;
    if clock != [] && !clock[0].cancelled {
      if CheckTime(clock[0].now) {
        var p := Pass(clock[0].now, db, remote);
        if p.status == Completed {
          ScheduleExit(clock[1..], p.store, p.remote);
        }
      } else {
        ScheduleExit(clock[1..], db, remote);
      }
    }
  }

  /**
   * The loop's store is always the effect of the operations it logged, and those come in
   * drop-then-insert pairs: however the loop ends, no collection is left dropped without its
   * insert.
   */
  lemma {:induction false} ScheduleFollowsLog(clock: seq<Tick>, db: Db, remote: Remote)
    ensures var r := Schedule(clock, db, remote);
      r.store == Apply(db, r.events) && WellPaired(StoreOps(r.events))
    decreases |clock|
  {
    hide Pass, IsSuffix, Consumed, ParseInt32, CollectionName;
    if clock != [] && !clock[0].cancelled {
      var r := Schedule(clock, db, remote);
      if CheckTime(clock[0].now) {
        var p := Pass(clock[0].now, db, remote);
        PassFollowsLog(clock[0].now, db, remote);
        if p.status == Completed {
          var t := Schedule(clock[1..], p.store, p.remote);
          ScheduleFollowsLog(clock[1..], p.store, p.remote);
          ApplyAppend(db, p.events, t.events);
          StoreOpsAppend(p.events, t.events);
          WellPairedAppend(StoreOps(p.events), StoreOps(t.events));
        }
      } else {
        var t := Schedule(clock[1..], db, remote);
        ScheduleFollowsLog(clock[1..], db, remote);
        DelayTouchesNothing(db);
        PrefixKeepsRun([Delayed(PollDelay)], t, db);
      }
    }
  }

  lemma {:induction false} DelayTouchesNothing(db: Db)
    ensures StoreOps([Delayed(PollDelay)]) == [] && WellPaired(StoreOps([Delayed(PollDelay)]))
    ensures Apply(db, [Delayed(PollDelay)]) == db
  {
    hide IsSuffix, Consumed, ParseInt32, CollectionName;
    assert [Delayed(PollDelay)][1..] == [];
  }

  lemma {:induction false} PrefixKeepsRun(evs: seq<Event>, t: Run, db: Db)
    requires StoreOps(evs) == [] && Apply(db, evs) == db
    requires t.store == Apply(db, t.events) && WellPaired(StoreOps(t.events))
    ensures t.store == Apply(db, evs + t.events) && WellPaired(StoreOps(evs + t.events))
  {
    hide IsSuffix, Consumed, ParseInt32, CollectionName;
    ApplyAppend(db, evs, t.events);
    StoreOpsAppend(evs, t.events);
    assert StoreOps(evs + t.events) == StoreOps(t.events);
  }

  /**
   * Outside the run minute nothing happens but waiting: when no tick reached shows minute 3,
   * the store is untouched, the responses are not consumed, and the only events are 20 s
   * delays, one per iteration.
   */
  lemma {:induction false} IdleLeavesStore(clock: seq<Tick>, db: Db, remote: Remote)
    requires forall i :: 0 <= i < |clock| ==> clock[i].now.minute != 3
    ensures var r := Schedule(clock, db, remote);
      && r.exit != Crashed
      && r.store == db && r.remote == remote
      && |r.events| == |r.iterations|
      && (forall i :: 0 <= i < |r.events| ==> r.events[i] == Delayed(20000))
      && StoreOps(r.events) == []
    decreases |clock|
  {
    hide IsSuffix, Consumed, ParseInt32, CollectionName;
    if clock != [] && !clock[0].cancelled {
      var r := Schedule(clock, db, remote);
      var t := Schedule(clock[1..], db, remote);
      assert forall i :: 0 <= i < |clock[1..]| ==> clock[1..][i] == clock[i + 1];
      IdleLeavesStore(clock[1..], db, remote);
      assert r.events == [Delayed(PollDelay)] + t.events;
      assert forall i :: 1 <= i < |r.events| ==> r.events[i] == t.events[i - 1];
      StoreOpsAppend([Delayed(PollDelay)], t.events);
      DelayTouchesNothing(db);
    }
  }

  /** A tick at which cancellation was requested ends the loop before anything else. */
  lemma {:induction false} CancelledTickStops(clock: seq<Tick>, db: Db, remote: Remote)
    requires |clock| > 0 && clock[0].cancelled
    ensures Schedule(clock, db, remote) == Run(Cancelled, db, [], remote, [])
  {
    hide IsSuffix, Consumed, ParseInt32, CollectionName;
  }

  /**
   * Nothing limits the worker to one pass an hour: two ticks in a row that both show
   * minute 3 run two passes, the second over the store the first one left.
   */
  lemma {:induction false} RepeatedPassesInRunMinute(clock: seq<Tick>, db: Db, remote: Remote)
    requires |clock| >= 2 && !clock[0].cancelled && !clock[1].cancelled
    requires clock[0].now.minute == 3 && clock[1].now.minute == 3
    requires Pass(clock[0].now, db, remote).status == Completed
    ensures var r, p := Schedule(clock, db, remote), Pass(clock[0].now, db, remote);
      && |r.iterations| >= 2
      && r.iterations[0] == Ran(clock[0].now, Completed)
      && r.iterations[1] == Ran(clock[1].now, Pass(clock[1].now, p.store, p.remote).status)
      && r.events[..|p.events|] == p.events
  {
    hide Pass, IsSuffix, Consumed, ParseInt32, CollectionName;
    var p := Pass(clock[0].now, db, remote);
    var t := Schedule(clock[1..], p.store, p.remote);
    assert clock[1..][0] == clock[1];
    ScheduleGate(clock[1..], p.store, p.remote);
    assert (p.events + t.events)[..|p.events|] == p.events;
  }
}
