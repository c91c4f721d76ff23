/**
 * The hosted service itself: its collaborators are fields it updates in place. The
 * fetcher's retry loop, the realm loops, the pass and the main loop are each
 * proved to end in exactly the state and the log that the specification functions of the
 * fetcher, the pass and the scheduler give for the state they start from.
 */
module Service {
  import opened Types
  import opened Naming
  import opened Store
  import opened Fetcher
  import opened Orchestrator
  import opened Scheduler

  class Worker {
    /** The document store's collections. */
    var store: Db
    /** The marketplace responses still to come. */
    var remote: Remote
    /** The cancellation state and wall-clock readings still to come, one per loop iteration. */
    var clock: seq<Tick>
    /** Everything the worker has done to or asked of its collaborators, in order. */
    var trace: seq<Event>
    /** The store as it was when the service started. */
    ghost var origin: Db

    /**
     * The service's invariant: the store is the effect of the logged operations on the store
     * the service started with, and those operations come in drop-then-insert pairs. The
     * constructor establishes it and the main loop keeps it at every iteration.
     */
    ghost predicate Valid()
      reads this
    {
      store == Apply(origin, trace) && WellPaired(StoreOps(trace))
    }

    /** Starting the service: connect to the store and the marketplace. */
    constructor(db: Db, marketplace: Remote, ticks: seq<Tick>)
      ensures Valid()
      ensures store == db && origin == db && remote == marketplace && clock == ticks && trace == []
    {
      store := db;
      origin := db;
      remote := marketplace;
      clock := ticks;
      trace := [];
    }

    /** The class invariant survives appending a piece of work that keeps it on its own. */
    lemma {:induction false} Extend(before: Db, evs: seq<Event>, after: Db)
      requires store == before
      requires after == Apply(before, evs) && WellPaired(StoreOps(evs))
      ensures Valid() ==> after == Apply(origin, trace + evs) && WellPaired(StoreOps(trace + evs))
    {
      hide IsSuffix, Consumed, ParseInt32, CollectionName;
      ApplyAppend(origin, trace, evs);
      StoreOpsAppend(trace, evs);
      if Valid() {
        WellPairedAppend(StoreOps(trace), StoreOps(evs));
      }
    }

    /** Replace a collection's contents: drop it, then insert the documents into it. */
    method ReplaceCollection(name: string, docs: seq<Auction>)
      modifies this
      ensures store == InsertManyInto(DropCollection(old(store), name), name, docs)
      ensures trace == old(trace) + [Drop(name), InsertMany(name, docs)]
      ensures remote == old(remote) && clock == old(clock) && origin == old(origin)
    {
      hide IsSuffix, Consumed, ParseInt32, CollectionName;
      store := DropCollection(store, name);
      trace := trace + [Drop(name)];
      store := InsertManyInto(store, name, docs);
      trace := trace + [InsertMany(name, docs)];
    }

    /**
     * Fetch one realm's auctions and replace the realm's collection with them. A timeout or a
     * reported failure tries again with the same arguments; the source's tail recursion is
     * this loop over the responses.
     */
    method SaveAuction(realmId: int, dateIdentifier: string, region: Region, regionType: string, lang: Locale)
      returns (status: Status)
      modifies this
      ensures var a := Attempts(Request(realmId, dateIdentifier, region, regionType, lang), old(store), old(remote));
        && status == a.status && store == a.store && remote == a.remote
        && trace == old(trace) + a.events && clock == old(clock) && origin == old(origin)
    {
      hide Attempts, CollectionName, IsSuffix, Consumed, ParseInt32;
      var req := Request(realmId, dateIdentifier, region, regionType, lang);
      ghost var goal := Attempts(req, store, remote);
      ghost var done: seq<Event> := [];
      while remote.auctions != []
        invariant store == old(store) && clock == old(clock) && origin == old(origin)
        invariant trace == old(trace) + done
        invariant goal == After(done, Attempts(req, store, remote))
        decreases |remote.auctions|
      {
        var outcome := remote.auctions[0];
        var rest := remote.(auctions := remote.auctions[1..]);
        AttemptStep(req, store, remote);
        remote := rest;
        trace := trace + [req.Call()];
        match outcome {
          case Ok(docs) =>
            var name := CollectionName(dateIdentifier, regionType, realmId);
            Reassociate(old(trace), done, [req.Call()]);
            Reassociate(old(trace) + done, [req.Call()], [Drop(name), InsertMany(name, docs)]);
            Reassociate(old(trace), done, [req.Call()] + [Drop(name), InsertMany(name, docs)]);
            ReplaceCollection(name, docs);
            return Completed;
          case Faulted =>
            Reassociate(old(trace), done, [req.Call()]);
            return Aborted;
          case _ =>
            AfterAfter(done, [req.Call()], Attempts(req, store, rest));
            Reassociate(old(trace), done, [req.Call()]);
            done := done + [req.Call()];
        }
      }
      AttemptStep(req, store, remote);
      assert done + [] == done;
      return Pending;
    }

    /** The loop over one region's realm references, in index order. */
    method SaveRealms(hrefs: seq<string>, dateIdentifier: string, region: Region) returns (status: Status)
      modifies this
      ensures var r := Realms(hrefs, dateIdentifier, region, old(store), old(remote));
        && status == r.status && store == r.store && remote == r.remote
        && trace == old(trace) + r.events && clock == old(clock) && origin == old(origin)
    {
      hide ParseRealmId, Attempts, CollectionName, IsSuffix, Consumed, ParseInt32;
      ghost var goal := Realms(hrefs, dateIdentifier, region, store, remote);
      ghost var done: seq<Event> := [];
      var i := 0;
      status := Completed;
      while i < |hrefs|
        invariant 0 <= i <= |hrefs| && status == Completed
        invariant clock == old(clock) && origin == old(origin)
        invariant trace == old(trace) + done
        invariant goal == After(done, Realms(hrefs[i..], dateIdentifier, region, store, remote))
      {
        var parsed := ParseRealmId(region, hrefs[i]);
        if !parsed.Parsed? {
          RealmsStopsAtUnreadable(goal, done, hrefs, i, dateIdentifier, region, store, remote);
          return Aborted;
        }
        RealmsAdvance(goal, done, hrefs, i, dateIdentifier, region, store, remote, parsed.value);
        ghost var a := Attempts(RealmRequest(parsed.value, dateIdentifier, region), store, remote);
        Reassociate(old(trace), done, a.events);
        status := SaveAuction(parsed.value, dateIdentifier, region, region.RegionType(), region.Lang());
        done := done + a.events;
        if status != Completed {
          return;
        }
        i := i + 1;
      }
      assert hrefs[i..] == [] && done + [] == done;
    }

    /** One whole pass at time `now`: both realm indexes, then the European and the American realms. */
    method SaveAllAuctions(now: Time) returns (status: Status)
      modifies this
      ensures var p := Pass(now, old(store), old(remote));
        && status == p.status && store == p.store && remote == p.remote
        && trace == old(trace) + p.events && clock == old(clock) && origin == old(origin)
    {
      hide Visit, Realms, Attempts, ParseRealmId, CollectionName, DateIdentifier, IsSuffix, Consumed, ParseInt32;
      ghost var goal := Pass(now, store, remote);
      var dateIdentifier := DateIdentifier(now);
      var calls := [IndexCall(Europe), IndexCall(US)];
      trace := trace + [IndexCall(Europe)];
      if remote.indexes == [] {
        assert calls[..1] == [IndexCall(Europe)];
        return Pending;
      }
      var eu := remote.indexes[0];
      remote := remote.(indexes := remote.indexes[1..]);
      if eu.IndexFaulted? {
        assert calls[..1] == [IndexCall(Europe)];
        return Aborted;
      }
      Reassociate(old(trace), [IndexCall(Europe)], [IndexCall(US)]);
      trace := trace + [IndexCall(US)];
      if remote.indexes == [] {
        return Pending;
      }
      var us := remote.indexes[0];
      assert remote.indexes[1..] == old(remote).indexes[2..];
      remote := remote.(indexes := remote.indexes[1..]);
      if us.IndexFaulted? {
        return Aborted;
      }
      ghost var v := Visit(eu, us, dateIdentifier, store, remote);
      assert goal == After(calls, v);
      assert trace == old(trace) + calls;
      Reassociate(old(trace), calls, v.events);
      status := VisitRegions(eu, us, dateIdentifier);
    }

    /** The two realm loops of a pass, once both indexes are in. */
    method VisitRegions(eu: IndexResult, us: IndexResult, dateIdentifier: string) returns (status: Status)
      modifies this
      ensures var v := Visit(eu, us, dateIdentifier, old(store), old(remote));
        && status == v.status && store == v.store && remote == v.remote
        && trace == old(trace) + v.events && clock == old(clock) && origin == old(origin)
    {
      hide IsSuffix, Consumed, ParseInt32, CollectionName;
      match eu {
        case IndexOk(euHrefs) =>
          status := SaveRealms(euHrefs, dateIdentifier, Europe);
          if status != Completed {
            return;
          }
          match us {
            case IndexOk(usHrefs) =>
              ghost var e := trace[|old(trace)|..];
              ghost var u := Realms(usHrefs, dateIdentifier, US, store, remote);
              assert trace == old(trace) + e;
              Reassociate(old(trace), e, u.events);
              status := SaveRealms(usHrefs, dateIdentifier, US);
            case _ =>
              return Aborted;
          }
        case _ =>
          assert old(trace) + [] == old(trace);
          return Aborted;
      }
    }

    /**
     * The service's main loop: until cancellation is requested, run a pass whenever the minute
     * is 3 and sleep 20 s otherwise. A pass that throws ends the loop.
     */
    method ExecuteAsync() returns (exit: Exit)
      modifies this
      ensures var r := Schedule(old(clock), old(store), old(remote));
        && exit == r.exit && store == r.store && remote == r.remote
        && trace == old(trace) + r.events && origin == old(origin)
        && |r.iterations| <= |old(clock)| && clock == old(clock)[|r.iterations|..]
      ensures old(Valid()) ==> Valid()
    {
      hide Pass, Schedule, Apply, StoreOps, WellPaired, Consumed, IsSuffix, ParseInt32, CollectionName;
      ghost var goal := Schedule(clock, store, remote);
      ghost var done: seq<Event> := [];
      ghost var its: seq<Iteration> := [];
      while clock != []
        invariant origin == old(origin)
        invariant |its| <= |old(clock)| && clock == old(clock)[|its|..]
        invariant trace == old(trace) + done
        invariant goal == Later(done, its, Schedule(clock, store, remote))
        invariant old(Valid()) ==> Valid()
        decreases |clock|
      {
        var tick := clock[0];
        ScheduleStep(clock, store, remote);
        if tick.cancelled {
          assert done + [] == done && its + [] == its;
          return Cancelled;
        }
        assert clock[1..] == old(clock)[|its| + 1..];
        clock := clock[1..];
        if CheckTime(tick.now) {
          ghost var p := Pass(tick.now, store, remote);
          PassFollowsLog(tick.now, store, remote);
          Extend(store, p.events, p.store);
          Reassociate(old(trace), done, p.events);
          var status := SaveAllAuctions(tick.now);
          if status == Aborted {
            return Crashed;
          } else if status == Pending {
            return Horizon;
          }
          LaterLater(done, its, p.events, [Ran(tick.now, Completed)], Schedule(clock, store, remote));
          done := done + p.events;
          its := its + [Ran(tick.now, Completed)];
        } else {
          DelayTouchesNothing(store);
          Extend(store, [Delayed(PollDelay)], store);
          LaterLater(done, its, [Delayed(PollDelay)], [Slept(tick.now)], Schedule(clock, store, remote));
          Reassociate(old(trace), done, [Delayed(PollDelay)]);
          trace := trace + [Delayed(PollDelay)];
          done := done + [Delayed(PollDelay)];
          its := its + [Slept(tick.now)];
        }
      }
      ScheduleStep(clock, store, remote);
      assert done + [] == done && its + [] == its;
      return Horizon;
    }
  }
}
