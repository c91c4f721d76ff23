/**
 * One snapshot pass: fetch the European and the American realm index, then run the fetcher
 * for every European realm in index order, then for every American realm in index order.
 */
module Orchestrator {
  import opened Types
  import opened Naming
  import opened Store
  import opened Fetcher

  /** The fetcher request for realm `id` of `region` in the hour `dateIdentifier`. */
  function RealmRequest(id: int, dateIdentifier: string, region: Region): Request {
    Request(id, dateIdentifier, region, region.RegionType(), region.Lang())
  }

  /** The realm-index call for `region`. */
  function IndexCall(region: Region): Event {
    ListRealms(region.Namespace(), region, region.Lang())
  }

  /**
   * The fetcher run over each reference of one region's index, in order. A reference whose
   * id cannot be read aborts; a fetcher run that does not complete ends the loop with it.
   */
  function Realms(hrefs: seq<string>, dateIdentifier: string, region: Region, db: Db, remote: Remote): (r: Step)
    ensures r.remote.indexes == remote.indexes && IsSuffix(r.remote.auctions, remote.auctions)
    ensures r.status == Pending ==> r.remote.auctions == []
    decreases |hrefs|
  {
    if hrefs == [] then Step(Completed, db, [], remote)
    else
      match ParseRealmId(region, hrefs[0])
      case Parsed(id) =>
        var a := Attempts(RealmRequest(id, dateIdentifier, region), db, remote);
        if a.status != Completed then a
        else
          var t := Realms(hrefs[1..], dateIdentifier, region, a.store, a.remote);
          SuffixTrans(remote.auctions, a.remote.auctions, t.remote.auctions);
          After(a.events, t)
      case _ => Step(Aborted, db, [], remote)
  }

  /**
   * What a pass does once both indexes are in: the European realms, then the American ones.
   * An index that failed is only noticed when its realms are to be visited, so a failed
   * American index aborts after every European realm has been stored.
   */
  function Visit(eu: IndexResult, us: IndexResult, dateIdentifier: string, db: Db, remote: Remote): (v: Step)
    ensures v.remote.indexes == remote.indexes && IsSuffix(v.remote.auctions, remote.auctions)
    ensures v.status == Pending ==> v.remote.auctions == []
  {
    match eu
    case IndexOk(euHrefs) =>
      var e := Realms(euHrefs, dateIdentifier, Europe, db, remote);
      if e.status != Completed then e
      else
        (match us
         case IndexOk(usHrefs) =>
           var u := Realms(usHrefs, dateIdentifier, US, e.store, e.remote);
           SuffixTrans(remote.auctions, e.remote.auctions, u.remote.auctions);
           After(e.events, u)
         case _ => Step(Aborted, e.store, e.events, e.remote))
    case _ => Step(Aborted, db, [], remote)
  }

  /**
   * A whole pass at time `now`: the European index call, then the American one, then the
   * visit of their realms. A faulted index call throws as soon as it is awaited, so the
   * pass aborts right after it.
   */
  function Pass(now: Time, db: Db, remote: Remote): (r: Step)
    ensures Consumed(remote, r.remote) && |remote.indexes| <= |r.remote.indexes| + 2
    ensures r.status == Pending ==> r.remote.indexes == [] || r.remote.auctions == []
  {
    var idx := remote.indexes;
    var calls := [IndexCall(Europe), IndexCall(US)];
    if idx == [] then Step(Pending, db, calls[..1], remote)
    else if idx[0].IndexFaulted? then Step(Aborted, db, calls[..1], remote.(indexes := idx[1..]))
    else if |idx| == 1 then Step(Pending, db, calls, remote.(indexes := []))
    else if idx[1].IndexFaulted? then Step(Aborted, db, calls, remote.(indexes := idx[2..]))
    else
      var rest := remote.(indexes := idx[2..]);
      var v := Visit(idx[0], idx[1], DateIdentifier(now), db, rest);
      SuffixTrans(remote.indexes, rest.indexes, v.remote.indexes);
      After(calls, v)
  }

  predicate AllParse(region: Region, hrefs: seq<string>) {
    forall j :: 0 <= j < |hrefs| ==> ParseRealmId(region, hrefs[j]).Parsed?
  }

  /** The collections of the realms `hrefs` refer to, in order. */
  function NamesOf(dateIdentifier: string, region: Region, hrefs: seq<string>): (names: seq<string>)
    requires AllParse(region, hrefs)
    ensures |names| == |hrefs|
    ensures forall j :: 0 <= j < |hrefs| ==>
      names[j] == CollectionName(dateIdentifier, region.RegionType(), ParseRealmId(region, hrefs[j]).value)
  {
    if hrefs == [] then []
    else [CollectionName(dateIdentifier, region.RegionType(), ParseRealmId(region, hrefs[0]).value)]
         + NamesOf(dateIdentifier, region, hrefs[1..])
  }

  /**
   * One region's loop: the store is the effect of the logged operations, which come in
   * drop-then-insert pairs; when the loop completes every reference was read, and the pairs
   * replace the realms' collections one by one in index order.
   */
  lemma {:induction false} RealmsInOrder(hrefs: seq<string>, dateIdentifier: string, region: Region, db: Db, remote: Remote)
    ensures var r := Realms(hrefs, dateIdentifier, region, db, remote);
      && r.store == Apply(db, r.events)
      && WellPaired(StoreOps(r.events))
      && (r.status == Completed ==>
            AllParse(region, hrefs) && DroppedNames(StoreOps(r.events)) == NamesOf(dateIdentifier, region, hrefs))
  {
    hide IsSuffix, Consumed, ParseInt32, CollectionName;
    RealmsFollowLog(hrefs, dateIdentifier, region, db, remote);
    RealmsNames(hrefs, dateIdentifier, region, db, remote);
  }

  lemma {:induction false} RealmsFollowLog(hrefs: seq<string>, dateIdentifier: string, region: Region, db: Db, remote: Remote)
    ensures var r := Realms(hrefs, dateIdentifier, region, db, remote);
      r.store == Apply(db, r.events) && WellPaired(StoreOps(r.events))
    decreases |hrefs|
  {
    hide IsSuffix, Consumed, ParseInt32, CollectionName;
    if hrefs != [] {
      var parsed := ParseRealmId(region, hrefs[0]);
      if parsed.Parsed? {
        var req := RealmRequest(parsed.value, dateIdentifier, region);
        var a := Attempts(req, db, remote);
        AttemptsFollowLog(req, db, remote);
        AttemptsPaired(req, db, remote);
        if a.status == Completed {
          var t := Realms(hrefs[1..], dateIdentifier, region, a.store, a.remote);
          RealmsFollowLog(hrefs[1..], dateIdentifier, region, a.store, a.remote);
          assert Realms(hrefs, dateIdentifier, region, db, remote) == After(a.events, t);
          ApplyAppend(db, a.events, t.events);
          StoreOpsAppend(a.events, t.events);
          WellPairedAppend(StoreOps(a.events), StoreOps(t.events));
        }
      }
    }
  }

  lemma {:induction false} RealmsNames(hrefs: seq<string>, dateIdentifier: string, region: Region, db: Db, remote: Remote)
    ensures var r := Realms(hrefs, dateIdentifier, region, db, remote);
      r.status == Completed ==>
        && AllParse(region, hrefs) && WellPaired(StoreOps(r.events))
        && DroppedNames(StoreOps(r.events)) == NamesOf(dateIdentifier, region, hrefs)
    decreases |hrefs|
  {
    hide ParseRealmId, IsSuffix, Consumed, ParseInt32, CollectionName;
    var r := Realms(hrefs, dateIdentifier, region, db, remote);
    if hrefs != [] && r.status == Completed {
      var parsed := ParseRealmId(region, hrefs[0]);
      assert parsed.Parsed?;
      var req := RealmRequest(parsed.value, dateIdentifier, region);
      var a := Attempts(req, db, remote);
      assert a.status == Completed;
      AttemptsPaired(req, db, remote);
      var t := Realms(hrefs[1..], dateIdentifier, region, a.store, a.remote);
      assert r == After(a.events, t);
      RealmsNames(hrefs[1..], dateIdentifier, region, a.store, a.remote);
      StoreOpsAppend(a.events, t.events);
      WellPairedAppend(StoreOps(a.events), StoreOps(t.events));
      assert AllParse(region, hrefs) by {
        forall j | 0 <= j < |hrefs| ensures ParseRealmId(region, hrefs[j]).Parsed? {
          if j > 0 { assert hrefs[j] == hrefs[1..][j - 1]; }
        }
      }
      assert NamesOf(dateIdentifier, region, hrefs) == [req.Name()] + NamesOf(dateIdentifier, region, hrefs[1..]);
    }
  }

  lemma {:induction false} IndexCallsTouchNothing(db: Db)
    ensures StoreOps([IndexCall(Europe), IndexCall(US)]) == []
    ensures StoreOps([IndexCall(Europe)]) == []
    ensures Apply(db, [IndexCall(Europe), IndexCall(US)]) == db
    ensures Apply(db, [IndexCall(Europe)]) == db
  {
    hide IsSuffix, Consumed, ParseInt32, CollectionName;
    var calls := [IndexCall(Europe), IndexCall(US)];
    assert calls[1..][1..] == [];
    assert [IndexCall(Europe)][1..] == [];
    ApplyWithoutStoreOps(db, calls);
    ApplyWithoutStoreOps(db, [IndexCall(Europe)]);
  }

  lemma {:induction false} VisitFollowsLog(eu: IndexResult, us: IndexResult, dateIdentifier: string, db: Db, remote: Remote)
    ensures var v := Visit(eu, us, dateIdentifier, db, remote);
      v.store == Apply(db, v.events) && WellPaired(StoreOps(v.events))
  {
    hide IsSuffix, Consumed, ParseInt32, CollectionName;
    if eu.IndexOk? {
      var e := Realms(eu.hrefs, dateIdentifier, Europe, db, remote);
      RealmsInOrder(eu.hrefs, dateIdentifier, Europe, db, remote);
      if e.status == Completed && us.IndexOk? {
        var u := Realms(us.hrefs, dateIdentifier, US, e.store, e.remote);
        RealmsInOrder(us.hrefs, dateIdentifier, US, e.store, e.remote);
        ApplyAppend(db, e.events, u.events);
        StoreOpsAppend(e.events, u.events);
        WellPairedAppend(StoreOps(e.events), StoreOps(u.events));
      }
    }
  }

  /** Events that touch no store, put in front of a step, keep its store tied to its log. */
  lemma {:induction false} PrefixKeepsLog(calls: seq<Event>, s: Step, db: Db)
    requires StoreOps(calls) == []
    requires s.store == Apply(db, s.events) && WellPaired(StoreOps(s.events))
    ensures After(calls, s).store == Apply(db, After(calls, s).events)
    ensures WellPaired(StoreOps(After(calls, s).events))
  {
    hide IsSuffix, Consumed, ParseInt32, CollectionName;
    ApplyWithoutStoreOps(db, calls);
    ApplyAppend(db, calls, s.events);
    StoreOpsAppend(calls, s.events);
    assert StoreOps(calls + s.events) == StoreOps(s.events);
  }

  /**
   * The pass's store is the effect of the operations it logged, and those come in
   * drop-then-insert pairs whatever the pass ends with: no collection is ever left dropped
   * without its insert.
   */
  lemma {:induction false} PassFollowsLog(now: Time, db: Db, remote: Remote)
    ensures Pass(now, db, remote).store == Apply(db, Pass(now, db, remote).events)
    ensures WellPaired(StoreOps(Pass(now, db, remote).events))
  {
    hide IsSuffix, Consumed, ParseInt32, CollectionName;
    var idx := remote.indexes;
    IndexCallsTouchNothing(db);
    if |idx| >= 2 {
      var dateIdentifier := DateIdentifier(now);
      var afterIndexes := remote.(indexes := idx[2..]);
      VisitFollowsLog(idx[0], idx[1], dateIdentifier, db, afterIndexes);
      PrefixKeepsLog([IndexCall(Europe), IndexCall(US)], Visit(idx[0], idx[1], dateIdentifier, db, afterIndexes), db);
    }
  }

  lemma {:induction false} VisitInOrder(eu: IndexResult, us: IndexResult, dateIdentifier: string, db: Db, remote: Remote)
    requires Visit(eu, us, dateIdentifier, db, remote).status == Completed
    ensures eu.IndexOk? && us.IndexOk? && AllParse(Europe, eu.hrefs) && AllParse(US, us.hrefs)
    ensures var v := Visit(eu, us, dateIdentifier, db, remote);
      && WellPaired(StoreOps(v.events))
      && DroppedNames(StoreOps(v.events)) == NamesOf(dateIdentifier, Europe, eu.hrefs) + NamesOf(dateIdentifier, US, us.hrefs)
  {
    hide IsSuffix, Consumed, ParseInt32, CollectionName;
    var e := Realms(eu.hrefs, dateIdentifier, Europe, db, remote);
    RealmsInOrder(eu.hrefs, dateIdentifier, Europe, db, remote);
    assert e.status == Completed && us.IndexOk?;
    var u := Realms(us.hrefs, dateIdentifier, US, e.store, e.remote);
    RealmsInOrder(us.hrefs, dateIdentifier, US, e.store, e.remote);
    assert Visit(eu, us, dateIdentifier, db, remote).events == e.events + u.events;
    StoreOpsAppend(e.events, u.events);
    WellPairedAppend(StoreOps(e.events), StoreOps(u.events));
  }

  /**
   * A completed pass made both index calls before anything else, got both indexes, read every
   * reference, and replaced the European realms' collections in index order, then the
   * American ones, one drop-then-insert pair per realm.
   */
  lemma {:induction false} PassInOrder(now: Time, db: Db, remote: Remote)
    requires Pass(now, db, remote).status == Completed
    ensures var r, idx := Pass(now, db, remote), remote.indexes;
      && |idx| >= 2 && idx[0].IndexOk? && idx[1].IndexOk?
      && r.events[..2] == [IndexCall(Europe), IndexCall(US)]
      && AllParse(Europe, idx[0].hrefs) && AllParse(US, idx[1].hrefs)
      && WellPaired(StoreOps(r.events))
      && DroppedNames(StoreOps(r.events))
         == NamesOf(DateIdentifier(now), Europe, idx[0].hrefs) + NamesOf(DateIdentifier(now), US, idx[1].hrefs)
  {
    hide IsSuffix, Consumed, ParseInt32, CollectionName;
    var idx := remote.indexes;
    var calls := [IndexCall(Europe), IndexCall(US)];
    var dateIdentifier := DateIdentifier(now);
    var afterIndexes := remote.(indexes := idx[2..]);
    var v := Visit(idx[0], idx[1], dateIdentifier, db, afterIndexes);
    VisitInOrder(idx[0], idx[1], dateIdentifier, db, afterIndexes);
    IndexCallsTouchNothing(db);
    assert Pass(now, db, remote).events == calls + v.events;
    StoreOpsAppend(calls, v.events);
    assert StoreOps(calls + v.events) == StoreOps(v.events);
    assert (calls + v.events)[..2] == calls;
  }

  /** A failed European index aborts the pass before any store operation. */
  lemma {:induction false} EuropeanIndexErrorAborts(now: Time, db: Db, remote: Remote)
    requires |remote.indexes| >= 2 && remote.indexes[0] == IndexError
    ensures Pass(now, db, remote).status == Aborted
    ensures Pass(now, db, remote).store == db
    ensures StoreOps(Pass(now, db, remote).events) == []
  {
    hide IsSuffix, Consumed, ParseInt32, CollectionName;
    var calls := [IndexCall(Europe), IndexCall(US)];
    assert calls[1..][1..] == [];
  }

  /**
   * A failed American index aborts the pass, but only after every European realm has been
   * stored: the store is exactly what the European loop left.
   */
  lemma {:induction false} AmericanIndexErrorAbortsAfterEurope(now: Time, db: Db, remote: Remote)
    requires |remote.indexes| >= 2 && remote.indexes[0].IndexOk? && remote.indexes[1] == IndexError
    requires Realms(remote.indexes[0].hrefs, DateIdentifier(now), Europe, db, remote.(indexes := remote.indexes[2..])).status == Completed
    ensures var e := Realms(remote.indexes[0].hrefs, DateIdentifier(now), Europe, db, remote.(indexes := remote.indexes[2..]));
      && Pass(now, db, remote).status == Aborted
      && Pass(now, db, remote).store == e.store
      && WellPaired(StoreOps(e.events))
      && AllParse(Europe, remote.indexes[0].hrefs)
      && DroppedNames(StoreOps(e.events)) == NamesOf(DateIdentifier(now), Europe, remote.indexes[0].hrefs)
  {
    hide IsSuffix, Consumed, ParseInt32, CollectionName;
    RealmsInOrder(remote.indexes[0].hrefs, DateIdentifier(now), Europe, db, remote.(indexes := remote.indexes[2..]));
  }

  /** A reference whose id cannot be read stops its region's loop short of completing. */
  lemma {:induction false} UnreadableHrefBlocksCompletion(hrefs: seq<string>, dateIdentifier: string, region: Region, db: Db, remote: Remote, j: nat)
    requires j < |hrefs| && !ParseRealmId(region, hrefs[j]).Parsed?
    ensures Realms(hrefs, dateIdentifier, region, db, remote).status != Completed
  {
    hide IsSuffix, Consumed, ParseInt32, CollectionName;
    RealmsInOrder(hrefs, dateIdentifier, region, db, remote);
  }

  /** When the first European reference cannot be read the pass aborts with the store untouched. */
  lemma {:induction false} UnreadableFirstHrefAborts(now: Time, db: Db, remote: Remote)
    requires |remote.indexes| >= 2 && remote.indexes[0].IndexOk? && |remote.indexes[0].hrefs| > 0
    requires !ParseRealmId(Europe, remote.indexes[0].hrefs[0]).Parsed?
    ensures Pass(now, db, remote).status == Aborted
    ensures Pass(now, db, remote).store == db
    ensures StoreOps(Pass(now, db, remote).events) == []
  {
    hide IsSuffix, Consumed, ParseInt32, CollectionName, ParseRealmId, Attempts, AgreeExcept, DateIdentifier;
    var idx := remote.indexes;
    var calls := [IndexCall(Europe), IndexCall(US)];
    var afterIndexes := remote.(indexes := idx[2..]);
    var hrefs := idx[0].hrefs;
    assert Realms(hrefs, DateIdentifier(now), Europe, db, afterIndexes) == Step(Aborted, db, [], afterIndexes);
    assert Pass(now, db, remote) == After(calls, Visit(idx[0], idx[1], DateIdentifier(now), db, afterIndexes));
    IndexCallsTouchNothing(db);
    assert calls + [] == calls;
  }

  /** A region whose index lists one realm, fetched at the first attempt, stores that realm. */
  lemma {:induction false} SingleRealm(href: string, id: int, dateIdentifier: string, region: Region, db: Db,
                                       remote: Remote, docs: seq<Auction>)
    requires ParseRealmId(region, href) == Parsed(id)
    requires |remote.auctions| > 0 && remote.auctions[0] == Ok(docs)
    ensures var req := RealmRequest(id, dateIdentifier, region);
      Realms([href], dateIdentifier, region, db, remote)
        == Step(Completed, InsertManyInto(DropCollection(db, req.Name()), req.Name(), docs),
                [req.Call(), Drop(req.Name()), InsertMany(req.Name(), docs)],
                remote.(auctions := remote.auctions[1..]))
  {
    hide IsSuffix, Consumed, ParseInt32, CollectionName;
    var hrefs := [href];
    assert hrefs[0] == href && hrefs[1..] == [];
    var a := Attempts(RealmRequest(id, dateIdentifier, region), db, remote);
    assert a.events + [] == a.events;
  }

  /** Replacing two different collections one after the other. */
  lemma {:induction false} TwoReplacements(db: Db, n1: string, d1: seq<Auction>, n2: string, d2: seq<Auction>)
    requires n1 != n2
    ensures var r := InsertManyInto(DropCollection(InsertManyInto(DropCollection(db, n1), n1, d1), n2), n2, d2);
      && n1 in r && r[n1] == d1 && n2 in r && r[n2] == d2
      && (forall c :: c != n1 && c != n2 ==> (c in r <==> c in db) && (c in db ==> r[c] == db[c]))
  {
    hide IsSuffix, Consumed, ParseInt32, CollectionName;
  }

  /** The visit of one European and one American realm, each fetched at the first attempt. */
  lemma {:induction false} VisitBothSingle(dateIdentifier: string, db: Db, euHref: string, euId: int, usHref: string, usId: int,
                                           euDocs: seq<Auction>, usDocs: seq<Auction>, remote: Remote, auctions: seq<Outcome>)
    requires ParseRealmId(Europe, euHref) == Parsed(euId) && ParseRealmId(US, usHref) == Parsed(usId)
    requires remote.auctions == [Ok(euDocs), Ok(usDocs)] + auctions
    ensures var v := Visit(IndexOk([euHref]), IndexOk([usHref]), dateIdentifier, db, remote);
      var euName := CollectionName(dateIdentifier, Europe.RegionType(), euId);
      var usName := CollectionName(dateIdentifier, US.RegionType(), usId);
      && v.status == Completed
      && v.store == InsertManyInto(DropCollection(InsertManyInto(DropCollection(db, euName), euName, euDocs), usName), usName, usDocs)
      && v.remote == remote.(auctions := auctions)
  {
    hide Visit, Attempts, Realms, ParseRealmId, IsSuffix, Consumed, AgreeExcept, CollectionName, ParseInt32;
    var euName := RealmRequest(euId, dateIdentifier, Europe).Name();
    var usName := RealmRequest(usId, dateIdentifier, US).Name();
    SingleRealm(euHref, euId, dateIdentifier, Europe, db, remote, euDocs);
    var e := Realms([euHref], dateIdentifier, Europe, db, remote);
    assert e.status == Completed && e.store == InsertManyInto(DropCollection(db, euName), euName, euDocs);
    assert e.remote.auctions == [Ok(usDocs)] + auctions;
    SingleRealm(usHref, usId, dateIdentifier, US, e.store, e.remote, usDocs);
    var u := Realms([usHref], dateIdentifier, US, e.store, e.remote);
    assert u.status == Completed && u.store == InsertManyInto(DropCollection(e.store, usName), usName, usDocs);
    assert e.remote.auctions[1..] == auctions && u.remote == remote.(auctions := auctions);
    VisitBothComplete([euHref], [usHref], dateIdentifier, db, remote);
  }

  /** Once the European realms complete, a visit goes on to the American ones. */
  lemma {:induction false} VisitBothComplete(euHrefs: seq<string>, usHrefs: seq<string>, dateIdentifier: string, db: Db, remote: Remote)
    requires Realms(euHrefs, dateIdentifier, Europe, db, remote).status == Completed
    ensures var e := Realms(euHrefs, dateIdentifier, Europe, db, remote);
      Visit(IndexOk(euHrefs), IndexOk(usHrefs), dateIdentifier, db, remote)
        == After(e.events, Realms(usHrefs, dateIdentifier, US, e.store, e.remote))
  {
    hide IsSuffix, Consumed, ParseInt32, CollectionName;
  }

  /**
   * A whole pass over one European and one American realm, each fetched at the first attempt:
   * it completes, the two realms' collections hold exactly the fetched documents, every other
   * collection is untouched, and the responses are consumed in order.
   */
  lemma {:induction false} PassStoresBothRealms(now: Time, db: Db, euId: int, usId: int, euDocs: seq<Auction>, usDocs: seq<Auction>,
                             indexes: seq<IndexResult>, auctions: seq<Outcome>)
    requires Int32Min <= euId <= Int32Max && Int32Min <= usId <= Int32Max
    ensures var remote := Remote([IndexOk([RealmHref(Europe, euId)]), IndexOk([RealmHref(US, usId)])] + indexes,
                                 [Ok(euDocs), Ok(usDocs)] + auctions);
      var r := Pass(now, db, remote);
      var euName := CollectionName(DateIdentifier(now), Europe.RegionType(), euId);
      var usName := CollectionName(DateIdentifier(now), US.RegionType(), usId);
      && r.status == Completed
      && euName in r.store && r.store[euName] == euDocs
      && usName in r.store && r.store[usName] == usDocs
      && (forall c :: c != euName && c != usName ==> (c in r.store <==> c in db) && (c in db ==> r.store[c] == db[c]))
      && r.remote == Remote(indexes, auctions)
  {
    hide ParseRealmId, IsSuffix, Consumed, ParseInt32, CollectionName;
    var remote := Remote([IndexOk([RealmHref(Europe, euId)]), IndexOk([RealmHref(US, usId)])] + indexes,
                         [Ok(euDocs), Ok(usDocs)] + auctions);
    var dateIdentifier := DateIdentifier(now);
    var euName := CollectionName(dateIdentifier, Europe.RegionType(), euId);
    var usName := CollectionName(dateIdentifier, US.RegionType(), usId);
    var afterIndexes := remote.(indexes := remote.indexes[2..]);
    assert remote.indexes[2..] == indexes;
    RealmIdRoundTrip(Europe, euId);
    RealmIdRoundTrip(US, usId);
    VisitBothSingle(dateIdentifier, db, RealmHref(Europe, euId), euId, RealmHref(US, usId), usId, euDocs, usDocs, afterIndexes, auctions);
    assert euName != usName by {
      if euName == usName {
        CollectionNameInjective(dateIdentifier, Europe, euId, US, usId);
      }
    }
    TwoReplacements(db, euName, euDocs, usName, usDocs);
  }

  /** One step of a region's loop, from reference `i` on. */
  lemma {:induction false} RealmsFrom(hrefs: seq<string>, i: nat, dateIdentifier: string, region: Region, db: Db, remote: Remote)
    requires i < |hrefs|
    ensures var r, parsed := Realms(hrefs[i..], dateIdentifier, region, db, remote), ParseRealmId(region, hrefs[i]);
      && (!parsed.Parsed? ==> r == Step(Aborted, db, [], remote))
      && (parsed.Parsed? ==>
            var a := Attempts(RealmRequest(parsed.value, dateIdentifier, region), db, remote);
            r == if a.status != Completed then a
                 else After(a.events, Realms(hrefs[i + 1..], dateIdentifier, region, a.store, a.remote)))
  {
    hide ParseRealmId, IsSuffix, Consumed, ParseInt32, CollectionName;
    assert hrefs[i..][0] == hrefs[i] && hrefs[i..][1..] == hrefs[i + 1..];
  }

  /** Moving a region's loop past reference `i`, whose id reads as `id`. */
  lemma {:induction false} RealmsAdvance(goal: Step, done: seq<Event>, hrefs: seq<string>, i: nat, dateIdentifier: string, region: Region,
                      db: Db, remote: Remote, id: int)
    requires i < |hrefs| && ParseRealmId(region, hrefs[i]) == Parsed(id)
    requires goal == After(done, Realms(hrefs[i..], dateIdentifier, region, db, remote))
    ensures var a := Attempts(RealmRequest(id, dateIdentifier, region), db, remote);
      && (a.status == Completed ==>
            goal == After(done + a.events, Realms(hrefs[i + 1..], dateIdentifier, region, a.store, a.remote)))
      && (a.status != Completed ==> goal == After(done, a))
  {
    hide IsSuffix, Consumed, ParseInt32, CollectionName;
    RealmsFrom(hrefs, i, dateIdentifier, region, db, remote);
    var a := Attempts(RealmRequest(id, dateIdentifier, region), db, remote);
    AfterAfter(done, a.events, Realms(hrefs[i + 1..], dateIdentifier, region, a.store, a.remote));
  }

  /** A region's loop stops at a reference whose id cannot be read. */
  lemma {:induction false} RealmsStopsAtUnreadable(goal: Step, done: seq<Event>, hrefs: seq<string>, i: nat, dateIdentifier: string,
                                region: Region, db: Db, remote: Remote)
    requires i < |hrefs| && !ParseRealmId(region, hrefs[i]).Parsed?
    requires goal == After(done, Realms(hrefs[i..], dateIdentifier, region, db, remote))
    ensures goal == Step(Aborted, db, done, remote)
  {
    hide IsSuffix, Consumed, ParseInt32, CollectionName;
    RealmsFrom(hrefs, i, dateIdentifier, region, db, remote);
    assert done + [] == done;
  }

  /**
   * Whatever a pass ends with, the European index call comes first, then the American one
   * unless the European call faulted, and no store operation comes before both. A pass that
   * did not get both indexes, or whose European index was not read, touches nothing.
   */
  lemma {:induction false} PassIndexCallsFirst(now: Time, db: Db, remote: Remote)
    ensures var r, idx := Pass(now, db, remote), remote.indexes;
      && |r.events| >= 1 && r.events[0] == IndexCall(Europe)
      && (idx != [] && !idx[0].IndexFaulted? ==> |r.events| >= 2 && r.events[..2] == [IndexCall(Europe), IndexCall(US)])
      && (forall i :: 0 <= i < |r.events| && IsStoreOp(r.events[i]) ==> 2 <= i)
      && (|idx| < 2 || !idx[0].IndexOk? || idx[1].IndexFaulted? ==>
            r.status != Completed && r.store == db && StoreOps(r.events) == [])
  {
    hide IsSuffix, Consumed, ParseInt32, CollectionName;
    var r, idx := Pass(now, db, remote), remote.indexes;
    var calls := [IndexCall(Europe), IndexCall(US)];
    IndexCallsTouchNothing(db);
    if |idx| >= 2 && !idx[0].IndexFaulted? && !idx[1].IndexFaulted? {
      var v := Visit(idx[0], idx[1], DateIdentifier(now), db, remote.(indexes := idx[2..]));
      assert r.events == calls + v.events;
      assert r.events[..2] == calls;
      if !idx[0].IndexOk? {
        assert r.events == calls + [];
      }
    }
  }

  /**
   * A faulted index call aborts the pass as soon as it is awaited: a faulted European call
   * means the American index is never asked for, and a faulted American call comes before
   * any European realm is fetched; the store is untouched either way.
   */
  lemma {:induction false} IndexFaultAborts(now: Time, db: Db, remote: Remote)
    ensures var idx := remote.indexes;
      idx != [] && idx[0].IndexFaulted? ==>
        Pass(now, db, remote) == Step(Aborted, db, [IndexCall(Europe)], remote.(indexes := idx[1..]))
    ensures var idx := remote.indexes;
      |idx| >= 2 && !idx[0].IndexFaulted? && idx[1].IndexFaulted? ==>
        Pass(now, db, remote) == Step(Aborted, db, [IndexCall(Europe), IndexCall(US)], remote.(indexes := idx[2..]))
  {
    hide IsSuffix, Consumed, ParseInt32, CollectionName;
    assert [IndexCall(Europe), IndexCall(US)][..1] == [IndexCall(Europe)];
  }

  /** `names` are the collections of the first `k` references of `hrefs`, in order, for some `k`. */
  ghost predicate NamesPrefix(names: seq<string>, dateIdentifier: string, region: Region, hrefs: seq<string>) {
    exists k :: 0 <= k <= |hrefs| && AllParse(region, hrefs[..k]) && names == NamesOf(dateIdentifier, region, hrefs[..k])
  }

  /** No collection at all is a prefix of any region's collections. */
  lemma {:induction false} NoNamesPrefix(dateIdentifier: string, region: Region, hrefs: seq<string>)
    ensures NamesPrefix([], dateIdentifier, region, hrefs)
  {
    hide IsSuffix, Consumed, ParseInt32, CollectionName;
    assert hrefs[..0] == [];
    assert AllParse(region, hrefs[..0]) && NamesOf(dateIdentifier, region, hrefs[..0]) == [];
  }

  /**
   * Whatever a region's loop ends with, its store operations are drop-then-insert pairs that
   * replace the collections of a first stretch of the references, in index order.
   */
  lemma {:induction false} RealmsStoredPrefix(hrefs: seq<string>, dateIdentifier: string, region: Region, db: Db, remote: Remote)
    ensures var ops := StoreOps(Realms(hrefs, dateIdentifier, region, db, remote).events);
      WellPaired(ops) && NamesPrefix(DroppedNames(ops), dateIdentifier, region, hrefs)
    decreases |hrefs|
  {
    hide ParseRealmId, Attempts, CollectionName, IsSuffix, Consumed, ParseInt32;
    var r := Realms(hrefs, dateIdentifier, region, db, remote);
    RealmsFollowLog(hrefs, dateIdentifier, region, db, remote);
    if hrefs == [] || !ParseRealmId(region, hrefs[0]).Parsed? {
      assert r.events == [];
      NoNamesPrefix(dateIdentifier, region, hrefs);
    } else {
      var req := RealmRequest(ParseRealmId(region, hrefs[0]).value, dateIdentifier, region);
      var a := Attempts(req, db, remote);
      AttemptsPaired(req, db, remote);
      if a.status != Completed {
        assert r == a;
        NoNamesPrefix(dateIdentifier, region, hrefs);
      } else {
        var t := Realms(hrefs[1..], dateIdentifier, region, a.store, a.remote);
        assert r == After(a.events, t);
        RealmsStoredPrefix(hrefs[1..], dateIdentifier, region, a.store, a.remote);
        StoreOpsAppend(a.events, t.events);
        WellPairedAppend(StoreOps(a.events), StoreOps(t.events));
        NamesPrefixCons(DroppedNames(StoreOps(t.events)), dateIdentifier, region, hrefs);
      }
    }
  }

  /** A stretch of the later references, after the first one's collection, is a stretch of all of them. */
  lemma {:induction false} NamesPrefixCons(names: seq<string>, dateIdentifier: string, region: Region, hrefs: seq<string>)
    requires hrefs != [] && ParseRealmId(region, hrefs[0]).Parsed?
    requires NamesPrefix(names, dateIdentifier, region, hrefs[1..])
    ensures NamesPrefix([CollectionName(dateIdentifier, region.RegionType(), ParseRealmId(region, hrefs[0]).value)] + names,
                        dateIdentifier, region, hrefs)
  {
    hide ParseRealmId, CollectionName, IsSuffix, Consumed, ParseInt32;
    var m :| 0 <= m <= |hrefs[1..]| && AllParse(region, hrefs[1..][..m])
          && names == NamesOf(dateIdentifier, region, hrefs[1..][..m]);
    var front := hrefs[..m + 1];
    assert front[0] == hrefs[0] && front[1..] == hrefs[1..][..m];
    assert AllParse(region, front) by {
      forall j | 0 <= j < |front| ensures ParseRealmId(region, front[j]).Parsed? {
        if j > 0 { assert front[j] == hrefs[1..][..m][j - 1]; }
      }
    }
    assert NamesOf(dateIdentifier, region, front)
        == [CollectionName(dateIdentifier, region.RegionType(), ParseRealmId(region, hrefs[0]).value)] + names;
  }

  /**
   * The collections a visit replaced, in order: a first stretch of the European realms, or
   * all of them followed by a first stretch of the American ones.
   */
  ghost predicate VisitedPrefix(names: seq<string>, dateIdentifier: string, euHrefs: seq<string>, usHrefs: seq<string>) {
    || NamesPrefix(names, dateIdentifier, Europe, euHrefs)
    || (&& AllParse(Europe, euHrefs)
        && |NamesOf(dateIdentifier, Europe, euHrefs)| <= |names|
        && names[..|euHrefs|] == NamesOf(dateIdentifier, Europe, euHrefs)
        && NamesPrefix(names[|euHrefs|..], dateIdentifier, US, usHrefs))
  }

  /** Whatever a visit ends with, it replaced the realms' collections in European-then-American index order. */
  lemma {:induction false} VisitStoredPrefix(eu: IndexResult, us: IndexResult, dateIdentifier: string, db: Db, remote: Remote)
    ensures var ops := StoreOps(Visit(eu, us, dateIdentifier, db, remote).events);
      && WellPaired(ops)
      && (ops != [] ==>
            eu.IndexOk? && VisitedPrefix(DroppedNames(ops), dateIdentifier, eu.hrefs, if us.IndexOk? then us.hrefs else []))
  {
    hide Realms, Attempts, ParseRealmId, CollectionName, NamesOf, IsSuffix, Consumed, ParseInt32;
    VisitFollowsLog(eu, us, dateIdentifier, db, remote);
    var v := Visit(eu, us, dateIdentifier, db, remote);
    if eu.IndexOk? {
      var usHrefs := if us.IndexOk? then us.hrefs else [];
      var e := Realms(eu.hrefs, dateIdentifier, Europe, db, remote);
      RealmsStoredPrefix(eu.hrefs, dateIdentifier, Europe, db, remote);
      if e.status == Completed {
        RealmsInOrder(eu.hrefs, dateIdentifier, Europe, db, remote);
        var names := NamesOf(dateIdentifier, Europe, eu.hrefs);
        if us.IndexOk? {
          var u := Realms(us.hrefs, dateIdentifier, US, e.store, e.remote);
          RealmsStoredPrefix(us.hrefs, dateIdentifier, US, e.store, e.remote);
          assert v.events == e.events + u.events;
          StoreOpsAppend(e.events, u.events);
          WellPairedAppend(StoreOps(e.events), StoreOps(u.events));
          var all := DroppedNames(StoreOps(v.events));
          assert all == names + DroppedNames(StoreOps(u.events));
          assert all[..|eu.hrefs|] == names && all[|eu.hrefs|..] == DroppedNames(StoreOps(u.events));
        } else {
          var all := DroppedNames(StoreOps(v.events));
          assert all == names;
          assert all[..|eu.hrefs|] == names && all[|eu.hrefs|..] == [];
          NoNamesPrefix(dateIdentifier, US, usHrefs);
        }
      }
    }
  }

  /**
   * Whatever a pass ends with, it replaced the realms' collections in European-then-American
   * index order: an aborted or unfinished pass leaves a first stretch of that order.
   */
  lemma {:induction false} PassStoredPrefix(now: Time, db: Db, remote: Remote)
    ensures var r, idx := Pass(now, db, remote), remote.indexes;
      var ops := StoreOps(r.events);
      && WellPaired(ops)
      && (ops != [] ==>
            && |idx| >= 2 && idx[0].IndexOk? && !idx[1].IndexFaulted?
            && VisitedPrefix(DroppedNames(ops), DateIdentifier(now), idx[0].hrefs, if idx[1].IndexOk? then idx[1].hrefs else []))
  {
    hide Visit, IsSuffix, Consumed, ParseInt32, CollectionName;
    var r, idx := Pass(now, db, remote), remote.indexes;
    PassFollowsLog(now, db, remote);
    PassIndexCallsFirst(now, db, remote);
    if |idx| >= 2 && idx[0].IndexOk? && !idx[1].IndexFaulted? {
      var calls := [IndexCall(Europe), IndexCall(US)];
      var v := Visit(idx[0], idx[1], DateIdentifier(now), db, remote.(indexes := idx[2..]));
      assert r.events == calls + v.events;
      IndexCallsTouchNothing(db);
      StoreOpsAppend(calls, v.events);
      assert StoreOps(r.events) == StoreOps(v.events);
      VisitStoredPrefix(idx[0], idx[1], DateIdentifier(now), db, remote.(indexes := idx[2..]));
    }
  }

  /**
   * What a pass leaves in the store, whatever it ends with: every collection it replaced
   * holds exactly the documents of the last insert into it, and every other collection is as
   * it was.
   */
  lemma {:induction false} PassContents(now: Time, db: Db, remote: Remote)
    ensures var r := Pass(now, db, remote);
      var ops := StoreOps(r.events);
      && WellPaired(ops)
      && (forall c :: c in DroppedNames(ops) ==> c in r.store && r.store[c] == Replaced(ops, c))
      && (forall c :: c !in DroppedNames(ops) ==> (c in r.store <==> c in db) && (c in r.store ==> r.store[c] == db[c]))
  {
    hide IsSuffix, Consumed, ParseInt32, CollectionName;
    var r := Pass(now, db, remote);
    PassFollowsLog(now, db, remote);
    ApplyStoreOps(db, r.events);
    ApplyPaired(db, StoreOps(r.events));
  }
}
