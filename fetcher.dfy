/**
 * The realm fetcher: ask for one realm's auctions until an attempt succeeds, retrying the
 * same request after every timeout or reported failure, then replace the realm's collection.
 */
module Fetcher {
  import opened Types
  import opened Naming
  import opened Store

  /** The arguments one fetcher run is started with; every retry reuses them. */
  datatype Request = Request(realmId: int, dateIdentifier: string, region: Region, regionType: string, lang: Locale) {

    /** The collection this realm's auctions go to. */
    function Name(): string {
      CollectionName(dateIdentifier, regionType, realmId)
    }

    /** The remote call one attempt makes. */
    function Call(): Event {
      GetAuctions(realmId, "dynamic-" + regionType, region, lang)
    }
  }

  predicate Retries(o: Outcome) {
    o.Timeout? || o.Fail?
  }

  /** `n` copies of the request's remote call. */
  function Calls(req: Request, n: nat): (evs: seq<Event>)
    ensures |evs| == n && forall i :: 0 <= i < n ==> evs[i] == req.Call()
  {
    seq(n, _ => req.Call())
  }

  /**
   * The fetcher run over the auction responses still to come: each attempt takes one.
   * A timeout or a failure retries; a success drops the collection and inserts the
   * documents into it; a faulted call aborts; no response left means still retrying.
   */
  function Attempts(req: Request, db: Db, remote: Remote): (r: Step)
    ensures r.remote.indexes == remote.indexes && IsSuffix(r.remote.auctions, remote.auctions)
    ensures remote.auctions != [] ==> |r.remote.auctions| < |remote.auctions|
    ensures r.status == Pending ==> r.remote.auctions == []
    ensures r.status != Completed ==> r.store == db
    decreases |remote.auctions|
  {
    if remote.auctions == [] then Step(Pending, db, [], remote)
    else
      var rest := remote.(auctions := remote.auctions[1..]);
      match remote.auctions[0]
      case Ok(docs) =>
        Step(Completed, InsertManyInto(DropCollection(db, req.Name()), req.Name(), docs),
             [req.Call(), Drop(req.Name()), InsertMany(req.Name(), docs)], rest)
      case Faulted => Step(Aborted, db, [req.Call()], rest)
      case _ =>
        var t := Attempts(req, db, rest);
        SuffixTrans(remote.auctions, rest.auctions, t.remote.auctions);
        After([req.Call()], t)
  }

  /** Index of the first response that ends the retrying, or the length when none does. */
  function FirstSettled(os: seq<Outcome>): (k: nat)
    ensures k <= |os|
    ensures forall i :: 0 <= i < k ==> Retries(os[i])
    ensures k < |os| ==> !Retries(os[k])
  {
    if os == [] || !Retries(os[0]) then 0 else 1 + FirstSettled(os[1..])
  }

  /**
   * The whole behaviour of one fetcher run: one call per attempt, up to the first response
   * that is not a timeout or a failure; only a success touches the store.
   */
  lemma {:induction false} AttemptsCharacterised(req: Request, db: Db, remote: Remote)
    ensures var r, os, k := Attempts(req, db, remote), remote.auctions, FirstSettled(remote.auctions);
      && (k == |os| ==> r == Step(Pending, db, Calls(req, k), remote.(auctions := [])))
      && (k < |os| && os[k].Faulted? ==>
            r == Step(Aborted, db, Calls(req, k + 1), remote.(auctions := os[k + 1..])))
      && (k < |os| && os[k].Ok? ==>
            r == Step(Completed, InsertManyInto(DropCollection(db, req.Name()), req.Name(), os[k].records),
                      Calls(req, k + 1) + [Drop(req.Name()), InsertMany(req.Name(), os[k].records)],
                      remote.(auctions := os[k + 1..])))
  {
    hide Attempts, IsSuffix, Consumed, ParseInt32, CollectionName, AgreeExcept, Calls;
    var os, k := remote.auctions, FirstSettled(remote.auctions);
    var settled := remote.(auctions := os[k..]);
    UpToFirstSettled(req, db, remote);
    var s := Attempts(req, db, settled);
    AttemptStep(req, db, settled);
    if k < |os| {
      assert settled.auctions[0] == os[k] && settled.auctions[1..] == os[k + 1..];
      CallsSnoc(req, k);
      if os[k].Ok? {
        var tail := [Drop(req.Name()), InsertMany(req.Name(), os[k].records)];
        assert s.events == [req.Call()] + tail;
        Reassociate(Calls(req, k), [req.Call()], tail);
      }
    } else {
      assert s.events == [];
      assert Calls(req, k) + [] == Calls(req, k);
    }
  }

  /** The retriable responses before the first settled one add one identical call each. */
  lemma {:induction false} UpToFirstSettled(req: Request, db: Db, remote: Remote)
    ensures var os, k := remote.auctions, FirstSettled(remote.auctions);
      Attempts(req, db, remote) == After(Calls(req, k), Attempts(req, db, remote.(auctions := os[k..])))
  {
    hide Attempts, IsSuffix, Consumed, ParseInt32, CollectionName, AgreeExcept;
    var os, k := remote.auctions, FirstSettled(remote.auctions);
    var settled := remote.(auctions := os[k..]);
    assert os[..k] + os[k..] == os;
    assert remote.(auctions := os[..k] + settled.auctions) == remote;
    RetriesPrefix(req, db, settled, os[..k]);
  }

  /** One more call at the end. */
  lemma {:induction false} CallsSnoc(req: Request, n: nat)
    ensures Calls(req, n) + [req.Call()] == Calls(req, n + 1)
  {
    hide IsSuffix, Consumed, ParseInt32, CollectionName;
    assert forall i :: 0 <= i < n + 1 ==> (Calls(req, n) + [req.Call()])[i] == req.Call();
  }

  /** One more call at the front. */
  lemma {:induction false} CallsCons(req: Request, n: nat)
    ensures [req.Call()] + Calls(req, n) == Calls(req, n + 1)
  {
    hide IsSuffix, Consumed, ParseInt32, CollectionName;
    assert forall i :: 0 <= i < n + 1 ==> ([req.Call()] + Calls(req, n))[i] == req.Call();
  }

  /** Retriable responses in front of the rest: one more call each, and nothing else. */
  lemma {:induction false} RetriesPrefix(req: Request, db: Db, remote: Remote, failures: seq<Outcome>)
    requires forall i :: 0 <= i < |failures| ==> Retries(failures[i])
    ensures Attempts(req, db, remote.(auctions := failures + remote.auctions))
         == After(Calls(req, |failures|), Attempts(req, db, remote))
    decreases |failures|
  {
    hide IsSuffix, Consumed, ParseInt32, CollectionName;
    var a := Attempts(req, db, remote);
    if failures == [] {
      assert failures + remote.auctions == remote.auctions;
      assert remote.(auctions := remote.auctions) == remote;
      assert Calls(req, 0) + a.events == a.events;
    } else {
      var n := |failures| - 1;
      var shorter := remote.(auctions := failures[1..] + remote.auctions);
      assert shorter.(auctions := [failures[0]] + shorter.auctions) == remote.(auctions := failures + remote.auctions);
      RetriesPrefix(req, db, remote, failures[1..]);
      RetryStep(req, db, shorter, failures[0]);
      AfterAfter([req.Call()], Calls(req, n), a);
      CallsCons(req, n);
    }
  }

  /** Without a successful response the store is left exactly as it was. */
  lemma {:induction false} NoSuccessLeavesStore(req: Request, db: Db, remote: Remote)
    requires forall i :: 0 <= i < |remote.auctions| ==> !remote.auctions[i].Ok?
    ensures Attempts(req, db, remote).store == db
    ensures Attempts(req, db, remote).status != Completed
    ensures StoreOps(Attempts(req, db, remote).events) == []
  {
    hide IsSuffix, Consumed, ParseInt32, CollectionName;
    AttemptsCharacterised(req, db, remote);
    var r, k := Attempts(req, db, remote), FirstSettled(remote.auctions);
    var n := if k == |remote.auctions| then k else k + 1;
    assert r.events == Calls(req, n);
    NoStoreOpsInCalls(req, n);
  }

  lemma {:induction false} NoStoreOpsInCalls(req: Request, n: nat)
    ensures StoreOps(Calls(req, n)) == []
  {
    hide IsSuffix, Consumed, ParseInt32, CollectionName;
    if n > 0 {
      assert Calls(req, n)[1..] == Calls(req, n - 1);
      NoStoreOpsInCalls(req, n - 1);
    }
  }

  /**
   * After retriable responses, the first success leaves the realm's collection holding
   * exactly that success's documents, logs a drop then an insert of that name, and leaves
   * every other collection as it was.
   */
  lemma {:induction false} FirstSuccessReplacesCollection(req: Request, db: Db, remote: Remote, k: nat)
    requires k < |remote.auctions| && remote.auctions[k].Ok?
    requires forall i :: 0 <= i < k ==> Retries(remote.auctions[i])
    ensures var r := Attempts(req, db, remote);
      && r.status == Completed
      && req.Name() in r.store && r.store[req.Name()] == remote.auctions[k].records
      && (forall c :: c != req.Name() ==> (c in r.store <==> c in db) && (c in db ==> r.store[c] == db[c]))
      && StoreOps(r.events) == [Drop(req.Name()), InsertMany(req.Name(), remote.auctions[k].records)]
      && r.remote.auctions == remote.auctions[k + 1..]
  {
    hide CollectionName, IsSuffix, Consumed, ParseInt32;
    AttemptsCharacterised(req, db, remote);
    assert FirstSettled(remote.auctions) == k by {
      FirstSettledIsFirst(remote.auctions, k);
    }
    var docs := remote.auctions[k].records;
    var tail := [Drop(req.Name()), InsertMany(req.Name(), docs)];
    StoreOpsAppend(Calls(req, k + 1), tail);
    NoStoreOpsInCalls(req, k + 1);
    assert StoreOps(tail) == tail by {
      assert tail[1..] == [InsertMany(req.Name(), docs)];
      assert tail[1..][1..] == [];
    }
  }

  lemma {:induction false} FirstSettledIsFirst(os: seq<Outcome>, k: nat)
    requires k < |os| && !Retries(os[k])
    requires forall i :: 0 <= i < k ==> Retries(os[i])
    ensures FirstSettled(os) == k
  {
    hide IsSuffix, Consumed, ParseInt32, CollectionName;
    if k > 0 {
      FirstSettledIsFirst(os[1..], k - 1);
    }
  }

  /** One attempt, taken apart by the response it gets; none left means still retrying. */
  lemma {:induction false} AttemptStep(req: Request, db: Db, remote: Remote)
    ensures remote.auctions == [] ==> Attempts(req, db, remote) == Step(Pending, db, [], remote)
    ensures remote.auctions != [] ==>
      (var o, rest, a := remote.auctions[0], remote.(auctions := remote.auctions[1..]), Attempts(req, db, remote);
       && (o.Ok? ==> a == Step(Completed, InsertManyInto(DropCollection(db, req.Name()), req.Name(), o.records),
                               [req.Call(), Drop(req.Name()), InsertMany(req.Name(), o.records)], rest))
       && (o.Faulted? ==> a == Step(Aborted, db, [req.Call()], rest))
       && (Retries(o) ==> a == After([req.Call()], Attempts(req, db, rest))))
  {
    hide IsSuffix, Consumed, ParseInt32, CollectionName;
  }

  /** One retriable response in front adds one call and changes nothing else. */
  lemma {:induction false} RetryStep(req: Request, db: Db, remote: Remote, o: Outcome)
    requires Retries(o)
    ensures Attempts(req, db, remote.(auctions := [o] + remote.auctions))
         == After([req.Call()], Attempts(req, db, remote))
  {
    hide IsSuffix, Consumed, ParseInt32, CollectionName;
    var longer := remote.(auctions := [o] + remote.auctions);
    assert longer.auctions[1..] == remote.auctions;
    assert longer.(auctions := longer.auctions[1..]) == remote;
  }

  /**
   * Retry idempotence: timeouts and failures before the rest of the responses change
   * nothing but the number of calls made.
   */
  lemma {:induction false} RetriesAreIdempotent(req: Request, db: Db, remote: Remote, failures: seq<Outcome>)
    requires forall i :: 0 <= i < |failures| ==> Retries(failures[i])
    ensures var r1, r2 := Attempts(req, db, remote.(auctions := failures + remote.auctions)), Attempts(req, db, remote);
      && r1.status == r2.status && r1.store == r2.store && r1.remote == r2.remote
      && r1.events == Calls(req, |failures|) + r2.events
      && StoreOps(r1.events) == StoreOps(r2.events)
  {
    hide IsSuffix, Consumed, ParseInt32, CollectionName;
    var r2 := Attempts(req, db, remote);
    RetriesPrefix(req, db, remote, failures);
    StoreOpsAppend(Calls(req, |failures|), r2.events);
    NoStoreOpsInCalls(req, |failures|);
    assert [] + StoreOps(r2.events) == StoreOps(r2.events);
  }

  /** Every event is the request's call, or a store operation on the request's collection. */
  predicate OnlyRequest(req: Request, evs: seq<Event>) {
    forall i :: 0 <= i < |evs| ==>
      evs[i] == req.Call() || (IsStoreOp(evs[i]) && evs[i].name == req.Name())
  }

  /** Every attempt repeats the same call, and every store operation names the same collection. */
  lemma {:induction false} AttemptsRepeatRequest(req: Request, db: Db, remote: Remote)
    ensures OnlyRequest(req, Attempts(req, db, remote).events)
    decreases |remote.auctions|
  {
    hide IsSuffix, Consumed, ParseInt32, CollectionName;
    if remote.auctions != [] && Retries(remote.auctions[0]) {
      var rest := remote.(auctions := remote.auctions[1..]);
      AttemptsRepeatRequest(req, db, rest);
      var sub := Attempts(req, db, rest).events;
      var evs := Attempts(req, db, remote).events;
      assert evs == [req.Call()] + sub;
      forall i | 0 <= i < |evs|
        ensures evs[i] == req.Call() || (IsStoreOp(evs[i]) && evs[i].name == req.Name())
      {
        if i > 0 {
          assert evs[i] == sub[i - 1];
        }
      }
    }
  }

  /** The events of an attempt that succeeds, and what they do. */
  lemma {:induction false} SuccessEvents(req: Request, db: Db, docs: seq<Auction>)
    ensures var name := req.Name();
      var evs := [req.Call(), Drop(name), InsertMany(name, docs)];
      && StoreOps(evs) == [Drop(name), InsertMany(name, docs)]
      && Apply(db, evs) == InsertManyInto(DropCollection(db, name), name, docs)
  {
    hide IsSuffix, Consumed, ParseInt32, CollectionName;
    var name := req.Name();
    var evs := [req.Call(), Drop(name), InsertMany(name, docs)];
    assert evs[1..] == [Drop(name), InsertMany(name, docs)];
    assert evs[1..][1..] == [InsertMany(name, docs)];
    assert evs[1..][1..][1..] == [];
    assert StoreOps(evs[1..][1..]) == [InsertMany(name, docs)];
    assert StoreOps(evs[1..]) == [Drop(name), InsertMany(name, docs)];
    assert Apply(db, evs) == Apply(db, evs[1..]);
    assert Apply(db, evs[1..]) == Apply(DropCollection(db, name), evs[1..][1..]);
    var dropped := DropCollection(db, name);
    assert Apply(dropped, evs[1..][1..]) == Apply(InsertManyInto(dropped, name, docs), []);
  }

  /** The store a fetcher run leaves is the effect of the operations it logged. */
  lemma {:induction false} AttemptsFollowLog(req: Request, db: Db, remote: Remote)
    ensures Attempts(req, db, remote).store == Apply(db, Attempts(req, db, remote).events)
    decreases |remote.auctions|
  {
    hide IsSuffix, Consumed, ParseInt32, CollectionName;
    if remote.auctions != [] {
      var rest := remote.(auctions := remote.auctions[1..]);
      match remote.auctions[0]
      case Ok(docs) =>
        SuccessEvents(req, db, docs);
      case Faulted =>
      case _ =>
        AttemptsFollowLog(req, db, rest);
        var evs := Attempts(req, db, remote).events;
        assert evs[1..] == Attempts(req, db, rest).events;
    }
  }

  /**
   * A fetcher run either makes no store operation at all, or, when it completes, exactly one
   * drop of its collection immediately followed by the insert into it.
   */
  lemma {:induction false} AttemptsPaired(req: Request, db: Db, remote: Remote)
    ensures WellPaired(StoreOps(Attempts(req, db, remote).events))
    ensures Attempts(req, db, remote).status == Completed ==>
      DroppedNames(StoreOps(Attempts(req, db, remote).events)) == [req.Name()]
    ensures Attempts(req, db, remote).status != Completed ==>
      StoreOps(Attempts(req, db, remote).events) == []
    decreases |remote.auctions|
  {
    hide CollectionName, IsSuffix, Consumed, ParseInt32;
    if remote.auctions != [] {
      var rest := remote.(auctions := remote.auctions[1..]);
      var r := Attempts(req, db, remote);
      match remote.auctions[0]
      case Ok(docs) =>
        assert r.status == Completed && r.events == [req.Call(), Drop(req.Name()), InsertMany(req.Name(), docs)];
        SuccessEvents(req, db, docs);
        OnePair(req.Name(), docs);
      case Faulted =>
        assert r.status == Aborted && r.events == [req.Call()] + [];
        StoreOpsSkip(req.Call(), []);
      case _ =>
        var t := Attempts(req, db, rest);
        assert r.status == t.status && r.events == [req.Call()] + t.events;
        AttemptsPaired(req, db, rest);
        StoreOpsSkip(req.Call(), t.events);
    }
  }
}
