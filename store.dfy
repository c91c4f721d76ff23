/**
 * The document store as the worker sees it: dropping a collection removes it, inserting
 * many documents appends them to the named collection (creating it when absent).
 * The store's state is always the effect of the operations logged so far.
 */
module Store {
  import opened Types

  /** `r` holds the same collections as `db`, with the same documents, except perhaps `name`. */
  ghost predicate AgreeExcept(r: Db, db: Db, name: string) {
    forall c :: c != name ==> (c in r <==> c in db) && (c in r ==> r[c] == db[c])
  }

  /** Drop the named collection; dropping an absent one changes nothing. */
  function DropCollection(db: Db, name: string): (r: Db)
    ensures name !in r
    ensures AgreeExcept(r, db, name)
  {
    db - {name}
  }

  /** Append `docs` to the named collection. */
  function InsertManyInto(db: Db, name: string, docs: seq<Auction>): (r: Db)
    ensures name in r && r[name] == (if name in db then db[name] else []) + docs
    ensures AgreeExcept(r, db, name)
  {
    db[name := (if name in db then db[name] else []) + docs]
  }

  predicate IsStoreOp(e: Event) {
    e.Drop? || e.InsertMany?
  }

  /** What one event does to the store: only drops and inserts touch it. */
  function Effect(db: Db, e: Event): Db {
    match e
    case Drop(name) => DropCollection(db, name)
    case InsertMany(name, docs) => InsertManyInto(db, name, docs)
    case _ => db
  }

  /** The store after the events `evs`, starting from `db`. */
  function Apply(db: Db, evs: seq<Event>): Db
    decreases |evs|
  {
    if evs == [] then db else Apply(Effect(db, evs[0]), evs[1..])
  }

  /** The store operations among `evs`, in order. */
  function StoreOps(evs: seq<Event>): (ops: seq<Event>)
    ensures |ops| <= |evs|
    ensures forall i :: 0 <= i < |ops| ==> IsStoreOp(ops[i])
  {
    if evs == [] then []
    else (if IsStoreOp(evs[0]) then [evs[0]] else []) + StoreOps(evs[1..])
  }

  lemma {:induction false} ApplyAppend(db: Db, a: seq<Event>, b: seq<Event>)
    ensures Apply(db, a + b) == Apply(Apply(db, a), b)
    decreases |a|
  {
    if a == [] {
      assert a + b == b;
    } else {
      assert (a + b)[1..] == a[1..] + b;
      ApplyAppend(Effect(db, a[0]), a[1..], b);
    }
  }

  lemma {:induction false} StoreOpsAppend(a: seq<Event>, b: seq<Event>)
    ensures StoreOps(a + b) == StoreOps(a) + StoreOps(b)
    decreases |a|
  {
    if a == [] {
      assert a + b == b;
    } else {
      var head := if IsStoreOp(a[0]) then [a[0]] else [];
      assert (a + b)[0] == a[0];
      assert (a + b)[1..] == a[1..] + b;
      StoreOpsAppend(a[1..], b);
      calc {
        StoreOps(a + b);
        head + StoreOps(a[1..] + b);
        head + (StoreOps(a[1..]) + StoreOps(b));
        { Reassociate(head, StoreOps(a[1..]), StoreOps(b)); }
        (head + StoreOps(a[1..])) + StoreOps(b);
      }
    }
  }

  /** An event that is not a store operation adds none. */
  lemma {:induction false} StoreOpsSkip(e: Event, evs: seq<Event>)
    requires !IsStoreOp(e)
    ensures StoreOps([e] + evs) == StoreOps(evs)
  {
    assert ([e] + evs)[0] == e && ([e] + evs)[1..] == evs;
    assert [] + StoreOps(evs) == StoreOps(evs);
  }

  /** Events that hold no store operation leave the store as it was. */
  lemma {:induction false} ApplyWithoutStoreOps(db: Db, evs: seq<Event>)
    requires StoreOps(evs) == []
    ensures Apply(db, evs) == db
    decreases |evs|
  {
    if evs != [] {
      assert !IsStoreOp(evs[0]);
      ApplyWithoutStoreOps(db, evs[1..]);
    }
  }

  /**
   * Store operations come as back-to-back pairs: each drop of a collection is immediately
   * followed by an insert into the same collection.
   */
  predicate WellPaired(ops: seq<Event>)
    decreases |ops|
  {
    ops == [] ||
    (|ops| >= 2 && ops[0].Drop? && ops[1].InsertMany? && ops[1].name == ops[0].name && WellPaired(ops[2..]))
  }

  /** The collections a well-paired operation sequence replaces, in order. */
  function DroppedNames(ops: seq<Event>): (names: seq<string>)
    requires WellPaired(ops)
    ensures 2 * |names| == |ops|
    decreases |ops|
  {
    if ops == [] then [] else [ops[0].name] + DroppedNames(ops[2..])
  }

  /** One replacement of a collection is a well-paired operation sequence. */
  lemma {:induction false} OnePair(name: string, docs: seq<Auction>)
    ensures WellPaired([Drop(name), InsertMany(name, docs)])
    ensures DroppedNames([Drop(name), InsertMany(name, docs)]) == [name]
  {
    var ops := [Drop(name), InsertMany(name, docs)];
    assert ops[2..] == [];
    assert [name] + [] == [name];
  }

  lemma {:induction false} WellPairedAppend(a: seq<Event>, b: seq<Event>)
    requires WellPaired(a) && WellPaired(b)
    ensures WellPaired(a + b)
    ensures DroppedNames(a + b) == DroppedNames(a) + DroppedNames(b)
    decreases |a|
  {
    if a == [] {
      assert a + b == b;
    } else {
      assert (a + b)[0] == a[0] && (a + b)[1] == a[1];
      assert (a + b)[2..] == a[2..] + b;
      WellPairedAppend(a[2..], b);
      Reassociate([a[0].name], DroppedNames(a[2..]), DroppedNames(b));
    }
  }

  /** Only the store operations of a log have an effect. */
  lemma {:induction false} ApplyStoreOps(db: Db, evs: seq<Event>)
    ensures Apply(db, evs) == Apply(db, StoreOps(evs))
    decreases |evs|
  {
    if evs != [] {
      ApplyStoreOps(Effect(db, evs[0]), evs[1..]);
      if IsStoreOp(evs[0]) {
        var ops := [evs[0]] + StoreOps(evs[1..]);
        assert ops[0] == evs[0] && ops[1..] == StoreOps(evs[1..]);
      } else {
        assert Effect(db, evs[0]) == db;
        assert StoreOps(evs) == StoreOps(evs[1..]);
      }
    }
  }

  /** The documents the last pair of `ops` that replaces `c` inserts. */
  function Replaced(ops: seq<Event>, c: string): seq<Auction>
    requires WellPaired(ops) && c in DroppedNames(ops)
    decreases |ops|
  {
    if c in DroppedNames(ops[2..]) then Replaced(ops[2..], c) else ops[1].docs
  }

  /**
   * The effect of drop-then-insert pairs: each collection they replace holds exactly the
   * documents of the last pair that replaces it, and every other collection is as it was.
   */
  lemma {:induction false} ApplyPaired(db: Db, ops: seq<Event>)
    requires WellPaired(ops)
    ensures var r := Apply(db, ops);
      && (forall c :: c in DroppedNames(ops) ==> c in r && r[c] == Replaced(ops, c))
      && (forall c :: c !in DroppedNames(ops) ==> (c in r <==> c in db) && (c in r ==> r[c] == db[c]))
    decreases |ops|
  {
    if ops != [] {
      var name, docs := ops[0].name, ops[1].docs;
      var mid := InsertManyInto(DropCollection(db, name), name, docs);
      assert ops[1..][0] == ops[1] && ops[1..][1..] == ops[2..];
      assert Apply(db, ops) == Apply(mid, ops[2..]);
      ApplyPaired(mid, ops[2..]);
      assert DroppedNames(ops) == [name] + DroppedNames(ops[2..]);
    }
  }
}
