/** Values exchanged between the worker, the marketplace client and the document store. */
module Types {

  /** The two marketplace geographies the worker visits. */
  datatype Region = Europe | US {

    /** The region-type label used in namespaces and collection names. */
    function RegionType(): string {
      match this
      case Europe => "eu"
      case US => "us"
    }

    /** The locale every request for this region is made with. */
    function Lang(): Locale {
      match this
      case Europe => EnGB
      case US => EnUS
    }

    /** The dynamic namespace of this region. */
    function Namespace(): string {
      "dynamic-" + RegionType()
    }

    /**
     * What is cut from the front of a connected-realm reference. The scheme is written apart
     * from the rest only so that the verifier can read the first character off the literal.
     */
    function HrefPrefix(): string {
      match this
      case Europe => "https://" + "eu.api.blizzard.com/data/wow/connected-realm/"
      case US => "https://" + "us.api.blizzard.com/data/wow/connected-realm/"
    }

    /** What is cut from the end of a connected-realm reference. */
    function HrefSuffix(): string {
      match this
      case Europe => "?namespace=dynamic-eu"
      case US => "?namespace=dynamic-us"
    }
  }

  datatype Locale = EnGB | EnUS

  /** One auction listing: an opaque document passed unchanged from the client to the store. */
  datatype Auction = Auction(document: string)

  /** A wall-clock reading, at the granularity the worker looks at. */
  datatype Time = Time(year: nat, month: nat, day: nat, hour: nat, minute: nat)

  /** What one attempt to fetch a realm's auctions ends with. */
  datatype Outcome =
    | Timeout                       // the 20 s delay finished first
    | Fail(detail: string)          // the call finished and reported an error
    | Ok(records: seq<Auction>)     // the call finished with the realm's auctions
    | Faulted                       // the call's task faulted, so reading its result throws

  /** What the connected-realm index call ends with. */
  datatype IndexResult =
    | IndexOk(hrefs: seq<string>)   // the index, listing the connected-realm references
    | IndexError                    // the call reported an error, so its `Value` is null
    | IndexFaulted                  // the call's task faulted, so awaiting it throws

  /** The responses the marketplace will give, in the order they are asked for. */
  datatype Remote = Remote(indexes: seq<IndexResult>, auctions: seq<Outcome>)

  /** `t` is what is left of `s` once some elements were taken from its front. */
  predicate IsSuffix<T(==)>(t: seq<T>, s: seq<T>) {
    |t| <= |s| && t == s[|s| - |t|..]
  }

  /** `after` is what is left of `before` once some responses of each kind were taken from the front. */
  predicate Consumed(before: Remote, after: Remote) {
    IsSuffix(after.indexes, before.indexes) && IsSuffix(after.auctions, before.auctions)
  }

  /** What is left after taking responses twice is what is left after taking them once. */
  lemma {:induction false} SuffixTrans<T>(a: seq<T>, b: seq<T>, c: seq<T>)
    requires IsSuffix(b, a) && IsSuffix(c, b)
    ensures IsSuffix(c, a)
  {
    assert |c| <= |a|;
    forall i | 0 <= i < |c| ensures c[i] == a[|a| - |c|..][i] {
      assert c[i] == b[|b| - |c| + i] == a[|a| - |b| + |b| - |c| + i];
    }
  }

  lemma {:induction false} ConsumedTrans(a: Remote, b: Remote, c: Remote)
    requires Consumed(a, b) && Consumed(b, c)
    ensures Consumed(a, c)
  {
    SuffixTrans(a.indexes, b.indexes, c.indexes);
    SuffixTrans(a.auctions, b.auctions, c.auctions);
  }

  /** Everything the worker does to or asks of its two collaborators, in order. */
  datatype Event =
    | ListRealms(namespace: string, region: Region, lang: Locale)
    | GetAuctions(realmId: int, namespace: string, region: Region, lang: Locale)
    | Drop(name: string)
    | InsertMany(name: string, docs: seq<Auction>)
    | Delayed(ms: nat)

  /** The document store: collection name to its documents. */
  type Db = map<string, seq<Auction>>

  /**
   * How a piece of work ended: Completed; Aborted by an exception that escapes it;
   * Pending when the responses in the model ran out first (the source would still be waiting
   * or retrying).
   */
  datatype Status = Completed | Aborted | Pending

  /** The result of running a piece of work from a given store and remote. */
  datatype Step = Step(status: Status, store: Db, events: seq<Event>, remote: Remote)

  /** The same step, as seen by a caller that emitted `before` first. */
  function After(before: seq<Event>, s: Step): Step {
    s.(events := before + s.events)
  }

  /** Concatenation is associative. */
  lemma {:induction false} Reassociate<T>(a: seq<T>, b: seq<T>, c: seq<T>)
    ensures (a + b) + c == a + (b + c)
  {
  }

  /** Emitting `a` and then `b` in front of a step is emitting `a + b` in front of it. */
  lemma {:induction false} AfterAfter(a: seq<Event>, b: seq<Event>, s: Step)
    ensures After(a, After(b, s)) == After(a + b, s)
  {
    Reassociate(a, b, s.events);
  }
}
