# AuctionsWorker, modelled in Dafny

AuctionsWorker is a hosted background service. At the top of every loop iteration it reads
the wall clock. When the minute is 3 it runs a snapshot pass:

1. It fetches the connected-realm index of the European and of the American marketplace.
2. For every realm reference in the European index, in order, it reads the realm id out of the
   reference and fetches that realm's auctions. It retries after every timeout or reported
   failure. On success it replaces the realm's collection in the document store: it drops the
   collection named `{year}-{month}-{day}-{hour}-{regionType}{realmId}`, then inserts the
   auctions into it.
3. It then does the same for every American realm.

At any other minute the iteration sleeps 20 s, so outside minute 3 the clock is read about
three times a minute. After a pass the clock is read again at once, so a pass that ends within
minute 3 is followed by another. The service stops when cancellation is requested.

The model follows the structure of `Worker.cs`:

| file | module | what it holds |
|---|---|---|
| `types.dfy` | `Types` | regions with their constants (`"eu"`/`"us"`, the locales, the `dynamic-…` namespaces, the reference prefixes and suffixes); auctions; marketplace responses; the event log; the store |
| `naming.dfy` | `Naming` | the date identifier and the collection name; C# string interpolation of an `int`; ordinal `String.Replace`; `Convert.ToInt32`; reading a realm id out of a reference |
| `store.dfy` | `Store` | the store as a map from collection name to documents; drop and insert-many; the effect of a log of events; drop-then-insert pairing |
| `fetcher.dfy` | `Fetcher` | `SaveAuction`'s behaviour as a function of the responses still to come, with its properties |
| `orchestrator.dfy` | `Orchestrator` | `SaveAllAuctions`' behaviour: per-region realm loops, the two index calls, the whole pass |
| `scheduler.dfy` | `Scheduler` | `ExecuteAsync`'s loop over the clock, and `CheckTime` |
| `worker.dfy` | `Service` | `class Worker`: the service with its store, marketplace, clock and log as fields, and the imperative `SaveAuction`, realm loops, `SaveAllAuctions` and `ExecuteAsync` |

The marketplace is an oracle: `Remote(indexes, auctions)` lists the responses it will give,
in the order they are asked for. The clock is a sequence of `Tick(cancelled, now)`, one per
loop iteration. When an oracle runs out, the model reports `Pending` (for a piece of work) or
the exit `Horizon` (for the loop). In the service, that work would still be waiting or
retrying.

An attempt to fetch a realm's auctions ends in one of four ways:
- `Timeout`: the 20 s delay won the race.
- `Fail(detail)`: the call reported an error.
- `Ok(records)`: the call returned the auctions.
- `Faulted`: the call's task faulted, so reading its result throws.

An exception escapes the pass and is nothing the loop catches, so the pass is `Aborted` and the
loop ends with the exit `Crashed`. The exceptions modelled are:
- a faulted fetch;
- a realm-index call whose task faulted, which throws as soon as it is awaited;
- a realm index that reported an error, so `.Value` is null;
- a realm reference whose remainder `Convert.ToInt32` rejects.

Nothing in `ExecuteAsync` catches an exception from `SaveAllAuctions` (Worker.cs:52), so an
aborted pass ends the loop.

Each method of `Service.Worker` is proved to end in exactly the state, responses and log that the
matching specification function (`Attempts`, `Realms`, `Visit`, `Pass`, `Schedule`) gives for the
state it starts from. The properties are proved about those functions. The class invariant
`Valid()` says the store is the effect of the logged operations on the initial store, and that
those operations come in drop-then-insert pairs. The main loop keeps it.

## Model

| member | source | states |
|---|---|---|
| Service.Worker.constructor | Worker.cs:30-36 | the service starts connected to the given store, marketplace and clock, with an empty log, and satisfies its invariant |
| Service.Worker.ReplaceCollection | Worker.cs:78-84 | the collection is dropped, then the documents are inserted into it; both operations are logged in that order, and nothing else changes |
| Service.Worker.SaveAuction | Worker.cs:68-100 | the retry loop over the responses ends with the status, store, remaining responses and log that `Attempts` gives for the starting state; the clock is untouched |
| Service.Worker.SaveRealms | Worker.cs:112-123 | the loop over one region's realm references, in index order, ends exactly where `Realms` says: it parses each reference, runs the fetcher for it, and stops at the first reference that does not parse or fetch that does not complete |
| Service.Worker.SaveAllAuctions | Worker.cs:102-124 | a pass builds the date identifier, makes the European and then the American index call, aborting at a call that faulted, then visits both regions' realms; its final state and log are those of `Pass` |
| Service.Worker.VisitRegions | Worker.cs:110-123 | the European realms are visited first, then the American ones; an index that failed aborts only once its realms are reached; the final state is the one `Visit` gives |
| Service.Worker.ExecuteAsync | Worker.cs:45-60 | the main loop ends with the exit, store, responses and log that `Schedule` gives, consumes one tick per iteration, and keeps the class invariant |
| Scheduler.Schedule | Worker.cs:45-60 | the main loop over the clock: it makes at most one iteration per tick and takes the marketplace responses from the front only |
| Scheduler.CheckTime | Worker.cs:63-66 | the gate is the minute alone, open at minute 3 of every hour; `ScheduleGate` proves that iteration `i` runs a pass exactly when it holds at tick `i` |
| Scheduler.ScheduleGate | Worker.cs:47-66 | iteration `i` runs a pass exactly when the minute at tick `i` is 3, and otherwise sleeps; no iteration happens at a cancelled tick; every iteration before the last one continued the loop |
| Scheduler.ScheduleExit | Worker.cs:47-60 | a Cancelled exit saw cancellation at the tick after its last iteration; a Crashed exit follows an aborted pass; a Horizon exit means the clock or the responses ran out |
| Scheduler.ScheduleFollowsLog | Worker.cs:47-60 | however the loop ends, the store is the effect of the logged operations, and those come in drop-then-insert pairs |
| Scheduler.IdleLeavesStore | Worker.cs:55-59 | when no tick shows minute 3, the loop never crashes, leaves the store and the responses untouched, and logs only 20 s delays, one per iteration |
| Scheduler.CancelledTickStops | Worker.cs:47 | a tick at which cancellation was requested ends the loop before anything happens |
| Scheduler.RepeatedPassesInRunMinute | Worker.cs:47-54 | two ticks in a row at minute 3 run two passes, the second over the store the first left; nothing limits the service to one pass an hour |
| Fetcher.Attempts | Worker.cs:68-100 | the fetcher run: it never asks for an index, takes auction responses from the front, at least one per run; a run that does not complete leaves the store as it was, and one still retrying has used up every response |
| Fetcher.AttemptsCharacterised | Worker.cs:68-100 | the whole fetcher run: one call per attempt up to the first response that is not a timeout or failure; a success replaces the collection, a faulted call aborts with the store untouched, and no such response means still retrying |
| Fetcher.RetriesPrefix | Worker.cs:86-99 | any number of retriable responses in front add one identical call each and change nothing else |
| Fetcher.RetriesAreIdempotent | Worker.cs:72-99 | N timeouts or failures before the rest leave the same status, store, remaining responses and store operations as starting with the rest |
| Fetcher.NoSuccessLeavesStore | Worker.cs:72-99 | without a successful response the store is left exactly as it was, the run does not complete, and no store operation is logged |
| Fetcher.FirstSuccessReplacesCollection | Worker.cs:76-84 | after retriable responses, the first success leaves the realm's collection holding exactly that success's documents and every other collection as it was; the store operations are a drop and then an insert of that name |
| Fetcher.FirstSettledIsFirst | Worker.cs:86-99 | the first response that is not a timeout or failure is the one that ends the retrying |
| Fetcher.AttemptsRepeatRequest | Worker.cs:92-98 | every call the fetcher makes repeats the same realm id, namespace, region and locale, and every store operation names the realm's collection |
| Fetcher.AttemptsFollowLog | Worker.cs:68-100 | the fetcher's store is the effect of its own log on the store it started from |
| Fetcher.AttemptsPaired | Worker.cs:76-84 | the fetcher's store operations are well paired: one drop-then-insert of the realm's collection when it completes, and none otherwise |
| Fetcher.SuccessEvents | Worker.cs:76-84 | a successful attempt's log has the drop and the insert as its store operations, and the effect that replaces the collection |
| Fetcher.NoStoreOpsInCalls | Worker.cs:71 | remote calls are not store operations |
| Fetcher.FirstSettled | Worker.cs:72-99 | the index of the first response that ends the retrying: every earlier one retries |
| Orchestrator.Realms | Worker.cs:112-123 | one region's loop: it never asks for an index, takes auction responses from the front, and is only still waiting once every response is used up |
| Orchestrator.Visit | Worker.cs:110-123 | the two realm loops of a pass: the same for the European loop followed by the American one |
| Orchestrator.Pass | Worker.cs:102-124 | a whole pass takes at most the two index responses and auction responses from the front only; it is only still waiting once the index or the auction responses are used up |
| Orchestrator.RealmsInOrder | Worker.cs:112-123 | a region's loop leaves the store that its log gives; its store operations are well paired; when it completes, every reference parsed and the dropped collections are the realms' names in index order |
| Orchestrator.RealmsFollowLog | Worker.cs:112-123 | a region's loop leaves the store that its own log gives, in drop-then-insert pairs |
| Orchestrator.RealmsNames | Worker.cs:112-123 | a completed region loop parsed every reference and dropped exactly the realms' collections, in index order |
| Orchestrator.NamesOf | Worker.cs:114-115 | one collection name per reference, each built from the id parsed out of it |
| Orchestrator.VisitInOrder | Worker.cs:110-123 | a completed visit had both indexes; its store operations are the drop-then-insert pairs of the European realms in index order, then those of the American realms |
| Orchestrator.PassInOrder | Worker.cs:102-124 | a completed pass made both index calls before anything else; its store operations are the European pairs in index order, then the American pairs, never interleaved |
| Orchestrator.PassIndexCallsFirst | Worker.cs:102-112 | whatever a pass ends with, the European index call comes first and then the American one, unless the European call faulted; no store operation comes before both; a pass without both indexes, or whose European index was not read, touches nothing |
| Orchestrator.IndexFaultAborts | Worker.cs:107-108 | a faulted European index call aborts the pass before the American index is asked for; a faulted American call aborts it before any realm is fetched; the store is untouched |
| Orchestrator.RealmsStoredPrefix | Worker.cs:112-123 | whatever a region's loop ends with, its store operations are drop-then-insert pairs replacing the collections of a first stretch of the references, in index order |
| Orchestrator.VisitStoredPrefix | Worker.cs:110-123 | whatever a visit ends with, it replaced a first stretch of the European realms' collections, or all of them and then a first stretch of the American ones |
| Orchestrator.PassStoredPrefix | Worker.cs:102-124 | whatever a pass ends with, its replacements follow the European-then-American index order, so an aborted or unfinished pass leaves a first stretch of that order |
| Orchestrator.PassContents | Worker.cs:102-124 | after any pass, every collection it replaced holds exactly the documents of the last insert into it, and every other collection is as it was |
| Orchestrator.PassFollowsLog | Worker.cs:102-124 | a pass's store is the effect of its log, and its store operations are well paired |
| Orchestrator.VisitFollowsLog | Worker.cs:110-123 | the same for the two realm loops of a pass |
| Orchestrator.EuropeanIndexErrorAborts | Worker.cs:107-112 | a failed European index aborts the pass before any store operation |
| Orchestrator.AmericanIndexErrorAbortsAfterEurope | Worker.cs:108-119 | a failed American index aborts the pass only after every European realm has been stored |
| Orchestrator.UnreadableHrefBlocksCompletion | Worker.cs:114 | a reference whose id cannot be read stops its region's loop from completing |
| Orchestrator.UnreadableFirstHrefAborts | Worker.cs:112-115 | an unreadable first European reference aborts the pass with the store untouched |
| Orchestrator.SingleRealm | Worker.cs:112-116 | a region listing one readable realm that succeeds at the first attempt logs the call, the drop and the insert, and replaces exactly that collection |
| Orchestrator.VisitBothSingle | Worker.cs:110-123 | one European and one American realm, each fetched at the first attempt: the European collection is replaced, then the American one |
| Orchestrator.PassStoresBothRealms | Worker.cs:102-124 | a pass over one European and one American realm completes with both collections holding exactly the fetched documents and every other collection untouched |
| Orchestrator.RealmsStopsAtUnreadable | Worker.cs:114 | a region's loop aborts at a reference whose id cannot be read, with the store as it was |
| Naming.ParseRealmId | Worker.cs:114 | a realm id read out of a reference lies in the 32-bit range; `RealmIdRoundTrip` proves it is the inverse of building the reference (Worker.cs:121 is the American twin) |
| Naming.ReplaceAll | Worker.cs:114 | ordinal `String.Replace`: a string shorter than the pattern is unchanged, replacing by something no longer never lengthens the string, and an occurrence at the front is replaced |
| Naming.RealmIdRoundTrip | Worker.cs:114 | for every 32-bit id and both regions, the region's prefix, the id's decimal form and the region's suffix read back as that id (Worker.cs:121 is the American twin) |
| Naming.StripRoundTrip | Worker.cs:114 | the two `Replace` calls cut exactly the prefix and the suffix out of `prefix + digits + suffix` |
| Naming.ParseIntToString | Worker.cs:114 | `Convert.ToInt32` reads the decimal form of every 32-bit int back as that int |
| Naming.ParseRejectsNonNumeric | Worker.cs:114 | a remainder holding a character that is no digit, sign or white space is a format error |
| Naming.ParseInt32 | Worker.cs:114 | a parsed value lies in the 32-bit range |
| Naming.ReplaceAllAbsent | Worker.cs:114 | `Replace` leaves a string without the pattern's first character unchanged |
| Naming.ReplaceAllHead | Worker.cs:114 | `Replace` substitutes an occurrence at the front and goes on after it |
| Naming.ReplaceAllSkips | Worker.cs:114 | `Replace` passes over a part that cannot start an occurrence |
| Naming.DateIdentifier | Worker.cs:104 | the hour's identifier holds only digits and dashes, with no sign or padding, and is at least seven characters long |
| Naming.CollectionName | Worker.cs:79-83 | the collection name starts with the date identifier, a dash and the region type, and what follows reads back as the realm id for every 32-bit id |
| Naming.DateIdentifierInjective | Worker.cs:104 | the unpadded, dash-separated identifier determines year, month, day and hour |
| Naming.DateIdentifierSplits | Worker.cs:104 | an identifier followed by a dash and a rest determines the hour and the rest |
| Naming.CollectionNameInjective | Worker.cs:79 | for one date identifier, the collection name determines the region and the realm id, so a European and an American realm with the same id get different collections |
| Naming.FullNameInjective | Worker.cs:79 | the collection name determines the hour, the region and the realm id |
| Naming.IntToStringInjective | Worker.cs:79 | different ints have different decimal forms |
| Naming.NatToStringRoundTrip | Worker.cs:104 | the decimal form of a natural number is all digits and reads back as that number |
| Naming.IntToString | Worker.cs:79 | the decimal form of an int is not empty and starts with `-` exactly when the int is negative |
| Naming.NatToString | Worker.cs:104 | the decimal form of a natural number starts with a digit, and with `0` only for zero |
| Store.DropCollection | MongoCRUD.cs:95-98 | after a drop the collection is absent, and every other collection is as it was |
| Store.InsertManyInto | MongoCRUD.cs:39-52 | after an insert the collection holds its earlier documents followed by the new ones, and every other collection is as it was |
| Store.ApplyStoreOps | Worker.cs:79-83 | only the store operations of a log have an effect on the store |
| Store.ApplyPaired | Worker.cs:79-83 | drop-then-insert pairs leave each collection they replace holding exactly the documents of the last pair that replaces it, and every other collection as it was |
| Store.ApplyAppend | Worker.cs:79-83 | the effect of two logs one after the other is the effect of the second on the store the first left |
| Store.ApplyWithoutStoreOps | Worker.cs:71 | a log without store operations leaves the store as it was |
| Store.StoreOpsAppend | Worker.cs:79-83 | the store operations of two logs in a row are the first's followed by the second's |
| Store.WellPairedAppend | Worker.cs:79-83 | two well-paired runs of store operations in a row are well paired, and drop the first's names then the second's |

## Left out

- I/O is not modelled: the HTTP client, the marketplace client's credentials and wire format,
  and the MongoDB driver. They are replaced by the response oracle and the map store.
- `StopAsync` and all logging are not modelled. Disposing of the HTTP client and the log lines
  have no effect on the store or the loop.
- The `Task.WhenAny` race between the fetch and the 20 s delay is not modelled. It becomes a
  `Timeout` response. The fetch left running after a timeout is not modelled, and neither is
  anything it might do later.
- The cancellation token passed to `Task.Delay` is not modelled. Cancellation during the delay
  makes the await throw. The model sees the cancellation at the next tick instead.
- `DateTime.Now` is read several times: by `CheckTime` and four times by the date identifier.
  The model uses one reading per loop iteration, so an hour boundary crossed between those reads
  is not modelled.
- Retrying that never ends is not modelled. The finite response sequence ends it with `Pending`,
  and the loop then exits with `Horizon`.
- Exceptions from the store are not modelled. This includes the driver rejecting an empty
  `InsertMany`. That would abort the pass after the drop, leaving the collection missing.
- Culture-sensitive parsing is not modelled. `Convert.ToInt32` is modelled with the invariant
  culture: white space, an optional sign, ASCII digits and the 32-bit range. Trailing NUL
  characters, which it also accepts, are not modelled.
- `Uri.ToString` is taken to return the reference text unchanged.
- Service.Worker.SaveAuction: the class invariant is not part of its contract. The same holds
  for `SaveRealms`, `SaveAllAuctions` and `VisitRegions`. Each of them is tied exactly to its
  specification function instead. The lemmas `Fetcher.AttemptsFollowLog`,
  `Fetcher.AttemptsPaired`, `Orchestrator.RealmsInOrder` and `Orchestrator.PassFollowsLog` carry
  the invariant's content for those functions.
- Service.Worker.ExecuteAsync: it keeps the invariant when the invariant held at the start.
  The constructor establishes it.
