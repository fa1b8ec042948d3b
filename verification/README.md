# Verified model of reddit's caches, gold purchases, queue consumers and rate limits

This project models the stateful protocols at the heart of the reddit code base in Dafny 4.11, and proves what
they promise over every input, run or interleaving. `dafny verify dfyconfig.toml` checks all of it.

Objects that the program updates in place are classes here, with methods proved against functions on values;
processes that run beside each other are state machines whose runs are arbitrary interleavings. Statements that
are about runs are lemmas about those functions and machines.

| module | models | from |
|---|---|---|
| `Options`, `Arithmetic` | an optional value; facts about integer division | |
| `CacheColumns` | what each operation of a cache chain does at one key, as a function on the column of layers | `r2/r2/lib/cache.py` |
| `CacheProperties` | coherence and refinement over whole runs, one multi-get against many gets | `r2/r2/lib/cache.py` |
| `CacheWalk` | the walk of a multi-get over whole layers, on values | `r2/r2/lib/cache.py` |
| `CacheChains` | the layers and the chain in place, with the loops of the source | `r2/r2/lib/cache.py` |
| `Mutate` | the locked read-modify-write, alone and with many processes interleaved | `r2/r2/lib/cache.py` |
| `StaleChain` | the chain with a stale side cache | `r2/r2/lib/cache.py` |
| `GoldTime` | pennies, months and days | `r2/r2/controllers/ipn.py` |
| `Webhooks` | the secret column: written by a purchase, parsed by a reversal | `r2/r2/controllers/ipn.py` |
| `GoldBooks` | the gold table and the accounts under any run of webhooks | `r2/r2/controllers/ipn.py` |
| `Creddits` | payment blobs and the creddit escrow, alone and with many requests interleaved | `r2/r2/controllers/ipn.py` |
| `Amqp` | the batching consumer and the deduplication of a queue, against a broker | `r2/r2/lib/amqp.py` |
| `RateLimit` | time-sliced counters with expiry, many requests interleaved on them, and the limiters themselves | `r2/r2/controllers/reddit_base.py` |
| `RateProperties` | which counters outlive their slice, the quota over every run, and exactly when it fails | `r2/r2/controllers/reddit_base.py` |
| `QueryString` | the in-place parsing and decoding of a query string | `scripts/traffic/utils.c` |
| `ChunkXml` | splitting a batch of documents by halves, in place | `r2/r2/lib/cloudsearch.py` |

Values that a read answers are `Option`s: `None` is Python's `None`, or the caller's default.

## What turned out not to hold

Each of these is stated with the exact condition under which the code does what it is for, and with a run or an
input where it does not.

- Two overlapping requests of one account can spend the same creddits twice: a commit writes the absolute values
  computed from the record as the request read it (`r2/r2/lib/db/thing.py:195-253`). Over any run an account stays
  balanced all along if and only if every commit for it finds the record as it was read
  (`Creddits.BalancedIffFresh`, `Creddits.OverlapLosesADebit`); an account whose requests run one at a time always
  does, whatever other accounts do (`Creddits.SerialAccountsConserve`).
- A value that `HardcacheChain.add` inserts is written to the layers above as the database column holds it: a truth
  value as `t` or `f`, and whatever is no number and no text as its pickle (`r2/r2/lib/hardcachebackend.py:163-187`,
  `r2/r2/lib/db/tdb_lite.py:53-72`). The key is coherent afterwards if and only if it was there before or the value
  is its own encoding (`CacheProperties.AddRepairsIff`, `CacheProperties.AddedTruthReadsAsText`).
- A reversal reads back what a purchase wrote if and only if there is no `{` in it and, for gifts, no `-`
  (`Webhooks.ParsesBackIff`). Of the failing inputs one sort can be reached: a gift to somebody with a `-` in the
  name, whose reversal raises (`Webhooks.RefundableParsesBackIff`). Names and tokens have no `{`, and a refund
  comes from Stripe only, which cuts the token at its first `-` (`r2/r2/controllers/ipn.py:963`). The strip of the
  braces at `r2/r2/controllers/ipn.py:1301` has no effect, because its result is dropped.
- A succeeded webhook that comes after the reversal pays again if and only if it brings its details itself, as
  those of Stripe's subscriptions do. One with a passthrough raises, because the blob is loaded only while there is
  no row (`r2/r2/controllers/ipn.py:680-683`), and gives nothing (`GoldBooks.LateSuccessPaysIff`).
- Months and days of a payment agree, and no more is delivered than was paid for, if and only if a year costs at
  most twelve months; the assertion on whole years never fires, and months are monotone, if and only if it costs
  at most thirteen (`GoldTime`).
- The hit and miss counts of a multi-get agree with those of single gets for all contents if and only if the
  permanent layers come last (`CacheProperties.CountsAgreeIffPermanentLast`).
- A `NoneResult` left in memcached makes `mutate` leave Cassandra without the new value exactly when the mutation
  maps the default to itself and Cassandra does not hold that already (`Mutate.LeftoverNoneResult`).
- The rate limiters count exactly, and keep every quota, over all runs whose cache calls come less than `late`
  seconds after the end of their slice, if and only if `late` is zero or one, the period is no multiple of the span
  after which the keys repeat, and, if `late` is one, twice the period is none either
  (`RateProperties.ExactIff`, `RateProperties.QuotaHoldsIff`). That span is a minute for agents, so slices of sixty
  seconds fail, and slices of thirty when a call may be in the first second after its slice
  (`RateProperties.AgentsSoundIff`); it is a day for the site-wide limits. Where the limiters fail, a run lets
  twice the quota pass in one slice, for every quota (`RateProperties.UnsoundRun`). However late a single call is,
  it goes right if and only if its own slice's counter has not lapsed (`RateProperties.GoesRightIff`).
- `chunk_xml` ends if and only if every single document fits into a batch of its own (`ChunkXml.SplitEndsIff`).
  The source appends the list of the right half's elements as if it were one element
  (`r2/r2/lib/cloudsearch.py:579`), and its docstring speaks of a limit of 20 MB; the model moves the elements,
  which is the evident intent, and has the limit as a parameter (it is 4000000 bytes at line 47).

## Model

| member | source | states |
|---|---|---|
| `CacheColumns.FirstHitFrom` | r2/r2/lib/cache.py:411-417 | the layer whose answer a read takes: it holds the key and is consulted, and no consulted layer before it does |
| `CacheColumns.MissLineFrom` | r2/r2/lib/cache.py:453-460 | the layer where a multi-get counts its misses: the first permanent one |
| `CacheProperties.ReadIs` | r2/r2/lib/cache.py:408-436 | a read by its first cache that may be asked and holds the key: what it answers, what each cache holds afterwards, and how a get and a multi-get count it |
| `CacheProperties.WritesAre` | r2/r2/lib/cache.py:379-404 | a write puts its value into every cache, a deletion empties every one |
| `CacheProperties.EncodingsAre` | r2/r2/lib/db/tdb_lite.py:53-72 | numbers and texts are stored as they are, truth values and other objects as texts |
| `CacheProperties.IntsAre` | r2/r2/lib/cache.py:532-536 | int() of numbers, truth values, and the decimal text of every integer |
| `CacheProperties.ReadKeepsCoherence` | r2/r2/lib/cache.py:408-436 | a read, with its back-fill and its negative marks, keeps a key coherent and leaves the authority alone |
| `CacheProperties.StepKeepsCoherence` | r2/r2/lib/cache.py:379-509 | every operation and every loss of entries keeps a key coherent, and moves the authority as the same write moves a simple map |
| `CacheProperties.CoherentReadIsAuthority` | r2/r2/lib/cache.py:408-436 | a read of a coherent key, with or without the local cache, answers what the authority holds, or the default if it holds nothing |
| `CacheProperties.ChainRefinesMap` | r2/r2/lib/cache.py:379-509 | over every run of set, delete, get, multi-get, reset and evictions, each upper layer is empty, equal to the authority, or a true negative, and every read answers the value last written, or the default |
| `CacheProperties.AddRepairsIff` | r2/r2/lib/cache.py:515-524 | whatever the upper layers held, HardcacheChain.add leaves its key coherent if and only if the key was there or the value is its own encoding; what the authority then holds, and what every read answers |
| `CacheProperties.AddedTruthReadsAsText` | r2/r2/lib/db/tdb_lite.py:53-72 | a truth value that add inserts reads as a text from every layer above the authority |
| `CacheProperties.AccrueRepairs` | r2/r2/lib/cache.py:526-541 | accrue fails exactly where the authority holds what int() refuses; otherwise its key is coherent and every read answers the sum |
| `CacheProperties.CountsAddUp` | r2/r2/lib/cache.py:453-493 | hits and misses of a multi-get add up to the number of its keys, if the permanent layers come last |
| `CacheProperties.UntouchedByGets` | r2/r2/lib/cache.py:408-442 | reads of other keys leave the layers at a key as they are |
| `CacheProperties.MultiGetIsGets` | r2/r2/lib/cache.py:448-495 | one multi-get leaves every layer as single gets of the keys in any order do, and each of these sees what the multi-get started from |
| `CacheProperties.CountsAgreeIffPermanentLast` | r2/r2/lib/cache.py:453-493 | a multi-get counts every key once and as a single get does, for all contents, if and only if the permanent layers come last |
| `CacheWalk.OfferAt` | r2/r2/lib/cache.py:470-473 | offering a dictionary of answers to the layers above back-fills each of its keys there, and no other |
| `CacheWalk.VisitStep` | r2/r2/lib/cache.py:453-477 | one layer of the walk: needed, answered and counted keys stay those whose first hit lies below, above, and above in a layer that is not permanent |
| `CacheWalk.Skipped` | r2/r2/lib/cache.py:453-455 | skipping a LocalCache that may not be consulted changes nothing for any key |
| `CacheWalk.StopStep` | r2/r2/lib/cache.py:462-464 | when as many keys are answered as were asked for, stopping early leaves what the rest of the walk would leave |
| `CacheWalk.FirstHitIsFirst` | r2/r2/lib/cache.py:453-465 | the layer of a single get is the one where the walk finds the key |
| `CacheWalk.Visited` | r2/r2/lib/cache.py:453-477 | a consulted layer keeps everything known of the walk: answers, back-fills, hits and misses |
| `CacheWalk.Stopped` | r2/r2/lib/cache.py:462-464 | so does the early stop |
| `CacheWalk.Planned` | r2/r2/lib/cache.py:448-453 | what is known at the start: every key has a first hit, and nothing has been done |
| `CacheWalk.FinishedAt` | r2/r2/lib/cache.py:448-495 | at each key the finished multi-get did what a single get does: same layers, same answer, same hit; and a miss exactly where the key is first found from the miss line on |
| `CacheWalk.FinishedColumn` | r2/r2/lib/cache.py:453-481 | every layer ends, at each key, as a single get leaves it |
| `CacheWalk.FinishCounts` | r2/r2/lib/cache.py:487-493 | the late count of misses gives the keys first found from the miss line on |
| `CacheChains.Layer.Get` | r2/r2/lib/cache.py:241-244 | a layer answers what it holds |
| `CacheChains.Layer.SimpleGetMulti` | r2/r2/lib/cache.py:246-251 | a layer answers exactly the wanted keys it holds |
| `CacheChains.Layer.Set` | r2/r2/lib/cache.py:181-187 | a permanent layer refuses NoneResult, any other takes what it is given |
| `CacheChains.Layer.SetMulti` | r2/r2/lib/cache.py:205-208 | the loop over a dictionary puts all of it into the layer, but for NoneResult in a permanent one |
| `CacheChains.Layer.Delete` | r2/r2/lib/cache.py:268-270 | only the key goes |
| `CacheChains.Layer.Add` | r2/r2/lib/hardcachebackend.py:163-187 | inserts if the key is absent and answers the encoded value, else answers what is stored |
| `CacheChains.CacheChain.SetMultiFirst` | r2/r2/lib/cache.py:470-473 | the back-fill loop offers a dictionary to exactly the layers above |
| `CacheChains.CacheChain.SetFirst` | r2/r2/lib/cache.py:422-425 | the back-fill loop offers one entry to exactly the layers above, at no other key |
| `CacheChains.CacheChain.Set` | r2/r2/lib/cache.py:379-390 | writes through every layer, at no other key |
| `CacheChains.CacheChain.Delete` | r2/r2/lib/cache.py:379-404 | deletes from every layer, and no other key |
| `CacheChains.CacheChain.Find` | r2/r2/lib/cache.py:411-417 | the loop stops at the first consulted layer that holds the key, with its entry |
| `CacheChains.CacheChain.Get` | r2/r2/lib/cache.py:408-442 | the loop over the layers is the read on columns: back-fill, negative marks, answer or default, one hit or miss |
| `CacheChains.CacheChain.Turn` | r2/r2/lib/cache.py:465-477 | one turn of the multi-get loop is one step of the walk on values |
| `CacheChains.CacheChain.WalkDown` | r2/r2/lib/cache.py:453-477 | the whole loop, early stop included, is the whole walk |
| `CacheChains.CacheChain.FetchAll` | r2/r2/lib/cache.py:449-491 | so are the negative marks and the late count of misses |
| `CacheChains.CacheChain.SimpleGetMulti` | r2/r2/lib/cache.py:448-495 | at every key the layers end as after a single get, the answers hold exactly the keys a get would answer, and hits and misses are those of the keys |
| `CacheChains.CacheChain.Reset` | r2/r2/lib/cache.py:507-509 | replaces the local cache by an empty one and nothing else |
| `CacheChains.CacheChain.HardAdd` | r2/r2/lib/cache.py:515-524 | the authority decides what it holds, and its answer, which is the encoding of what it inserts, is set above |
| `CacheChains.CacheChain.Accrue` | r2/r2/lib/cache.py:526-541 | adds to the authority's number and sets the sum everywhere, or changes nothing and fails |
| `CacheChains.CacheChain.ReadToMutate` | r2/r2/lib/cache.py:660-675 | memcached if the chain has one, else Cassandra; NoneResult reads as the default, a missing key as None |
| `CacheChains.CacheChain.MutateLocked` | r2/r2/lib/cache.py:644-689 | the method is the function MutateColumn on the layers, at no other key, and returns the mutation of what was read |
| `Mutate.MutateIs` | r2/r2/lib/cache.py:660-688 | what the mutation is given, from memcached or Cassandra, and that every cache above Cassandra gets the new value, and Cassandra unless it was read there already |
| `Mutate.LeftoverNoneResult` | r2/r2/lib/cache.py:670-684 | a NoneResult left in memcached reads as the default whatever Cassandra holds; when Cassandra is left as it is, and when it then differs from memcached |
| `Mutate.WritesAlone` | r2/r2/lib/cache.py:679-689 | from the mutation on: Cassandra is written unless the value is what was read, then the other layers, then the lock is let go |
| `Mutate.AloneIsMutate` | r2/r2/lib/cache.py:644-689 | the steps of one call with nobody else moving have the effect of the method |
| `Mutate.CommitKeepsHistory` | r2/r2/lib/cache.py:679-684 | a mutation of the fold so far extends the history of mutations in lock order |
| `Mutate.StepKeepsControl` | r2/r2/lib/cache.py:646-689 | every step keeps mutual exclusion, and what the holder of the lock knows of memcached and Cassandra |
| `Mutate.StepKeepsHistory` | r2/r2/lib/cache.py:646-689 | every step keeps Cassandra the fold of the committed mutations in lock order |
| `Mutate.NextKeepsInv` | r2/r2/lib/cache.py:646-689 | so does every action, evictions and raising mutations included |
| `Mutate.EveryRunIsSerial` | r2/r2/lib/cache.py:644-689 | over every interleaving of any number of processes with evictions, no update is lost, every call returned what it made of those before it, and outside the critical section a memcached entry equals Cassandra's |
| `Mutate.RunsFromStart` | r2/r2/lib/cache.py:644-689 | the same from any start where memcached agrees with Cassandra |
| `Mutate.LocalsDoNotMatter` | r2/r2/lib/cache.py:644-689 | whatever happens to any LocalCache, every run has the same results |
| `StaleChain.StaleCacheChain.Set` | r2/r2/lib/cache.py:379-390 | writes the two caches of the chain; the stale cache is not told |
| `StaleChain.StaleCacheChain.Delete` | r2/r2/lib/cache.py:379-404 | deletes from the same two |
| `StaleChain.StaleCacheChain.Get` | r2/r2/lib/cache.py:562-581 | local, then stale if asked for, then the real cache; only what the real cache answered is kept |
| `StaleChain.StaleCacheChain.Collect` | r2/r2/lib/cache.py:588-599 | moves exactly the keys that a cache holds from the wanted keys to the answers |
| `StaleChain.StaleCacheChain.SimpleGetMulti` | r2/r2/lib/cache.py:583-609 | the same at every key as a single read: caches and answers |
| `StaleChain.StaleCacheChain.Reset` | r2/r2/lib/cache.py:616-622 | only the local cache is emptied |
| `StaleChain.ReadIs` | r2/r2/lib/cache.py:562-609 | the first cache that may answer and can answers, nothing only if none can; what each of the three holds afterwards |
| `StaleChain.StaleReadsAnswer` | r2/r2/lib/cache.py:562-609 | over every run a read that accepts stale data answers a key that the real cache holds, with the value last written where the stale cache has none |
| `StaleChain.StaleDataStaysOut` | r2/r2/lib/cache.py:562-622 | over every run, whatever is done to the stale cache, the local and the real cache hold only the value last written, and a read that did not ask for stale data answers that or nothing |
| `StaleChain.StaleAnswersWereTrue` | r2/r2/lib/cache.py:562-609 | over every run in which only this chain fills the stale cache, a read that accepts stale data answers a value the key really had |
| `StaleChain.DefaultReadsAgreeIff` | r2/r2/lib/cache.py:562-588 | with their defaults, a single and a multiple read answer the same exactly unless the real cache has lost what the local one holds |
| `StaleChain.StaleCacheIsInvisible` | r2/r2/lib/cache.py:562-609 | as long as nobody asks for stale data, what the stale cache holds changes nothing |
| `GoldTime.DaysAgreeIff` | r2/r2/controllers/ipn.py:222-237 | the days of a payment are the days of its months, for every payment, if and only if a year costs at most 12 months |
| `GoldTime.NeverAssertsIff` | r2/r2/controllers/ipn.py:1267-1274 | the assertion never fires, for any payment, if and only if a year costs at most 13 months |
| `GoldTime.MonotoneIff` | r2/r2/controllers/ipn.py:230-237 | more pennies never buy fewer months, if and only if a year costs at most 13 months |
| `GoldTime.WorthOfDelivery` | r2/r2/models/gold.py:412-418 | the price of the days delivered is at most the payment, and short of it by less than one unit |
| `GoldTime.NeverOverdeliversIff` | r2/r2/models/gold.py:412-418 | the price of what is delivered never exceeds the payment, if and only if a year costs at most 12 months |
| `GoldTime.ReversalShortfall` | r2/r2/controllers/ipn.py:1296-1318 | a reversal by days / 31 takes back no more than was granted: exactly it below 12 months, and the ceiling of 6y/31 months less for y years |
| `Webhooks.SplitJoin` | r2/r2/controllers/ipn.py:808-812 | splitting undoes joining with the same character |
| `Webhooks.SplitWhole` | r2/r2/controllers/ipn.py:1299-1304 | a text without the character is one piece, and only such a text |
| `Webhooks.SecretSplit` | r2/r2/controllers/ipn.py:808-812 | the pieces of a secret: the gold type, for gifts those of the recipient, and those of the tail |
| `Webhooks.SecretHead` | r2/r2/controllers/ipn.py:1300-1302 | with a brace the first piece is never a gold type |
| `Webhooks.BraceInSecret` | r2/r2/controllers/ipn.py:808-812 | a secret has a brace exactly if a name or the tail has one |
| `Webhooks.RefundableParsesBackIff` | r2/r2/controllers/ipn.py:1299-1308 | of the secrets that can be refunded exactly those of gifts to a name with a dash cannot be read back |
| `Webhooks.ParsesBackIff` | r2/r2/controllers/ipn.py:1299-1308 | a reversal reads the gold type and the recipient that were written if and only if there is no brace and, for gifts, no dash; what happens otherwise |
| `GoldBooks.GoldTable.CompleteGoldPurchase` | r2/r2/controllers/ipn.py:746-820 | posts the gain to who gets it and writes the row unless there is one; raises, changing nothing, if the months trip the assertion or the webhook has no details |
| `GoldBooks.GoldTable.ReverseGoldPurchase` | r2/r2/controllers/ipn.py:1288-1325 | takes back what the row says from whom its secret says, and marks it reversed; raises exactly where the secret cannot be unpacked |
| `GoldBooks.GoldTable.ProcessWebhook` | r2/r2/controllers/ipn.py:676-730 | the filters on the row's status, the blob that is loaded only while there is no row, what each event does, and when the answer is a refusal or a raise |
| `GoldBooks.CompletedIs` | r2/r2/controllers/ipn.py:746-820 | who is given what: 31 days a month or 366 a year to the buyer, or to the recipient of a gift, months as creddits, nothing for a code; and the row with its secret that is written unless there is one |
| `GoldBooks.ReversedIs` | r2/r2/controllers/ipn.py:1288-1325 | who is taken what from when the secret can be read: the days, or days / 31 creddits; and that the row is reversed |
| `GoldBooks.ProcessedIs` | r2/r2/controllers/ipn.py:676-730 | what each event does, by the row of its transaction |
| `GoldBooks.StatusFollowsHistory` | r2/r2/controllers/ipn.py:676-730 | over every run the row of a purchase has the status of its history: made by the first success, reversed by a refund after it unless that raises |
| `GoldBooks.CodesAreKept` | r2/r2/controllers/ipn.py:766-773 | over every run a code is there exactly if a success of it was accepted, unclaimed and worth its days; no refund moves it and nothing is posted for it |
| `GoldBooks.TakeBackIsTaken` | r2/r2/controllers/ipn.py:1299-1325 | what a reversal reads from a row is what its purchase gave, to the one it gave it to |
| `GoldBooks.OtherTransaction` | r2/r2/controllers/ipn.py:676-730 | a webhook moves neither row nor net of another transaction |
| `GoldBooks.CompleteMovesNet` | r2/r2/controllers/ipn.py:746-820 | completing moves the recipient's net by the gain, and nobody else's |
| `GoldBooks.ReverseMovesNet` | r2/r2/controllers/ipn.py:1288-1325 | reversing moves it by what the status says is due |
| `GoldBooks.ProcessMovesNet` | r2/r2/controllers/ipn.py:676-730 | one webhook moves the net by what it moves the dues, but for a success after the reversal that brings its details |
| `GoldBooks.LateSuccessPaysIff` | r2/r2/controllers/ipn.py:680-703 | a success after the reversal pays once more if and only if it has no passthrough; else it raises and changes nothing |
| `GoldBooks.PassthroughIsNeverLate` | r2/r2/controllers/ipn.py:680-683 | no run pays a purchase with a passthrough again |
| `GoldBooks.NetFollowsStatus` | r2/r2/controllers/ipn.py:676-820 | over every run of webhooks of any transactions, however often they repeat, the net of a purchase is what the status of its row says, plus one gain for each success after the reversal that brought its details; nobody else has any |
| `GoldBooks.PaidExactlyOnce` | r2/r2/controllers/ipn.py:676-820 | from empty books the net of a purchase that gives anything is what is due if and only if no success with details came after the reversal, so always with a passthrough: the gain while processed, nothing when reversed, but for a brace in the secret and the rounding of creddits |
| `GoldBooks.NoRowNoLate` | r2/r2/controllers/ipn.py:697-702 | without a row there was no success after a reversal |
| `Creddits.Shop.TakeBlob` | r2/r2/controllers/ipn.py:89-100 | hands out an initialized blob and locks it; refuses a missing or used one and changes nothing |
| `Creddits.Shop.SpendCreddits` | r2/r2/controllers/ipn.py:338-409 | one spend on its own: how it ends by blob, owner, recipient and creddits, the blob, account and escrow on each way out, and that creddits, escrow and months released add up to what they did |
| `Creddits.OnlyOwnBlobsAreSpent` | r2/r2/controllers/ipn.py:351-373 | over every interleaving a request past the checks has a blob of its own user, for a gift or a code, with a recipient who can be found; when it is finished the blob is processed |
| `Creddits.NextIsEntitled` | r2/r2/controllers/ipn.py:351-373 | every action keeps that |
| `Creddits.AloneIsDone` | r2/r2/controllers/ipn.py:338-409 | five steps of a request that nobody gets between charge, release and process as the method does |
| `Creddits.AloneNotSent` | r2/r2/controllers/ipn.py:389-398 | if the gift or the code does not go out, the request ends with its months in escrow |
| `Creddits.TakeKeepsOnce` | r2/r2/controllers/ipn.py:89-100 | get_blob hands out no code that a request already has |
| `Creddits.StepKeepsOnce` | r2/r2/controllers/ipn.py:338-409 | every step keeps each code with one request, under a locked blob while it has anything in escrow |
| `Creddits.NextHandsOutOnce` | r2/r2/controllers/ipn.py:338-409 | so does every action, requests that die included |
| `Creddits.EachCodeOnce` | r2/r2/controllers/ipn.py:89-100 | over every interleaving get_blob succeeds at most once for each code |
| `Creddits.DebitBalancedIff` | r2/r2/controllers/ipn.py:375-382 | committing a debit keeps the account balanced if and only if the record is as the request read it |
| `Creddits.ReleaseBalancedIff` | r2/r2/controllers/ipn.py:403-405 | committing a release does if and only if the escrow is as the request read it |
| `Creddits.OtherStepBalanced` | r2/r2/controllers/ipn.py:338-409 | no other step can unbalance an account |
| `Creddits.StaysBalancedIffFresh` | r2/r2/controllers/ipn.py:338-409 | a step keeps an account balanced if and only if it commits nothing for it or finds what it overwrites as it was read |
| `Creddits.BalancedIffFresh` | r2/r2/controllers/ipn.py:338-409 | over every interleaving, whatever becomes of other accounts and wherever requests die, an account is balanced after every step if and only if every commit for it is fresh. Balanced: creddits are not negative, escrow is the sum of the months of debited and unreleased requests, and creddits, escrow and releases add up to what was granted |
| `Creddits.NextKeepsApart` | r2/r2/controllers/ipn.py:338-409 | if an account has one request at a time, that request knows the account as it is, whatever requests of others do |
| `Creddits.OneAtATimeIsFresh` | r2/r2/controllers/ipn.py:338-409 | then every commit for it is fresh, in whatever interleaving with other accounts, which may overlap |
| `Creddits.SerialAccountsConserve` | r2/r2/controllers/ipn.py:338-409 | so such an account is balanced after every step of any run from the start |
| `Creddits.OverlapLosesADebit` | r2/r2/lib/db/thing.py:195-253 | two overlapping requests of one account release twelve months for six creddits |
| `Amqp.GetConserves` | r2/r2/lib/amqp.py:271 | getting a message moves it from the queue to the consumer and loses none |
| `Amqp.AckConserves` | r2/r2/lib/amqp.py:312 | acknowledging everything outstanding moves it to the acknowledged messages and loses none |
| `Amqp.RejectConserves` | r2/r2/lib/amqp.py:319 | rejecting puts the message back into the queue, wherever the broker likes, and loses none |
| `Amqp.Broker.BasicGet` | r2/r2/lib/amqp.py:271 | the first message of the queue becomes outstanding, with the number of those left; none only from an empty queue |
| `Amqp.Broker.AckAll` | r2/r2/lib/amqp.py:312 | tag 0 with multiple acknowledges exactly what is outstanding |
| `Amqp.Broker.BasicReject` | r2/r2/lib/amqp.py:319 | the one delivery goes back to the queue |
| `Amqp.FillBatch` | r2/r2/lib/amqp.py:284-298 | the inner loop: the next messages in line, `limit` of them unless the queue is empty or the countdown over, at least `min_size` unless the countdown is over, no waiting beyond that, and how it counts |
| `Amqp.RejectAll` | r2/r2/lib/amqp.py:316-319 | every item of the batch is back in the queue, and nothing else outstanding is touched |
| `Amqp.OneBatch` | r2/r2/lib/amqp.py:284-320 | a batch is acknowledged exactly if its callback returned and acknowledging is asked for; if it raised, all of it is requeued |
| `Amqp.RoundGoesOn` | r2/r2/lib/amqp.py:266-312 | a round whose callback returned keeps what holds at the head of the outer loop |
| `Amqp.RoundEnds` | r2/r2/lib/amqp.py:314-320 | a round that raised ends with nothing of it acknowledged or outstanding |
| `Amqp.Round` | r2/r2/lib/amqp.py:278-320 | one round of the outer loop keeps what holds at its head, or ends it; the batch it handles is full unless the queue is empty or the countdown over |
| `Amqp.KeepsUpBatch` | r2/r2/lib/amqp.py:275-298 | a batch keeps all that stood in the queue at first either handled in order or next in line, and no more of it than the countdown |
| `Amqp.Consume` | r2/r2/lib/amqp.py:266-320 | the outer loop: nothing is outstanding at its head when batches are acknowledged, and it ends only if it drains, with all that was there at first handled in order |
| `Amqp.HandleItems` | r2/r2/lib/amqp.py:254-320 | conservation, exact acknowledgement, requeueing of a raising batch, batch sizes; a drain counts down from the messages behind its first, handles all that was there at first in order, ends whatever producers do and handles at most one message more than its countdown; nothing else ends |
| `Amqp.NothingVanishes` | r2/r2/lib/amqp.py:349-371 | as long as nothing is acknowledged, queue and consumer hold every message there was |
| `Amqp.Grab` | r2/r2/lib/amqp.py:347-371 | collects the set of the bodies it took; it takes all that was there, in order, or the most that it may; no body vanishes at any step |
| `Amqp.GrabGoesOn` | r2/r2/lib/amqp.py:349-371 | one message of the grab: what is left to take, and when it stops |
| `Amqp.Republish` | r2/r2/lib/amqp.py:376-378 | publishes each body exactly once, and no body vanishes at any step |
| `Amqp.BodiesStay` | r2/r2/lib/amqp.py:347-382 | taking messages out and putting each body back once leaves the set of bodies as it was |
| `Amqp.DedupQueue` | r2/r2/lib/amqp.py:336-382 | no body ever vanishes, each grabbed body is republished exactly once, and at the end the queue has the bodies it had and those of the producers |
| `RateLimit.SliceOf` | r2/r2/controllers/reddit_base.py:577-581 | the slice start is the last multiple of the period |
| `RateProperties.CycleFromIsLeast` | r2/r2/controllers/reddit_base.py:823 | after how many slices a key is used again |
| `RateProperties.KeyComesBack` | r2/r2/controllers/reddit_base.py:823 | the next slice with the same key begins that many periods later, and none before |
| `RateProperties.CarryOverIff` | r2/r2/controllers/reddit_base.py:822-834 | whoever adds a counter and however late, it outlives its slice into one with the same key if and only if the add comes all those periods but one after the clock was read, or for agents after the slice began |
| `RateProperties.Lives` | r2/r2/controllers/reddit_base.py:826 | a counter lives past the end of its slice, at most to the end of the next, and a second longer for each second the add is late |
| `RateProperties.AgentsSoundIff` | r2/r2/controllers/reddit_base.py:584-588 | agents are limited soundly for slices below 60 seconds, but for 30 if calls may come in the second after the slice |
| `RateProperties.SiteSoundIff` | r2/r2/controllers/reddit_base.py:822-823 | site-wide limits for all periods but whole days, and half days if calls may come in the second after the slice |
| `RateProperties.OpenKeys` | r2/r2/controllers/reddit_base.py:587 | slices whose requests are at work together have different keys |
| `RateProperties.NewSliceTracks` | r2/r2/controllers/reddit_base.py:577-588 | a new slice finds no live counter under its key |
| `RateProperties.AddedExpires` | r2/r2/controllers/reddit_base.py:588 | a counter that is added is gone before its key comes back |
| `RateProperties.AddTracks` | r2/r2/controllers/reddit_base.py:588 | the add starts the counter of its slice at nothing or leaves it as it is |
| `RateProperties.IncrTracks` | r2/r2/controllers/reddit_base.py:589 | the incr gives a request its place among those of its slice |
| `RateProperties.OthersTrack` | r2/r2/controllers/reddit_base.py:588-589 | calls of another slice leave a slice's counter alone |
| `RateProperties.TickKeepsInv` | r2/r2/controllers/reddit_base.py:577-588 | as time passes the counters of all slices with requests at work stay right |
| `RateProperties.RunKeepsInv` | r2/r2/controllers/reddit_base.py:584-591 | over every interleaving the counter of each such slice is the number of its requests |
| `RateProperties.PassesOfExact` | r2/r2/controllers/reddit_base.py:842-859 | with exact counts, the first of a slice pass up to the quota and no more |
| `RateProperties.WindowOfExact` | r2/r2/controllers/reddit_base.py:842-859 | with exact counts, at most twice the quota pass in any window of one period |
| `RateProperties.QuotaHolds` | r2/r2/controllers/reddit_base.py:822-859 | over every interleaving whose calls are no later than is sound, the second after the slice included: exactly the first `quota` of each slice pass, no counter is ever missing, and at most twice the quota pass in any window of one period |
| `RateProperties.RunTallies` | r2/r2/controllers/reddit_base.py:842-859 | what requests are answered is what their counts say, over every run |
| `RateProperties.SliceAnswers` | r2/r2/controllers/reddit_base.py:842-859 | of the requests of a slice that are counted exactly the first `quota` are let pass |
| `RateProperties.AgentLimitHolds` | r2/r2/controllers/reddit_base.py:584-591 | over every timely run exactly the first `limit` requests of an agent that are counted in a slice are let pass |
| `RateProperties.SiteLimitHolds` | r2/r2/controllers/reddit_base.py:822-859 | over every timely run exactly the first `max_reqs` less one that are counted in a slice are let pass |
| `RateProperties.LocalsDoNotMatter` | r2/r2/lib/cache.py:379-402 | no count and no decision depends on any local cache or on which process serves a request |
| `RateProperties.GoesRightIff` | r2/r2/controllers/reddit_base.py:588-589 | for any period and however late, a call counts its request exactly and keeps the counter right if and only if the counter of its own slice has not lapsed; and when the fallback's count of one is right |
| `RateProperties.Overshoots` | r2/r2/controllers/reddit_base.py:822-859 | a counter that lapses while the requests of a slice are at work counts as many of them again from one |
| `RateProperties.UnsoundRun` | r2/r2/controllers/reddit_base.py:822-859 | where the limiter is not sound, for every quota a run that miscounts and lets twice the quota pass in one slice |
| `RateProperties.ExactIff` | r2/r2/controllers/reddit_base.py:822-859 | for every bound on lateness, counts are exact in all runs within it if and only if the limiter is sound for it |
| `RateProperties.QuotaHoldsIff` | r2/r2/controllers/reddit_base.py:822-859 | for every bound on lateness and every quota, no slice of any run within it passes more than the quota if and only if the limiter is sound for it |
| `RateLimit.MemcacheChain.Add` | r2/r2/lib/cache.py:262-266 | every layer adds if it holds no live counter |
| `RateLimit.MemcacheChain.Incr` | r2/r2/lib/cache.py:277-279 | every layer increments what it holds; the answer is memcached's, which has no counter once it has expired |
| `RateLimit.MemcacheChain.RatelimitAgent` | r2/r2/controllers/reddit_base.py:584-591 | a request passes exactly if the counter of its slice is there and below the limit when it is incremented; what happens to the counters, as steps of the machine, with anything in between |
| `RateLimit.MemcacheChain.SitewideRatelimits` | r2/r2/controllers/reddit_base.py:822-859 | a request is refused exactly if that is enforced and its count, or the fallback's one, is `max_reqs` or more; the headers; what happens to the counters, as steps of the machine |
| `QueryString.DecodeEncode` | scripts/traffic/utils.c:27-54 | decoding inverts percent-encoding, whatever bytes are encoded |
| `QueryString.EscapesAre` | scripts/traffic/utils.c:33-41 | an escape is a percent sign and the two hex digits of its byte, in either case |
| `QueryString.NoEscapes` | scripts/traffic/utils.c:32-48 | what has no percent sign stays as it is, and a percent sign without a hex digit ends the decoding without success |
| `QueryString.DecodeFrom` | scripts/traffic/utils.c:32-48 | one step of decoding, at any place of the string |
| `QueryString.ReadHex` | scripts/traffic/utils.c:34 | what sscanf reads of an escape, and where it fails |
| `QueryString.HalfwayOn` | scripts/traffic/utils.c:32-48 | one step in place: the part already written and the part still to be read stay what they should be, the write cursor behind the read cursor |
| `QueryString.DecodeOne` | scripts/traffic/utils.c:33-48 | one turn of the loop does that, or fails exactly at an escape that cannot be read |
| `QueryString.UrlDecode` | scripts/traffic/utils.c:27-54 | the string is decoded where it stands, its size is the decoded length, it is terminated, and nothing else is overwritten; -1 exactly where an escape cannot be read |
| `QueryString.Until` | scripts/traffic/utils.c:68-82 | the first place of a character |
| `QueryString.ParsedStrings` | scripts/traffic/utils.c:68-90 | the key, the value and the rest of the query are left in the buffer as strings of their own |
| `QueryString.ScannedOn` | scripts/traffic/utils.c:68-82 | one character of the scan: the first equals sign ends the key and starts the value, whose length is counted from there |
| `QueryString.ParseQueryParam` | scripts/traffic/utils.c:56-92 | where key and value are, the exact length of the value or -1, where the rest is, and that nothing but the two separators is overwritten; NULL gives -1 |
| `QueryString.PlacesGrow` | scripts/traffic/utils.c:56-92 | one more call leaves the parameters already parsed as they are |
| `QueryString.StringEquals` | scripts/traffic/decrypt_userinfo.c:47 | strcmp tells whether two strings are equal |
| `QueryString.Turn` | scripts/traffic/decrypt_userinfo.c:46-51 | one turn of the driver's loop |
| `QueryString.FindValue` | scripts/traffic/decrypt_userinfo.c:43-51 | the loop ends, at the first parameter with the wanted key or at -1, and has left every parameter up to there in the buffer, in order, with its length |
| `QueryString.ReadValue` | scripts/traffic/decrypt_userinfo.c:43-59 | the wanted value, decoded in place, or none if there is no such parameter |
| `QueryString.JoinIs` | scripts/traffic/utils.c:68-73 | parameters are written with an equals sign and joined with an ampersand |
| `QueryString.ParamsOfJoin` | scripts/traffic/utils.c:56-92 | parsing undoes joining: all parameters, in order, and then -1 |
| `QueryString.UpToAll` | scripts/traffic/decrypt_userinfo.c:46-51 | a loop that wants none of the keys goes through all parameters |
| `QueryString.EncodedJoinedFoundDecoded` | scripts/traffic/decrypt_userinfo.c:43-59 | bytes that are encoded, joined into a query with any others, looked up and decoded come back |
| `ChunkXml.RenderIs` | r2/r2/lib/cloudsearch.py:567 | the text of a batch is its tags and between them all its documents, each right behind the one before |
| `ChunkXml.PartIsShorter` | r2/r2/lib/cloudsearch.py:567-569 | a single document is no longer than the batch it is in |
| `ChunkXml.HalvesFit` | r2/r2/lib/cloudsearch.py:574-579 | a batch that is too long although every document fits has two smaller halves |
| `ChunkXml.SplitEnds` | r2/r2/lib/cloudsearch.py:562-583 | if every document fits, the calls go no deeper than the number of halvings |
| `ChunkXml.TooLongNeverEnds` | r2/r2/lib/cloudsearch.py:562-583 | if one does not, they go deeper than any depth |
| `ChunkXml.SplitEndsIff` | r2/r2/lib/cloudsearch.py:562-583 | the splitting ends if and only if every single document fits |
| `ChunkXml.SplitIsRight` | r2/r2/lib/cloudsearch.py:562-583 | every piece is under the limit, none is empty but an empty batch, and in order they are exactly the documents |
| `ChunkXml.Batch.TakeFrom` | r2/r2/lib/cloudsearch.py:576-579 | the elements that are added to one tree leave the other |
| `ChunkXml.Chunk` | r2/r2/lib/cloudsearch.py:562-583 | in place: what is yielded are the texts of those pieces, all under the limit, in order all the documents |

## Left out

- CacheColumns.RunColumn: a run of a chain is that of one process, and evictions happen between its operations, not in the middle of a read.
- CacheChains.CacheChain.Set: expiry times, and the plain chain's add, append, prepend, replace, incr and decr, which the source itself calls naive.
- CacheChains.Layer.Add: floating-point numbers, which the column holds as they are; the expiry of rows, and the database's own copies. A value that is read from the column is the one that was written.
- CacheProperties.ChainRefinesMap: the authority's own expiry, because a back-fill carries no time.
- Mutate.MutateColumn: a truth value and the number that Python takes for equal to it are different values here.
- Mutate.EveryRunIsSerial: unlocked reads that back-fill during a mutation, a process that dies inside the critical section, lock timeouts, and consistency levels.
- StaleChain.StaleCacheChain.SimpleGetMulti: a caller's own set of keys, which the source empties as it goes; the times of the stale cache are losses that may happen at any moment.
- StaleChain.StaleAnswersWereTrue: entries that other processes of the server put into the stale cache; they are covered by `StaleDataStaysOut`, where anything may happen to it.
- GoldTime.MonthsAndDays: the discounted prices are other values of `Prices`.
- GoldBooks.NetFollowsStatus: cancelled webhooks, which reverse without a look at the status, and webhooks of one transaction that run at the same time; each webhook is one step. Gold codes leave no net, because a code is nobody's until it is claimed.
- GoldBooks.GoldTable.CompleteGoldPurchase: a code purchase of a transaction that already has a row changes nothing; messages to users.
- GoldBooks.GoldTable.ReverseGoldPurchase: the clamp of gold time at the present moment, and reversals whose accounts are gone.
- Creddits.Shop.TakeBlob: the thirty days after which a blob expires, and `has_blob`, which reads without the lock.
- Creddits.Shop.SpendCreddits: a gift whose delivery raises and a code that cannot be sent leave the account alike; both are a spend that is not sent.
- Creddits.EachCodeOnce: the blob store is one atomic map under the lock.
- Amqp.HandleItems: callbacks that acknowledge messages themselves; a loop that does not drain is observed for any number of calls to the broker. Delivery tags are places among the outstanding deliveries.
- Amqp.DedupQueue: another routing key than the queue's own, publishes that fail, and consumers on other channels.
- RateProperties.QuotaHolds: evictions of counters; and calls that are later than is sound, where no quota holds, as `UnsoundRun` shows.
- RateLimit.MemcacheChain.SitewideRatelimits: memcached errors, which skip the limit; the choice of limits by kind of request; expiry times over thirty days, which memcached takes for points in time; keys of other clients, which never meet.
- QueryString.ReadHex: the same escapes as `UrlDecode`.
- QueryString.DecodeOne: the same.
- QueryString.ReadValue: the same.
- QueryString.UrlDecode: escapes of one hex digit, with white space, a sign or a 0x prefix, which the source leaves to sscanf. An escape that sscanf can begin nothing with is modelled.
- QueryString.ParseQueryParam: `split_fields`, and bytes of a line after the query.
- ChunkXml.Chunk: the text of a document is taken as it is; its rendering, and the generator's laziness.
- The clock is whole seconds, and sleeping is no step.
- Statistics, logging, messages, forms and validators; hashing and encryption; `SelfEmptyingCache` and `TransitionalCache`.
