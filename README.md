# TZ.RedisQueue: time-bucketed queues over Redis, in Dafny

`RedisQueueService` turns Redis into a message queue whose messages expire a
bucket at a time. A send writes the message to the key of the current time
bucket: the queue prefix, `_List_` or `_ZSet_`, and the current time rendered
as `yyyy-MM-dd_HH`. The async sends set the key's expiry right after the push
that creates the key. The sync sends issue it before the key exists, where it
has no effect (see Findings). A drain does these steps:

- builds a search pattern from the same text, with every date field replaced by `*`;
- gathers the matching keys from every server;
- sorts the keys ascending (oldest bucket first);
- takes messages from the buckets in that order until `count` are collected.

There are two queue kinds:

- **List queues** keep duplicates. A send does LPUSH and a drain does RPOP, so each bucket comes out FIFO.
- **Sorted-set queues** keep a message once per bucket (ZADD NX, scored by the send time). A drain takes batches of the lowest-scored members. On Redis below 5.0 a batch is ZRANGE followed by ZREM; from 5.0 it is ZPOPMIN.

The model is split into these modules:

- `Ordering` (`ordering.dfy`): ordinal string order, and an in-place insertion sort of a key array proved sorted and a permutation.
- `BucketKeys` (`bucket_keys.dfy`): the clock as integer fields, date formats, zero-padded fixed-width rendering, keys, patterns, the `*`-only glob matcher, and the source's `String.Replace` chain. Its proofs:
  - every key matches its drain's glob (wildcard `*` only; see Left out);
  - List keys and sorted-set keys never match each other's glob;
  - key order is chronological order;
  - two keys are equal exactly when they fall in the same window.
- `Outcome` (`outcome.dfy`): the thrown exceptions as an `Error` datatype, plus `Result`/`Option`.
- `RedisStore` (`redis_store.dfy`): the abstract Redis server.
  - A `Db` snapshot holds three maps: key → list, key → sorted set (kept in Redis rank order), and key → expiry.
  - Each command used has a function giving its effect.
  - The class `Store` holds the maps and issues EXISTS, EXPIRE, LPUSH, LLEN, RPOP, ZADD NX, ZCARD, ZRANGE, ZREM, ZPOPMIN and KEYS.
  - EXPIRE on a missing key does nothing. An emptied list or set is deleted together with its expiry.
- `QueueSpec` (`queue_spec.dfy`): the two drains as functions of the snapshot, the sorted keys and the number still wanted, with the lemmas about them (bound, frame, bucket order, FIFO, lowest scores first, dedup, key gathering).
- `RedisQueue` (`redis_queue_service.dfy`): the class `RedisQueueService`, with the constructor's checks and every send, drain and key-gathering method. Each drain and the key gathering are loops proved equal to the specification function. Each send is straight-line code whose `ensures` gives the new store.

Three inputs are parameters of the methods: the wall clock (`DateTime.Now`), the score (`DateTime.Now.Ticks`) and the server version. The store connection, the list of servers and the version are handed to the service when it is created.

Two points of layout and failure follow the code exactly:

- The key is `prefix + "_List_" + "yyyy-MM-dd_HH"`. There is no unit tag and no `:` separator (RedisQueueService.cs:23-26, 119-120).
- Send and drain calls fail on a key that holds the other structure (WRONGTYPE). This is modelled as `Err(WrongType)`.

## Model

| member | source | states |
|---|---|---|
| RedisQueue.CheckOptions | TZ.RedisQueue/RedisQueueService.cs:50-61 | construction fails with the first failing check, in order: database < 0, empty host, port < 0; it succeeds exactly when all three hold |
| RedisQueue.RedisQueueService.Create | TZ.RedisQueue/RedisQueueService.cs:36-61 | bad options give the matching error and no service; good options give a fresh service over the given store, servers and version |
| RedisQueue.SendCheck | TZ.RedisQueue/RedisQueueService.Async.cs:38-45 | a send is rejected for an empty message, then for a multiplier <= 1, and passes exactly when neither holds |
| RedisQueue.SendChecks | TZ.RedisQueue/RedisQueueService.Async.cs:38-46 | a send's checks before any store call: the argument checks first, then `ExpiryTooLong` exactly when the arguments pass but the expiry does not fit a TimeSpan; none fails exactly when the message is non-empty, the multiplier > 1 and the expiry fits |
| BucketKeys.ExpiryLimits | TZ.RedisQueue/RedisQueueService.cs:116 | the TimeSpan conversion of a multiplier > 1 succeeds exactly up to 256,204,778 hours and 10,675,199 days, and always for an Int32 number of minutes |
| RedisQueue.RedisQueueService.SendQueueWithKeyExpiry | TZ.RedisQueue/RedisQueueService.Async.cs:32-62 | a send rejected by SendChecks (arguments or TimeSpan overflow) fails with that error and leaves the store unchanged; otherwise msg is at the left end of exactly the current bucket key; the expiry is set only when the key was new, and an existing key keeps its expiry; a key holding a sorted set fails with nothing changed; on success the key is among those the drain of the same unit gathers from the servers |
| RedisQueue.RedisQueueService.SendHoursQueueAsync | TZ.RedisQueue/RedisQueueService.Async.cs:124-135 | the list send to the hour bucket; a bucket it creates gets an expiry of 3600 × expiryHours seconds; more than 256,204,778 hours fails with `ExpiryTooLong`; on success the hour List drain gathers the key |
| RedisQueue.RedisQueueService.SendMinutesQueueAsync | TZ.RedisQueue/RedisQueueService.Async.cs:145-156 | as written: the message goes to the hour bucket with an expiry of expiryMinutes hours, and that key is never matched by the minute drain's glob, though the hour drain gathers it; the TimeSpan overflow check is the one for hours |
| RedisQueue.RedisQueueService.SendMinutesQueueCorrected | TZ.RedisQueue/RedisQueueService.Async.cs:145-156 | the minute send as intended: the minute bucket, an expiry of expiryMinutes minutes, found by the minute drain's glob and gathered by it on success |
| RedisQueue.RedisQueueService.SendHoursQueue | TZ.RedisQueue/RedisQueueService.cs:106-132 | same rejection; EXPIRE comes before the push and only on an absent key, so the expiry table never changes and a bucket this send creates has no expiry; `TimeSpan.FromHours` overflow is rejected before the store is touched; on success the hour List drain gathers the key |
| RedisQueue.ExpireBeforeCreateIsLost | TZ.RedisQueue/RedisQueueService.cs:121-129 | on a new key, EXPIRE then LPUSH leaves no expiry, while LPUSH then EXPIRE sets it |
| RedisQueue.RedisQueueService.DrainListBucket | TZ.RedisQueue/RedisQueueService.Async.cs:96-109 | each RPOP of one bucket while LLEN > 0 matches the list-drain function; the loop ends Filled exactly when count is reached |
| RedisQueue.RedisQueueService.DrainLists | TZ.RedisQueue/RedisQueueService.Async.cs:88-111 | the loop over the keys returns exactly what the list-drain function gives and leaves exactly its store |
| RedisQueue.RedisQueueService.GetMessageByKeyExpiry | TZ.RedisQueue/RedisQueueService.Async.cs:72-112 | count <= 0 is rejected with the store unchanged; otherwise the keys are the sorted gathered keys for the unit's List glob, and the result and new store are the list drain over them, with at most count messages |
| RedisQueue.RedisQueueService.GetHoursMessageAsync | TZ.RedisQueue/RedisQueueService.Async.cs:165-168 | the list drain over every key the hour List glob gathers: the hour buckets and, under the minute layout assumed here, the minute buckets too (HoursGlobFindsMinuteKeys) |
| RedisQueue.RedisQueueService.GetMinutesMessageAsync | TZ.RedisQueue/RedisQueueService.Async.cs:177-180 | the list drain over the minute List buckets |
| RedisQueue.RedisQueueService.GetHoursMessage | TZ.RedisQueue/RedisQueueService.cs:142-177 | the sync drain; its replaced-text pattern is the hour pattern, so it behaves like the hour list drain, minute buckets included |
| RedisQueue.RedisQueueService.SendSortQueueWithKeyExpiry | TZ.RedisQueue/RedisQueueService.Async.cs:197-228 | a rejected send leaves the store unchanged; otherwise the answer is whether msg was absent from the bucket; an absent msg is inserted with the score, a present one changes nothing, its score included; the expiry is set only when the key was new and the add succeeded; TimeSpan overflow fails with `ExpiryTooLong` before any store call; on success the key is among those the drain of the same unit gathers |
| RedisQueue.RedisQueueService.SendHoursSortQueueAsync | TZ.RedisQueue/RedisQueueService.Async.cs:362-373 | the sorted send to the hour bucket; more than 256,204,778 hours fails with `ExpiryTooLong`; on success the hour sorted drain gathers the key |
| RedisQueue.RedisQueueService.SendMinutesSortQueueAsync | TZ.RedisQueue/RedisQueueService.Async.cs:384-395 | the sorted send to the minute bucket, gathered by the minute sorted drain on success |
| RedisQueue.RedisQueueService.SendHoursSortQueue | TZ.RedisQueue/RedisQueueService.cs:195-221 | the sync sorted send: EXPIRE comes before ZADD NX, so the expiry table never changes and a new bucket has no expiry; `TimeSpan.FromHours` overflow is rejected before the store is touched; on success the hour sorted drain gathers the key |
| RedisQueue.RedisQueueService.TakeBatch | TZ.RedisQueue/RedisQueueService.Async.cs:304-341 | a batch is the min(need, size) lowest-ranked members; both the pre-5.0 ZRANGE+ZREM path and the ZPOPMIN path return it and leave the same store |
| RedisQueue.RedisQueueService.DrainZSetBucket | TZ.RedisQueue/RedisQueueService.Async.cs:267-347 | batches from one bucket while ZCARD > 0 match the sorted-drain function; the loop ends Filled exactly when count is reached |
| RedisQueue.RedisQueueService.DrainZSets | TZ.RedisQueue/RedisQueueService.Async.cs:258-349 | the loop over the keys returns exactly what the sorted-drain function gives and leaves exactly its store |
| RedisQueue.RedisQueueService.GetSortMessageByKeyExpiry | TZ.RedisQueue/RedisQueueService.Async.cs:239-350 | count <= 0 is rejected with the store unchanged; otherwise the sorted drain over the sorted gathered keys for the unit's sorted-set glob, with at most count messages |
| RedisQueue.RedisQueueService.GetHoursSortMessageAsync | TZ.RedisQueue/RedisQueueService.Async.cs:404-411 | rejects count <= 0, then the sorted drain over every key the hour sorted-set glob gathers, minute buckets of the assumed layout included |
| RedisQueue.RedisQueueService.GetMinutesSortMessageAsync | TZ.RedisQueue/RedisQueueService.Async.cs:420-427 | rejects count <= 0, then the sorted drain over the minute buckets |
| RedisQueue.RedisQueueService.GetHoursSortMessage | TZ.RedisQueue/RedisQueueService.cs:231-338 | the sync sorted drain with the replaced-text hour pattern, which gathers the minute buckets of the assumed layout as well |
| RedisQueue.RedisQueueService.GetKeysByPrefix | TZ.RedisQueue/RedisQueueService.Async.cs:433-450 | the result is sorted ascending and, as a multiset, is every key of every server that matches pattern + "*", duplicates across servers kept |
| Ordering.SortKeyList | TZ.RedisQueue/RedisQueueService.cs:383-387 | the sorted key list is ascending and a permutation of the gathered list |
| Ordering.SortKeys | TZ.RedisQueue/RedisQueueService.Async.cs:444-448 | the in-place sort of the key array leaves it sorted and a permutation of its old contents |
| Ordering.SortedUnique | TZ.RedisQueue/RedisQueueService.Async.cs:444-448 | two sorted arrangements of the same keys are equal, so the gathered keys fix the drain order |
| BucketKeys.KeyMatchesGlob | TZ.RedisQueue/RedisQueueService.cs:377 | under the `*`-only glob, every key a send builds, for any prefix, unit and time, matches pattern + "*" of the same unit, kind and prefix; Redis agrees only for prefixes free of `?`, `[`, `]` and `\` (see Left out) |
| BucketKeys.ListKeysMissZSetScan | TZ.RedisQueue/RedisQueueService.cs:23-24 | a List key never matches a sorted-set glob of the same prefix |
| BucketKeys.ZSetKeysMissListScan | TZ.RedisQueue/RedisQueueService.cs:239-244 | a sorted-set key never matches a List glob of the same prefix |
| BucketKeys.MinutesScanMissesHourBuckets | TZ.RedisQueue/RedisQueueService.Async.cs:155 | an hour-bucket key never matches the minute glob, so messages from the minute list send are invisible to the minute drain |
| BucketKeys.HoursPatternIsMask | TZ.RedisQueue/RedisQueueService.cs:150-155 | the Replace chain applied to "yyyy-MM-dd_HH" gives "*-*-*_*", which is the hour format with each field masked |
| BucketKeys.ReplacedHoursPattern | TZ.RedisQueue/RedisQueueService.cs:239-244 | the sync drains' pattern built by text replacement equals the hour pattern |
| BucketKeys.KeyIdentifiesWindow | TZ.RedisQueue/RedisQueueService.cs:119-120 | two sends build the same key exactly when their times fall in the same window |
| BucketKeys.KeyOrderIsChronological | TZ.RedisQueue/RedisQueueService.cs:26 | for valid times, keys of the same prefix, kind and unit compare as text the way their windows compare in time |
| BucketKeys.HoursWindow | TZ.RedisQueue/RedisQueueService.cs:26 | the hour window is (year, month, day, hour) |
| BucketKeys.DigitsOrder | TZ.RedisQueue/RedisQueueService.cs:119 | zero-padded fixed-width numbers compare as text as they compare as numbers, and print equal only when equal |
| RedisStore.RangeThenRemoveIsPopMin | TZ.RedisQueue/RedisQueueService.Async.cs:316-321 | ZREM of the members read by ZRANGE 0..n-1 leaves exactly the set without its n lowest-ranked entries |
| RedisStore.InsertValid | TZ.RedisQueue/RedisQueueService.Async.cs:221 | adding an absent member keeps the set in rank order, each member once |
| RedisStore.RemoveMembersValid | TZ.RedisQueue/RedisQueueService.Async.cs:321 | ZREM keeps the set ordered and distinct, and only removes |
| RedisStore.Store.Exists | TZ.RedisQueue/RedisQueueService.Async.cs:51 | EXISTS answers whether the key holds a list or a set |
| RedisStore.Store.Expire | TZ.RedisQueue/RedisQueueService.cs:124 | EXPIRE on a missing key changes nothing; on an existing key it sets the expiry |
| RedisStore.Store.LPush | TZ.RedisQueue/RedisQueueService.Async.cs:55 | LPUSH puts the value at the left end and answers the new length; on a sorted-set key it fails with nothing changed |
| RedisStore.Store.LLen | TZ.RedisQueue/RedisQueueService.Async.cs:96 | LLEN is the list length; 0 on a missing key |
| RedisStore.Store.RPop | TZ.RedisQueue/RedisQueueService.Async.cs:98 | RPOP returns and removes the rightmost value; on a missing key it returns nothing and changes nothing |
| RedisStore.Store.ZAddNX | TZ.RedisQueue/RedisQueueService.Async.cs:221 | ZADD NX answers whether the member was absent; it inserts it at its rank or leaves the set as is |
| RedisStore.Store.ZCard | TZ.RedisQueue/RedisQueueService.Async.cs:267 | ZCARD is the set size; 0 on a missing key |
| RedisStore.Store.ZRangeByRank | TZ.RedisQueue/RedisQueueService.Async.cs:316 | ZRANGE start stop gives the members of those ranks, ascending |
| RedisStore.Store.ZRem | TZ.RedisQueue/RedisQueueService.Async.cs:321 | ZREM removes the listed members and answers how many were removed |
| RedisStore.Store.ZPopMin | TZ.RedisQueue/RedisQueueService.Async.cs:331 | ZPOPMIN n returns and removes the min(n, size) lowest-ranked entries |
| RedisStore.Store.Keys | TZ.RedisQueue/RedisQueueService.Async.cs:438 | KEYS gives each matching key of the server once |
| QueueSpec.ListDrainAtMost | TZ.RedisQueue/RedisQueueService.Async.cs:96-108 | a list drain never returns more than count messages |
| QueueSpec.ListDrainNoBuckets | TZ.RedisQueue/RedisQueueService.Async.cs:88-95 | when no gathered key exists, the list drain returns the empty list and changes nothing |
| QueueSpec.ListDrainFrame | TZ.RedisQueue/RedisQueueService.Async.cs:88-111 | a list drain changes no sorted set, creates no key, leaves every key it does not visit as it was, and when it comes back short every visited bucket is gone |
| QueueSpec.ListDrainSplit | TZ.RedisQueue/RedisQueueService.Async.cs:88-109 | draining keys1 + keys2 returns everything taken from keys1 before anything from keys2 |
| QueueSpec.FifoRoundTrip | TZ.RedisQueue/RedisQueueService.Async.cs:55 | messages left-pushed into a new bucket come out of the drain in the order they were sent: the first min(count, n) of them |
| QueueSpec.ListDrainPopOne | TZ.RedisQueue/RedisQueueService.Async.cs:98-104 | one RPOP of the first bucket is the first step of the list drain |
| QueueSpec.ZSetDrainAtMost | TZ.RedisQueue/RedisQueueService.Async.cs:304-345 | a sorted drain never returns more than count messages |
| QueueSpec.ZSetDrainNoBuckets | TZ.RedisQueue/RedisQueueService.Async.cs:258-265 | when no gathered key exists, the sorted drain returns the empty list and changes nothing |
| QueueSpec.ZSetDrainFrame | TZ.RedisQueue/RedisQueueService.Async.cs:258-349 | a sorted drain changes no list, creates no key and leaves every key it does not visit as it was |
| QueueSpec.ZSetBatchIsLowest | TZ.RedisQueue/RedisQueueService.Async.cs:304-341 | a batch is the lowest-scored members, ascending by score, without duplicates; exactly those leave the bucket, and every member left scores no lower |
| QueueSpec.ZAddTwice | TZ.RedisQueue/RedisQueueService.Async.cs:217-226 | after an add the member is present, and adding it again with any score changes nothing |
| QueueSpec.ScanKeysMembers | TZ.RedisQueue/RedisQueueService.Async.cs:436-443 | a key is gathered exactly when some server holds it and it matches the glob under the `*`-only matcher |
| QueueSpec.SentKeyIsScanned | TZ.RedisQueue/RedisQueueService.Async.cs:433-443 | every bucket held by one of the scanned servers is gathered by the drain of the same unit, kind and prefix |
| RedisQueue.RedisQueueService.StoredKeyIsScanned | TZ.RedisQueue/RedisQueueService.Async.cs:433-443 | the service's database is one of its servers, so a key it holds is gathered by every glob the key matches |
| BucketKeys.HoursGlobFindsMinuteKeys | TZ.RedisQueue/RedisQueueService.Async.cs:165-168 | under the assumed minute layout, the hour glob's trailing wildcard matches every minute key of the same prefix and kind |

## Left out

- Connection setup (`InitRedis`, `GetServers`) and the double-checked static initialisation are left out: they are network plumbing. The store, the server list and the server version are arguments of `Create`.
- Locks (`lock`, `SemaphoreSlim`), `CancellationToken` and async/await are left out: each operation is one sequential method over the store. Races between concurrent senders and drainers are therefore out of scope.
- The `getBySingle` branch of the sorted drains is not modelled: its flag is always false.
- `DateTime.Now` and `DateTime.Now.Ticks` are method parameters. The model does not require scores to increase across sends.
- `GetQueueKey`, `GetQueueKeyPattern`, `GetKeyExpiryTime`, `KeyExpiryTimeType` and `RedisDataType` are not part of this model. Key, pattern, expiry and unit follow the inline code of RedisQueueService.cs:116-120 and 150-155. The minute and day formats are not in the source; the model assumes `yyyy-MM-dd_HH_mm` and `yyyy-MM-dd`.
- The minute/day custom format options and their validation are not part of this model (RedisQueueOptions is a plain property bag).
- The null checks on the options object (RedisQueueService.cs:38-49) are left out: in the model an options value always exists.
- Ordering.SortKeyList: `List<string>.Sort()` compares culture-sensitively. The model sorts by ordinal character order, which can differ from culture order for keys with different prefixes or separators.
- The empty-batch `break` (Async.cs:317-320, 332-334) and RPOP of a nil value cannot happen in one sequential run, because the size query just answered positive. Both only arise under concurrent drains, which are left out.
- Expiry over time is not modelled: the expiry table records the seconds last set, and keys never time out by themselves.
- Transport errors are not modelled. WRONGTYPE replies are modelled as `Err(WrongType)`.
- The sync `GetkeysByPrefix` and `GetkeysByPrefixAsync` make the same store calls, so both are `GetKeysByPrefix`. Likewise, the async drains' loops are shared by the sync drains.
- The server version is only compared against 5.0.0 (`VersionBelow`). Version strings are not parsed.
- The `Days` unit is modelled, but no public method in RedisQueueService.cs or RedisQueueService.Async.cs uses it. The demo (Demo/Program.cs:67, 91, 168, 195) calls four Days wrappers: `SendDaysQueueAsync`, `GetDaysMessageAsync`, `SendDaysSortQueueAsync` and `GetDaysSortMessageAsync`. They are not in these files and are not part of this model. With the assumed day format, the day glob `prefix_List_*-*-**` also gathers hour and minute buckets, which is then what those drains would do.
- The hour drains gather minute buckets too when the minute format starts with the hour format, as assumed here (`yyyy-MM-dd_HH_mm`). This follows from the assumed layout: the source's minute format is not part of this model.
- `GetKeyExpiryTime` is assumed to be `TimeSpan.FromMinutes`/`FromHours`/`FromDays` of the multiplier, like the inline `TimeSpan.FromHours` of the sync sends. Its `OverflowException` is `ExpiryTooLong`.
- Integer parameters are unbounded, not Int32. A multiplier above 2,147,483,647 cannot reach the source. For such values `ExpiryLimits` and `SendChecks` still give the TimeSpan answer.
- Scores are integers. Redis stores a score as a double, so a `DateTime.Now.Ticks` score near 6.4e17 is rounded to a multiple of 128. Sends closer together than that tie, and tied members are ranked by member text. The model keeps the exact tick count, so its order can differ from Redis for sends that close.
- BucketKeys.KeyMatchesGlob: `Match` treats only `*` as a wildcard. Redis KEYS patterns also give `?`, `[…]` and `\` a meaning, and the queue prefix is part of the pattern (RedisQueueService.cs:377, Async.cs:438). Every result that a send's key is gathered by its drain therefore holds in Redis only for prefixes without `?`, `[`, `]` and `\`. This covers KeyMatchesGlob, SentKeyIsScanned, StoredKeyIsScanned and the sends' "gathers the key" clauses. With `[` or `\` in the prefix the source's drain misses its own buckets. With `?` it also gathers other queues' buckets. The model captures neither.
- The service's database is assumed to be one of the scanned servers (`Valid`). Cluster sharding of keys across servers is not modelled.

## Findings

| source | as written | input that shows it | evidently intended | confidence | as-written member | corrected member |
|---|---|---|---|---|---|---|
| TZ.RedisQueue/RedisQueueService.Async.cs:155 | `SendMinutesQueueAsync` passes `KeyExpiryTimeType.Hours`: the message goes to the hour bucket with an expiry of expiryMinutes hours, and `GetMinutesMessageAsync` (line 179) never scans that bucket | prefix "Q", msg "m", expiryMinutes 2: the key is `Q_List_<date>_<hour>`, which does not match the minute glob | pass `KeyExpiryTimeType.Minutes`, as the sorted minute send does (line 394) | high (not executed) | RedisQueue.RedisQueueService.SendMinutesQueueAsync | RedisQueue.RedisQueueService.SendMinutesQueueCorrected |
| TZ.RedisQueue/RedisQueueService.cs:121-129 | `SendHoursQueue` issues EXPIRE before LPUSH and only on an absent key; EXPIRE on a missing key does nothing, so a new bucket never expires (same at lines 210-218) | an empty store, any prefix, msg "m", expiryHours 2: afterwards the bucket exists with no expiry | set the expiry after the push when the key was new, as the async send does (Async.cs:56-59) | high (not executed) | RedisQueue.RedisQueueService.SendHoursQueue | RedisQueue.RedisQueueService.SendHoursQueueAsync |
