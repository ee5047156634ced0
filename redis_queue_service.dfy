/** RedisQueueService: queues kept in time-bucketed store keys. A send
    writes to the bucket of the current time unit; a drain gathers the
    buckets of a prefix from every server, sorts their keys (oldest bucket
    first) and takes messages from them in that order. List queues keep
    duplicates and come out FIFO; sorted-set queues keep each message once
    per bucket and come out by ascending score. The wall clock and the score
    (DateTime.Now, its Ticks) are parameters; the servers, the database and
    the server version are handed to the service when it is created. */
module RedisQueue {
  import opened Ordering
  import opened Outcome
  import opened BucketKeys
  import opened RedisStore
  import opened QueueSpec

  /** The RedisQueueOptions fields the service reads. */
  datatype Options = Options(defaultDatabase: int, host: string, port: int, password: string)

  /** The constructor's checks, in their order. */
  function CheckOptions(o: Options): (r: Option<Error>)
    ensures r == None <==> o.defaultDatabase >= 0 && o.host != [] && o.port >= 0
    ensures r == Some(BadDatabase) <==> o.defaultDatabase < 0
    ensures r == Some(EmptyHost) <==> o.defaultDatabase >= 0 && o.host == []
    ensures r == Some(BadPort) <==> o.defaultDatabase >= 0 && o.host != [] && o.port < 0
  {
    if o.defaultDatabase < 0 then Some(BadDatabase)
    else if o.host == [] then Some(EmptyHost)
    else if o.port < 0 then Some(BadPort)
    else None
  }

  /** The argument checks every send makes before it touches the store. */
  function SendCheck(msg: string, times: int): (r: Option<Error>)
    ensures r == None <==> msg != [] && times > 1
    ensures r == Some(EmptyMessage) <==> msg == []
    ensures r == Some(ExpiryTooSmall) <==> msg != [] && times <= 1
  {
    if msg == [] then Some(EmptyMessage)
    else if times <= 1 then Some(ExpiryTooSmall)
    else None
  }

  /** Everything a send checks before it touches the store: its arguments,
      then the conversion of the expiry to a TimeSpan in unit u. */
  function SendChecks(u: Unit, msg: string, times: int): (r: Option<Error>)
    ensures r == None <==> msg != [] && times > 1 && ExpiryFits(u, times)
    ensures SendCheck(msg, times).Some? ==> r == SendCheck(msg, times)
    ensures r == Some(ExpiryTooLong) <==> SendCheck(msg, times) == None && !ExpiryFits(u, times)
  {
    if SendCheck(msg, times).Some? then SendCheck(msg, times)
    else if !ExpiryFits(u, times) then Some(ExpiryTooLong)
    else None
  }

  /** A server version, major.minor.build. */
  datatype Version = Version(major: nat, minor: nat, build: nat)

  predicate VersionBelow(a: Version, b: Version)
  {
    a.major < b.major || (a.major == b.major && (a.minor < b.minor || (a.minor == b.minor && a.build < b.build)))
  }

  /** ZPOPMIN with a count needs Redis 5.0.0. */
  const PopMinVersion := Version(5, 0, 0)

  /** A list send that passed its checks: the message is at the left end of
      key and the key's expiry table is newTtl; on a key that holds a
      sorted set the push fails and nothing changes. */
  predicate ListSend(d: Db, e: Db, r: Result<bool>, key: string, msg: string, newTtl: map<string, int>)
  {
    if key in d.zsets then r == Err(WrongType) && e == d
    else r == Ok(true) && e == Db(d.lists[key := [msg] + ListOf(d, key)], d.zsets, newTtl)
  }

  /** A sorted-set send that passed its checks: the message is added with
      the score unless the bucket already holds it, and the answer says
      which; on a key that holds a list the add fails and nothing changes. */
  predicate ZSetSend(d: Db, e: Db, r: Result<bool>, key: string, msg: string, score: int, newTtl: map<string, int>)
  {
    if key in d.lists then r == Err(WrongType) && e == d
    else
      var added := msg !in Members(ZSetOf(d, key));
      && r == Ok(added)
      && e == Db(d.lists, if added then d.zsets[key := Insert(ZSetOf(d, key), Entry(msg, score))] else d.zsets, newTtl)
  }

  /** The expiry table after an asynchronous send: a bucket the send
      created gets the expiry, an existing one keeps its own. */
  function AsyncTtl(d: Db, key: string, secs: int, succeeded: bool): map<string, int>
  {
    if !KeyExists(d, key) && succeeded then d.ttl[key := secs] else d.ttl
  }

  /** On a bucket that does not exist yet, EXPIRE before the push is lost
      (the synchronous order) while EXPIRE after the push sticks (the
      asynchronous order). */
  lemma ExpireBeforeCreateIsLost(d: Db, k: string, secs: int, v: string)
    requires DbValid(d) && !KeyExists(d, k) && secs > 0
    ensures k !in LPushDb(ExpireDb(d, k, secs), k, v).ttl
    ensures var e := ExpireDb(LPushDb(d, k, v), k, secs); k in e.ttl && e.ttl[k] == secs
  {
    assert k !in d.ttl;
  }

  /** How the drain of one bucket ended: enough messages were taken, the
      bucket was emptied, or the bucket holds the other kind. */
  datatype BucketEnd = Filled | Emptied | WrongKind

  class RedisQueueService {
    const options: Options
    /** The database the commands go to (DefaultDatabase of the connection). */
    const db: Store
    /** The servers of the same connection, whose keys are scanned; the
        database lives on one of them. */
    const servers: seq<Store>
    /** The version of the first server. */
    const version: Version

    ghost predicate Valid()
      reads this, db
    {
      CheckOptions(options) == None && db.Valid() && db in servers
    }

    /** What each server holds. */
    ghost function Views(): seq<Db>
      reads this, servers
    {
      seq(|servers|, i reads servers requires 0 <= i < |servers| => servers[i].Model())
    }

    constructor (options: Options, db: Store, servers: seq<Store>, version: Version)
      requires CheckOptions(options) == None && db.Valid() && db in servers
      ensures Valid()
      ensures this.options == options && this.db == db && this.servers == servers && this.version == version
    {
      this.options, this.db, this.servers, this.version := options, db, servers, version;
    }

    /** The constructor: rejects bad options, otherwise a service over the
        given connection. */
    static method Create(options: Options, db: Store, servers: seq<Store>, version: Version)
      returns (r: Result<RedisQueueService>)
      requires db.Valid() && db in servers
      ensures CheckOptions(options).Some? ==> r == Err(CheckOptions(options).value)
      ensures CheckOptions(options) == None ==>
        && r.Ok? && fresh(r.value) && r.value.Valid()
        && r.value.options == options && r.value.db == db && r.value.servers == servers && r.value.version == version
    {
      var e := CheckOptions(options);
      if e.Some? {
        return Err(e.value);
      }
      var s := new RedisQueueService(options, db, servers, version);
      r := Ok(s);
    }

    // -------------------------------------------------------------------
    // Key gathering

    /** Keys matching pattern + "*" from every server, sorted ascending. */
    method GetKeysByPrefix(pattern: string) returns (keys: seq<string>)
      ensures Sorted(keys)
      ensures multiset(keys) == ScanKeys(Views(), Glob(pattern))
    {
      ghost var views := Views();
      var glob := Glob(pattern);
      var acc: seq<string> := [];
      var i := 0;
      while i < |servers|
        invariant 0 <= i <= |servers|
        invariant multiset(acc) == ScanKeys(views[..i], glob)
      {
        var ks := servers[i].Keys(glob);
        assert views[i] == servers[i].Model();
        ScanKeysStep(views, i, glob);
        acc := acc + ks;
        i := i + 1;
      }
      assert views[..|servers|] == views;
      keys := SortKeyList(acc);
    }

    /** A key the database holds is gathered by every scan whose glob it
        matches: the database is one of the scanned servers. */
    lemma StoredKeyIsScanned(k: string, glob: string)
      requires Valid() && KeyExists(db.Model(), k) && Match(glob, k)
      ensures k in ScanKeys(Views(), glob)
    {
      var j :| 0 <= j < |servers| && servers[j] == db;
      assert Views()[j] == db.Model();
      ScanKeysMembers(Views(), glob, k);
    }

    // -------------------------------------------------------------------
    // List queues

    /** Pushes to the bucket of now, then gives a bucket the push created
        its expiry. */
    method SendQueueWithKeyExpiry(prefix: string, msg: string, unit: Unit, times: int, now: Time)
      returns (r: Result<bool>)
      requires Valid()
      modifies db
      ensures Valid()
      ensures SendChecks(unit, msg, times).Some? ==> r == Err(SendChecks(unit, msg, times).value) && db.Model() == old(db.Model())
      ensures SendChecks(unit, msg, times) == None ==>
        var key := Key(unit, List, prefix, now);
        ListSend(old(db.Model()), db.Model(), r, key, msg, AsyncTtl(old(db.Model()), key, ExpirySeconds(unit, times), true))
      ensures r.Ok? ==> Key(unit, List, prefix, now) in ScanKeys(Views(), Glob(Pattern(unit, List, prefix)))
    {
      var e := SendCheck(msg, times);
      if e.Some? {
        return Err(e.value);
      }
      if !ExpiryFits(unit, times) {
        return Err(ExpiryTooLong);
      }
      var secs := ExpirySeconds(unit, times);
      var key := Key(unit, List, prefix, now);
      var keyExists := db.Exists(key);
      var pushed := db.LPush(key, msg);
      if pushed.Err? {
        return Err(pushed.error);
      }
      if !keyExists && pushed.value > 0 {
        var _ := db.Expire(key, secs);
      }
      r := Ok(pushed.value > 0);
      KeyMatchesGlob(unit, List, prefix, now);
      StoredKeyIsScanned(key, Glob(Pattern(unit, List, prefix)));
    }

    method SendHoursQueueAsync(prefix: string, msg: string, expiryHours: int, now: Time)
      returns (r: Result<bool>)
      requires Valid()
      modifies db
      ensures Valid()
      ensures SendChecks(Hours, msg, expiryHours).Some? ==> r == Err(SendChecks(Hours, msg, expiryHours).value) && db.Model() == old(db.Model())
      ensures SendChecks(Hours, msg, expiryHours) == None ==>
        var key := Key(Hours, List, prefix, now);
        ListSend(old(db.Model()), db.Model(), r, key, msg, AsyncTtl(old(db.Model()), key, ExpirySeconds(Hours, expiryHours), true))
      ensures SendChecks(Hours, msg, expiryHours) == None && r.Ok? && !KeyExists(old(db.Model()), Key(Hours, List, prefix, now)) ==>
        db.ttl[Key(Hours, List, prefix, now)] == 3600 * expiryHours
      ensures r.Ok? ==> Key(Hours, List, prefix, now) in ScanKeys(Views(), Glob(Pattern(Hours, List, prefix)))
    {
      var e := SendCheck(msg, expiryHours);
      if e.Some? {
        return Err(e.value);
      }
      r := SendQueueWithKeyExpiry(prefix, msg, Hours, expiryHours, now);
    }

    /** As written: the expiry unit handed on is Hours, so the message goes
        to the hour bucket, which the minute drain never scans. */
    method SendMinutesQueueAsync(prefix: string, msg: string, expiryMinutes: int, now: Time)
      returns (r: Result<bool>)
      requires Valid()
      modifies db
      ensures Valid()
      ensures SendChecks(Hours, msg, expiryMinutes).Some? ==> r == Err(SendChecks(Hours, msg, expiryMinutes).value) && db.Model() == old(db.Model())
      ensures SendChecks(Hours, msg, expiryMinutes) == None ==>
        var key := Key(Hours, List, prefix, now);
        ListSend(old(db.Model()), db.Model(), r, key, msg, AsyncTtl(old(db.Model()), key, ExpirySeconds(Hours, expiryMinutes), true))
      ensures !Match(Glob(Pattern(Minutes, List, prefix)), Key(Hours, List, prefix, now))
      ensures r.Ok? ==> Key(Hours, List, prefix, now) in ScanKeys(Views(), Glob(Pattern(Hours, List, prefix)))
    {
      MinutesScanMissesHourBuckets(List, prefix, now);
      var e := SendCheck(msg, expiryMinutes);
      if e.Some? {
        return Err(e.value);
      }
      r := SendQueueWithKeyExpiry(prefix, msg, Hours, expiryMinutes, now);
    }

    /** The minute send as its name and parameter say: the minute bucket,
        an expiry of expiryMinutes minutes, found by the minute drain. */
    method SendMinutesQueueCorrected(prefix: string, msg: string, expiryMinutes: int, now: Time)
      returns (r: Result<bool>)
      requires Valid()
      modifies db
      ensures Valid()
      ensures SendChecks(Minutes, msg, expiryMinutes).Some? ==> r == Err(SendChecks(Minutes, msg, expiryMinutes).value) && db.Model() == old(db.Model())
      ensures SendChecks(Minutes, msg, expiryMinutes) == None ==>
        var key := Key(Minutes, List, prefix, now);
        ListSend(old(db.Model()), db.Model(), r, key, msg, AsyncTtl(old(db.Model()), key, ExpirySeconds(Minutes, expiryMinutes), true))
      ensures Match(Glob(Pattern(Minutes, List, prefix)), Key(Minutes, List, prefix, now))
      ensures r.Ok? ==> Key(Minutes, List, prefix, now) in ScanKeys(Views(), Glob(Pattern(Minutes, List, prefix)))
    {
      KeyMatchesGlob(Minutes, List, prefix, now);
      var e := SendCheck(msg, expiryMinutes);
      if e.Some? {
        return Err(e.value);
      }
      r := SendQueueWithKeyExpiry(prefix, msg, Minutes, expiryMinutes, now);
    }

    /** The synchronous send: the expiry is set before the push and only
        when the key is absent, where EXPIRE does nothing; so the expiry
        table never changes and a bucket this send creates never expires. */
    method SendHoursQueue(prefix: string, msg: string, expiryHours: int, now: Time)
      returns (r: Result<bool>)
      requires Valid()
      modifies db
      ensures Valid()
      ensures SendChecks(Hours, msg, expiryHours).Some? ==> r == Err(SendChecks(Hours, msg, expiryHours).value) && db.Model() == old(db.Model())
      ensures SendChecks(Hours, msg, expiryHours) == None ==>
        ListSend(old(db.Model()), db.Model(), r, Key(Hours, List, prefix, now), msg, old(db.ttl))
      ensures !KeyExists(old(db.Model()), Key(Hours, List, prefix, now)) ==> Key(Hours, List, prefix, now) !in db.ttl
      ensures r.Ok? ==> Key(Hours, List, prefix, now) in ScanKeys(Views(), Glob(Pattern(Hours, List, prefix)))
    {
      var e := SendCheck(msg, expiryHours);
      if e.Some? {
        return Err(e.value);
      }
      if !ExpiryFits(Hours, expiryHours) {
        return Err(ExpiryTooLong);
      }
      var secs := ExpirySeconds(Hours, expiryHours);
      var key := Key(Hours, List, prefix, now);
      var keyExists := db.Exists(key);
      if !keyExists {
        var _ := db.Expire(key, secs);
      }
      var pushed := db.LPush(key, msg);
      if pushed.Err? {
        return Err(pushed.error);
      }
      r := Ok(pushed.value > 0);
      KeyMatchesGlob(Hours, List, prefix, now);
      StoredKeyIsScanned(key, Glob(Pattern(Hours, List, prefix)));
    }

    /** One RPOP from the first bucket is the first step of its drain. */
    method PopStep(keys: seq<string>, need: nat) returns (v: string)
      requires Valid() && keys != [] && keys[0] in db.lists && need > 0
      modifies db
      ensures Valid() && keys[0] !in db.zsets
      ensures |ListOf(db.Model(), keys[0])| < |ListOf(old(db.Model()), keys[0])|
      ensures ListDrain(old(db.Model()), keys, need) == Prepend([v], ListDrain(db.Model(), keys, need - 1))
    {
      ghost var d0 := db.Model();
      ghost var l := d0.lists[keys[0]];
      ListDrainPopOne(d0, keys, need);
      var r := db.RPop(keys[0]);
      assert r == Ok(Some(l[|l| - 1])) && db.Model() == PopRightN(d0, keys[0], 1);
      v := r.value.value;
    }

    /** Drains the bucket keys[0], which exists: RPOP while its length is positive, stopping once need messages are taken. */
    method DrainListBucket(keys: seq<string>, need: nat) returns (taken: seq<string>, end: BucketEnd)
      requires Valid() && keys != [] && need > 0
      modifies db
      ensures Valid()
      ensures |taken| <= need && (end == Filled <==> |taken| == need)
      ensures end == WrongKind ==> keys[0] in db.zsets
      ensures old(ListDrain(db.Model(), keys, need))
        == Prepend(taken, ListDrain(db.Model(), if end == Emptied then keys[1..] else keys, need - |taken|))
    {
      var k := keys[0];
      ghost var target := ListDrain(db.Model(), keys, need);
      taken := [];
      var left: nat := need;
      assert target.result.Ok? ==> taken + target.result.value == target.result.value;
      var len := db.LLen(k);
      while left > 0 && len.Ok? && len.value > 0
        invariant Valid() && |taken| + left == need
        invariant left > 0 && len.Ok? ==> k !in db.zsets && len.value == |ListOf(db.Model(), k)|
        invariant left > 0 && len.Err? ==> k in db.zsets
        invariant Prepend(taken, ListDrain(db.Model(), keys, left)) == target
        decreases left
      {
        var v := PopStep(keys, left);
        PrependPrepend(taken, [v], ListDrain(db.Model(), keys, left - 1));
        taken, left := taken + [v], left - 1;
        if left > 0 {
          len := db.LLen(k);
        }
      }
      if left == 0 {
        end := Filled;
      } else if len.Err? {
        end := WrongKind;
      } else {
        assert k !in db.lists && k !in db.zsets;
        end := Emptied;
      }
    }

    /** Takes messages from the buckets in the order given, skipping the
        missing ones, until count messages are taken. */
    method DrainLists(keys: seq<string>, count: nat) returns (r: Result<seq<string>>)
      requires Valid() && count > 0
      modifies db
      ensures Valid()
      ensures r == ListDrain(old(db.Model()), keys, count).result
      ensures db.Model() == ListDrain(old(db.Model()), keys, count).db
    {
      ghost var target := ListDrain(db.Model(), keys, count);
      var msgs: seq<string> := [];
      var need := count;
      var i := 0;
      assert keys[0..] == keys;
      assert target.result.Ok? ==> msgs + target.result.value == target.result.value;
      while i < |keys|
        invariant 0 <= i <= |keys| && Valid() && 0 < need && |msgs| + need == count
        invariant Prepend(msgs, ListDrain(db.Model(), keys[i..], need)) == target
      {
        assert keys[i..][0] == keys[i] && keys[i..][1..] == keys[i + 1..];
        var keyExists := db.Exists(keys[i]);
        if keyExists {
          var taken, end := DrainListBucket(keys[i..], need);
          PrependPrepend(msgs, taken, ListDrain(db.Model(), if end == Emptied then keys[i + 1..] else keys[i..], need - |taken|));
          msgs, need := msgs + taken, need - |taken|;
          if end == Filled {
            assert msgs + [] == msgs;
            return Ok(msgs);
          }
          if end == WrongKind {
            return Err(WrongType);
          }
        }
        i := i + 1;
      }
      assert msgs + [] == msgs;
      r := Ok(msgs);
    }

    /** Gathers the list buckets of the unit and drains them. */
    method GetMessageByKeyExpiry(prefix: string, count: int, unit: Unit)
      returns (r: Result<seq<string>>, ghost keys: seq<string>)
      requires Valid()
      modifies db
      ensures Valid()
      ensures count <= 0 ==> r == Err(CountNotPositive) && db.Model() == old(db.Model())
      ensures count > 0 ==>
        && Sorted(keys) && multiset(keys) == old(ScanKeys(Views(), Glob(Pattern(unit, List, prefix))))
        && r == ListDrain(old(db.Model()), keys, count).result
        && db.Model() == ListDrain(old(db.Model()), keys, count).db
      ensures r.Ok? ==> |r.value| <= count
    {
      keys := [];
      if count <= 0 {
        return Err(CountNotPositive), keys;
      }
      var pattern := Pattern(unit, List, prefix);
      var found := GetKeysByPrefix(pattern);
      keys := found;
      ListDrainAtMost(db.Model(), keys, count);
      r := DrainLists(found, count);
    }

    method GetHoursMessageAsync(prefix: string, count: int) returns (r: Result<seq<string>>, ghost keys: seq<string>)
      requires Valid()
      modifies db
      ensures Valid()
      ensures count <= 0 ==> r == Err(CountNotPositive) && db.Model() == old(db.Model())
      ensures count > 0 ==>
        && Sorted(keys) && multiset(keys) == old(ScanKeys(Views(), Glob(Pattern(Hours, List, prefix))))
        && r == ListDrain(old(db.Model()), keys, count).result
        && db.Model() == ListDrain(old(db.Model()), keys, count).db
    {
      r, keys := GetMessageByKeyExpiry(prefix, count, Hours);
    }

    method GetMinutesMessageAsync(prefix: string, count: int) returns (r: Result<seq<string>>, ghost keys: seq<string>)
      requires Valid()
      modifies db
      ensures Valid()
      ensures count <= 0 ==> r == Err(CountNotPositive) && db.Model() == old(db.Model())
      ensures count > 0 ==>
        && Sorted(keys) && multiset(keys) == old(ScanKeys(Views(), Glob(Pattern(Minutes, List, prefix))))
        && r == ListDrain(old(db.Model()), keys, count).result
        && db.Model() == ListDrain(old(db.Model()), keys, count).db
    {
      r, keys := GetMessageByKeyExpiry(prefix, count, Minutes);
    }

    /** The synchronous drain builds its pattern by text replacement on the
        hour format; it is the hour pattern, so this is the hour drain. */
    method GetHoursMessage(prefix: string, count: int) returns (r: Result<seq<string>>, ghost keys: seq<string>)
      requires Valid()
      modifies db
      ensures Valid()
      ensures count <= 0 ==> r == Err(CountNotPositive) && db.Model() == old(db.Model())
      ensures count > 0 ==>
        && Sorted(keys) && multiset(keys) == old(ScanKeys(Views(), Glob(Pattern(Hours, List, prefix))))
        && r == ListDrain(old(db.Model()), keys, count).result
        && db.Model() == ListDrain(old(db.Model()), keys, count).db
    {
      keys := [];
      if count <= 0 {
        return Err(CountNotPositive), keys;
      }
      var pattern := ReplacedHoursPattern(List, prefix);
      var found := GetKeysByPrefix(pattern);
      keys := found;
      r := DrainLists(found, count);
    }

    // -------------------------------------------------------------------
    // Sorted-set queues

    /** Adds to the bucket of now unless the bucket holds the message, then
        gives a bucket the add created its expiry. */
    method SendSortQueueWithKeyExpiry(prefix: string, msg: string, unit: Unit, times: int, now: Time, score: int)
      returns (r: Result<bool>)
      requires Valid()
      modifies db
      ensures Valid()
      ensures SendChecks(unit, msg, times).Some? ==> r == Err(SendChecks(unit, msg, times).value) && db.Model() == old(db.Model())
      ensures SendChecks(unit, msg, times) == None ==>
        var key := Key(unit, ZSet, prefix, now);
        ZSetSend(old(db.Model()), db.Model(), r, key, msg, score,
          AsyncTtl(old(db.Model()), key, ExpirySeconds(unit, times), r == Ok(true)))
      ensures r.Ok? ==> Key(unit, ZSet, prefix, now) in ScanKeys(Views(), Glob(Pattern(unit, ZSet, prefix)))
    {
      var e := SendCheck(msg, times);
      if e.Some? {
        return Err(e.value);
      }
      if !ExpiryFits(unit, times) {
        return Err(ExpiryTooLong);
      }
      var secs := ExpirySeconds(unit, times);
      var key := Key(unit, ZSet, prefix, now);
      var keyExists := db.Exists(key);
      var added := db.ZAddNX(key, msg, score);
      if added.Err? {
        return Err(added.error);
      }
      if !keyExists && added.value {
        var _ := db.Expire(key, secs);
      }
      r := Ok(added.value);
      KeyMatchesGlob(unit, ZSet, prefix, now);
      StoredKeyIsScanned(key, Glob(Pattern(unit, ZSet, prefix)));
    }

    method SendHoursSortQueueAsync(prefix: string, msg: string, expiryHours: int, now: Time, score: int)
      returns (r: Result<bool>)
      requires Valid()
      modifies db
      ensures Valid()
      ensures SendChecks(Hours, msg, expiryHours).Some? ==> r == Err(SendChecks(Hours, msg, expiryHours).value) && db.Model() == old(db.Model())
      ensures SendChecks(Hours, msg, expiryHours) == None ==>
        var key := Key(Hours, ZSet, prefix, now);
        ZSetSend(old(db.Model()), db.Model(), r, key, msg, score,
          AsyncTtl(old(db.Model()), key, ExpirySeconds(Hours, expiryHours), r == Ok(true)))
      ensures r.Ok? ==> Key(Hours, ZSet, prefix, now) in ScanKeys(Views(), Glob(Pattern(Hours, ZSet, prefix)))
    {
      var e := SendCheck(msg, expiryHours);
      if e.Some? {
        return Err(e.value);
      }
      r := SendSortQueueWithKeyExpiry(prefix, msg, Hours, expiryHours, now, score);
    }

    method SendMinutesSortQueueAsync(prefix: string, msg: string, expiryMinutes: int, now: Time, score: int)
      returns (r: Result<bool>)
      requires Valid()
      modifies db
      ensures Valid()
      ensures SendChecks(Minutes, msg, expiryMinutes).Some? ==> r == Err(SendChecks(Minutes, msg, expiryMinutes).value) && db.Model() == old(db.Model())
      ensures SendChecks(Minutes, msg, expiryMinutes) == None ==>
        var key := Key(Minutes, ZSet, prefix, now);
        ZSetSend(old(db.Model()), db.Model(), r, key, msg, score,
          AsyncTtl(old(db.Model()), key, ExpirySeconds(Minutes, expiryMinutes), r == Ok(true)))
      ensures r.Ok? ==> Key(Minutes, ZSet, prefix, now) in ScanKeys(Views(), Glob(Pattern(Minutes, ZSet, prefix)))
    {
      var e := SendCheck(msg, expiryMinutes);
      if e.Some? {
        return Err(e.value);
      }
      r := SendSortQueueWithKeyExpiry(prefix, msg, Minutes, expiryMinutes, now, score);
    }

    /** The synchronous sorted send: as with the list send, the expiry is
        set before the add and so never reaches a new bucket. */
    method SendHoursSortQueue(prefix: string, msg: string, expiryHours: int, now: Time, score: int)
      returns (r: Result<bool>)
      requires Valid()
      modifies db
      ensures Valid()
      ensures SendChecks(Hours, msg, expiryHours).Some? ==> r == Err(SendChecks(Hours, msg, expiryHours).value) && db.Model() == old(db.Model())
      ensures SendChecks(Hours, msg, expiryHours) == None ==>
        ZSetSend(old(db.Model()), db.Model(), r, Key(Hours, ZSet, prefix, now), msg, score, old(db.ttl))
      ensures !KeyExists(old(db.Model()), Key(Hours, ZSet, prefix, now)) ==> Key(Hours, ZSet, prefix, now) !in db.ttl
      ensures r.Ok? ==> Key(Hours, ZSet, prefix, now) in ScanKeys(Views(), Glob(Pattern(Hours, ZSet, prefix)))
    {
      var e := SendCheck(msg, expiryHours);
      if e.Some? {
        return Err(e.value);
      }
      if !ExpiryFits(Hours, expiryHours) {
        return Err(ExpiryTooLong);
      }
      var secs := ExpirySeconds(Hours, expiryHours);
      var key := Key(Hours, ZSet, prefix, now);
      var keyExists := db.Exists(key);
      if !keyExists {
        var _ := db.Expire(key, secs);
      }
      var added := db.ZAddNX(key, msg, score);
      if added.Err? {
        return Err(added.error);
      }
      r := Ok(added.value);
      KeyMatchesGlob(Hours, ZSet, prefix, now);
      StoredKeyIsScanned(key, Glob(Pattern(Hours, ZSet, prefix)));
    }

    /** Takes the batch of the count - taken lowest-ranked members of a
        bucket: before Redis 5.0 by ZRANGE and ZREM, from 5.0 by ZPOPMIN. */
    method TakeBatch(k: string, need: nat) returns (batch: seq<string>)
      requires Valid() && k in db.zsets && need > 0
      modifies db
      ensures Valid()
      ensures
        var z := old(db.zsets[k]);
        var n := Min(need, |z|);
        batch == Members(z[..n]) && db.Model() == PopMinDb(old(db.Model()), k, n)
    {
      var z := db.zsets[k];
      var n := Min(need, |z|);
      if VersionBelow(version, PopMinVersion) {
        var range := db.ZRangeByRank(k, 0, need - 1);
        assert RankRange(z, 0, need - 1) == z[..n];
        RangeThenRemoveIsPopMin(z, n);
        var _ := db.ZRem(k, range.value);
        batch := range.value;
      } else {
        var popped := db.ZPopMin(k, need);
        batch := Members(popped.value);
      }
    }

    /** One batch from the first bucket is the first step of its drain. */
    method BatchStep(keys: seq<string>, need: nat) returns (batch: seq<string>)
      requires Valid() && keys != [] && keys[0] in db.zsets && need > 0
      modifies db
      ensures Valid() && keys[0] !in db.lists
      ensures 0 < |batch| <= need
      ensures |ZSetOf(db.Model(), keys[0])| < |ZSetOf(old(db.Model()), keys[0])|
      ensures ZSetDrain(old(db.Model()), keys, need) == Prepend(batch, ZSetDrain(db.Model(), keys, need - |batch|))
    {
      ghost var d0 := db.Model();
      ghost var n := Min(need, |d0.zsets[keys[0]]|);
      ZSetDrainBatch(d0, keys, need);
      batch := TakeBatch(keys[0], need);
      assert |batch| == n;
    }

    /** Drains the bucket keys[0], which exists: a batch of its lowest-ranked members while its size is positive, stopping once need messages are taken. */
    method DrainZSetBucket(keys: seq<string>, need: nat) returns (taken: seq<string>, end: BucketEnd)
      requires Valid() && keys != [] && need > 0
      modifies db
      ensures Valid()
      ensures |taken| <= need && (end == Filled <==> |taken| == need)
      ensures end == WrongKind ==> keys[0] in db.lists
      ensures old(ZSetDrain(db.Model(), keys, need))
        == Prepend(taken, ZSetDrain(db.Model(), if end == Emptied then keys[1..] else keys, need - |taken|))
    {
      var k := keys[0];
      ghost var target := ZSetDrain(db.Model(), keys, need);
      taken := [];
      var left: nat := need;
      assert target.result.Ok? ==> taken + target.result.value == target.result.value;
      var card := db.ZCard(k);
      while left > 0 && card.Ok? && card.value > 0
        invariant Valid() && |taken| + left == need
        invariant left > 0 && card.Ok? ==> k !in db.lists && card.value == |ZSetOf(db.Model(), k)|
        invariant left > 0 && card.Err? ==> k in db.lists
        invariant Prepend(taken, ZSetDrain(db.Model(), keys, left)) == target
        decreases left
      {
        var batch := BatchStep(keys, left);
        PrependPrepend(taken, batch, ZSetDrain(db.Model(), keys, left - |batch|));
        taken, left := taken + batch, left - |batch|;
        if left > 0 {
          card := db.ZCard(k);
        }
      }
      if left == 0 {
        end := Filled;
      } else if card.Err? {
        end := WrongKind;
      } else {
        assert k !in db.zsets && k !in db.lists;
        end := Emptied;
      }
    }

    /** Takes messages from the buckets in the order given, skipping the
        missing ones, until count messages are taken. */
    method DrainZSets(keys: seq<string>, count: nat) returns (r: Result<seq<string>>)
      requires Valid() && count > 0
      modifies db
      ensures Valid()
      ensures r == ZSetDrain(old(db.Model()), keys, count).result
      ensures db.Model() == ZSetDrain(old(db.Model()), keys, count).db
    {
      ghost var target := ZSetDrain(db.Model(), keys, count);
      var msgs: seq<string> := [];
      var need := count;
      var i := 0;
      assert keys[0..] == keys;
      assert target.result.Ok? ==> msgs + target.result.value == target.result.value;
      while i < |keys|
        invariant 0 <= i <= |keys| && Valid() && 0 < need && |msgs| + need == count
        invariant Prepend(msgs, ZSetDrain(db.Model(), keys[i..], need)) == target
      {
        assert keys[i..][0] == keys[i] && keys[i..][1..] == keys[i + 1..];
        var keyExists := db.Exists(keys[i]);
        if keyExists {
          var taken, end := DrainZSetBucket(keys[i..], need);
          PrependPrepend(msgs, taken, ZSetDrain(db.Model(), if end == Emptied then keys[i + 1..] else keys[i..], need - |taken|));
          msgs, need := msgs + taken, need - |taken|;
          if end == Filled {
            assert msgs + [] == msgs;
            return Ok(msgs);
          }
          if end == WrongKind {
            return Err(WrongType);
          }
        }
        i := i + 1;
      }
      assert msgs + [] == msgs;
      r := Ok(msgs);
    }

    /** Gathers the sorted-set buckets of the unit and drains them. */
    method GetSortMessageByKeyExpiry(prefix: string, count: int, unit: Unit)
      returns (r: Result<seq<string>>, ghost keys: seq<string>)
      requires Valid()
      modifies db
      ensures Valid()
      ensures count <= 0 ==> r == Err(CountNotPositive) && db.Model() == old(db.Model())
      ensures count > 0 ==>
        && Sorted(keys) && multiset(keys) == old(ScanKeys(Views(), Glob(Pattern(unit, ZSet, prefix))))
        && r == ZSetDrain(old(db.Model()), keys, count).result
        && db.Model() == ZSetDrain(old(db.Model()), keys, count).db
      ensures r.Ok? ==> |r.value| <= count
    {
      keys := [];
      if count <= 0 {
        return Err(CountNotPositive), keys;
      }
      var pattern := Pattern(unit, ZSet, prefix);
      var found := GetKeysByPrefix(pattern);
      keys := found;
      ZSetDrainAtMost(db.Model(), keys, count);
      r := DrainZSets(found, count);
    }

    method GetHoursSortMessageAsync(prefix: string, count: int) returns (r: Result<seq<string>>, ghost keys: seq<string>)
      requires Valid()
      modifies db
      ensures Valid()
      ensures count <= 0 ==> r == Err(CountNotPositive) && db.Model() == old(db.Model())
      ensures count > 0 ==>
        && Sorted(keys) && multiset(keys) == old(ScanKeys(Views(), Glob(Pattern(Hours, ZSet, prefix))))
        && r == ZSetDrain(old(db.Model()), keys, count).result
        && db.Model() == ZSetDrain(old(db.Model()), keys, count).db
    {
      keys := [];
      if count <= 0 {
        return Err(CountNotPositive), keys;
      }
      r, keys := GetSortMessageByKeyExpiry(prefix, count, Hours);
    }

    method GetMinutesSortMessageAsync(prefix: string, count: int) returns (r: Result<seq<string>>, ghost keys: seq<string>)
      requires Valid()
      modifies db
      ensures Valid()
      ensures count <= 0 ==> r == Err(CountNotPositive) && db.Model() == old(db.Model())
      ensures count > 0 ==>
        && Sorted(keys) && multiset(keys) == old(ScanKeys(Views(), Glob(Pattern(Minutes, ZSet, prefix))))
        && r == ZSetDrain(old(db.Model()), keys, count).result
        && db.Model() == ZSetDrain(old(db.Model()), keys, count).db
    {
      keys := [];
      if count <= 0 {
        return Err(CountNotPositive), keys;
      }
      r, keys := GetSortMessageByKeyExpiry(prefix, count, Minutes);
    }

    /** The synchronous sorted drain, with the replaced-text hour pattern. */
    method GetHoursSortMessage(prefix: string, count: int) returns (r: Result<seq<string>>, ghost keys: seq<string>)
      requires Valid()
      modifies db
      ensures Valid()
      ensures count <= 0 ==> r == Err(CountNotPositive) && db.Model() == old(db.Model())
      ensures count > 0 ==>
        && Sorted(keys) && multiset(keys) == old(ScanKeys(Views(), Glob(Pattern(Hours, ZSet, prefix))))
        && r == ZSetDrain(old(db.Model()), keys, count).result
        && db.Model() == ZSetDrain(old(db.Model()), keys, count).db
    {
      keys := [];
      if count <= 0 {
        return Err(CountNotPositive), keys;
      }
      var pattern := ReplacedHoursPattern(ZSet, prefix);
      var found := GetKeysByPrefix(pattern);
      keys := found;
      r := DrainZSets(found, count);
    }
  }
}
