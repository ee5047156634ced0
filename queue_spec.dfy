/** What a drain of the queue returns and leaves behind, as functions of the
    store snapshot, the sorted bucket keys and the number of messages still
    wanted; and what follows from them: bounds, bucket order, FIFO order
    within a list bucket, lowest scores first within a sorted-set bucket. */
module QueueSpec {
  import opened Ordering
  import opened Outcome
  import opened BucketKeys
  import opened RedisStore

  /** The answer of a drain and the store it leaves. */
  datatype Drained = Drained(result: Result<seq<string>>, db: Db)

  /** Messages taken before the rest of the drain; an error discards them,
      as the exception does. */
  function Prepend(xs: seq<string>, r: Drained): Drained
  {
    if r.result.Ok? then Drained(Ok(xs + r.result.value), r.db) else r
  }

  lemma PrependPrepend(xs: seq<string>, ys: seq<string>, r: Drained)
    ensures Prepend(xs, Prepend(ys, r)) == Prepend(xs + ys, r)
  {
    if r.result.Ok? {
      assert xs + (ys + r.result.value) == (xs + ys) + r.result.value;
    }
  }

  /** A sequence read from its right end. */
  function Reverse(s: seq<string>): seq<string>
  {
    if s == [] then [] else [s[|s| - 1]] + Reverse(s[..|s| - 1])
  }

  lemma {:induction false} ReverseAt(s: seq<string>, i: nat)
    requires i < |s|
    ensures |Reverse(s)| == |s| && Reverse(s)[i] == s[|s| - 1 - i]
  {
    ReverseLength(s);
    if i > 0 {
      ReverseAt(s[..|s| - 1], i - 1);
    }
  }

  lemma {:induction false} ReverseLength(s: seq<string>)
    ensures |Reverse(s)| == |s|
  {
    if s != [] {
      ReverseLength(s[..|s| - 1]);
    }
  }

  // ---------------------------------------------------------------------
  // The list drain

  /** The keys are visited in order. A key holding a sorted set fails the
      length query; a missing key is skipped; a list gives up its values
      from the right end, oldest first, until enough are taken or it is
      empty (and so deleted). */
  function ListDrain(d: Db, keys: seq<string>, need: nat): Drained
    decreases |keys|
  {
    if need == 0 || keys == [] then Drained(Ok([]), d)
    else
      var k := keys[0];
      if k in d.zsets then Drained(Err(WrongType), d)
      else if k !in d.lists then ListDrain(d, keys[1..], need)
      else
        var l := d.lists[k];
        var n := Min(need, |l|);
        Prepend(Reverse(l[|l| - n..]), ListDrain(PopRightN(d, k, n), keys[1..], need - n))
  }

  /** The drain at a list key, one step unfolded. */
  lemma ListDrainStep(d: Db, keys: seq<string>, need: nat)
    requires keys != [] && need > 0 && keys[0] in d.lists && keys[0] !in d.zsets
    ensures
      var l := d.lists[keys[0]];
      var n := Min(need, |l|);
      ListDrain(d, keys, need) == Prepend(Reverse(l[|l| - n..]), ListDrain(PopRightN(d, keys[0], n), keys[1..], need - n))
  {
  }

  lemma PopRightTwice(d: Db, k: string, n: nat)
    requires k in d.lists && 1 < n <= |d.lists[k]|
    ensures k in PopRightN(d, k, 1).lists
    ensures PopRightN(PopRightN(d, k, 1), k, n - 1) == PopRightN(d, k, n)
  {
    var l := d.lists[k];
    var l1 := l[..|l| - 1];
    assert l1[..|l1| - (n - 1)] == l[..|l| - n];
  }

  /** Reading the last n values from the right is the last value first and
      then the n - 1 before it. */
  lemma ReverseLast(l: seq<string>, n: nat)
    requires 0 < n <= |l|
    ensures Reverse(l[|l| - n..]) == [l[|l| - 1]] + Reverse(l[..|l| - 1][|l| - n..])
  {
    var s := l[|l| - n..];
    assert s[|s| - 1] == l[|l| - 1];
    assert s[..|s| - 1] == l[..|l| - 1][|l| - n..];
  }

  /** One RPOP from the first key is the first step of the drain. */
  lemma ListDrainPopOne(d: Db, keys: seq<string>, need: nat)
    requires DbValid(d) && keys != [] && need > 0 && keys[0] in d.lists
    ensures
      var l := d.lists[keys[0]];
      ListDrain(d, keys, need) == Prepend([l[|l| - 1]], ListDrain(PopRightN(d, keys[0], 1), keys, need - 1))
  {
    var k, l := keys[0], d.lists[keys[0]];
    var n := Min(need, |l|);
    var d1 := PopRightN(d, k, 1);
    ListDrainStep(d, keys, need);
    ReverseLast(l, n);
    if n == 1 {
      assert l[..|l| - 1][|l| - n..] == [];
      assert Reverse(l[|l| - n..]) == [l[|l| - 1]];
      if need == 1 {
        assert ListDrain(d1, keys, need - 1) == Drained(Ok([]), d1);
        assert ListDrain(d1, keys[1..], need - 1) == Drained(Ok([]), d1);
      } else {
        assert k !in d1.lists && k !in d1.zsets;
        assert ListDrain(d1, keys, need - 1) == ListDrain(d1, keys[1..], need - 1);
      }
    } else {
      PopRightTwice(d, k, n);
      assert d1.lists[k] == l[..|l| - 1];
      ListDrainStep(d1, keys, need - 1);
      PrependPrepend([l[|l| - 1]], Reverse(l[..|l| - 1][|l| - n..]), ListDrain(PopRightN(d, k, n), keys[1..], need - n));
    }
  }

  /** A drain never returns more than it was asked for. */
  lemma {:induction false} ListDrainAtMost(d: Db, keys: seq<string>, need: nat)
    ensures ListDrain(d, keys, need).result.Ok? ==> |ListDrain(d, keys, need).result.value| <= need
    decreases |keys|
  {
    if need > 0 && keys != [] && keys[0] !in d.zsets {
      var k := keys[0];
      if k !in d.lists {
        ListDrainAtMost(d, keys[1..], need);
      } else {
        var l := d.lists[k];
        var n := Min(need, |l|);
        ListDrainAtMost(PopRightN(d, k, n), keys[1..], need - n);
        ReverseLength(l[|l| - n..]);
      }
    }
  }

  /** With no bucket present the drain returns nothing and changes nothing. */
  lemma {:induction false} ListDrainNoBuckets(d: Db, keys: seq<string>, need: nat)
    requires forall j :: 0 <= j < |keys| ==> !KeyExists(d, keys[j])
    ensures ListDrain(d, keys, need) == Drained(Ok([]), d)
    decreases |keys|
  {
    if need > 0 && keys != [] {
      ListDrainNoBuckets(d, keys[1..], need);
    }
  }

  /** The state of one key: its list, its sorted set and its expiry. */
  predicate SameAt(d1: Db, d2: Db, k: string)
  {
    && ListOf(d1, k) == ListOf(d2, k)
    && ZSetOf(d1, k) == ZSetOf(d2, k)
    && (k in d1.ttl <==> k in d2.ttl)
    && (k in d1.ttl ==> d1.ttl[k] == d2.ttl[k])
  }

  /** A list drain touches only the keys it visits and no sorted set, and
      creates no key. When it comes back short, every visited bucket is
      gone. */
  lemma {:induction false} ListDrainFrame(d: Db, keys: seq<string>, need: nat)
    ensures var r := ListDrain(d, keys, need);
      && r.db.zsets == d.zsets
      && r.db.lists.Keys <= d.lists.Keys
      && (forall k :: k !in keys ==> SameAt(r.db, d, k))
    ensures var r := ListDrain(d, keys, need);
      r.result.Ok? && |r.result.value| < need ==> forall j :: 0 <= j < |keys| ==> keys[j] !in r.db.lists
    decreases |keys|
  {
    if need > 0 && keys != [] && keys[0] !in d.zsets {
      var k := keys[0];
      if k !in d.lists {
        ListDrainFrame(d, keys[1..], need);
      } else {
        var l := d.lists[k];
        var n := Min(need, |l|);
        var d1 := PopRightN(d, k, n);
        ListDrainFrame(d1, keys[1..], need - n);
        ReverseLength(l[|l| - n..]);
        var r1 := ListDrain(d1, keys[1..], need - n);
        if r1.result.Ok? && |r1.result.value| + n < need {
          assert n == |l| && k !in d1.lists;
        }
        forall k' | k' !in keys ensures SameAt(r1.db, d, k') {
          assert k' !in keys[1..];
          assert SameAt(d1, d, k');
        }
      }
    }
  }

  /** Draining a key list in two parts: everything taken from the first
      part comes before everything taken from the second. */
  lemma {:induction false} ListDrainSplit(d: Db, keys1: seq<string>, keys2: seq<string>, need: nat)
    requires ListDrain(d, keys1, need).result.Ok?
    ensures |ListDrain(d, keys1, need).result.value| <= need
    ensures var r1 := ListDrain(d, keys1, need);
      ListDrain(d, keys1 + keys2, need) == Prepend(r1.result.value, ListDrain(r1.db, keys2, need - |r1.result.value|))
    decreases |keys1|
  {
    ListDrainAtMost(d, keys1, need);
    if need == 0 {
      var e: seq<string> := [];
      assert e + e == e;
    } else if keys1 == [] {
      assert keys1 + keys2 == keys2;
      var r2 := ListDrain(d, keys2, need);
      if r2.result.Ok? {
        assert [] + r2.result.value == r2.result.value;
      }
    } else {
      var k := keys1[0];
      assert (keys1 + keys2)[0] == k && (keys1 + keys2)[1..] == keys1[1..] + keys2;
      if k !in d.lists {
        ListDrainSplit(d, keys1[1..], keys2, need);
      } else {
        var l := d.lists[k];
        var n := Min(need, |l|);
        var d1 := PopRightN(d, k, n);
        ListDrainSplit(d1, keys1[1..], keys2, need - n);
        var r := ListDrain(d1, keys1[1..], need - n);
        PrependPrepend(Reverse(l[|l| - n..]), r.result.value, ListDrain(r.db, keys2, need - n - |r.result.value|));
        ReverseLength(l[|l| - n..]);
      }
    }
  }

  /** Left pushes of ms, oldest first, to one key. */
  function PushAll(d: Db, k: string, ms: seq<string>): Db
  {
    if ms == [] then d else LPushDb(PushAll(d, k, ms[..|ms| - 1]), k, ms[|ms| - 1])
  }

  lemma {:induction false} PushAllList(d: Db, k: string, ms: seq<string>)
    ensures ListOf(PushAll(d, k, ms), k) == Reverse(ms) + ListOf(d, k)
    ensures PushAll(d, k, ms).zsets == d.zsets
  {
    if ms != [] {
      PushAllList(d, k, ms[..|ms| - 1]);
    }
  }

  /** Draining one list key alone takes its oldest values. */
  lemma DrainOneList(d: Db, k: string, need: nat)
    requires k in d.lists && k !in d.zsets && need > 0
    ensures
      var l := d.lists[k];
      ListDrain(d, [k], need).result == Ok(Reverse(l[|l| - Min(need, |l|)..]))
  {
    var l := d.lists[k];
    var n := Min(need, |l|);
    var ks: seq<string> := [k];
    ListDrainStep(d, ks, need);
    assert ks[1..] == [];
    var e: seq<string> := [];
    assert Reverse(l[|l| - n..]) + e == Reverse(l[|l| - n..]);
  }

  lemma ReverseSuffixAt(ms: seq<string>, n: nat, i: nat)
    requires i < n <= |ms|
    ensures |Reverse(ms)| == |ms|
    ensures |Reverse(Reverse(ms)[|ms| - n..])| == n
    ensures Reverse(Reverse(ms)[|ms| - n..])[i] == ms[i]
  {
    ReverseLength(ms);
    var seg := Reverse(ms)[|ms| - n..];
    ReverseAt(seg, i);
    ReverseAt(ms, |ms| - 1 - i);
  }

  lemma ReverseSuffix(ms: seq<string>, n: nat)
    requires n <= |ms|
    ensures |Reverse(ms)| == |ms|
    ensures Reverse(Reverse(ms)[|ms| - n..]) == ms[..n]
  {
    ReverseLength(ms);
    ReverseLength(Reverse(ms)[|ms| - n..]);
    forall i | 0 <= i < n ensures Reverse(Reverse(ms)[|ms| - n..])[i] == ms[..n][i] {
      ReverseSuffixAt(ms, n, i);
    }
  }

  /** FIFO: messages pushed to a new bucket come out of the drain in the
      order they were sent, the oldest need of them. */
  lemma FifoRoundTrip(d: Db, k: string, ms: seq<string>, need: nat)
    requires !KeyExists(d, k)
    ensures ListDrain(PushAll(d, k, ms), [k], need).result == Ok(ms[..Min(need, |ms|)])
  {
    var d1 := PushAll(d, k, ms);
    PushAllList(d, k, ms);
    assert ListOf(d1, k) == Reverse(ms);
    ReverseLength(ms);
    if need > 0 && ms != [] {
      DrainOneList(d1, k, need);
      ReverseSuffix(ms, Min(need, |ms|));
    }
  }

  // ---------------------------------------------------------------------
  // The sorted-set drain

  /** The keys are visited in order. A key holding a list fails the size
      query; a missing key is skipped; a sorted set gives up its need lowest
      ranked members in one batch, and once emptied it is deleted. */
  function ZSetDrain(d: Db, keys: seq<string>, need: nat): Drained
    decreases |keys|
  {
    if need == 0 || keys == [] then Drained(Ok([]), d)
    else
      var k := keys[0];
      if k in d.lists then Drained(Err(WrongType), d)
      else if k !in d.zsets then ZSetDrain(d, keys[1..], need)
      else
        var z := d.zsets[k];
        var n := Min(need, |z|);
        Prepend(Members(z[..n]), ZSetDrain(PopMinDb(d, k, n), keys[1..], need - n))
  }

  /** One batch from the first key is the first step of the drain: after it
      either nothing more is wanted or the bucket is gone. */
  lemma ZSetDrainBatch(d: Db, keys: seq<string>, need: nat)
    requires DbValid(d) && keys != [] && need > 0 && keys[0] in d.zsets
    ensures
      var z := d.zsets[keys[0]];
      var n := Min(need, |z|);
      ZSetDrain(d, keys, need) == Prepend(Members(z[..n]), ZSetDrain(PopMinDb(d, keys[0], n), keys, need - n))
  {
  }

  lemma {:induction false} ZSetDrainAtMost(d: Db, keys: seq<string>, need: nat)
    ensures ZSetDrain(d, keys, need).result.Ok? ==> |ZSetDrain(d, keys, need).result.value| <= need
    decreases |keys|
  {
    if need > 0 && keys != [] && keys[0] !in d.lists {
      var k := keys[0];
      if k !in d.zsets {
        ZSetDrainAtMost(d, keys[1..], need);
      } else {
        var z := d.zsets[k];
        ZSetDrainAtMost(PopMinDb(d, k, Min(need, |z|)), keys[1..], need - Min(need, |z|));
      }
    }
  }

  lemma {:induction false} ZSetDrainNoBuckets(d: Db, keys: seq<string>, need: nat)
    requires forall j :: 0 <= j < |keys| ==> !KeyExists(d, keys[j])
    ensures ZSetDrain(d, keys, need) == Drained(Ok([]), d)
    decreases |keys|
  {
    if need > 0 && keys != [] {
      ZSetDrainNoBuckets(d, keys[1..], need);
    }
  }

  /** A sorted-set drain touches only the keys it visits and no list. */
  lemma {:induction false} ZSetDrainFrame(d: Db, keys: seq<string>, need: nat)
    ensures var r := ZSetDrain(d, keys, need);
      && r.db.lists == d.lists
      && r.db.zsets.Keys <= d.zsets.Keys
      && (forall k :: k !in keys ==> SameAt(r.db, d, k))
    decreases |keys|
  {
    if need > 0 && keys != [] && keys[0] !in d.lists {
      var k := keys[0];
      if k !in d.zsets {
        ZSetDrainFrame(d, keys[1..], need);
      } else {
        var z := d.zsets[k];
        var d1 := PopMinDb(d, k, Min(need, |z|));
        ZSetDrainFrame(d1, keys[1..], need - Min(need, |z|));
        var r1 := ZSetDrain(d1, keys[1..], need - Min(need, |z|));
        forall k' | k' !in keys ensures SameAt(r1.db, d, k') {
          assert k' !in keys[1..];
          assert SameAt(d1, d, k');
        }
      }
    }
  }

  /** The batch taken from a bucket: its lowest-scored members, in
      ascending order, each once; exactly those leave the bucket. */
  lemma ZSetBatchIsLowest(d: Db, k: string, rest: seq<string>, need: nat)
    requires DbValid(d) && k in d.zsets && need > 0
    ensures
      var z := d.zsets[k];
      var n := Min(need, |z|);
      var batch := Members(z[..n]);
      && ZSetDrain(d, [k] + rest, need) == Prepend(batch, ZSetDrain(PopMinDb(d, k, n), rest, need - n))
      && ZSetOf(PopMinDb(d, k, n), k) == z[n..]
      && (forall i, j :: 0 <= i < j < n ==> z[i].score <= z[j].score && batch[i] != batch[j])
      && (forall i, j :: 0 <= i < n <= j < |z| ==> z[i].score <= z[j].score)
  {
    var z := d.zsets[k];
    assert ([k] + rest)[0] == k && ([k] + rest)[1..] == rest;
    forall i, j | 0 <= i < j < |z| ensures z[i].score <= z[j].score {
      assert Before(z[i], z[j]);
    }
  }

  /** Adding a member that the bucket already holds answers false and
      changes nothing, its first score included. */
  lemma ZAddTwice(d: Db, k: string, m: string, s1: int, s2: int)
    requires DbValid(d) && k !in d.lists
    ensures m in Members(ZSetOf(ZAddDb(d, k, Entry(m, s1)), k))
    ensures ZAddDb(ZAddDb(d, k, Entry(m, s1)), k, Entry(m, s2)) == ZAddDb(d, k, Entry(m, s1))
  {
    var z := ZSetOf(d, k);
    if m !in Members(z) {
      InsertContents(z, Entry(m, s1));
      var z1 := Insert(z, Entry(m, s1));
      assert Entry(m, s1) in multiset(z1);
      var q :| 0 <= q < |z1| && z1[q] == Entry(m, s1);
      assert Members(z1)[q] == m;
    }
  }

  // ---------------------------------------------------------------------
  // Key gathering over several servers

  /** The keys every server reports for a glob, duplicates kept. */
  function ScanKeys(views: seq<Db>, glob: string): multiset<string>
  {
    if views == [] then multiset{}
    else ScanKeys(views[..|views| - 1], glob) + multiset(MatchingKeys(views[|views| - 1], glob))
  }

  /** Gathering one more server adds what it reports. */
  lemma ScanKeysStep(views: seq<Db>, i: nat, glob: string)
    requires i < |views|
    ensures ScanKeys(views[..i + 1], glob) == ScanKeys(views[..i], glob) + multiset(MatchingKeys(views[i], glob))
  {
    assert views[..i + 1][..i] == views[..i];
  }

  /** A key is gathered exactly when some server holds it and it matches. */
  lemma {:induction false} ScanKeysMembers(views: seq<Db>, glob: string, x: string)
    ensures x in ScanKeys(views, glob) <==> exists i :: 0 <= i < |views| && x in MatchingKeys(views[i], glob)
  {
    if views != [] {
      var init := views[..|views| - 1];
      ScanKeysMembers(init, glob, x);
      if x in ScanKeys(init, glob) {
        var i :| 0 <= i < |init| && x in MatchingKeys(init[i], glob);
        assert views[i] == init[i];
      }
      if exists i :: 0 <= i < |views| && x in MatchingKeys(views[i], glob) {
        var i :| 0 <= i < |views| && x in MatchingKeys(views[i], glob);
        if i < |init| {
          assert init[i] == views[i];
        }
      }
    }
  }

  /** Every bucket a send created on a server is gathered by the scan of
      the drain for the same unit, kind and prefix. */
  lemma SentKeyIsScanned(views: seq<Db>, i: nat, u: Unit, k: Kind, prefix: string, t: Time)
    requires i < |views| && KeyExists(views[i], Key(u, k, prefix, t))
    ensures Key(u, k, prefix, t) in ScanKeys(views, Glob(Pattern(u, k, prefix)))
  {
    KeyMatchesGlob(u, k, prefix, t);
    ScanKeysMembers(views, Glob(Pattern(u, k, prefix)), Key(u, k, prefix, t));
  }
}
