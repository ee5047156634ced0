/** The Redis server the queue talks to, reduced to what the queue uses:
    list keys, sorted-set keys and key expiries, and the commands EXISTS,
    EXPIRE, LPUSH, LLEN, RPOP, ZADD NX, ZCARD, ZRANGE (by rank), ZREM,
    ZPOPMIN and KEYS. The functions give each command's effect on a
    snapshot; the class Store holds the state and issues the commands. */
module RedisStore {
  import opened Ordering
  import opened Outcome
  import opened BucketKeys

  function Min(a: nat, b: nat): nat
  {
    if a <= b then a else b
  }

  /** A sorted-set member and its score. */
  datatype Entry = Entry(member: string, score: int)

  /** Redis's order inside a sorted set: by score, equal scores by member. */
  predicate Before(a: Entry, b: Entry)
  {
    a.score < b.score || (a.score == b.score && Less(a.member, b.member))
  }

  lemma BeforeTransitive(a: Entry, b: Entry, c: Entry)
    requires Before(a, b) && Before(b, c)
    ensures Before(a, c)
  {
    if a.score == b.score == c.score {
      Transitive(a.member, b.member, c.member);
    }
  }

  lemma BeforeTotal(a: Entry, b: Entry)
    requires a.member != b.member
    ensures Before(a, b) || Before(b, a)
  {
    if a.score == b.score {
      Total(a.member, b.member);
    }
  }

  function Members(z: seq<Entry>): seq<string>
  {
    seq(|z|, i requires 0 <= i < |z| => z[i].member)
  }

  /** A sorted set is kept in rank order, each member once. */
  predicate Ordered(z: seq<Entry>)
  {
    forall i, j :: 0 <= i < j < |z| ==> Before(z[i], z[j])
  }

  predicate DistinctMembers(z: seq<Entry>)
  {
    forall i, j :: 0 <= i < j < |z| ==> z[i].member != z[j].member
  }

  predicate ZValid(z: seq<Entry>)
  {
    Ordered(z) && DistinctMembers(z)
  }

  /** Puts a new entry at its rank. */
  function Insert(z: seq<Entry>, e: Entry): seq<Entry>
  {
    if z == [] || Before(e, z[0]) then [e] + z else [z[0]] + Insert(z[1..], e)
  }

  lemma {:induction false} InsertContents(z: seq<Entry>, e: Entry)
    ensures multiset(Insert(z, e)) == multiset(z) + multiset{e}
  {
    if z != [] && !Before(e, z[0]) {
      InsertContents(z[1..], e);
      assert z == [z[0]] + z[1..];
    }
  }

  lemma ZValidTail(z: seq<Entry>)
    requires ZValid(z) && z != []
    ensures ZValid(z[1..])
  {
    assert forall i :: 0 <= i < |z[1..]| ==> z[1..][i] == z[i + 1];
  }

  /** Adding a member that is not there keeps the set in rank order with
      each member once. */
  lemma {:induction false} InsertValid(z: seq<Entry>, e: Entry)
    requires ZValid(z) && e.member !in Members(z)
    ensures ZValid(Insert(z, e))
  {
    if z == [] || Before(e, z[0]) {
      var r := [e] + z;
      forall i, j | 0 <= i < j < |r| ensures Before(r[i], r[j]) && r[i].member != r[j].member {
        if i == 0 {
          assert Members(z)[j - 1] == z[j - 1].member;
          if j > 1 {
            BeforeTransitive(e, z[0], z[j - 1]);
          }
        }
      }
    } else {
      assert Members(z)[0] == z[0].member;
      BeforeTotal(e, z[0]);
      var t := z[1..];
      ZValidTail(z);
      assert e.member !in Members(t) by {
        assert forall i :: 0 <= i < |t| ==> Members(t)[i] == Members(z)[i + 1];
      }
      InsertValid(t, e);
      InsertContents(t, e);
      var r := [z[0]] + Insert(t, e);
      forall j | 0 < j < |r| ensures Before(z[0], r[j]) && z[0].member != r[j].member {
        assert r[j] in multiset(Insert(t, e));
        if r[j] != e {
          assert r[j] in multiset(t);
          var q :| 0 <= q < |t| && t[q] == r[j];
          assert z[q + 1] == r[j];
        }
      }
    }
  }

  /** ZREM: drops every entry whose member is listed. */
  function RemoveMembers(z: seq<Entry>, ms: seq<string>): seq<Entry>
  {
    if z == [] then [] else (if z[0].member in ms then [] else [z[0]]) + RemoveMembers(z[1..], ms)
  }

  lemma {:induction false} RemoveConcat(a: seq<Entry>, b: seq<Entry>, ms: seq<string>)
    ensures RemoveMembers(a + b, ms) == RemoveMembers(a, ms) + RemoveMembers(b, ms)
  {
    if a == [] {
      assert a + b == b;
    } else {
      assert (a + b)[0] == a[0] && (a + b)[1..] == a[1..] + b;
      RemoveConcat(a[1..], b, ms);
    }
  }

  lemma {:induction false} RemoveNone(z: seq<Entry>, ms: seq<string>)
    requires forall i :: 0 <= i < |z| ==> z[i].member !in ms
    ensures RemoveMembers(z, ms) == z
  {
    if z != [] {
      RemoveNone(z[1..], ms);
      assert z == [z[0]] + z[1..];
    }
  }

  lemma {:induction false} RemoveAll(z: seq<Entry>, ms: seq<string>)
    requires forall i :: 0 <= i < |z| ==> z[i].member in ms
    ensures RemoveMembers(z, ms) == []
  {
    if z != [] {
      RemoveAll(z[1..], ms);
    }
  }

  /** Reading the n lowest-ranked members with ZRANGE and removing them with
      ZREM leaves exactly what ZPOPMIN of n leaves. */
  lemma PrefixMembersListed(z: seq<Entry>, n: nat)
    requires n <= |z|
    ensures forall i :: 0 <= i < |z[..n]| ==> z[..n][i].member in Members(z[..n])
  {
    var a := z[..n];
    forall i | 0 <= i < |a| ensures a[i].member in Members(a) {
      assert Members(a)[i] == a[i].member;
    }
  }

  lemma SuffixMembersUnlisted(z: seq<Entry>, n: nat)
    requires DistinctMembers(z) && n <= |z|
    ensures forall i :: 0 <= i < |z[n..]| ==> z[n..][i].member !in Members(z[..n])
  {
    var ms := Members(z[..n]);
    forall i | 0 <= i < |z[n..]| ensures z[n..][i].member !in ms {
      forall q | 0 <= q < |ms| ensures ms[q] != z[n + i].member {
        assert ms[q] == z[q].member;
      }
    }
  }

  lemma RangeThenRemoveIsPopMin(z: seq<Entry>, n: nat)
    requires DistinctMembers(z) && n <= |z|
    ensures RemoveMembers(z, Members(z[..n])) == z[n..]
  {
    var ms := Members(z[..n]);
    assert z == z[..n] + z[n..];
    RemoveConcat(z[..n], z[n..], ms);
    PrefixMembersListed(z, n);
    RemoveAll(z[..n], ms);
    SuffixMembersUnlisted(z, n);
    RemoveNone(z[n..], ms);
  }

  // ---------------------------------------------------------------------
  // A snapshot of the store and the effect of each command on it

  datatype Db = Db(lists: map<string, seq<string>>, zsets: map<string, seq<Entry>>, ttl: map<string, int>)

  predicate KeyExists(d: Db, k: string)
  {
    k in d.lists || k in d.zsets
  }

  /** What Redis keeps true: a key holds one structure, an empty structure
      is no key at all, and only existing keys carry an expiry. */
  predicate DbValid(d: Db)
  {
    && d.lists.Keys !! d.zsets.Keys
    && (forall k :: k in d.lists ==> d.lists[k] != [])
    && (forall k :: k in d.zsets ==> d.zsets[k] != [] && ZValid(d.zsets[k]))
    && (forall k :: k in d.ttl ==> KeyExists(d, k))
  }

  /** The list at a key; a missing key reads as the empty list. */
  function ListOf(d: Db, k: string): seq<string>
  {
    if k in d.lists then d.lists[k] else []
  }

  function ZSetOf(d: Db, k: string): seq<Entry>
  {
    if k in d.zsets then d.zsets[k] else []
  }

  /** Stores a list; an emptied list is deleted together with its expiry. */
  function SetList(d: Db, k: string, l: seq<string>): Db
  {
    if l == [] then d.(lists := d.lists - {k}, ttl := d.ttl - {k}) else d.(lists := d.lists[k := l])
  }

  function SetZSet(d: Db, k: string, z: seq<Entry>): Db
  {
    if z == [] then d.(zsets := d.zsets - {k}, ttl := d.ttl - {k}) else d.(zsets := d.zsets[k := z])
  }

  function Delete(d: Db, k: string): Db
  {
    Db(d.lists - {k}, d.zsets - {k}, d.ttl - {k})
  }

  /** EXPIRE: a missing key is left alone; a non-positive time deletes. */
  function ExpireDb(d: Db, k: string, secs: int): Db
  {
    if !KeyExists(d, k) then d
    else if secs <= 0 then Delete(d, k)
    else d.(ttl := d.ttl[k := secs])
  }

  /** LPUSH of one value. */
  function LPushDb(d: Db, k: string, v: string): Db
  {
    SetList(d, k, [v] + ListOf(d, k))
  }

  /** n RPOPs in a row. */
  function PopRightN(d: Db, k: string, n: nat): Db
    requires n <= |ListOf(d, k)|
  {
    SetList(d, k, ListOf(d, k)[..|ListOf(d, k)| - n])
  }

  /** ZPOPMIN of n. */
  function PopMinDb(d: Db, k: string, n: nat): Db
  {
    var z := ZSetOf(d, k);
    SetZSet(d, k, z[Min(n, |z|)..])
  }

  /** ZADD NX: a member already present keeps its score. */
  function ZAddDb(d: Db, k: string, e: Entry): Db
  {
    if e.member in Members(ZSetOf(d, k)) then d else SetZSet(d, k, Insert(ZSetOf(d, k), e))
  }

  function ZRemDb(d: Db, k: string, ms: seq<string>): Db
  {
    SetZSet(d, k, RemoveMembers(ZSetOf(d, k), ms))
  }

  /** ZRANGE by rank with inclusive bounds. */
  function RankRange(z: seq<Entry>, start: nat, stop: nat): seq<Entry>
  {
    if start >= |z| || start > stop then [] else z[start..Min(stop + 1, |z|)]
  }

  /** The keys KEYS reports for a glob. */
  function MatchingKeys(d: Db, glob: string): set<string>
  {
    set k | k in d.lists.Keys + d.zsets.Keys && Match(glob, k)
  }

  lemma SetListValid(d: Db, k: string, l: seq<string>)
    requires DbValid(d) && k !in d.zsets
    ensures DbValid(SetList(d, k, l))
  {
  }

  lemma SetZSetValid(d: Db, k: string, z: seq<Entry>)
    requires DbValid(d) && k !in d.lists && ZValid(z)
    ensures DbValid(SetZSet(d, k, z))
  {
  }

  lemma ZValidSuffix(z: seq<Entry>, n: nat)
    requires ZValid(z) && n <= |z|
    ensures ZValid(z[n..])
  {
    assert forall i :: 0 <= i < |z[n..]| ==> z[n..][i] == z[n + i];
  }

  lemma ZAddValid(d: Db, k: string, e: Entry)
    requires DbValid(d) && k !in d.lists
    ensures DbValid(ZAddDb(d, k, e))
  {
    if e.member !in Members(ZSetOf(d, k)) {
      InsertValid(ZSetOf(d, k), e);
      SetZSetValid(d, k, Insert(ZSetOf(d, k), e));
    }
  }

  lemma PopMinValid(d: Db, k: string, n: nat)
    requires DbValid(d) && k !in d.lists
    ensures DbValid(PopMinDb(d, k, n))
  {
    var z := ZSetOf(d, k);
    ZValidSuffix(z, Min(n, |z|));
  }

  /** Every entry taken from the tail of a sorted set ranks after its head
      and has another member. */
  lemma HeadBeforeTail(z: seq<Entry>, r: seq<Entry>)
    requires ZValid(z) && z != [] && multiset(r) <= multiset(z[1..])
    ensures forall j :: 0 <= j < |r| ==> Before(z[0], r[j]) && z[0].member != r[j].member
  {
    forall j | 0 <= j < |r| ensures Before(z[0], r[j]) && z[0].member != r[j].member {
      assert r[j] in multiset(z[1..]);
      var q :| 0 <= q < |z[1..]| && z[1..][q] == r[j];
      assert z[q + 1] == r[j];
    }
  }

  lemma ConsValid(e: Entry, r: seq<Entry>)
    requires ZValid(r)
    requires forall j :: 0 <= j < |r| ==> Before(e, r[j]) && e.member != r[j].member
    ensures ZValid([e] + r)
  {
    var t := [e] + r;
    forall i, j | 0 <= i < j < |t| ensures Before(t[i], t[j]) && t[i].member != t[j].member {
      assert t[j] == r[j - 1];
      if i > 0 {
        assert t[i] == r[i - 1];
      }
    }
  }

  lemma {:induction false} RemoveMembersValid(z: seq<Entry>, ms: seq<string>)
    requires ZValid(z)
    ensures ZValid(RemoveMembers(z, ms)) && multiset(RemoveMembers(z, ms)) <= multiset(z)
    ensures |RemoveMembers(z, ms)| <= |z|
  {
    if z != [] {
      ZValidTail(z);
      RemoveMembersValid(z[1..], ms);
      var r := RemoveMembers(z[1..], ms);
      assert z == [z[0]] + z[1..];
      if z[0].member !in ms {
        HeadBeforeTail(z, r);
        ConsValid(z[0], r);
      }
    }
  }

  lemma ZRemValid(d: Db, k: string, ms: seq<string>)
    requires DbValid(d) && k !in d.lists
    ensures DbValid(ZRemDb(d, k, ms)) && |ZSetOf(ZRemDb(d, k, ms), k)| <= |ZSetOf(d, k)|
  {
    var z := ZSetOf(d, k);
    RemoveMembersValid(z, ms);
    SetZSetValid(d, k, RemoveMembers(z, ms));
  }

  // ---------------------------------------------------------------------

  /** The store: a map from key to list, a map from key to sorted set (kept
      in rank order) and a map from key to its expiry in seconds. */
  class Store {
    var lists: map<string, seq<string>>
    var zsets: map<string, seq<Entry>>
    var ttl: map<string, int>

    function Model(): Db
      reads this
    {
      Db(lists, zsets, ttl)
    }

    predicate Valid()
      reads this
    {
      DbValid(Model())
    }

    constructor ()
      ensures Valid() && Model() == Db(map[], map[], map[])
    {
      lists, zsets, ttl := map[], map[], map[];
    }

    /** EXISTS. */
    method Exists(k: string) returns (b: bool)
      ensures b == KeyExists(Model(), k)
    {
      b := k in lists || k in zsets;
    }

    /** EXPIRE: answers whether the key existed. */
    method Expire(k: string, secs: int) returns (b: bool)
      requires Valid()
      modifies this
      ensures Valid()
      ensures b == KeyExists(old(Model()), k)
      ensures Model() == ExpireDb(old(Model()), k, secs)
    {
      b := k in lists || k in zsets;
      if b {
        if secs <= 0 {
          lists, zsets, ttl := lists - {k}, zsets - {k}, ttl - {k};
        } else {
          ttl := ttl[k := secs];
        }
      }
    }

    /** LPUSH of one value: answers the new length. */
    method LPush(k: string, v: string) returns (r: Result<nat>)
      requires Valid()
      modifies this
      ensures Valid()
      ensures k in old(zsets) ==> r == Err(WrongType) && Model() == old(Model())
      ensures k !in old(zsets) ==> Model() == LPushDb(old(Model()), k, v) && r == Ok(|ListOf(Model(), k)|)
    {
      if k in zsets {
        return Err(WrongType);
      }
      var l := [v] + ListOf(Model(), k);
      lists := lists[k := l];
      r := Ok(|l|);
    }

    /** LLEN: a missing key has length 0. */
    method LLen(k: string) returns (r: Result<nat>)
      ensures k in zsets ==> r == Err(WrongType)
      ensures k !in zsets ==> r == Ok(|ListOf(Model(), k)|)
    {
      if k in zsets {
        return Err(WrongType);
      }
      r := Ok(|ListOf(Model(), k)|);
    }

    /** RPOP: the oldest value of the list, or nothing on a missing key. */
    method RPop(k: string) returns (r: Result<Option<string>>)
      requires Valid()
      modifies this
      ensures Valid()
      ensures k in old(zsets) ==> r == Err(WrongType) && Model() == old(Model())
      ensures k !in old(zsets) && k !in old(lists) ==> r == Ok(None) && Model() == old(Model())
      ensures k in old(lists) ==>
        var l := old(lists[k]);
        r == Ok(Some(l[|l| - 1])) && Model() == PopRightN(old(Model()), k, 1)
    {
      if k in zsets {
        return Err(WrongType);
      }
      if k !in lists {
        return Ok(None);
      }
      var l := lists[k];
      r := Ok(Some(l[|l| - 1]));
      var rest := l[..|l| - 1];
      if rest == [] {
        lists, ttl := lists - {k}, ttl - {k};
      } else {
        lists := lists[k := rest];
      }
    }

    /** ZADD with NX: answers whether the member was added. */
    method ZAddNX(k: string, m: string, score: int) returns (r: Result<bool>)
      requires Valid()
      modifies this
      ensures Valid()
      ensures k in old(lists) ==> r == Err(WrongType) && Model() == old(Model())
      ensures k !in old(lists) ==>
        r == Ok(m !in Members(ZSetOf(old(Model()), k))) && Model() == ZAddDb(old(Model()), k, Entry(m, score))
    {
      if k in lists {
        return Err(WrongType);
      }
      ZAddValid(Model(), k, Entry(m, score));
      var z := ZSetOf(Model(), k);
      if m in Members(z) {
        return Ok(false);
      }
      zsets := zsets[k := Insert(z, Entry(m, score))];
      r := Ok(true);
    }

    /** ZCARD: a missing key has no members. */
    method ZCard(k: string) returns (r: Result<nat>)
      ensures k in lists ==> r == Err(WrongType)
      ensures k !in lists ==> r == Ok(|ZSetOf(Model(), k)|)
    {
      if k in lists {
        return Err(WrongType);
      }
      r := Ok(|ZSetOf(Model(), k)|);
    }

    /** ZRANGE key start stop: the members of rank start..stop, ascending. */
    method ZRangeByRank(k: string, start: nat, stop: nat) returns (r: Result<seq<string>>)
      ensures k in lists ==> r == Err(WrongType)
      ensures k !in lists ==> r == Ok(Members(RankRange(ZSetOf(Model(), k), start, stop)))
    {
      if k in lists {
        return Err(WrongType);
      }
      r := Ok(Members(RankRange(ZSetOf(Model(), k), start, stop)));
    }

    /** ZREM: answers how many members were removed. */
    method ZRem(k: string, ms: seq<string>) returns (r: Result<nat>)
      requires Valid()
      modifies this
      ensures Valid()
      ensures k in old(lists) ==> r == Err(WrongType) && Model() == old(Model())
      ensures k !in old(lists) ==>
        Model() == ZRemDb(old(Model()), k, ms)
        && r == Ok(|ZSetOf(old(Model()), k)| - |ZSetOf(Model(), k)|)
    {
      if k in lists {
        return Err(WrongType);
      }
      var d := ZRemDb(Model(), k, ms);
      ZRemValid(Model(), k, ms);
      r := Ok(|ZSetOf(Model(), k)| - |ZSetOf(d, k)|);
      lists, zsets, ttl := d.lists, d.zsets, d.ttl;
    }

    /** ZPOPMIN key n: the n lowest-ranked entries, ascending, removed. */
    method ZPopMin(k: string, n: nat) returns (r: Result<seq<Entry>>)
      requires Valid()
      modifies this
      ensures Valid()
      ensures k in old(lists) ==> r == Err(WrongType) && Model() == old(Model())
      ensures k !in old(lists) ==>
        var z := ZSetOf(old(Model()), k);
        r == Ok(z[..Min(n, |z|)]) && Model() == PopMinDb(old(Model()), k, n)
    {
      if k in lists {
        return Err(WrongType);
      }
      PopMinValid(Model(), k, n);
      var z := ZSetOf(Model(), k);
      var c := Min(n, |z|);
      r := Ok(z[..c]);
      if z[c..] == [] {
        zsets, ttl := zsets - {k}, ttl - {k};
      } else {
        zsets := zsets[k := z[c..]];
      }
    }

    /** KEYS glob: every key that matches, each once, in no fixed order. */
    method Keys(glob: string) returns (ks: seq<string>)
      ensures multiset(ks) == multiset(MatchingKeys(Model(), glob))
    {
      var all := lists.Keys + zsets.Keys;
      var rest := all;
      ks := [];
      while rest != {}
        invariant rest <= all
        invariant multiset(ks) == multiset(set x | x in all - rest && Match(glob, x))
        decreases rest
      {
        var k :| k in rest;
        ghost var before := set x | x in all - rest && Match(glob, x);
        if Match(glob, k) {
          ks := ks + [k];
        }
        rest := rest - {k};
        ghost var after := set x | x in all - rest && Match(glob, x);
        assert k !in before;
        assert after == if Match(glob, k) then before + {k} else before;
      }
      assert all - rest == all;
    }
  }
}
