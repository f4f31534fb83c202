/** One token bucket per source, in a table of bounded size that forgets the
    least recently seen source when a new one needs room. */
module IPLimiters {
  import opened Maps
  import opened TokenBuckets

  datatype Entry = Entry(bucket: BucketState, lastSeen: real)

  datatype LimiterState = LimiterState(buckets: map<string, Entry>, rate: real, burst: real, maxKeys: nat)

  /** The clock is read three times on the way: when the request is seen, when a
      bucket has to be created, and when the bucket is asked. */
  datatype Reading = Reading(seen: real, born: real, at: real)

  /** No entry was seen before `k`'s; map iteration decides between equals. */
  predicate IsOldest(m: map<string, Entry>, k: string) {
    k in m && forall j | j in m :: m[k].lastSeen <= m[j].lastSeen
  }

  predicate NeedsRoom(s: LimiterState, key: string) {
    key !in s.buckets && |s.buckets| >= s.maxKeys
  }

  /** The bucket a request of `key` is put to. */
  function BucketFor(s: LimiterState, key: string, r: Reading): BucketState {
    if key in s.buckets then s.buckets[key].bucket else Full(s.rate, s.burst, r.born)
  }

  /** IPLimiter.Allow, one step, with the entry that was evicted if one had to be. */
  function LimiterAllowed(s: LimiterState, key: string, r: Reading, victim: string): (LimiterState, bool) {
    var room := if NeedsRoom(s, key) then s.buckets - {victim} else s.buckets;
    var (b, ok) := Allowed(BucketFor(s, key, r), r.at);
    (s.(buckets := room[key := Entry(b, r.seen)]), ok)
  }

  /** A table row; rows are never shared, so they are held by value. */
  datatype IpEntry = IpEntry(bucket: TokenBucket, lastSeen: real)

  class IPLimiter {
    var buckets: map<string, IpEntry>
    const rate: real
    const burst: real
    const maxKeys: nat
    /** What the table holds, bucket contents included. */
    ghost var table: map<string, Entry>
    /** Whose bucket each bucket is: sources do not share them. */
    ghost var owner: map<TokenBucket, string>
    ghost var Repr: set<object>

    /** The table says what the buckets hold, in a table that can hold some. */
    ghost predicate Valid()
      reads this, Repr
      ensures Valid() ==> this in Repr
    {
      && this in Repr
      && 1 <= maxKeys
      && table.Keys == buckets.Keys
      && (forall k | k in buckets :: buckets[k].bucket in Repr && RowValid(k, buckets[k], table[k]))
    }

    ghost predicate RowValid(k: string, row: IpEntry, entry: Entry)
      reads row.bucket
      reads this`owner
    {
      && row.bucket in owner && owner[row.bucket] == k
      && entry == Entry(row.bucket.State(), row.lastSeen)
    }

    ghost function State(): LimiterState
      reads this
    {
      LimiterState(table, rate, burst, maxKeys)
    }

    constructor (rate: real, burst: real, maxKeys: int)
      ensures Valid() && fresh(Repr)
      ensures State() == LimiterState(map[], rate, burst, if maxKeys < 1 then 1 else maxKeys)
    {
      this.buckets, this.table, this.owner := map[], map[], map[];
      this.rate, this.burst := rate, burst;
      this.maxKeys := if maxKeys < 1 then 1 else maxKeys;
      this.Repr := {this};
    }

    method Delete(k: string)
      requires Valid()
      modifies this`buckets, this`table
      ensures Valid() && table == old(table) - {k}
    {
      buckets := buckets - {k};
      table := table - {k};
    }

    /** Removes an entry none was seen before; the scan visits the entries in
        any order. */
    method EvictOldest() returns (victim: string)
      requires Valid() && table != map[]
      modifies this`buckets, this`table
      ensures Valid()
      ensures IsOldest(old(table), victim)
      ensures table == old(table) - {victim}
    {
      var first := true;
      victim := "";
      var oldest := 0.0;
      var left := buckets.Keys;
      while left != {}
        invariant left <= buckets.Keys
        invariant first <==> left == buckets.Keys
        invariant !first ==> victim in buckets && victim !in left && oldest == buckets[victim].lastSeen
        invariant !first ==> forall k | k in buckets && k !in left :: oldest <= buckets[k].lastSeen
        decreases |left|
      {
        var k :| k in left;
        left := left - {k};
        if first || buckets[k].lastSeen < oldest {
          oldest, victim, first := buckets[k].lastSeen, k, false;
        }
      }
      assert IsOldest(table, victim);
      hide Valid, IsOldest;
      Delete(victim);
    }

    method Insert(key: string, b: TokenBucket, seen: real)
      requires Valid() && key !in table && b !in Repr
      modifies this`buckets, this`table, this`owner, this`Repr
      ensures Valid() && Repr == old(Repr) + {b}
      ensures table == old(table)[key := Entry(b.State(), seen)]
    {
      buckets := buckets[key := IpEntry(b, seen)];
      table := table[key := Entry(b.State(), seen)];
      owner := owner[b := key];
      Repr := Repr + {b};
    }

    /** Puts the request to the source's own bucket; no other bucket changes. */
    method Ask(key: string, r: Reading) returns (ok: bool)
      requires Valid() && key in table
      modifies this`buckets, this`table, Repr - {this}
      ensures Valid() && Repr == old(Repr)
      ensures ok == Allowed(old(table)[key].bucket, r.at).1
      ensures table == old(table)[key := Entry(Allowed(old(table)[key].bucket, r.at).0, r.seen)]
    {
      hide Allowed;
      var b := buckets[key].bucket;
      buckets := buckets[key := IpEntry(b, r.seen)];
      ok := b.Allow(r.at);
      table := table[key := Entry(b.State(), r.seen)];
    }

    /** Gives a new source a full bucket, making room for it if the table is full. */
    method Track(key: string, r: Reading) returns (ghost victim: string)
      requires Valid() && key !in table
      modifies this`buckets, this`table, this`owner, this`Repr
      ensures Valid() && fresh(Repr - old(Repr))
      ensures NeedsRoom(old(State()), key) ==> IsOldest(old(table), victim)
      ensures table == (if NeedsRoom(old(State()), key) then old(table) - {victim} else old(table))
                       [key := Entry(Full(rate, burst, r.born), r.seen)]
    {
      hide IsOldest, RowValid;
      victim := "";
      assert |buckets| == |table| by { assert |buckets.Keys| == |table.Keys|; }
      if |buckets| >= maxKeys {
        var v := EvictOldest();
        victim := v;
      }
      var b := new TokenBucket(rate, burst, r.born);
      hide Valid;
      Insert(key, b, r.seen);
    }

    method Allow(key: string, r: Reading) returns (ok: bool, ghost victim: string)
      requires Valid()
      modifies Repr
      ensures Valid() && fresh(Repr - old(Repr))
      ensures NeedsRoom(old(State()), key) ==> IsOldest(old(table), victim)
      ensures (State(), ok) == LimiterAllowed(old(State()), key, r, victim)
    {
      hide Allowed, IsOldest, RowValid;
      victim := "";
      if key !in buckets {
        victim := Track(key, r);
      }
      hide Valid;
      ghost var tracked := table;
      ok := Ask(key, r);
      ghost var was := old(State());
      ghost var room := if NeedsRoom(was, key) then was.buckets - {victim} else was.buckets;
      Overwrite(room, key, tracked[key], table[key]);
    }
  }
}
