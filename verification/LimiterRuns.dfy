/** Whole runs of the per-source limiter: which sources its table remembers, when
    a source is treated as if it had the limiter to itself, and what forgetting a
    source can cost. */
module LimiterRuns {
  import opened TokenBuckets
  import opened IPLimiters
  import opened RecencyOrder

  datatype Request = Request(key: string, r: Reading, victim: string)

  function After(s: LimiterState, reqs: seq<Request>): LimiterState {
    if reqs == [] then s
    else
      var q := reqs[|reqs| - 1];
      LimiterAllowed(After(s, reqs[..|reqs| - 1]), q.key, q.r, q.victim).0
  }

  predicate Admitted(s: LimiterState, reqs: seq<Request>, n: nat)
    requires n < |reqs|
  {
    LimiterAllowed(After(s, reqs[..n]), reqs[n].key, reqs[n].r, reqs[n].victim).1
  }

  predicate Evicts(s: LimiterState, reqs: seq<Request>, n: nat)
    requires n < |reqs|
  {
    NeedsRoom(After(s, reqs[..n]), reqs[n].key)
  }

  /** Every eviction of the run took an entry none was seen before. */
  predicate LegalVictims(s: LimiterState, reqs: seq<Request>) {
    forall n | 0 <= n < |reqs| && Evicts(s, reqs, n) :: IsOldest(After(s, reqs[..n]).buckets, reqs[n].victim)
  }

  predicate Empty(s: LimiterState) {
    s.buckets == map[] && s.maxKeys >= 1
  }

  lemma LegalPrefix(s: LimiterState, reqs: seq<Request>, n: nat)
    requires LegalVictims(s, reqs) && n <= |reqs|
    ensures LegalVictims(s, reqs[..n])
  {
    forall m | 0 <= m < n && Evicts(s, reqs[..n], m)
      ensures IsOldest(After(s, reqs[..n][..m]).buckets, reqs[..n][m].victim)
    {
      assert reqs[..n][..m] == reqs[..m];
    }
  }

  // ---------- the table is bounded ----------

  lemma {:induction false} TableIsBounded(s: LimiterState, reqs: seq<Request>)
    requires Empty(s) && LegalVictims(s, reqs)
    ensures After(s, reqs).maxKeys == s.maxKeys && After(s, reqs).rate == s.rate && After(s, reqs).burst == s.burst
    ensures |After(s, reqs).buckets| <= s.maxKeys
  {
    if reqs != [] {
      var n := |reqs| - 1;
      LegalPrefix(s, reqs, n);
      TableIsBounded(s, reqs[..n]);
      assert Evicts(s, reqs, n) ==> IsOldest(After(s, reqs[..n]).buckets, reqs[n].victim);
      BoundStep(After(s, reqs[..n]), reqs[n]);
    }
  }

  lemma BoundStep(s: LimiterState, q: Request)
    requires |s.buckets| <= s.maxKeys && (NeedsRoom(s, q.key) ==> q.victim in s.buckets)
    ensures |LimiterAllowed(s, q.key, q.r, q.victim).0.buckets| <= s.maxKeys
  {
    hide Allowed;
    var room := if NeedsRoom(s, q.key) then s.buckets - {q.victim} else s.buckets;
    if NeedsRoom(s, q.key) {
      assert room.Keys == s.buckets.Keys - {q.victim};
      assert |room| == |s.buckets| - 1;
    }
    var end := LimiterAllowed(s, q.key, q.r, q.victim).0.buckets;
    assert end.Keys == room.Keys + {q.key};
    assert |end| == |end.Keys|;
  }

  // ---------- the table remembers the most recent sources ----------

  /** The sources in order of their last request, latest first. */
  function Recency(reqs: seq<Request>): seq<string> {
    if reqs == [] then [] else Promote(Recency(reqs[..|reqs| - 1]), reqs[|reqs| - 1].key)
  }

  /** The table holds the most recent sources, and their entries say in which
      order they were last seen. */
  ghost predicate Remembers(s: LimiterState, rec: seq<string>) {
    && Distinct(rec)
    && s.buckets.Keys == Top(rec, s.maxKeys)
    && SeenInOrder(s.buckets, rec)
  }

  ghost predicate SeenInOrder(m: map<string, Entry>, rec: seq<string>) {
    forall i, j | 0 <= i < j < |rec| && rec[i] in m && rec[j] in m :: m[rec[j]].lastSeen < m[rec[i]].lastSeen
  }

  lemma RememberStep(s: LimiterState, rec: seq<string>, q: Request)
    requires s.maxKeys >= 1 && Remembers(s, rec)
    requires forall k | k in s.buckets :: s.buckets[k].lastSeen < q.r.seen
    requires NeedsRoom(s, q.key) ==> IsOldest(s.buckets, q.victim)
    ensures Remembers(LimiterAllowed(s, q.key, q.r, q.victim).0, Promote(rec, q.key))
  {
    hide Allowed, Promote, Top, IndexOf, SeenInOrder;
    var m := s.maxKeys;
    PromoteDistinct(rec, q.key);
    TopAfterPromote(rec, q.key, m);
    TopSize(rec, m);
    assert |s.buckets| == |s.buckets.Keys|;
    if NeedsRoom(s, q.key) {
      OldestIsLast(s, rec, q.victim);
    }
    var room := if NeedsRoom(s, q.key) then s.buckets - {q.victim} else s.buckets;
    OrderStep(s.buckets, rec, q.key, room, LimiterAllowed(s, q.key, q.r, q.victim).0.buckets[q.key]);
  }

  lemma OrderStep(m: map<string, Entry>, rec: seq<string>, key: string, room: map<string, Entry>, e: Entry)
    requires Distinct(rec) && SeenInOrder(m, rec)
    requires forall k | k in room :: k in m && room[k] == m[k]
    requires forall k | k in m :: m[k].lastSeen < e.lastSeen
    ensures SeenInOrder(room[key := e], Promote(rec, key))
  {
    hide Promote, IndexOf;
    var p, end := Promote(rec, key), room[key := e];
    PromoteDistinct(rec, key);
    forall i, j | 0 <= i < j < |p| && p[i] in end && p[j] in end
      ensures end[p[j]].lastSeen < end[p[i]].lastSeen
    {
      PromotedAt(rec, key, 0);
      PromotedAt(rec, key, i);
      PromotedAt(rec, key, j);
      assert p[j] != key;
    }
  }

  lemma OldestIsLast(s: LimiterState, rec: seq<string>, victim: string)
    requires s.maxKeys >= 1 && Remembers(s, rec) && |rec| >= s.maxKeys && IsOldest(s.buckets, victim)
    ensures victim == rec[s.maxKeys - 1]
  {
    hide Top, IndexOf;
    var m := s.maxKeys;
    InTop(rec, m, m - 1);
    InOrder(rec, m, victim, IndexOf(rec, victim));
  }

  predicate StrictlyLater(reqs: seq<Request>) {
    forall i, j | 0 <= i < j < |reqs| :: reqs[i].r.seen < reqs[j].r.seen
  }

  ghost predicate SeenBy(m: map<string, Entry>, t: real) {
    forall k | k in m :: m[k].lastSeen <= t
  }

  /** With a clock that never repeats a reading, the table is at every moment
      exactly the `maxKeys` most recent sources, or all of them while fewer. */
  lemma {:induction false} TableIsMostRecent(s: LimiterState, reqs: seq<Request>)
    requires Empty(s) && LegalVictims(s, reqs) && StrictlyLater(reqs)
    ensures Remembers(After(s, reqs), Recency(reqs))
    ensures reqs != [] ==> SeenBy(After(s, reqs).buckets, reqs[|reqs| - 1].r.seen)
  {
    TableIsBounded(s, reqs);
    if reqs == [] {
      assert Top<string>([], s.maxKeys) == {};
    } else {
      var n := |reqs| - 1;
      LegalPrefix(s, reqs, n);
      TableIsMostRecent(s, reqs[..n]);
      TableIsBounded(s, reqs[..n]);
      VictimIsOldest(s, reqs, n);
      LastRemembered(s, reqs);
    }
  }

  lemma VictimIsOldest(s: LimiterState, reqs: seq<Request>, n: nat)
    requires LegalVictims(s, reqs) && n < |reqs|
    ensures NeedsRoom(After(s, reqs[..n]), reqs[n].key) ==> IsOldest(After(s, reqs[..n]).buckets, reqs[n].victim)
  {
    assert Evicts(s, reqs, n) == NeedsRoom(After(s, reqs[..n]), reqs[n].key);
  }

  lemma LastRemembered(s: LimiterState, reqs: seq<Request>)
    requires s.maxKeys >= 1 && reqs != [] && StrictlyLater(reqs)
    requires var n := |reqs| - 1;
      var before := After(s, reqs[..n]);
      && before.maxKeys == s.maxKeys && Remembers(before, Recency(reqs[..n]))
      && (n > 0 ==> SeenBy(before.buckets, reqs[n - 1].r.seen)) && (n == 0 ==> before.buckets == map[])
      && (NeedsRoom(before, reqs[n].key) ==> IsOldest(before.buckets, reqs[n].victim))
    ensures Remembers(After(s, reqs), Recency(reqs))
    ensures SeenBy(After(s, reqs).buckets, reqs[|reqs| - 1].r.seen)
  {
    hide Allowed, Remembers, Promote, IsOldest;
    var n := |reqs| - 1;
    var before := After(s, reqs[..n]);
    forall k | k in before.buckets ensures before.buckets[k].lastSeen < reqs[n].r.seen {
      assert reqs[n - 1].r.seen < reqs[n].r.seen;
    }
    RememberStep(before, Recency(reqs[..n]), reqs[n]);
  }
}
