/** What the bounded table means for one source of a run. */
module SourceRuns {
  import opened TokenBuckets
  import opened IPLimiters
  import opened RecencyOrder
  import opened LimiterRuns

  predicate Seen(reqs: seq<Request>, k: string) {
    reqs != [] && (reqs[|reqs| - 1].key == k || Seen(reqs[..|reqs| - 1], k))
  }

  /** The other sources that made a request since the last one of `k`. */
  function Others(reqs: seq<Request>, k: string): set<string> {
    if reqs == [] || reqs[|reqs| - 1].key == k then {}
    else Others(reqs[..|reqs| - 1], k) + {reqs[|reqs| - 1].key}
  }

  lemma {:induction false} OthersAreAhead(reqs: seq<Request>, k: string)
    ensures Distinct(Recency(reqs))
    ensures k in Recency(reqs) <==> Seen(reqs, k)
    ensures Seen(reqs, k) ==> Others(reqs, k) == Top(Recency(reqs), IndexOf(Recency(reqs), k))
  {
    if reqs != [] {
      var n := |reqs| - 1;
      OthersAreAhead(reqs[..n], k);
      PromoteDistinct(Recency(reqs[..n]), reqs[n].key);
      AheadStep(Recency(reqs[..n]), reqs[n].key, k);
    }
  }

  /** Who is ahead of `k` once `x` has moved to the front. */
  lemma AheadStep(rec: seq<string>, x: string, k: string)
    requires Distinct(rec)
    ensures k in Promote(rec, x) <==> k == x || k in rec
    ensures k == x ==> Top(Promote(rec, x), IndexOf(Promote(rec, x), k)) == {}
    ensures k != x && k in rec ==>
      Top(Promote(rec, x), IndexOf(Promote(rec, x), k)) == Top(rec, IndexOf(rec, k)) + {x}
  {
    hide Promote, IndexOf, Top;
    var p, at, was := Promote(rec, x), IndexOf(rec, x), IndexOf(rec, k);
    PromoteDistinct(rec, x);
    PromotedSize(rec, x);
    PromotedAt(rec, x, 0);
    InOrder(rec, 0, x, at);
    InOrder(rec, 0, k, was);
    InOrder(p, 0, k, IndexOf(p, k));
    if k == x {
      assert Top(p, 0) == {} by { TopZero(p); }
    } else if k in rec {
      var now := if was < at then was + 1 else was;
      PromotedAt(rec, x, now);
      assert IndexOf(p, k) == now;
      InOrder(rec, was, x, at);
      if at < was {
        TopAfterPromote(rec, x, was);
      } else {
        TopAfterPromote(rec, x, was + 1);
        TopNext(rec, was);
        InOrder(rec, was + 1, x, at);
        InTop(rec, was, was);
      }
    } else {
      NotPromoted(rec, x, k);
    }
  }

  lemma TopZero<K>(rec: seq<K>)
    ensures Top(rec, 0) == {}
  {}

  lemma TopNext<K>(rec: seq<K>, m: nat)
    requires m < |rec|
    ensures Top(rec, m + 1) == Top(rec, m) + {rec[m]}
  {
    assert rec[..m + 1] == rec[..m] + [rec[m]];
    assert if m + 1 < |rec| then true else rec == rec[..m] + [rec[m]];
  }

  /** A source is remembered if and only if it was seen and fewer than `maxKeys`
      others made a request since. */
  lemma RememberedIffFewOthers(s: LimiterState, reqs: seq<Request>, k: string)
    requires Empty(s) && LegalVictims(s, reqs) && StrictlyLater(reqs)
    ensures k in After(s, reqs).buckets <==> Seen(reqs, k) && |Others(reqs, k)| < s.maxKeys
  {
    hide Recency, IndexOf, Top, SeenInOrder, LegalVictims, StrictlyLater;
    var rec := Recency(reqs);
    TableIsBounded(s, reqs);
    TableIsMostRecent(s, reqs);
    OthersAreAhead(reqs, k);
    TopSize(rec, IndexOf(rec, k));
    InOrder(rec, s.maxKeys, k, IndexOf(rec, k));
  }

  // ---------- a source on its own ----------

  /** The readings at which the source's own requests were put to a bucket. */
  function Own(reqs: seq<Request>, k: string): seq<real> {
    if reqs == [] then []
    else
      var n := |reqs| - 1;
      Own(reqs[..n], k) + (if reqs[n].key == k then [reqs[n].r.at] else [])
  }

  /** When the source's first bucket was created. */
  function Birth(reqs: seq<Request>, k: string): real {
    if reqs == [] then 0.0
    else
      var n := |reqs| - 1;
      if !Seen(reqs[..n], k) && reqs[n].key == k then reqs[n].r.born else Birth(reqs[..n], k)
  }

  /** Between any two consecutive requests of the source, fewer than `maxKeys`
      other sources made one. */
  predicate NeverCrowdedOut(reqs: seq<Request>, k: string, maxKeys: nat) {
    forall n | 0 <= n < |reqs| && reqs[n].key == k && Seen(reqs[..n], k) :: |Others(reqs[..n], k)| < maxKeys
  }

  function Alone(s: LimiterState, reqs: seq<Request>, k: string): BucketState {
    Full(s.rate, s.burst, Birth(reqs, k))
  }

  lemma StrictPrefix(reqs: seq<Request>, n: nat)
    requires StrictlyLater(reqs) && n <= |reqs|
    ensures StrictlyLater(reqs[..n])
  {}

  /** If the table has a bucket for `k`, it is the one a private limiter would have. */
  predicate HasPrivate(s: LimiterState, reqs: seq<Request>, k: string) {
    var t := After(s, reqs);
    k in t.buckets ==>
      && Seen(reqs, k)
      && t.buckets[k].bucket == TokenBuckets.StateAfter(Alone(s, reqs, k), Own(reqs, k))
  }

  /** The bucket a request of `k` is put to is the one a private limiter would have. */
  lemma {:induction false} BucketIsPrivate(s: LimiterState, reqs: seq<Request>, k: string, n: nat)
    requires Empty(s) && LegalVictims(s, reqs) && StrictlyLater(reqs) && NeverCrowdedOut(reqs, k, s.maxKeys)
    requires n <= |reqs|
    ensures HasPrivate(s, reqs[..n], k)
    ensures n < |reqs| && reqs[n].key == k ==>
      BucketFor(After(s, reqs[..n]), k, reqs[n].r) ==
        TokenBuckets.StateAfter(Alone(s, reqs[..n + 1], k), Own(reqs[..n], k))
  {
    hide Allowed, LegalVictims, StrictlyLater;
    var before := reqs[..n];
    if n > 0 {
      BucketIsPrivate(s, reqs, k, n - 1);
      assert before[..n - 1] == reqs[..n - 1];
      PrivateStep(s, before, k);
    }
    TableIsBounded(s, before) by { LegalPrefix(s, reqs, n); }
    if n < |reqs| && reqs[n].key == k {
      var next := reqs[..n + 1];
      assert next[..n] == before;
      if Seen(before, k) {
        assert |Others(before, k)| < s.maxKeys;
        LegalPrefix(s, reqs, n);
        StrictPrefix(reqs, n);
        RememberedIffFewOthers(s, before, k);
      } else {
        NothingOwn(before, k);
      }
    }
  }

  lemma {:induction false} NothingOwn(reqs: seq<Request>, k: string)
    requires !Seen(reqs, k)
    ensures Own(reqs, k) == []
  {
    if reqs != [] {
      NothingOwn(reqs[..|reqs| - 1], k);
    }
  }

  lemma PrivateStep(s: LimiterState, reqs: seq<Request>, k: string)
    requires reqs != [] && HasPrivate(s, reqs[..|reqs| - 1], k)
    requires var n := |reqs| - 1;
      reqs[n].key == k ==>
        BucketFor(After(s, reqs[..n]), k, reqs[n].r) == TokenBuckets.StateAfter(Alone(s, reqs, k), Own(reqs[..n], k))
    ensures HasPrivate(s, reqs, k)
  {
    hide Allowed, Own, Birth, Seen;
    var n := |reqs| - 1;
    EntryStep(After(s, reqs[..n]), reqs[n], k);
    OwnStep(reqs, k);
    if reqs[n].key == k {
      var own := Own(reqs, k);
      assert own[..|own| - 1] == Own(reqs[..n], k);
    }
  }

  /** A request changes its own source's entry and can remove others'. */
  lemma EntryStep(s: LimiterState, q: Request, k: string)
    ensures var t := LimiterAllowed(s, q.key, q.r, q.victim).0;
      && (q.key == k ==> k in t.buckets && t.buckets[k].bucket == Allowed(BucketFor(s, k, q.r), q.r.at).0)
      && (q.key != k && k in t.buckets ==> k in s.buckets && t.buckets[k] == s.buckets[k])
  {
    hide Allowed;
  }

  lemma OwnStep(reqs: seq<Request>, k: string)
    requires reqs != []
    ensures var n := |reqs| - 1;
      && (reqs[n].key == k ==> Seen(reqs, k) && Own(reqs, k) == Own(reqs[..n], k) + [reqs[n].r.at])
      && (reqs[n].key != k ==> Seen(reqs, k) == Seen(reqs[..n], k) && Own(reqs, k) == Own(reqs[..n], k)
                               && Birth(reqs, k) == Birth(reqs[..n], k))
  {}

  /** A source that is never crowded out gets the answers of a token bucket of
      its own, fed its own requests only. */
  lemma AnswersAsIfAlone(s: LimiterState, reqs: seq<Request>, k: string, n: nat)
    requires Empty(s) && LegalVictims(s, reqs) && StrictlyLater(reqs) && NeverCrowdedOut(reqs, k, s.maxKeys)
    requires n < |reqs| && reqs[n].key == k
    ensures var mine := Own(reqs[..n + 1], k);
      && mine != []
      && Admitted(s, reqs, n) == Admits(Alone(s, reqs[..n + 1], k), mine, |mine| - 1)
  {
    hide Allowed, LegalVictims, StrictlyLater, NeverCrowdedOut;
    BucketIsPrivate(s, reqs, k, n);
    var mine := Own(reqs[..n + 1], k);
    assert reqs[..n + 1][..n] == reqs[..n];
    assert mine[..|mine| - 1] == Own(reqs[..n], k);
  }

  lemma {:induction false} CountOfPrefix(b: BucketState, ts: seq<real>, m: nat, n: nat)
    requires n <= m <= |ts|
    ensures Count(b, ts, 0, n) == Count(b, ts[..m], 0, n)
  {
    hide Allowed;
    if n > 0 {
      CountOfPrefix(b, ts, m, n - 1);
      assert ts[..m][..n - 1] == ts[..n - 1];
    }
  }

  /** The source's next request leaves the count of its earlier answers alone. */
  lemma CountBefore(s: LimiterState, reqs: seq<Request>, k: string)
    requires reqs != [] && reqs[|reqs| - 1].key == k
    ensures var n := |reqs| - 1;
      var own := Own(reqs[..n], k);
      && Own(reqs, k) == own + [reqs[n].r.at]
      && Count(Alone(s, reqs, k), Own(reqs, k), 0, |own|) == Count(Alone(s, reqs[..n], k), own, 0, |own|)
  {
    hide Count;
    var n := |reqs| - 1;
    var own := Own(reqs[..n], k);
    OwnStep(reqs, k);
    if Seen(reqs[..n], k) {
      assert Own(reqs, k)[..|own|] == own;
      CountOfPrefix(Alone(s, reqs, k), Own(reqs, k), |own|, |own|);
    } else {
      NothingOwn(reqs[..n], k);
      NothingCounted(Alone(s, reqs, k), Own(reqs, k));
      NothingCounted(Alone(s, reqs[..n], k), own);
    }
  }

  lemma NothingCounted(b: BucketState, ts: seq<real>)
    ensures Count(b, ts, 0, 0) == 0
  {}

  /** What a private bucket counts as admitted is what the limiter admitted. */
  lemma {:induction false} OwnAnswersCounted(s: LimiterState, reqs: seq<Request>, k: string)
    requires Empty(s) && LegalVictims(s, reqs) && StrictlyLater(reqs) && NeverCrowdedOut(reqs, k, s.maxKeys)
    ensures AdmittedCount(s, reqs, k) == Count(Alone(s, reqs, k), Own(reqs, k), 0, |Own(reqs, k)|)
  {
    if reqs != [] {
      var n := |reqs| - 1;
      LegalPrefix(s, reqs, n);
      StrictPrefix(reqs, n);
      CrowdPrefix(reqs, k, s.maxKeys, n);
      OwnAnswersCounted(s, reqs[..n], k);
      hide Admitted, Admits, Own, LegalVictims, StrictlyLater, NeverCrowdedOut, Seen, Birth;
      OwnStep(reqs, k);
      if reqs[n].key == k {
        CountBefore(s, reqs, k);
        assert reqs[..n + 1] == reqs;
        AnswersAsIfAlone(s, reqs, k, n);
      }
    } else {
      NothingCounted(Alone(s, reqs, k), []);
    }
  }

  lemma CrowdPrefix(reqs: seq<Request>, k: string, maxKeys: nat, n: nat)
    requires NeverCrowdedOut(reqs, k, maxKeys) && n <= |reqs|
    ensures NeverCrowdedOut(reqs[..n], k, maxKeys)
  {
    forall m | 0 <= m < n && reqs[..n][m].key == k && Seen(reqs[..n][..m], k)
      ensures |Others(reqs[..n][..m], k)| < maxKeys
    {
      assert reqs[..n][..m] == reqs[..m];
    }
  }

  // ---------- what forgetting a source can cost ----------

  /** Within a request and from one to the next, the clock does not go back. */
  predicate MonotoneClock(reqs: seq<Request>) {
    && (forall i | 0 <= i < |reqs| :: reqs[i].r.seen <= reqs[i].r.born <= reqs[i].r.at)
    && (forall i, j | 0 <= i < j < |reqs| :: reqs[i].r.at <= reqs[j].r.seen)
  }

  function AdmittedCount(s: LimiterState, reqs: seq<Request>, k: string): nat {
    if reqs == [] then 0
    else
      var n := |reqs| - 1;
      AdmittedCount(s, reqs[..n], k) + (if reqs[n].key == k && Admitted(s, reqs, n) then 1 else 0)
  }

  function Evictions(s: LimiterState, reqs: seq<Request>, k: string): nat {
    if reqs == [] then 0
    else
      var n := |reqs| - 1;
      Evictions(s, reqs[..n], k) + (if reqs[n].victim == k && Evicts(s, reqs, n) then 1 else 0)
  }

  /** The reading at which the source's last request was put to its bucket. */
  function LastAsked(reqs: seq<Request>, k: string): real {
    if reqs == [] then 0.0
    else if reqs[|reqs| - 1].key == k then reqs[|reqs| - 1].r.at
    else LastAsked(reqs[..|reqs| - 1], k)
  }

  /** `n` times `x`. */
  function Times(n: nat, x: real): real {
    n as real * x
  }

  lemma TimesNext(n: nat, x: real)
    ensures Times(n + 1, x) == Times(n, x) + x
  {}

  /** What the source has spent, plus what it has in hand, is covered by one
      burst for each bucket it was given and the refill since its first. */
  ghost predicate Covered(s: LimiterState, reqs: seq<Request>, k: string) {
    var t := After(s, reqs);
    var burst := Max(s.burst, 0.0);
    var spent := AdmittedCount(s, reqs, k) as real;
    var e := Evictions(s, reqs, k);
    var grown := Accrued(s.rate, LastAsked(reqs, k) - Birth(reqs, k));
    if !Seen(reqs, k) then k !in t.buckets && spent == 0.0 && e == 0
    else
      && Birth(reqs, k) <= LastAsked(reqs, k)
      && (k !in t.buckets ==> spent <= Times(e, burst) + grown)
      && (k in t.buckets ==>
            var b := t.buckets[k].bucket;
            && b.rate == s.rate && b.capacity == s.burst && b.last == LastAsked(reqs, k)
            && spent + Max(b.tokens, 0.0) <= Times(e + 1, burst) + grown)
  }

  /** Asking a bucket spends at most what it had and what it accrued. */
  lemma AskSpends(b: BucketState, at: real)
    requires b.rate >= 0.0 && b.last <= at
    ensures var (c, ok) := Allowed(b, at);
      && c.rate == b.rate && c.capacity == b.capacity && c.last == at
      && (if ok then 1.0 else 0.0) + Max(c.tokens, 0.0) <= Max(b.tokens, 0.0) + Accrued(b.rate, at - b.last)
  {
    hide Accrued;
    AccruedGrows(b.rate, at - b.last, 0.0);
    AccruedAdds(b.rate, 0.0, 0.0);
  }

  lemma AccruedSpan(rate: real, x: real, y: real, z: real)
    ensures Accrued(rate, z - x) == Accrued(rate, y - x) + Accrued(rate, z - y)
  {
    AccruedAdds(rate, y - x, z - y);
    assert y - x + (z - y) == z - x;
  }

  lemma CountsStep(s: LimiterState, reqs: seq<Request>, k: string)
    requires reqs != [] && reqs[|reqs| - 1].key == k
    requires reqs[|reqs| - 1].victim == k ==> !Evicts(s, reqs, |reqs| - 1)
    ensures var n := |reqs| - 1;
      var before := reqs[..n];
      && Seen(reqs, k) && LastAsked(reqs, k) == reqs[n].r.at
      && Evictions(s, reqs, k) == Evictions(s, before, k)
      && AdmittedCount(s, reqs, k) == AdmittedCount(s, before, k)
           + (if Allowed(BucketFor(After(s, before), k, reqs[n].r), reqs[n].r.at).1 then 1 else 0)
      && Birth(reqs, k) == (if Seen(before, k) then Birth(before, k) else reqs[n].r.born)
      && After(s, reqs) == LimiterAllowed(After(s, before), k, reqs[n].r, reqs[n].victim).0
  {
    hide Allowed;
  }

  /** The bucket a request is put to, new or old, is covered with one burst more
      than the evictions so far. */
  lemma AskedBucketCovered(s: LimiterState, reqs: seq<Request>, k: string)
    requires reqs != [] && reqs[|reqs| - 1].key == k && s.rate >= 0.0
    requires Covered(s, reqs[..|reqs| - 1], k) && SameSettings(s, After(s, reqs[..|reqs| - 1]))
    requires OwnClock(reqs, k)
    ensures var before, q := reqs[..|reqs| - 1], reqs[|reqs| - 1];
      var b := BucketFor(After(s, before), k, q.r);
      var birth := if Seen(before, k) then Birth(before, k) else q.r.born;
      && b.rate == s.rate && b.capacity == s.burst && birth <= b.last <= q.r.at
      && AdmittedCount(s, before, k) as real + Max(b.tokens, 0.0)
           <= Times(Evictions(s, before, k) + 1, Max(s.burst, 0.0)) + Accrued(s.rate, b.last - birth)
  {
    hide Accrued, Times, After, Seen, LastAsked, Evictions, AdmittedCount, Birth;
    var before, q := reqs[..|reqs| - 1], reqs[|reqs| - 1];
    var burst := Max(s.burst, 0.0);
    AccruedAdds(s.rate, 0.0, 0.0);
    if !Seen(before, k) {
      TimesNext(0, burst);
      TimesZero(burst);
    } else if k !in After(s, before).buckets {
      var birth, last := Birth(before, k), LastAsked(before, k);
      TimesNext(Evictions(s, before, k), burst);
      AccruedSpan(s.rate, birth, last, q.r.born);
      AccruedGrows(s.rate, q.r.born - last, 0.0);
    }
  }

  lemma TrackedIsCovered(s: LimiterState, reqs: seq<Request>, k: string, b: BucketState)
    requires Seen(reqs, k) && Birth(reqs, k) <= LastAsked(reqs, k)
    requires k in After(s, reqs).buckets && b == After(s, reqs).buckets[k].bucket
    requires b.rate == s.rate && b.capacity == s.burst && b.last == LastAsked(reqs, k)
    requires AdmittedCount(s, reqs, k) as real + Max(b.tokens, 0.0)
      <= Times(Evictions(s, reqs, k) + 1, Max(s.burst, 0.0)) + Accrued(s.rate, LastAsked(reqs, k) - Birth(reqs, k))
    ensures Covered(s, reqs, k)
  {
    hide Accrued, Times, After, Seen, LastAsked, Evictions, AdmittedCount, Birth, Max;
  }

  /** A request of the source itself. */
  lemma OwnRequestCovered(s: LimiterState, reqs: seq<Request>, k: string)
    requires reqs != [] && reqs[|reqs| - 1].key == k && s.rate >= 0.0
    requires Covered(s, reqs[..|reqs| - 1], k) && SameSettings(s, After(s, reqs[..|reqs| - 1]))
    requires OwnClock(reqs, k)
    requires reqs[|reqs| - 1].victim == k ==> !Evicts(s, reqs, |reqs| - 1)
    ensures Covered(s, reqs, k)
  {
    hide *;
    AskedBucketCovered(s, reqs, k);
    CountsStep(s, reqs, k);
    var before, q := reqs[..|reqs| - 1], reqs[|reqs| - 1];
    var t := After(s, before);
    var b := BucketFor(t, k, q.r);
    EntryStep(t, q, k);
    AskSpends(b, q.r.at);
    AccruedSpan(s.rate, Birth(reqs, k), b.last, q.r.at);
    TrackedIsCovered(s, reqs, k, Allowed(b, q.r.at).0);
  }

  lemma TimesZero(x: real)
    ensures Times(0, x) == 0.0
  {}

  predicate SameSettings(s: LimiterState, t: LimiterState) {
    t.rate == s.rate && t.burst == s.burst && t.maxKeys == s.maxKeys
  }

  predicate OwnClock(reqs: seq<Request>, k: string)
    requires reqs != []
  {
    var n := |reqs| - 1;
    && reqs[n].r.born <= reqs[n].r.at
    && (Seen(reqs[..n], k) ==> LastAsked(reqs[..n], k) <= reqs[n].r.born)
  }

  /** A request of another source, which may cost this one its bucket. */
  lemma OtherRequestCovered(s: LimiterState, reqs: seq<Request>, k: string)
    requires reqs != [] && reqs[|reqs| - 1].key != k
    requires Covered(s, reqs[..|reqs| - 1], k)
    requires Evicts(s, reqs, |reqs| - 1) ==> reqs[|reqs| - 1].victim in After(s, reqs[..|reqs| - 1]).buckets
    ensures Covered(s, reqs, k)
  {
    hide Allowed, Accrued, Times;
    OwnStep(reqs, k);
  }

  lemma {:induction false} LastAskedIsPast(reqs: seq<Request>, k: string, t: real)
    requires Seen(reqs, k) && forall i | 0 <= i < |reqs| :: reqs[i].r.at <= t
    ensures LastAsked(reqs, k) <= t
  {
    if reqs[|reqs| - 1].key != k {
      LastAskedIsPast(reqs[..|reqs| - 1], k, t);
    }
  }

  lemma {:induction false} AlwaysCovered(s: LimiterState, reqs: seq<Request>, k: string)
    requires Empty(s) && LegalVictims(s, reqs) && MonotoneClock(reqs) && s.rate >= 0.0
    ensures Covered(s, reqs, k)
  {
    if reqs != [] {
      var n := |reqs| - 1;
      LegalPrefix(s, reqs, n);
      AlwaysCovered(s, reqs[..n], k);
      TableIsBounded(s, reqs[..n]);
      VictimIsOldest(s, reqs, n);
      hide Covered, LegalVictims, Seen, LastAsked, After;
      if reqs[n].key == k {
        if Seen(reqs[..n], k) {
          LastAskedIsPast(reqs[..n], k, reqs[n].r.seen);
        }
        OwnRequestCovered(s, reqs, k);
      } else {
        OtherRequestCovered(s, reqs, k);
      }
    }
  }

  /** A source that was evicted `e` times is admitted at most `e + 1` bursts plus
      the refill of the time between its first bucket and its last request. */
  lemma SourceBudget(s: LimiterState, reqs: seq<Request>, k: string)
    requires Empty(s) && LegalVictims(s, reqs) && MonotoneClock(reqs) && s.rate >= 0.0
    requires Seen(reqs, k)
    ensures AdmittedCount(s, reqs, k) as real
      <= Times(Evictions(s, reqs, k) + 1, Max(s.burst, 0.0)) + Accrued(s.rate, LastAsked(reqs, k) - Birth(reqs, k))
  {
    hide Accrued, Times, After, Seen, LastAsked, Evictions, AdmittedCount, Birth;
    AlwaysCovered(s, reqs, k);
    TimesNext(Evictions(s, reqs, k), Max(s.burst, 0.0));
  }
}
