/** The two gates every handshake passes before the server works on it: one
    bucket for all sources, then a bucket for the source. */
module HandshakeGates {
  import opened TokenBuckets
  import opened IPLimiters
  import opened LimiterRuns
  import opened SourceRuns

  /** A handshake packet at the gates: its source, the reading of the first gate,
      those of the second, and the entry the second forgets if it must. */
  datatype Attempt = Attempt(ip: string, at: real, r: Reading, victim: string)

  datatype Gates = Gates(global: BucketState, perIP: LimiterState)

  /** The source's own budget is asked, and spent, only if the first gate had room. */
  function GatesAsked(g: Gates, x: Attempt): (Gates, bool) {
    var (global, room) := Allowed(g.global, x.at);
    if !room then (Gates(global, g.perIP), false)
    else
      var (perIP, ok) := LimiterAllowed(g.perIP, x.ip, x.r, x.victim);
      (Gates(global, perIP), ok)
  }

  /** The attempt comes to the second gate, and its source needs room there. */
  predicate Crowded(g: Gates, ip: string, at: real) {
    Allowed(g.global, at).1 && NeedsRoom(g.perIP, ip)
  }

  /** The gates of a server that has just started. */
  function ServerGates(started: real): Gates {
    Gates(Full(100.0, 200.0, started), LimiterState(map[], 5.0, 10.0, 4096))
  }

  function GatesAfter(g: Gates, xs: seq<Attempt>): Gates {
    if xs == [] then g else GatesAsked(GatesAfter(g, xs[..|xs| - 1]), xs[|xs| - 1]).0
  }

  predicate Passes(g: Gates, xs: seq<Attempt>, n: nat)
    requires n < |xs|
  {
    GatesAsked(GatesAfter(g, xs[..n]), xs[n]).1
  }

  /** How many of the attempts j, ..., n - 1 passed both gates. */
  function PassCount(g: Gates, xs: seq<Attempt>, j: nat, n: nat): nat
    requires n <= |xs|
  {
    if n <= j then 0 else PassCount(g, xs, j, n - 1) + (if Passes(g, xs, n - 1) then 1 else 0)
  }

  /** How many attempts of one source passed both gates. */
  function SourcePassCount(g: Gates, xs: seq<Attempt>, k: string): nat {
    if xs == [] then 0
    else
      var n := |xs| - 1;
      SourcePassCount(g, xs[..n], k) + (if xs[n].ip == k && Passes(g, xs, n) then 1 else 0)
  }

  /** What the first gate is asked: everything. */
  function Readings(xs: seq<Attempt>): (ts: seq<real>)
    ensures |ts| == |xs|
  {
    seq(|xs|, i requires 0 <= i < |xs| => xs[i].at)
  }

  /** What the second gate is asked: what the first let through. */
  function LetThrough(g: Gates, xs: seq<Attempt>): seq<Request> {
    if xs == [] then []
    else
      var n := |xs| - 1;
      LetThrough(g, xs[..n])
        + (if Allowed(GatesAfter(g, xs[..n]).global, xs[n].at).1 then [Request(xs[n].ip, xs[n].r, xs[n].victim)]
           else [])
  }

  lemma {:induction false} FirstGate(g: Gates, xs: seq<Attempt>)
    ensures GatesAfter(g, xs).global == StateAfter(g.global, Readings(xs))
  {
    hide Allowed, LimiterAllowed;
    if xs != [] {
      var n := |xs| - 1;
      FirstGate(g, xs[..n]);
      assert Readings(xs)[..n] == Readings(xs[..n]);
    }
  }

  lemma {:induction false} SecondGate(g: Gates, xs: seq<Attempt>, k: string)
    ensures GatesAfter(g, xs).perIP == After(g.perIP, LetThrough(g, xs))
    ensures SourcePassCount(g, xs, k) == AdmittedCount(g.perIP, LetThrough(g, xs), k)
  {
    hide Allowed, LimiterAllowed;
    if xs != [] {
      var n := |xs| - 1;
      SecondGate(g, xs[..n], k);
      var before, reqs := LetThrough(g, xs[..n]), LetThrough(g, xs);
      if reqs != before {
        assert reqs[..|reqs| - 1] == before;
      }
    }
  }

  lemma {:induction false} PassesAreAdmitted(g: Gates, xs: seq<Attempt>, j: nat, n: nat)
    requires n <= |xs|
    ensures PassCount(g, xs, j, n) <= Count(g.global, Readings(xs), j, n)
  {
    hide Allowed, LimiterAllowed, GatesAfter, StateAfter;
    if n > j {
      PassesAreAdmitted(g, xs, j, n - 1);
      FirstGate(g, xs[..n - 1]);
      assert Readings(xs)[..n - 1] == Readings(xs[..n - 1]);
    }
  }

  /** However many sources try, in any window of any run at most 200 handshakes
      plus 100 for each second of it pass both gates. */
  lemma PassesAreBounded(started: real, xs: seq<Attempt>, j: nat, n: nat)
    requires j < n <= |xs|
    ensures var g, ts := ServerGates(started), Readings(xs);
      PassCount(g, xs, j, n) as real <= 200.0 + (Clock(started, ts, n) - Clock(started, ts, j + 1)) * 100.0
  {
    hide Count, Clock, PassCount, Readings;
    var g := ServerGates(started);
    PassesAreAdmitted(g, xs, j, n);
    EveryWindowIsBounded(g.global, Readings(xs), j, n);
  }

  /** The second gate keeps every source to ten handshakes for each time its
      entry was given afresh, plus five for each second since its first. */
  lemma SourcePassesAreBounded(started: real, xs: seq<Attempt>, k: string)
    requires var reqs := LetThrough(ServerGates(started), xs);
      LegalVictims(ServerGates(started).perIP, reqs) && MonotoneClock(reqs) && Seen(reqs, k)
    ensures var g := ServerGates(started);
      var reqs := LetThrough(g, xs);
      SourcePassCount(g, xs, k) as real
        <= Times(Evictions(g.perIP, reqs, k) + 1, 10.0) + (LastAsked(reqs, k) - Birth(reqs, k)) * 5.0
  {
    hide LetThrough, LegalVictims, MonotoneClock, Seen, Evictions, LastAsked, Birth;
    hide SourcePassCount, AdmittedCount, Times;
    var g := ServerGates(started);
    SecondGate(g, xs, k);
    SourceBudget(g.perIP, LetThrough(g, xs), k);
  }

  // ---------- who gets through ----------

  predicate PassesFirst(g: Gates, xs: seq<Attempt>, n: nat)
    requires n < |xs|
  {
    Allowed(GatesAfter(g, xs[..n]).global, xs[n].at).1
  }

  /** How many of the attempts j, ..., n - 1 passed the first gate. */
  function FirstPassCount(g: Gates, xs: seq<Attempt>, j: nat, n: nat): nat
    requires n <= |xs|
  {
    if n <= j then 0 else FirstPassCount(g, xs, j, n - 1) + (if PassesFirst(g, xs, n - 1) then 1 else 0)
  }

  lemma FirstPassIsAdmitted(g: Gates, xs: seq<Attempt>, n: nat)
    requires n < |xs|
    ensures PassesFirst(g, xs, n) == Admits(g.global, Readings(xs), n)
  {
    hide Allowed, GatesAfter, StateAfter;
    FirstGate(g, xs[..n]);
    assert Readings(xs)[..n] == Readings(xs[..n]);
  }

  lemma {:induction false} FirstPassesCounted(g: Gates, xs: seq<Attempt>, j: nat, n: nat)
    requires n <= |xs|
    ensures FirstPassCount(g, xs, j, n) == Count(g.global, Readings(xs), j, n)
  {
    hide PassesFirst, Admits, Readings;
    if n > j {
      FirstPassesCounted(g, xs, j, n - 1);
      FirstPassIsAdmitted(g, xs, n - 1);
    }
  }

  lemma WindowHasRoom(started: real, ts: seq<real>, j: nat, n: nat)
    requires j <= n < |ts| && Admits(ServerGates(started).global, ts, n)
    ensures Count(ServerGates(started).global, ts, j, n) as real + 1.0
      <= 200.0 + 100.0 * (Clock(started, ts, n + 1) - Clock(started, ts, j + 1))
  {
    hide Count, Clock, Admits;
    FullAdmits(100.0, 200.0, started, ts, n);
  }

  /** The first gate of a server that has just started lets an attempt through if
      and only if every window that ends with it, from its start or from an
      earlier attempt, has room under 200 plus 100 for each second. */
  lemma FirstGateExactly(started: real, xs: seq<Attempt>, n: nat)
    requires n < |xs|
    ensures var g, ts := ServerGates(started), Readings(xs);
      PassesFirst(g, xs, n) <==>
        && FirstPassCount(g, xs, 0, n) as real + 1.0 <= 200.0 + 100.0 * (Clock(started, ts, n + 1) - started)
        && forall j | 0 <= j <= n ::
             FirstPassCount(g, xs, j, n) as real + 1.0
               <= 200.0 + 100.0 * (Clock(started, ts, n + 1) - Clock(started, ts, j + 1))
  {
    hide Count, Clock, FirstPassCount, PassesFirst, Readings, Admits;
    var g, ts := ServerGates(started), Readings(xs);
    FirstPassIsAdmitted(g, xs, n);
    FullAdmits(100.0, 200.0, started, ts, n);
    FirstPassesCounted(g, xs, 0, n);
    if PassesFirst(g, xs, n) {
      forall j | 0 <= j <= n
        ensures FirstPassCount(g, xs, j, n) as real + 1.0
          <= 200.0 + 100.0 * (Clock(started, ts, n + 1) - Clock(started, ts, j + 1))
      {
        FirstPassesCounted(g, xs, j, n);
        WindowHasRoom(started, ts, j, n);
      }
    } else if j :|
      && 0 <= j <= n
      && Count(g.global, ts, j, n) as real + 1.0
           > 200.0 + 100.0 * (Clock(started, ts, n + 1) - Clock(started, ts, j + 1))
    {
      FirstPassesCounted(g, xs, j, n);
    }
  }

  lemma SecondPass(g: Gates, xs: seq<Attempt>, n: nat)
    requires n < |xs| && PassesFirst(g, xs, n)
    ensures var reqs := LetThrough(g, xs[..n + 1]);
      && reqs != [] && reqs[..|reqs| - 1] == LetThrough(g, xs[..n])
      && reqs[|reqs| - 1] == Request(xs[n].ip, xs[n].r, xs[n].victim)
      && Passes(g, xs, n) == Admitted(g.perIP, reqs, |reqs| - 1)
  {
    hide Allowed, LimiterAllowed, GatesAfter, After;
    assert xs[..n + 1][..n] == xs[..n];
    SecondGate(g, xs[..n], xs[n].ip);
    var reqs := LetThrough(g, xs[..n + 1]);
    assert reqs == LetThrough(g, xs[..n]) + [Request(xs[n].ip, xs[n].r, xs[n].victim)];
  }

  /** The second gate then lets it through, if its source was never crowded out
      by 4096 others, if and only if every window of the source's own requests
      has room under 10 plus 5 for each second since its bucket was made. */
  lemma SecondGateExactly(started: real, xs: seq<Attempt>, n: nat)
    requires n < |xs| && PassesFirst(ServerGates(started), xs, n)
    requires var reqs := LetThrough(ServerGates(started), xs[..n + 1]);
      && LegalVictims(ServerGates(started).perIP, reqs) && StrictlyLater(reqs)
      && NeverCrowdedOut(reqs, xs[n].ip, 4096)
    ensures var reqs := LetThrough(ServerGates(started), xs[..n + 1]);
      var mine, born := Own(reqs, xs[n].ip), Birth(reqs, xs[n].ip);
      var b := Full(5.0, 10.0, born);
      && mine != []
      && var m: nat := |mine| - 1;
      && mine[m] == xs[n].r.at
      && Count(b, mine, 0, m) == SourcePassCount(ServerGates(started), xs[..n], xs[n].ip)
      && (Passes(ServerGates(started), xs, n) <==>
            && Count(b, mine, 0, m) as real + 1.0 <= 10.0 + 5.0 * (Clock(born, mine, m + 1) - born)
            && forall j | 0 <= j <= m ::
                 Count(b, mine, j, m) as real + 1.0
                   <= 10.0 + 5.0 * (Clock(born, mine, m + 1) - Clock(born, mine, j + 1)))
  {
    hide Count, Clock, Admits, Admitted, Passes, PassesFirst, LetThrough, Own, Birth, Seen;
    hide LegalVictims, StrictlyLater, NeverCrowdedOut, SourcePassCount, AdmittedCount;
    var g, k := ServerGates(started), xs[n].ip;
    var reqs := LetThrough(g, xs[..n + 1]);
    var last := |reqs| - 1;
    SecondPass(g, xs, n);
    AnswersAsIfAlone(g.perIP, reqs, k, last);
    assert reqs[..last + 1] == reqs;
    var mine, born := Own(reqs, k), Birth(reqs, k);
    FullAdmits(5.0, 10.0, born, mine, |mine| - 1);
    CountBefore(g.perIP, reqs, k);
    LegalPrefix(g.perIP, reqs, last);
    StrictPrefix(reqs, last);
    CrowdPrefix(reqs, k, 4096, last);
    OwnAnswersCounted(g.perIP, reqs[..last], k);
    SecondGate(g, xs[..n], k);
  }

  /** A server that has just started answers to its first attempt, whoever makes
      it and whatever the clock says. */
  lemma FirstHandshakePasses(started: real, x: Attempt)
    ensures GatesAsked(ServerGates(started), x).1
  {}
}
