/** The token bucket, over real arithmetic: floating-point rounding is not part
    of this model. Clock readings are in seconds and may come in any order. */
module TokenBuckets {

  datatype BucketState = BucketState(tokens: real, capacity: real, rate: real, last: real)

  /** Tokens that accrue over a duration. */
  function Accrued(rate: real, duration: real): real {
    duration * rate
  }

  lemma AccruedIs(rate: real, duration: real)
    ensures Accrued(rate, duration) == rate * duration
  {}

  lemma AccruedAdds(rate: real, x: real, y: real)
    ensures Accrued(rate, x + y) == Accrued(rate, x) + Accrued(rate, y)
  {}

  lemma AccruedGrows(rate: real, x: real, y: real)
    requires rate >= 0.0 && x >= y
    ensures Accrued(rate, x) >= Accrued(rate, y)
  {}

  function Full(rate: real, capacity: real, now: real): BucketState {
    BucketState(capacity, capacity, rate, now)
  }

  function Refilled(b: BucketState, now: real): BucketState {
    if now - b.last > 0.0 then
      var t := b.tokens + Accrued(b.rate, now - b.last);
      b.(tokens := if t > b.capacity then b.capacity else t, last := now)
    else b
  }

  /** TokenBucket.Allow, one step. */
  function Allowed(b: BucketState, now: real): (BucketState, bool) {
    var r := Refilled(b, now);
    if r.tokens >= 1.0 then (r.(tokens := r.tokens - 1.0), true) else (r, false)
  }

  class TokenBucket {
    var tokens: real
    const capacity: real
    const rate: real
    var last: real

    function State(): BucketState
      reads this
    {
      BucketState(tokens, capacity, rate, last)
    }

    constructor (rate: real, capacity: real, now: real)
      ensures State() == Full(rate, capacity, now)
    {
      this.tokens, this.capacity, this.rate, this.last := capacity, capacity, rate, now;
    }

    method Allow(now: real) returns (ok: bool)
      modifies this
      ensures (State(), ok) == Allowed(old(State()), now)
    {
      var elapsed := now - last;
      if elapsed > 0.0 {
        tokens := tokens + elapsed * rate;
        if tokens > capacity {
          tokens := capacity;
        }
        last := now;
      }
      if tokens >= 1.0 {
        tokens := tokens - 1.0;
        return true;
      }
      return false;
    }
  }

  // ---------- runs ----------

  function StateAfter(b: BucketState, ts: seq<real>): BucketState {
    if ts == [] then b else Allowed(StateAfter(b, ts[..|ts| - 1]), ts[|ts| - 1]).0
  }

  predicate Admits(b: BucketState, ts: seq<real>, n: nat)
    requires n < |ts|
  {
    Allowed(StateAfter(b, ts[..n]), ts[n]).1
  }

  /** How many of the events j, ..., n - 1 were admitted. */
  function Count(b: BucketState, ts: seq<real>, j: nat, n: nat): nat
    requires n <= |ts|
  {
    if n <= j then 0 else Count(b, ts, j, n - 1) + (if Admits(b, ts, n - 1) then 1 else 0)
  }

  /** The clock: the latest reading among the bucket's creation and the first
      `n` events. */
  function Clock(start: real, ts: seq<real>, n: nat): real
    requires n <= |ts|
  {
    if n == 0 then start
    else
      var m := Clock(start, ts, n - 1);
      if ts[n - 1] > m then ts[n - 1] else m
  }

  /** What a bucket that was full when event `j` was served would hold for event
      `n`, had it never overflowed since. */
  function Budget(b: BucketState, ts: seq<real>, j: nat, n: nat): real
    requires j <= n < |ts|
  {
    b.capacity + Accrued(b.rate, Clock(b.last, ts, n + 1) - Clock(b.last, ts, j + 1)) - Count(b, ts, j, n) as real
  }

  /** The same, counted from the bucket's creation. */
  function FirstBudget(b: BucketState, ts: seq<real>, n: nat): real
    requires n < |ts|
  {
    b.capacity + Accrued(b.rate, Clock(b.last, ts, n + 1) - b.last) - Count(b, ts, 0, n) as real
  }

  function Tokens(b: BucketState, ts: seq<real>, n: nat): real
    requires n < |ts|
  {
    Refilled(StateAfter(b, ts[..n]), ts[n]).tokens
  }

  lemma {:induction false} StateTracks(b: BucketState, ts: seq<real>, n: nat)
    requires n <= |ts| && b.tokens <= b.capacity
    ensures var s := StateAfter(b, ts[..n]);
      && s.capacity == b.capacity && s.rate == b.rate && s.last == Clock(b.last, ts, n)
      && s.tokens <= b.capacity
  {
    if n > 0 {
      StateTracks(b, ts, n - 1);
      assert ts[..n][..n - 1] == ts[..n - 1];
    }
  }

  lemma TokensNext(b: BucketState, ts: seq<real>, n: nat)
    requires 0 < n < |ts| && b.tokens <= b.capacity
    ensures var t := Tokens(b, ts, n - 1) - (if Admits(b, ts, n - 1) then 1.0 else 0.0)
                     + Accrued(b.rate, Clock(b.last, ts, n + 1) - Clock(b.last, ts, n));
      Tokens(b, ts, n) == if t > b.capacity then b.capacity else t
  {
    hide Accrued;
    assert Accrued(b.rate, 0.0) == 0.0 by { AccruedAdds(b.rate, 0.0, 0.0); }
    StateTracks(b, ts, n);
    StateTracks(b, ts, n - 1);
    assert ts[..n][..n - 1] == ts[..n - 1];
  }

  lemma Later(b: BucketState, ts: seq<real>, j: nat, n: nat)
    requires j < n < |ts|
    ensures Budget(b, ts, j, n) == Budget(b, ts, j, n - 1) - (if Admits(b, ts, n - 1) then 1.0 else 0.0)
                     + Accrued(b.rate, Clock(b.last, ts, n + 1) - Clock(b.last, ts, n))
  {
    hide Accrued, Clock, Admits;
    var now, was, start := Clock(b.last, ts, n + 1), Clock(b.last, ts, n), Clock(b.last, ts, j + 1);
    AccruedAdds(b.rate, was - start, now - was);
    assert was - start + (now - was) == now - start;
  }

  lemma FirstLater(b: BucketState, ts: seq<real>, n: nat)
    requires 0 < n < |ts|
    ensures FirstBudget(b, ts, n) == FirstBudget(b, ts, n - 1) - (if Admits(b, ts, n - 1) then 1.0 else 0.0)
                     + Accrued(b.rate, Clock(b.last, ts, n + 1) - Clock(b.last, ts, n))
  {
    hide Accrued, Clock, Admits;
    var now, was := Clock(b.last, ts, n + 1), Clock(b.last, ts, n);
    AccruedAdds(b.rate, was - b.last, now - was);
    assert was - b.last + (now - was) == now - b.last;
  }

  /** The tokens available to an event are the least of all the budgets. */
  lemma {:induction false} TokensAreLeastBudget(b: BucketState, ts: seq<real>, n: nat)
    requires n < |ts| && b.tokens == b.capacity
    ensures Tokens(b, ts, n) <= FirstBudget(b, ts, n)
    ensures forall j | 0 <= j <= n :: Tokens(b, ts, n) <= Budget(b, ts, j, n)
    ensures Tokens(b, ts, n) == FirstBudget(b, ts, n)
      || exists j | 0 <= j <= n :: Tokens(b, ts, n) == Budget(b, ts, j, n)
  {
    if n == 0 {
      assert ts[..0] == [];
      assert Budget(b, ts, 0, 0) == b.capacity;
    } else {
      TokensAreLeastBudget(b, ts, n - 1);
      TokensNext(b, ts, n);
      FirstLater(b, ts, n);
      forall j | 0 <= j < n
        ensures Tokens(b, ts, n) <= Budget(b, ts, j, n)
      {
        Later(b, ts, j, n);
      }
      assert Budget(b, ts, n, n) == b.capacity;
      if Tokens(b, ts, n) != b.capacity && Tokens(b, ts, n - 1) != FirstBudget(b, ts, n - 1) {
        var j :| 0 <= j <= n - 1 && Tokens(b, ts, n - 1) == Budget(b, ts, j, n - 1);
        Later(b, ts, j, n);
      }
    }
  }

  /** Admission, by what accrues over each window. */
  lemma RoomInEveryWindow(b: BucketState, ts: seq<real>, n: nat)
    requires n < |ts| && b.tokens == b.capacity
    ensures Admits(b, ts, n) <==>
      && Count(b, ts, 0, n) as real + 1.0 <= b.capacity + Accrued(b.rate, Clock(b.last, ts, n + 1) - b.last)
      && forall j | 0 <= j <= n ::
           Count(b, ts, j, n) as real + 1.0
             <= b.capacity + Accrued(b.rate, Clock(b.last, ts, n + 1) - Clock(b.last, ts, j + 1))
  {
    hide Accrued, Clock, Count;
    TokensAreLeastBudget(b, ts, n);
    assert Admits(b, ts, n) == (Tokens(b, ts, n) >= 1.0);
    if Admits(b, ts, n) {
      forall j | 0 <= j <= n
        ensures Count(b, ts, j, n) as real + 1.0
          <= b.capacity + Accrued(b.rate, Clock(b.last, ts, n + 1) - Clock(b.last, ts, j + 1))
      {
        assert Budget(b, ts, j, n) >= 1.0;
      }
    } else if Tokens(b, ts, n) != FirstBudget(b, ts, n) {
      var j :| 0 <= j <= n && Tokens(b, ts, n) == Budget(b, ts, j, n);
      assert Count(b, ts, j, n) as real + 1.0
        > b.capacity + Accrued(b.rate, Clock(b.last, ts, n + 1) - Clock(b.last, ts, j + 1));
    }
  }

  lemma {:induction false} ClockGrows(start: real, ts: seq<real>, j: nat, n: nat)
    requires j <= n <= |ts|
    ensures Clock(start, ts, j) <= Clock(start, ts, n)
  {
    if j < n {
      ClockGrows(start, ts, j, n - 1);
    }
  }

  function Max(x: real, y: real): real {
    if x > y then x else y
  }

  lemma CountNext(b: BucketState, ts: seq<real>, j: nat, m: nat)
    requires j <= m < |ts|
    ensures Count(b, ts, j, m + 1) == Count(b, ts, j, m) + (if Admits(b, ts, m) then 1 else 0)
    ensures Count(b, ts, j, j) == 0
  {
    hide Admits;
  }

  lemma {:induction false} WindowsAreBounded(b: BucketState, ts: seq<real>, j: nat, n: nat)
    requires j < n <= |ts| && b.tokens == b.capacity && b.rate >= 0.0
    ensures Count(b, ts, j, n) as real
      <= Max(b.capacity, 0.0) + Accrued(b.rate, Clock(b.last, ts, n) - Clock(b.last, ts, j + 1))
    decreases n
  {
    hide Accrued, Clock, Admits, Count;
    var m := n - 1;
    var now, start := Clock(b.last, ts, n), Clock(b.last, ts, j + 1);
    ClockGrows(b.last, ts, j + 1, n);
    AccruedGrows(b.rate, now - start, 0.0);
    assert Accrued(b.rate, 0.0) == 0.0 by { AccruedAdds(b.rate, 0.0, 0.0); }
    CountNext(b, ts, j, m);
    if Admits(b, ts, m) {
      RoomInEveryWindow(b, ts, m);
    } else if j < m {
      WindowsAreBounded(b, ts, j, m);
      ClockGrows(b.last, ts, m, n);
      AccruedGrows(b.rate, now - start, Clock(b.last, ts, m) - start);
    }
  }

  // ---------- the same with the refill written out ----------

  /** The clock is the latest of the bucket's creation and the readings so far. */
  lemma {:induction false} ClockIsLatest(start: real, ts: seq<real>, n: nat)
    requires n <= |ts|
    ensures var m := Clock(start, ts, n);
      && start <= m && (forall i | 0 <= i < n :: ts[i] <= m)
      && (m == start || exists i :: 0 <= i < n && ts[i] == m)
  {
    if n > 0 {
      ClockIsLatest(start, ts, n - 1);
    }
  }

  /** From one event to the next the bucket holds what was left, plus rate times
      the time between, capped. */
  lemma TokensStep(b: BucketState, ts: seq<real>, n: nat)
    requires 0 < n < |ts| && b.tokens <= b.capacity
    ensures var t := Tokens(b, ts, n - 1) - (if Admits(b, ts, n - 1) then 1.0 else 0.0)
                     + b.rate * (Clock(b.last, ts, n + 1) - Clock(b.last, ts, n));
      Tokens(b, ts, n) == if t > b.capacity then b.capacity else t
  {
    hide Accrued, Clock, Tokens, Admits;
    TokensNext(b, ts, n);
    AccruedIs(b.rate, Clock(b.last, ts, n + 1) - Clock(b.last, ts, n));
  }

  /** Admission in closed form: event `n` is admitted if and only if no window
      that ends with it, from an earlier event or from the bucket's creation,
      would exceed capacity plus rate times its length. */
  lemma AdmittedIffEveryWindowHasRoom(b: BucketState, ts: seq<real>, n: nat)
    requires n < |ts| && b.tokens == b.capacity
    ensures Admits(b, ts, n) <==>
      && Count(b, ts, 0, n) as real + 1.0 <= b.capacity + b.rate * (Clock(b.last, ts, n + 1) - b.last)
      && forall j | 0 <= j <= n ::
           Count(b, ts, j, n) as real + 1.0
             <= b.capacity + b.rate * (Clock(b.last, ts, n + 1) - Clock(b.last, ts, j + 1))
  {
    hide Accrued, Clock, Count, Admits;
    RoomInEveryWindow(b, ts, n);
    AccruedIs(b.rate, Clock(b.last, ts, n + 1) - b.last);
    forall j | 0 <= j <= n
      ensures b.capacity + Accrued(b.rate, Clock(b.last, ts, n + 1) - Clock(b.last, ts, j + 1))
          - Count(b, ts, j, n) as real
        == b.capacity + b.rate * (Clock(b.last, ts, n + 1) - Clock(b.last, ts, j + 1)) - Count(b, ts, j, n) as real
    {
      AccruedIs(b.rate, Clock(b.last, ts, n + 1) - Clock(b.last, ts, j + 1));
    }
  }

  /** The same for a bucket that is made full. */
  lemma FullAdmits(rate: real, capacity: real, start: real, ts: seq<real>, n: nat)
    requires n < |ts|
    ensures var b := Full(rate, capacity, start);
      Admits(b, ts, n) <==>
        && Count(b, ts, 0, n) as real + 1.0 <= capacity + rate * (Clock(start, ts, n + 1) - start)
        && forall j | 0 <= j <= n ::
             Count(b, ts, j, n) as real + 1.0 <= capacity + rate * (Clock(start, ts, n + 1) - Clock(start, ts, j + 1))
  {
    hide Count, Clock, Admits;
    AdmittedIffEveryWindowHasRoom(Full(rate, capacity, start), ts, n);
  }

  /** No window of any run exceeds capacity plus rate times its length. */
  lemma EveryWindowIsBounded(b: BucketState, ts: seq<real>, j: nat, n: nat)
    requires j < n <= |ts| && b.tokens == b.capacity && b.rate >= 0.0
    ensures Count(b, ts, j, n) as real
      <= Max(b.capacity, 0.0) + b.rate * (Clock(b.last, ts, n) - Clock(b.last, ts, j + 1))
  {
    hide Accrued, Clock, Count;
    WindowsAreBounded(b, ts, j, n);
    AccruedIs(b.rate, Clock(b.last, ts, n) - Clock(b.last, ts, j + 1));
  }
}
