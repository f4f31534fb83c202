/** The anti-replay filter: a 1024-bit ring bitmap that must agree, at every
    call, with the plain set of counters accepted so far. */
module ReplayWindow {
  import opened Encoding

  const WINDOW_BITS: nat := 1024
  const WORDS: nat := 16

  /** What the filter promises, on the set of accepted counters: a counter is
      fresh when it was not accepted before and no accepted counter is 1024 or
      more ahead of it. On the empty set every counter is fresh. */
  predicate Fresh(accepted: set<uint64>, counter: uint64) {
    counter !in accepted && forall m | m in accepted :: m < counter + WINDOW_BITS
  }

  lemma FreshIsNew(accepted: set<uint64>, counter: uint64)
    ensures Fresh(accepted, counter) ==> counter !in accepted
  {}

  // ---------- bits of a 64-bit word ----------
  // The word operations are named by relations, so that the proofs about ring
  // positions below can hide the bit-vector arithmetic.

  function Index(bit: nat): bv6
    requires bit < 64
  {
    bit as bv6
  }

  function Mask(i: bv6): bv64 {
    1 << i
  }

  predicate Meet(a: bv64, b: bv64) {
    a & b != 0
  }

  predicate IsOr(r: bv64, w: bv64, m: bv64) {
    r == w | m
  }

  predicate IsAndNot(r: bv64, w: bv64, m: bv64) {
    r == w & !m
  }

  predicate SameUnder(r: bv64, w: bv64, b: bv64) {
    r & b == w & b
  }

  lemma IndexRoundTrip(bit: nat)
    requires bit < 64
    ensures (bit as bv6) as nat == bit
  {}

  lemma IndexInjective(i: nat, j: nat)
    requires i < 64 && j < 64
    ensures Index(i) == Index(j) <==> i == j
  {
    IndexRoundTrip(i);
    IndexRoundTrip(j);
  }

  lemma MasksMeet(i: bv6, j: bv6)
    ensures Meet(Mask(i), Mask(j)) <==> i == j
  {}

  lemma SetSame(r: bv64, w: bv64, m: bv64)
    requires IsOr(r, w, m) && Meet(m, m)
    ensures Meet(r, m)
  {}

  lemma SetApart(r: bv64, w: bv64, a: bv64, b: bv64)
    requires IsOr(r, w, a) && !Meet(a, b)
    ensures SameUnder(r, w, b)
  {
    assert (w | a) & b == w & b;
  }

  lemma ClearSame(r: bv64, w: bv64, m: bv64)
    requires IsAndNot(r, w, m)
    ensures !Meet(r, m)
  {}

  lemma ClearApart(r: bv64, w: bv64, a: bv64, b: bv64)
    requires IsAndNot(r, w, a) && !Meet(a, b)
    ensures SameUnder(r, w, b)
  {
    assert (w & !a) & b == w & b;
  }

  lemma MeetsAlike(r: bv64, w: bv64, b: bv64)
    requires SameUnder(r, w, b)
    ensures Meet(r, b) == Meet(w, b)
  {}

  lemma ZeroMeetsNothing(m: bv64)
    ensures !Meet(0, m)
  {}

  // ---------- bits of the ring ----------

  /** Bit `p` of the ring held in sixteen words. */
  predicate RingBit(words: seq<bv64>, p: nat)
    requires |words| == WORDS && p < WINDOW_BITS
  {
    Meet(words[p / 64], Mask(Index(p % 64)))
  }

  /** Setting one bit of one word sets exactly one ring position. */
  lemma SetBit(words: seq<bv64>, p: nat, r: bv64, q: nat)
    requires |words| == WORDS && p < WINDOW_BITS && q < WINDOW_BITS
    requires IsOr(r, words[p / 64], Mask(Index(p % 64)))
    ensures RingBit(words[p / 64 := r], q) == (q == p || RingBit(words, q))
  {
    hide Mask, Index, Meet, IsOr, SameUnder;
    var a, b := Mask(Index(p % 64)), Mask(Index(q % 64));
    IndexInjective(p % 64, q % 64);
    MasksMeet(Index(p % 64), Index(q % 64));
    if p % 64 == q % 64 {
      SetSame(r, words[p / 64], a);
    } else {
      SetApart(r, words[p / 64], a, b);
      MeetsAlike(r, words[p / 64], b);
    }
  }

  /** Clearing one bit of one word clears exactly one ring position. */
  lemma ClearBit(words: seq<bv64>, p: nat, r: bv64, q: nat)
    requires |words| == WORDS && p < WINDOW_BITS && q < WINDOW_BITS
    requires IsAndNot(r, words[p / 64], Mask(Index(p % 64)))
    ensures RingBit(words[p / 64 := r], q) == (q != p && RingBit(words, q))
  {
    hide Mask, Index, Meet, IsAndNot, SameUnder;
    var a, b := Mask(Index(p % 64)), Mask(Index(q % 64));
    IndexInjective(p % 64, q % 64);
    MasksMeet(Index(p % 64), Index(q % 64));
    if p % 64 == q % 64 {
      ClearSame(r, words[p / 64], a);
    } else {
      ClearApart(r, words[p / 64], a, b);
      MeetsAlike(r, words[p / 64], b);
    }
  }

  /** Counters less than a full ring apart stand on different ring positions. */
  lemma SlotsDiffer(m: nat, n: nat)
    requires m < n < m + WINDOW_BITS
    ensures m % WINDOW_BITS != n % WINDOW_BITS
  {}

  lemma ZeroWordsEmpty(words: seq<bv64>, p: nat)
    requires |words| == WORDS && p < WINDOW_BITS
    requires forall i | 0 <= i < WORDS :: words[i] == 0
    ensures !RingBit(words, p)
  {
    ZeroMeetsNothing(Mask(Index(p % 64)));
  }

  // ---------- the filter ----------

  class Window {
    var last: uint64
    var started: bool
    const bitmap: array<bv64>
    /** Every counter accepted so far, which the bitmap compresses. */
    ghost var accepted: set<uint64>

    ghost predicate Valid()
      reads this, bitmap
    {
      && bitmap.Length == WORDS
      && (started <==> accepted != {})
      && (!started ==> forall i | 0 <= i < WORDS :: bitmap[i] == 0)
      && (started ==> last in accepted && forall m | m in accepted :: m <= last)
      && (started ==> Agrees(bitmap[..], last, accepted))
    }

    /** Each counter of [last - 1023, last] has its own ring bit, and that bit
        says whether the counter was accepted. */
    static ghost predicate Agrees(words: seq<bv64>, last: uint64, accepted: set<uint64>)
      requires |words| == WORDS
    {
      forall n: uint64 :: last < n + WINDOW_BITS && n <= last ==>
        (RingBit(words, n % WINDOW_BITS) <==> n in accepted)
    }

    constructor ()
      ensures Valid() && fresh(bitmap) && accepted == {}
    {
      last := 0;
      started := false;
      accepted := {};
      bitmap := new bv64[WORDS](_ => 0);
    }

    method Set(counter: uint64)
      requires bitmap.Length == WORDS
      modifies bitmap
      ensures forall p: nat | p < WINDOW_BITS ::
        RingBit(bitmap[..], p) == (p == counter % WINDOW_BITS || RingBit(old(bitmap[..]), p))
    {
      hide Mask, Index, Meet, RingBit;
      var pos := counter % WINDOW_BITS;
      ghost var was := bitmap[..];
      var word := bitmap[pos / 64] | Mask(Index(pos % 64));
      assert IsOr(word, was[pos / 64], Mask(Index(pos % 64)));
      bitmap[pos / 64] := word;
      assert bitmap[..] == was[pos / 64 := word];
      forall p: nat | p < WINDOW_BITS
        ensures RingBit(bitmap[..], p) == (p == pos || RingBit(was, p))
      {
        SetBit(was, pos, word, p);
      }
    }

    method Clear(counter: uint64)
      requires bitmap.Length == WORDS
      modifies bitmap
      ensures forall p: nat | p < WINDOW_BITS ::
        RingBit(bitmap[..], p) == (p != counter % WINDOW_BITS && RingBit(old(bitmap[..]), p))
    {
      hide Mask, Index, Meet, RingBit;
      var pos := counter % WINDOW_BITS;
      ghost var was := bitmap[..];
      var word := bitmap[pos / 64] & !Mask(Index(pos % 64));
      assert IsAndNot(word, was[pos / 64], Mask(Index(pos % 64)));
      bitmap[pos / 64] := word;
      assert bitmap[..] == was[pos / 64 := word];
      forall p: nat | p < WINDOW_BITS
        ensures RingBit(bitmap[..], p) == (p != pos && RingBit(was, p))
      {
        ClearBit(was, pos, word, p);
      }
    }

    method Get(counter: uint64) returns (seen: bool)
      requires bitmap.Length == WORDS
      ensures seen == RingBit(bitmap[..], counter % WINDOW_BITS)
    {
      var pos := counter % WINDOW_BITS;
      seen := bitmap[pos / 64] & Mask(Index(pos % 64)) != 0;
    }

    /** Slides the ring from `last` to `counter`: afterwards the positions of
        the counters skipped are clear and those still in the window are kept. */
    method Slide(counter: uint64)
      requires bitmap.Length == WORDS
      requires last < counter
      modifies bitmap
      ensures forall n: uint64 :: last < n < counter < n + WINDOW_BITS ==>
        !RingBit(bitmap[..], n % WINDOW_BITS)
      ensures forall n: uint64 :: n <= last && counter < n + WINDOW_BITS ==>
        RingBit(bitmap[..], n % WINDOW_BITS) == RingBit(old(bitmap[..]), n % WINDOW_BITS)
    {
      var diff: uint64 := counter - last;
      if diff >= WINDOW_BITS {
        for i := 0 to bitmap.Length
          invariant forall j | 0 <= j < i :: bitmap[j] == 0
        {
          bitmap[i] := 0;
        }
        forall p: nat | p < WINDOW_BITS ensures !RingBit(bitmap[..], p) {
          ZeroWordsEmpty(bitmap[..], p);
        }
      } else {
        var s: uint64 := last + 1;
        while s < counter
          invariant last < s <= counter
          invariant forall n: uint64 :: last < n < s ==> !RingBit(bitmap[..], n % WINDOW_BITS)
          invariant forall n: uint64 :: n <= last && counter < n + WINDOW_BITS ==>
            RingBit(bitmap[..], n % WINDOW_BITS) == RingBit(old(bitmap[..]), n % WINDOW_BITS)
        {
          Clear(s);
          forall n: uint64 | n <= last && counter < n + WINDOW_BITS
            ensures n % WINDOW_BITS != s % WINDOW_BITS
          {
            SlotsDiffer(n, s);
          }
          s := s + 1;
        }
      }
    }

    /** Accepts a counter exactly when it is fresh, and then records it. */
    method Accept(counter: uint64) returns (ok: bool)
      requires Valid()
      modifies this, bitmap
      ensures Valid()
      ensures ok <==> Fresh(old(accepted), counter)
      ensures ok <==> counter !in old(accepted) && forall m | m in old(accepted) :: m < counter as int + 1024
      ensures accepted == if ok then old(accepted) + {counter} else old(accepted)
    {
      if !started {
        started := true;
        last := counter;
        forall p: nat | p < WINDOW_BITS ensures !RingBit(bitmap[..], p) {
          ZeroWordsEmpty(bitmap[..], p);
        }
        Set(counter);
        accepted := {counter};
        OnlyLastSet(bitmap[..], counter, {}, accepted);
        return true;
      }
      if counter > last {
        ghost var was, from := bitmap[..], last;
        Slide(counter);
        ghost var slid := bitmap[..];
        last := counter;
        Set(counter);
        Advanced(was, slid, bitmap[..], from, counter, accepted);
        accepted := accepted + {counter};
        return true;
      }
      if last - counter >= WINDOW_BITS {
        return false;
      }
      var seen := Get(counter);
      if seen {
        return false;
      }
      ghost var was := bitmap[..];
      Set(counter);
      Filled(was, bitmap[..], last, counter, accepted);
      accepted := accepted + {counter};
      return true;
    }

    static lemma OnlyLastSet(words: seq<bv64>, last: uint64, before: set<uint64>, after: set<uint64>)
      requires |words| == WORDS && before == {} && after == {last}
      requires forall p: nat | p < WINDOW_BITS :: RingBit(words, p) == (p == last % WINDOW_BITS)
      ensures Agrees(words, last, after)
    {
      forall n: uint64 | n < last < n + WINDOW_BITS ensures n % WINDOW_BITS != last % WINDOW_BITS {
        SlotsDiffer(n, last);
      }
    }

    static lemma Advanced(was: seq<bv64>, slid: seq<bv64>, now: seq<bv64>, from: uint64, counter: uint64,
                          accepted: set<uint64>)
      requires |was| == |slid| == |now| == WORDS && from < counter
      requires Agrees(was, from, accepted) && forall m | m in accepted :: m <= from
      requires forall n: uint64 :: from < n < counter < n + WINDOW_BITS ==> !RingBit(slid, n % WINDOW_BITS)
      requires forall n: uint64 :: n <= from && counter < n + WINDOW_BITS ==>
        RingBit(slid, n % WINDOW_BITS) == RingBit(was, n % WINDOW_BITS)
      requires forall p: nat | p < WINDOW_BITS ::
        RingBit(now, p) == (p == counter % WINDOW_BITS || RingBit(slid, p))
      ensures Agrees(now, counter, accepted + {counter})
    {
      forall n: uint64 | counter < n + WINDOW_BITS && n <= counter
        ensures RingBit(now, n % WINDOW_BITS) <==> n in accepted + {counter}
      {
        if n < counter {
          SlotsDiffer(n, counter);
        }
      }
    }

    static lemma Filled(was: seq<bv64>, now: seq<bv64>, last: uint64, counter: uint64, accepted: set<uint64>)
      requires |was| == |now| == WORDS && Agrees(was, last, accepted)
      requires counter <= last < counter + WINDOW_BITS
      requires forall p: nat | p < WINDOW_BITS ::
        RingBit(now, p) == (p == counter % WINDOW_BITS || RingBit(was, p))
      ensures Agrees(now, last, accepted + {counter})
    {
      forall n: uint64 | last < n + WINDOW_BITS && n <= last
        ensures RingBit(now, n % WINDOW_BITS) <==> n in accepted + {counter}
      {
        if n < counter {
          SlotsDiffer(n, counter);
        } else if counter < n {
          SlotsDiffer(counter, n);
        }
      }
    }
  }
}
