/** Distinct elements in order of their last use, latest first: what moving one to
    the front does to the order and to its first few elements. */
module RecencyOrder {
  function IndexOf<K(==)>(rec: seq<K>, k: K): (i: nat)
    ensures i <= |rec| && (i < |rec| ==> rec[i] == k) && (i == |rec| ==> k !in rec)
  {
    if rec == [] then 0 else if rec[0] == k then 0 else 1 + IndexOf(rec[1..], k)
  }

  function Without<K(==)>(rec: seq<K>, k: K): seq<K> {
    var i := IndexOf(rec, k);
    if i < |rec| then rec[..i] + rec[i + 1..] else rec
  }

  function Promote<K(==)>(rec: seq<K>, k: K): seq<K> {
    [k] + Without(rec, k)
  }

  predicate Distinct<K(==)>(rec: seq<K>) {
    forall i, j | 0 <= i < j < |rec| :: rec[i] != rec[j]
  }

  function Elements<K(==)>(rec: seq<K>): set<K> {
    set x | x in rec
  }

  /** The first `m` of them, or all if there are fewer. */
  function Top<K(==)>(rec: seq<K>, m: nat): set<K> {
    Elements(if m < |rec| then rec[..m] else rec)
  }

  lemma {:induction false} DistinctSize<K>(rec: seq<K>)
    requires Distinct(rec)
    ensures |Elements(rec)| == |rec|
  {
    if rec != [] {
      var n := |rec| - 1;
      DistinctSize(rec[..n]);
      assert rec == rec[..n] + [rec[n]];
      assert Elements(rec) == Elements(rec[..n]) + {rec[n]};
    }
  }

  lemma TopSize<K>(rec: seq<K>, m: nat)
    requires Distinct(rec)
    ensures |Top(rec, m)| == if m < |rec| then m else |rec|
  {
    DistinctSize(if m < |rec| then rec[..m] else rec);
  }

  /** An element of a distinct order is among the first `m` by its position. */
  lemma InTop<K>(rec: seq<K>, m: nat, i: nat)
    requires Distinct(rec) && i < |rec|
    ensures rec[i] in Top(rec, m) <==> i < m
  {
    if i < m < |rec| {
      assert rec[..m][i] == rec[i];
    }
  }

  lemma PromoteDistinct<K>(rec: seq<K>, k: K)
    requires Distinct(rec)
    ensures Distinct(Promote(rec, k))
  {}

  /** Entry `i` of the promoted order: the element itself, then the others in
      the order they had. */
  lemma PromotedAt<K>(rec: seq<K>, k: K, i: nat)
    requires Distinct(rec) && i < |Promote(rec, k)|
    ensures i > 0 && i - 1 >= IndexOf(rec, k) ==> i < |rec|
    ensures Promote(rec, k)[i] ==
      if i == 0 then k else if i - 1 < IndexOf(rec, k) then rec[i - 1] else rec[i]
  {
    hide IndexOf, Distinct;
  }

  lemma PromotedSize<K>(rec: seq<K>, k: K)
    ensures |Promote(rec, k)| == if k in rec then |rec| else |rec| + 1
  {}

  /** Promoting an element that is among the first `m` leaves them as a set;
      promoting any other pushes the last of them out, if there are that many. */
  lemma TopAfterPromote<K>(rec: seq<K>, k: K, m: nat)
    requires Distinct(rec) && m >= 1
    ensures Top(Promote(rec, k), m) ==
      if k in Top(rec, m) then Top(rec, m)
      else if |rec| < m then Top(rec, m) + {k}
      else Top(rec, m) - {rec[m - 1]} + {k}
  {
    hide Promote, Distinct;
    forall x ensures x in Top(Promote(rec, k), m) <==>
        x == k || (x in Top(rec, m) && (k in Top(rec, m) || |rec| < m || x != rec[m - 1]))
    {
      InTopAfterPromote(rec, k, m, x);
    }
    var now, was := Top(Promote(rec, k), m), Top(rec, m);
    if k in was {
      assert now == was;
    } else if |rec| < m {
      assert now == was + {k};
    } else {
      assert now == was - {rec[m - 1]} + {k};
    }
  }

  lemma InTopAfterPromote<K>(rec: seq<K>, k: K, m: nat, x: K)
    requires Distinct(rec) && m >= 1
    ensures x in Top(Promote(rec, k), m) <==>
      x == k || (x in Top(rec, m) && (k in Top(rec, m) || |rec| < m || x != rec[m - 1]))
  {
    hide Promote, IndexOf, Top;
    var p, at := Promote(rec, k), IndexOf(rec, k);
    PromoteDistinct(rec, k);
    PromotedSize(rec, k);
    InOrder(rec, m, k, at);
    PromotedAt(rec, k, 0);
    InTop(p, m, 0);
    if x != k {
      var i := IndexOf(rec, x);
      InOrder(rec, m, x, i);
      if i < |rec| {
        var now := if i < at then i + 1 else i;
        PromotedAt(rec, k, now);
        InTop(p, m, now);
        if |rec| >= m {
          InTop(rec, m, m - 1);
        }
      } else {
        NotPromoted(rec, k, x);
        InOrder(p, m, x, IndexOf(p, x));
      }
    }
  }

  lemma NotPromoted<K>(rec: seq<K>, k: K, x: K)
    requires x != k && x !in rec
    ensures x !in Promote(rec, k)
  {}

  /** Being among the first `m`, by index. */
  lemma InOrder<K>(rec: seq<K>, m: nat, k: K, at: nat)
    requires Distinct(rec) && at == IndexOf(rec, k)
    ensures at <= |rec| && (at < |rec| <==> k in rec) && (at < |rec| ==> rec[at] == k)
    ensures k in Top(rec, m) <==> at < |rec| && at < m
  {
    if at < |rec| {
      InTop(rec, m, at);
    }
  }
}
