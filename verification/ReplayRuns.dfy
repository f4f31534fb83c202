/** Whole sequences of calls on one replay filter. */
module ReplayRuns {
  import opened Encoding
  import opened ReplayWindow

  /** The set of accepted counters after a sequence of calls, one
      `Window.Accept` contract at a time. */
  function AcceptedAfter(calls: seq<uint64>): (accepted: set<uint64>)
    ensures forall m | m in accepted :: m in calls
  {
    if calls == [] then {}
    else
      var before := AcceptedAfter(calls[..|calls| - 1]);
      var counter := calls[|calls| - 1];
      if Fresh(before, counter) then before + {counter} else before
  }

  /** The verdict of call `i` in a run over `calls`. */
  predicate Accepts(calls: seq<uint64>, i: nat)
    requires i < |calls|
  {
    Fresh(AcceptedAfter(calls[..i]), calls[i])
  }

  /** A counter that was presented, even if it was refused, leaves behind an
      accepted counter that refuses it, and everything it would make stale, for
      good. */
  lemma {:induction false} PresentedIsCovered(calls: seq<uint64>, j: nat)
    requires j < |calls|
    ensures calls[j] in AcceptedAfter(calls)
      || exists m :: m in AcceptedAfter(calls) && calls[j] + WINDOW_BITS <= m
  {
    var n := |calls| - 1;
    if j < n {
      assert calls[..n][j] == calls[j];
      PresentedIsCovered(calls[..n], j);
    }
  }

  /** The filter in closed form: whatever came before, a call is accepted if and
      only if its counter was never presented before and no counter presented
      before is 1024 or more ahead of it. */
  lemma AcceptsClosedForm(calls: seq<uint64>, i: nat)
    requires i < |calls|
    ensures Accepts(calls, i) <==>
      forall j | 0 <= j < i :: calls[j] != calls[i] && calls[j] < calls[i] as int + 1024
  {
    var before := calls[..i];
    var accepted := AcceptedAfter(before);
    forall j | 0 <= j < i && Fresh(accepted, calls[i])
      ensures calls[j] != calls[i] && calls[j] < calls[i] + WINDOW_BITS
    {
      PresentedIsCovered(before, j);
      assert before[j] == calls[j];
    }
    if forall j | 0 <= j < i :: calls[j] != calls[i] && calls[j] < calls[i] + WINDOW_BITS {
      forall m | m in accepted
        ensures m != calls[i] && m < calls[i] + WINDOW_BITS
      {
        var j :| 0 <= j < |before| && before[j] == m;
        assert calls[j] == m;
      }
    }
  }

  /** The edge of the window: after one counter, the one 1023 behind it is
      accepted, and the one 1024 behind it refused. */
  lemma EdgeOfTheWindow(counter: uint64)
    requires counter >= 1024
    ensures Accepts([counter, counter - 1023], 1) && !Accepts([counter, counter - 1024], 1)
  {
    AcceptsClosedForm([counter, counter - 1023], 1);
    AcceptsClosedForm([counter, counter - 1024], 1);
  }

  /** No sequence of calls accepts the same counter twice. */
  lemma AcceptedOnce(calls: seq<uint64>, i: nat, j: nat)
    requires i < j < |calls| && calls[i] == calls[j]
    ensures !Accepts(calls, j)
  {
    AcceptsClosedForm(calls, j);
  }

  /** Bounded reordering: the counters are distinct and none arrives 1024 or
      more behind one delivered before it. */
  predicate BoundedReordering(calls: seq<uint64>) {
    forall j, i | 0 <= j < i < |calls| :: calls[j] != calls[i] && calls[j] < calls[i] as int + 1024
  }

  lemma BoundedPrefix(calls: seq<uint64>, n: nat)
    requires BoundedReordering(calls) && n <= |calls|
    ensures BoundedReordering(calls[..n])
  {
    var prefix := calls[..n];
    forall j, i | 0 <= j < i < n ensures prefix[j] != prefix[i] && prefix[j] < prefix[i] + WINDOW_BITS {
      assert prefix[j] == calls[j] && prefix[i] == calls[i];
    }
  }

  /** A run loses nothing if and only if it is a bounded reordering. */
  lemma LosslessIffBounded(calls: seq<uint64>)
    ensures (forall i | 0 <= i < |calls| :: Accepts(calls, i)) <==> BoundedReordering(calls)
  {
    forall i | 0 <= i < |calls|
      ensures Accepts(calls, i) <==>
        forall j | 0 <= j < i :: calls[j] != calls[i] && calls[j] < calls[i] + WINDOW_BITS
    {
      AcceptsClosedForm(calls, i);
    }
  }
}
