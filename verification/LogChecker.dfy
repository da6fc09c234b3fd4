/** The consensus-log check of the formal-verification pass. */
module LogChecker {
  import opened Consensus

  datatype Verdict = Passed | NonMonotonicIndex(index: nat) | TermRegression(index: nat)

  /** Positive, strictly increasing indices and non-decreasing terms. */
  ghost predicate Monotonic(log: Log) {
    && (forall i :: 0 <= i < |log| ==> log[i].index > 0)
    && (forall i, j :: 0 <= i < j < |log| ==> log[i].index < log[j].index && log[i].term <= log[j].term)
  }

  /**
    Passes exactly the monotonic logs.  A failure names the first entry that
    breaks the order, and an index that does not grow is reported before a term
    that falls.
   */
  method VerifyConsensusLog(log: Log) returns (verdict: Verdict)
    ensures verdict.Passed? <==> Monotonic(log)
    ensures !verdict.Passed? ==>
              exists k :: 0 <= k < |log| && Monotonic(log[..k]) && !Monotonic(log[..k + 1])
                          && verdict.index == log[k].index
                          && (verdict.NonMonotonicIndex? <==> log[k].index <= LastIndex(log[..k]))
  {
    var lastIndex, lastTerm := 0, 0;
    for i := 0 to |log|
      invariant Monotonic(log[..i])
      invariant lastIndex == LastIndex(log[..i]) && lastTerm == LastTerm(log[..i])
    {
      var entry := log[i];
      assert log[..i + 1][i] == entry && log[..i + 1][..i] == log[..i];
      assert i > 0 ==> log[..i + 1][i - 1] == log[..i][i - 1];
      if entry.index <= lastIndex {
        assert !Monotonic(log[..i + 1]);
        assert !Monotonic(log) by { NotMonotonicGrows(log, i + 1); }
        return NonMonotonicIndex(entry.index);
      }
      if entry.term < lastTerm {
        assert !Monotonic(log[..i + 1]);
        assert !Monotonic(log) by { NotMonotonicGrows(log, i + 1); }
        return TermRegression(entry.index);
      }
      assert Monotonic(log[..i + 1]) by { MonotonicPush(log[..i], entry); assert log[..i] + [entry] == log[..i + 1]; }
      lastIndex := entry.index;
      lastTerm := entry.term;
    }
    assert log[..|log|] == log;
    return Passed;
  }

  lemma NotMonotonicGrows(log: Log, k: nat)
    requires k <= |log| && !Monotonic(log[..k])
    ensures !Monotonic(log)
  {
  }

  /** It is enough to compare a new entry with the last one. */
  lemma MonotonicPush(log: Log, e: LogEntry)
    requires Monotonic(log) && e.index > LastIndex(log) && e.term >= LastTerm(log)
    ensures Monotonic(log + [e])
  {
  }
}
