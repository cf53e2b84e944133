/**
 * The bounded conversation history as values: the cut to the most recent
 * entries, the append of the new session, and the satisfaction aggregate.
 * The store's update method is proved against these functions.
 */
module History {
  import opened Sessions

  /** How many of the most recent entries the cut keeps. */
  const Retain: nat := 50

  /**
   * The largest length a history reaches after an update: the cut runs
   * before the append, so a cut history of Retain entries grows by one.
   */
  const Capacity: nat := Retain + 1

  function Min(a: int, b: int): (m: int) {
    if a <= b then a else b
  }

  /**
   * The history after the cut: a history longer than Retain keeps only its
   * Retain most recent entries, a shorter one is kept as it is.
   */
  function Retained(h: seq<Session>): (r: seq<Session>)
    ensures |r| == Min(|h|, Retain)
    // r is a suffix of h: what is dropped is the oldest entries
    ensures h == h[..|h| - |r|] + r
    ensures |h| <= Retain ==> r == h
  {
    if |h| > Retain then h[|h| - Retain..] else h
  }

  /** The history after one update: the cut history followed by the new session. */
  function Recorded(h: seq<Session>, s: Session): (r: seq<Session>)
    ensures |r| == Min(|h|, Retain) + 1
    ensures 1 <= |r| <= Capacity
    ensures r[|r| - 1] == s
    // every earlier entry is one of h's most recent, in its original order
    ensures forall i :: 0 <= i < |r| - 1 ==> r[i] == h[|h| - (|r| - 1) + i]
  {
    Retained(h) + [s]
  }

  /** The sum of the satisfaction ratings over a history. */
  function TotalSatisfaction(h: seq<Session>): (total: int) {
    if h == [] then 0 else h[0].userSatisfaction + TotalSatisfaction(h[1..])
  }

  /** The exact quotient of two integers, the second positive. */
  function Quotient(total: int, count: int): (q: real)
    requires count > 0
  {
    total as real / count as real
  }

  /** The exact mean satisfaction rating of a non-empty history. */
  function MeanSatisfaction(h: seq<Session>): (mean: real)
    requires |h| > 0
  {
    Quotient(TotalSatisfaction(h), |h|)
  }

  /** The mean times the number of entries is the rating sum. */
  lemma MeanTimesLength(h: seq<Session>)
    requires |h| > 0
    ensures MeanSatisfaction(h) * (|h| as real) == TotalSatisfaction(h) as real
  {
  }

  lemma {:induction false} TotalSatisfactionAppend(a: seq<Session>, b: seq<Session>)
    ensures TotalSatisfaction(a + b) == TotalSatisfaction(a) + TotalSatisfaction(b)
  {
    if a == [] {
      assert a + b == b;
    } else {
      assert (a + b)[1..] == a[1..] + b;
      TotalSatisfactionAppend(a[1..], b);
    }
  }

  /** Every rating of a history lies on the 1..5 scale the generator draws from. */
  predicate RatingsInScale(h: seq<Session>) {
    forall i :: 0 <= i < |h| ==> 1 <= h[i].userSatisfaction <= 5
  }

  /** Ratings within 1..5 give a sum between one and five times the length. */
  lemma {:induction false} TotalSatisfactionBounds(h: seq<Session>)
    requires RatingsInScale(h)
    ensures |h| <= TotalSatisfaction(h) <= 5 * |h|
  {
    if h != [] {
      assert forall i :: 0 <= i < |h[1..]| ==> h[1..][i] == h[i + 1];
      TotalSatisfactionBounds(h[1..]);
    }
  }

  /**
   * A history whose ratings are all on the scale has its mean rating on the
   * scale; the other fields of the records play no part.
   */
  lemma MeanWithinScale(h: seq<Session>)
    requires |h| > 0
    requires RatingsInScale(h)
    ensures 1.0 <= MeanSatisfaction(h) <= 5.0
  {
    TotalSatisfactionBounds(h);
    QuotientWithinScale(TotalSatisfaction(h), |h|);
  }

  lemma QuotientWithinScale(total: int, count: int)
    requires 0 < count <= total <= 5 * count
    ensures 1.0 <= Quotient(total, count) <= 5.0
  {
    RealQuotientBounds(total as real, count as real);
  }

  lemma RealQuotientBounds(t: real, n: real)
    requires 0.0 < n <= t <= 5.0 * n
    ensures 1.0 <= t / n <= 5.0
  {
    assert (t / n) * n == t;
  }

  /** An update of a history of valid records with a valid session keeps every record valid. */
  lemma RecordedAllValid(h: seq<Session>, s: Session)
    requires AllValid(h) && ValidSession(s)
    ensures AllValid(Recorded(h, s))
  {
    var k := |h| - |Retained(h)|;
    assert Retained(h) == h[k..];
    assert AllValid(h[k..]);
  }

  /**
   * Only the entries the cut keeps matter for the ratings of the result: when
   * they and the new session are rated on the scale, so is every entry of the
   * updated history, whatever the evicted entries held.
   */
  lemma RecordedRatingsInScale(h: seq<Session>, s: Session)
    requires RatingsInScale(Retained(h)) && 1 <= s.userSatisfaction <= 5
    ensures RatingsInScale(Recorded(h, s))
  {
    var r := Recorded(h, s);
    assert r == Retained(h) + [s];
    assert forall i :: 0 <= i < |r| - 1 ==> r[i] == Retained(h)[i];
  }

  /**
   * The mean after an update, in terms of what was kept and what was added:
   * the kept entries' ratings plus the new rating, over one more than the
   * kept length.
   */
  lemma RecordedMean(h: seq<Session>, s: Session)
    ensures MeanSatisfaction(Recorded(h, s))
         == Quotient(TotalSatisfaction(Retained(h)) + s.userSatisfaction, |Retained(h)| + 1)
  {
    AppendedMean(Retained(h), s);
  }

  lemma AppendedMean(a: seq<Session>, s: Session)
    ensures MeanSatisfaction(a + [s])
         == Quotient(TotalSatisfaction(a) + s.userSatisfaction, |a| + 1)
  {
    TotalSatisfactionAppend(a, [s]);
    TotalSatisfactionSingle(s);
    MeanFromParts(a + [s], TotalSatisfaction(a) + s.userSatisfaction, |a| + 1);
  }

  lemma TotalSatisfactionSingle(s: Session)
    ensures TotalSatisfaction([s]) == s.userSatisfaction
  {
    assert [s][1..] == [];
  }

  lemma MeanFromParts(h: seq<Session>, total: int, count: int)
    requires TotalSatisfaction(h) == total && |h| == count > 0
    ensures MeanSatisfaction(h) == Quotient(total, count)
  {
  }

  /** Starting from an empty history, the update leaves exactly the new session. */
  lemma RecordedFromEmpty(s: Session)
    ensures Recorded([], s) == [s]
    ensures MeanSatisfaction(Recorded([], s)) == s.userSatisfaction as real
  {
    assert TotalSatisfaction([s]) == s.userSatisfaction + TotalSatisfaction([]);
  }

  /**
   * A history of exactly Retain entries is not cut, so the update grows
   * it to Capacity entries, and its mean is taken over all of them.
   */
  lemma RecordedAtRetain(h: seq<Session>, s: Session)
    requires |h| == Retain
    ensures Recorded(h, s) == h + [s]
    ensures |Recorded(h, s)| == Capacity
    ensures MeanSatisfaction(Recorded(h, s))
         == Quotient(TotalSatisfaction(h) + s.userSatisfaction, Capacity)
  {
    RecordedMean(h, s);
  }

  /** The history after a series of updates, one per session, in order. */
  function RecordAll(h: seq<Session>, ss: seq<Session>): (r: seq<Session>)
    decreases |ss|
  {
    if ss == [] then h else RecordAll(Recorded(h, ss[0]), ss[1..])
  }

  /** The most recent Capacity entries of a sequence (all of it when shorter). */
  function Latest(x: seq<Session>): (r: seq<Session>)
    ensures |r| == Min(|x|, Capacity)
  {
    x[|x| - Min(|x|, Capacity)..]
  }

  /**
   * Dropping old entries from the front does not change the most recent
   * Capacity entries, as long as what is left still spans them.
   */
  lemma LatestOfSuffix(x: seq<Session>, k: nat, y: seq<Session>)
    requires k <= |x|
    requires |x| - k + |y| >= Min(|x| + |y|, Capacity)
    ensures Latest(x[k..] + y) == Latest(x + y)
  {
    var w := Min(|x| + |y|, Capacity);
    assert x[k..] + y == (x + y)[k..];
    assert (x + y)[k..][|x| - k + |y| - w..] == (x + y)[|x + y| - w..];
  }

  /** One update keeps the most recent Capacity entries of the history extended by the session. */
  lemma RecordedIsLatest(h: seq<Session>, s: Session)
    ensures Recorded(h, s) == Latest(h + [s])
  {
    var k := |h| - |Retained(h)|;
    assert Retained(h) == h[k..];
    LatestOfSuffix(h, k, [s]);
  }

  /**
   * After one or more updates the history is exactly the most recent
   * Capacity entries of the old history followed by the new sessions:
   * eviction is oldest first, and the history never holds more than
   * Capacity entries.
   */
  lemma {:induction false} RecordAllKeepsLatest(h: seq<Session>, ss: seq<Session>)
    requires |ss| > 0
    ensures RecordAll(h, ss) == Latest(h + ss)
    decreases |ss|
  {
    if |ss| == 1 {
      assert ss[1..] == [];
      RecordedIsLatest(h, ss[0]);
      assert ss == [ss[0]];
    } else {
      RecordAllKeepsLatest(Recorded(h, ss[0]), ss[1..]);
      LatestAfterRecorded(h, ss);
    }
  }

  lemma LatestAfterRecorded(h: seq<Session>, ss: seq<Session>)
    requires |ss| > 0
    ensures Latest(Recorded(h, ss[0]) + ss[1..]) == Latest(h + ss)
  {
    var k := |h| - |Retained(h)|;
    assert Recorded(h, ss[0]) + ss[1..] == h[k..] + ss by {
      assert Retained(h) == h[k..];
      assert ss == [ss[0]] + ss[1..];
    }
    LatestOfSuffix(h, k, ss);
  }

  /**
   * However many updates run, the history afterwards is never empty, never
   * longer than Capacity, and ends with the last session recorded.
   */
  lemma RecordAllBounded(h: seq<Session>, ss: seq<Session>)
    requires |ss| > 0
    ensures 1 <= |RecordAll(h, ss)| <= Capacity
    ensures RecordAll(h, ss)[|RecordAll(h, ss)| - 1] == ss[|ss| - 1]
  {
    RecordAllKeepsLatest(h, ss);
  }
}
