/**
 How an outage arm is judged: the single pass of `recovered` over the samples,
 and what it means window by window. Times are in nanoseconds; the threshold of
 95% is 19 in 20, exactly.
 */
module Recovery {
  const SLACK: int := 200_000_000
  const SECOND: int := 1_000_000_000

  datatype Sample = Sample(ok: bool, at: int, offered: int, full: int)
  datatype Row = Row(samples: seq<Sample>, downAt: int, upAt: int)

  datatype Verdict = NeverLost | NotWithinTheArm | BeforeItReturned(at: int) | Within(after: int)

  // ---------------------------------------------------------- windows

  /** The sample a window ending at `j` starts from: the last readable one before it, or the first of all. */
  function StartOf(samples: seq<Sample>, j: int): (i: int)
    requires 0 < j <= |samples|
    ensures 0 <= i < j && (i == 0 || samples[i].ok)
    ensures forall k :: i < k < j ==> !samples[k].ok
  {
    if j == 1 || samples[j - 1].ok then j - 1 else StartOf(samples, j - 1)
  }

  function Offered(row: Row, j: int): int
    requires 0 < j < |row.samples|
  {
    row.samples[j].offered - row.samples[StartOf(row.samples, j)].offered
  }

  function Answered(row: Row, j: int): int
    requires 0 < j < |row.samples|
  {
    row.samples[j].full - row.samples[StartOf(row.samples, j)].full
  }

  /** A window that counts: readable at its end, something offered, and not from before the outage. */
  predicate Judged(row: Row, j: int) {
    && 0 < j < |row.samples| && row.samples[j].ok && Offered(row, j) > 0
    && row.samples[StartOf(row.samples, j)].at >= row.downAt - SLACK
  }

  predicate Healthy(row: Row, j: int)
    requires 0 < j < |row.samples|
  {
    20 * Answered(row, j) >= 19 * Offered(row, j)
  }

  predicate DuringOutage(row: Row, j: int)
    requires 0 < j < |row.samples|
  {
    row.samples[StartOf(row.samples, j)].at < row.upAt - SLACK
  }

  /** Some judged window of the outage, among the first `n` samples, was unhealthy. */
  ghost predicate LostBy(row: Row, n: int) {
    exists j :: 0 < j < n <= |row.samples| && Judged(row, j) && !Healthy(row, j) && DuringOutage(row, j)
  }

  ghost predicate HealthyFrom(row: Row, j: int, n: int) {
    forall k :: j <= k < n && Judged(row, k) ==> Healthy(row, k)
  }

  /** `j` ends the first window of the longest all-healthy tail of the judged windows among the first `n` samples. */
  ghost predicate TailStarts(row: Row, j: int, n: int) {
    0 < j < n <= |row.samples| && Judged(row, j) && HealthyFrom(row, j, n)
    && forall i :: 0 < i < j && Judged(row, i) ==> !HealthyFrom(row, i, n)
  }

  /** `at` as the pass keeps it: 0 while no tail is open, else where the tail opened. */
  ghost predicate TailAt(row: Row, at: int, n: int) {
    && (at == 0 ==> forall j :: !TailStarts(row, j, n))
    && (at != 0 ==> exists j :: TailStarts(row, j, n) && row.samples[j].at == at)
  }

  // ---------------------------------------------------------- the pass

  /** Rounded to the second, halves away from zero. */
  function RoundToSecond(d: int): (r: int)
    ensures r % SECOND == 0 && -SECOND <= 2 * (d - r) <= SECOND
    ensures 2 * (d - r) == SECOND ==> d < 0
    ensures 2 * (d - r) == -SECOND ==> d >= 0
  {
    if d >= 0 then (d + SECOND / 2) / SECOND * SECOND else -((-d + SECOND / 2) / SECOND * SECOND)
  }

  function VerdictOf(row: Row, at: int, lost: bool): Verdict {
    if !lost then NeverLost
    else if at == 0 then NotWithinTheArm
    else if at <= row.upAt + SLACK then BeforeItReturned(RoundToSecond(at))
    else Within(RoundToSecond(at - row.upAt))
  }

  /** The sentinel 0 needs the judged windows to end at other times. */
  ghost predicate TimesPositive(row: Row) {
    forall j :: Judged(row, j) ==> row.samples[j].at > 0
  }

  /** A whole second, within half a second of `d`. */
  predicate IsNearestSecond(r: int, d: int) {
    r % SECOND == 0 && -SECOND <= 2 * (d - r) <= SECOND
  }

  /** The longest all-healthy tail opens at `at`. */
  ghost predicate OpensAt(row: Row, at: int) {
    exists j :: TailStarts(row, j, |row.samples|) && row.samples[j].at == at
  }

  /**
   What each verdict means: nothing unhealthy began before the upstream was
   back; no tail is healthy to the end; it opened by then; or it opened later,
   and by how much.
   */
  ghost predicate Means(row: Row, verdict: Verdict) {
    && (verdict.NeverLost? <==> !LostBy(row, |row.samples|))
    && (verdict.NotWithinTheArm? ==> forall at :: !OpensAt(row, at))
    && (verdict.BeforeItReturned? ==>
          exists at :: OpensAt(row, at) && at <= row.upAt + 200_000_000 && IsNearestSecond(verdict.at, at))
    && (verdict.Within? ==>
          exists at :: OpensAt(row, at) && at > row.upAt + 200_000_000 && IsNearestSecond(verdict.after, at - row.upAt))
  }

  lemma VerdictMeans(row: Row, at: int, lost: bool)
    requires lost <==> LostBy(row, |row.samples|)
    requires TailAt(row, at, |row.samples|)
    ensures Means(row, VerdictOf(row, at, lost))
  {
    hide TailStarts, LostBy;
    assert at != 0 ==> OpensAt(row, at);
    assert IsNearestSecond(RoundToSecond(at), at) && IsNearestSecond(RoundToSecond(at - row.upAt), at - row.upAt);
  }

  /** A tail opens at one time at most, so a verdict that means what it says is the only kind of one. */
  lemma KindIsDetermined(row: Row, v: Verdict, w: Verdict)
    requires Means(row, v) && Means(row, w)
    ensures (v.NeverLost? <==> w.NeverLost?) && (v.NotWithinTheArm? <==> w.NotWithinTheArm?)
    ensures (v.BeforeItReturned? <==> w.BeforeItReturned?) && (v.Within? <==> w.Within?)
  {
    hide TailStarts, LostBy;
    forall a, b | OpensAt(row, a) && OpensAt(row, b) ensures a == b { OpensOnce(row, a, b); }
  }

  lemma OpensOnce(row: Row, a: int, b: int)
    requires OpensAt(row, a) && OpensAt(row, b)
    ensures a == b
  {
    hide Judged, HealthyFrom;
    var n := |row.samples|;
    var i :| TailStarts(row, i, n) && row.samples[i].at == a;
    var j :| TailStarts(row, j, n) && row.samples[j].at == b;
    assert i == j;
  }

  method Recovered(row: Row) returns (verdict: Verdict, at: int, lost: bool)
    requires row.samples != [] && TimesPositive(row)
    ensures lost <==> LostBy(row, |row.samples|)
    ensures TailAt(row, at, |row.samples|)
    ensures verdict == VerdictOf(row, at, lost)
    ensures Means(row, verdict)
  {
    hide Judged, Healthy, DuringOutage, TailStarts, Means;
    var samples := row.samples;
    at := 0;
    lost := false;
    var prev := samples[0];
    NothingJudgedYet(row);
    for j := 1 to |samples|
      invariant prev == samples[StartOf(samples, j)]
      invariant lost <==> LostBy(row, j)
      invariant TailAt(row, at, j)
    {
      var s := samples[j];
      JudgedIs(row, j);
      Extend(row, at, j);
      if !s.ok {
        continue;
      }
      var mo, mf := s.offered - prev.offered, s.full - prev.full;
      if mo <= 0 {
        prev := s;
        continue;
      }
      var healthy := 20 * mf >= 19 * mo;
      if prev.at >= row.downAt - SLACK {
        if !healthy {
          lost := lost || prev.at < row.upAt - SLACK;
          at := 0;
        } else if at == 0 {
          at := s.at;
        }
      }
      prev := s;
    }
    verdict := VerdictOf(row, at, lost);
    VerdictMeans(row, at, lost);
  }

  /** What the pass computes of one window, in the declarative terms. */
  lemma JudgedIs(row: Row, j: int)
    requires 0 < j < |row.samples|
    ensures Judged(row, j) <==>
            row.samples[j].ok && Offered(row, j) > 0 && row.samples[StartOf(row.samples, j)].at >= row.downAt - SLACK
    ensures Healthy(row, j) <==> 20 * Answered(row, j) >= 19 * Offered(row, j)
    ensures DuringOutage(row, j) <==> row.samples[StartOf(row.samples, j)].at < row.upAt - SLACK
  {
  }

  /**
   A window in the report's own terms: it starts at the last readable sample
   before its end or at the first of all, is judged when its end is readable,
   something was offered and it began no earlier than 200 ms before the
   outage, healthy when 95% was answered, and of the outage when it began
   before 200 ms ahead of the return.
   */
  lemma WindowMeans(row: Row, j: int, i: int)
    requires 0 <= i < j < |row.samples|
    requires (i == 0 || row.samples[i].ok) && forall k :: i < k < j ==> !row.samples[k].ok
    ensures var offered := row.samples[j].offered - row.samples[i].offered;
            && (Judged(row, j) <==>
                  row.samples[j].ok && offered > 0 && row.samples[i].at >= row.downAt - 200_000_000)
            && (Healthy(row, j) <==>
                  (row.samples[j].full - row.samples[i].full) as real >= 0.95 * offered as real)
            && (DuringOutage(row, j) <==> row.samples[i].at < row.upAt - 200_000_000)
  {
    StartIs(row.samples, j, i);
  }

  lemma {:induction false} StartIs(samples: seq<Sample>, j: int, i: int)
    requires 0 <= i < j <= |samples|
    requires (i == 0 || samples[i].ok) && forall k :: i < k < j ==> !samples[k].ok
    ensures StartOf(samples, j) == i
  {
    if j > 1 && !samples[j - 1].ok { StartIs(samples, j - 1, i); }
  }

  lemma NothingJudgedYet(row: Row)
    ensures !LostBy(row, 1) && TailAt(row, 0, 1)
  {
  }

  /** One more sample: an unhealthy window closes the tail, a healthy one opens it if none is open. */
  lemma Extend(row: Row, at: int, n: int)
    requires 0 < n < |row.samples| && TailAt(row, at, n) && TimesPositive(row)
    ensures LostBy(row, n + 1) <==> LostBy(row, n) || (Judged(row, n) && !Healthy(row, n) && DuringOutage(row, n))
    ensures !Judged(row, n) ==> TailAt(row, at, n + 1)
    ensures Judged(row, n) && !Healthy(row, n) ==> TailAt(row, 0, n + 1)
    ensures Judged(row, n) && Healthy(row, n) ==> TailAt(row, if at == 0 then row.samples[n].at else at, n + 1)
  {
    hide Judged, Healthy, DuringOutage;
    var m := n + 1;
    if Judged(row, n) && !Healthy(row, n) {
      forall j ensures !TailStarts(row, j, m) {}
    } else {
      forall j | j <= n ensures HealthyFrom(row, j, n + 1) <==> HealthyFrom(row, j, n) {}
      if at != 0 {
        var j :| TailStarts(row, j, n) && row.samples[j].at == at;
        assert TailStarts(row, j, n + 1);
      } else if Judged(row, n) {
        NoTailMeansUnhealthy(row, n);
        assert TailStarts(row, n, n + 1);
        assert Judged(row, n) && row.samples[n].at > 0;
      } else {
        forall j ensures !TailStarts(row, j, m) {
          assert TailStarts(row, j, m) ==> TailStarts(row, j, n);
        }
      }
    }
  }

  /** Where no tail is open, every judged window has an unhealthy one at or after it. */
  lemma NoTailMeansUnhealthy(row: Row, n: int)
    requires n <= |row.samples| && forall j :: !TailStarts(row, j, n)
    ensures forall i :: 0 < i < n && Judged(row, i) ==> !HealthyFrom(row, i, n)
  {
    hide Judged, Healthy;
    forall i | 0 < i < n && Judged(row, i) ensures !HealthyFrom(row, i, n) {
      if HealthyFrom(row, i, n) {
        var first := FirstOfTail(row, i, n);
      }
    }
  }

  lemma {:induction false} FirstOfTail(row: Row, i: int, n: int) returns (first: int)
    requires 0 < i < n <= |row.samples| && Judged(row, i) && HealthyFrom(row, i, n)
    ensures TailStarts(row, first, n)
    decreases i
  {
    hide Judged, Healthy;
    if k :| 0 < k < i && Judged(row, k) && HealthyFrom(row, k, n) {
      first := FirstOfTail(row, k, n);
    } else {
      first := i;
    }
  }

  // ---------------------------------------------------------- what the verdict says

  ghost predicate LastJudged(row: Row, j: int) {
    Judged(row, j) && forall k :: k > j ==> !Judged(row, k)
  }

  /** The pass is determined: only one pair meets its specification. */
  lemma PassIsDetermined(row: Row, a: int, b: int)
    requires TailAt(row, a, |row.samples|) && TailAt(row, b, |row.samples|) && TimesPositive(row)
    ensures a == b
  {
  }

  lemma JudgedIsInside(row: Row, j: int)
    requires Judged(row, j)
    ensures 0 < j < |row.samples|
  {
  }

  /** Misses that were lost came back within the arm exactly when its last judged window was healthy. */
  lemma CameBackIffLastHealthy(row: Row, at: int, lost: bool, last: int)
    requires TailAt(row, at, |row.samples|) && TimesPositive(row) && LastJudged(row, last) && lost
    ensures VerdictOf(row, at, lost) == NotWithinTheArm <==> !Healthy(row, last)
  {
    hide Judged, Healthy;
    var n := |row.samples|;
    JudgedIsInside(row, last);
    if at == 0 {
      NoTailMeansUnhealthy(row, n);
      assert !HealthyFrom(row, last, n);
    } else {
      var j :| TailStarts(row, j, n) && row.samples[j].at == at;
      assert j <= last;
    }
  }

  /** What is reported lies after the outage began, slack aside, and every judged window from there on was healthy. */
  lemma ReportedTailIsHealthy(row: Row, at: int, k: int)
    requires TailAt(row, at, |row.samples|) && TimesPositive(row) && at != 0
    requires Judged(row, k) && forall i, j :: 0 <= i < j < |row.samples| ==> row.samples[i].at < row.samples[j].at
    ensures row.samples[k].at >= at ==> Healthy(row, k)
    ensures at > row.downAt - SLACK
  {
    hide Judged, Healthy;
    var n := |row.samples|;
    JudgedIsInside(row, k);
    var j :| TailStarts(row, j, n) && row.samples[j].at == at;
    JudgedIsInside(row, j);
    JudgedIs(row, j);
  }
}
