/** A rate offered a millisecond at a time, what is left of a query carried over, in exact arithmetic. */
module Pacing {
  /** What is due after `ticks` milliseconds at `rate` a second. */
  function Due(rate: nat, ticks: nat): nat {
    rate * ticks / 1000
  }

  /**
   `paceAt` over `ticks` turns of its outer loop, sending to a socket that
   takes `accepts` queries and refuses the next: the calls made, whether one
   was refused, and the credit carried over.
   */
  method PaceAt(rate: nat, ticks: nat, accepts: nat) returns (calls: nat, refused: bool, credit: real)
    ensures refused <==> Due(rate, ticks) > accepts
    ensures calls == if refused then accepts + 1 else Due(rate, ticks)
    ensures !refused ==> 0.0 <= credit < 1.0
    ensures !refused ==> 1000.0 * (calls as real + credit) == (rate * ticks) as real
  {
    var perTick := rate as real / 1000.0;
    credit := 0.0;
    calls := 0;
    refused := false;
    for k := 0 to ticks
      invariant 0.0 <= credit < 1.0 && calls <= accepts
      invariant 1000.0 * (calls as real + credit) == (rate * k) as real
      invariant calls == Due(rate, k) <= accepts
    {
      credit := credit + perTick;
      ghost var total := credit + calls as real;
      assert rate * (k + 1) == rate * k + rate;
      assert 1000.0 * total == (rate * (k + 1)) as real;
      while credit >= 1.0
        invariant credit >= 0.0 && calls <= accepts
        invariant credit + calls as real == total
        decreases credit.Floor
      {
        if calls == accepts {
          calls := calls + 1;
          LessThanDue(rate, k + 1, accepts, credit);
          DueGrows(rate, k + 1, ticks);
          return calls, true, credit;
        }
        calls := calls + 1;
        credit := credit - 1.0;
      }
      ExactlyDue(rate, k + 1, calls, credit);
    }
  }

  /** A carry below one means what was sent is the whole part of what is due. */
  lemma ExactlyDue(rate: nat, ticks: nat, calls: nat, credit: real)
    requires 0.0 <= credit < 1.0 && 1000.0 * (calls as real + credit) == (rate * ticks) as real
    ensures calls == Due(rate, ticks)
  {
  }

  lemma LessThanDue(rate: nat, ticks: nat, calls: nat, credit: real)
    requires credit >= 1.0 && 1000.0 * (calls as real + credit) == (rate * ticks) as real
    ensures calls < Due(rate, ticks)
  {
  }

  lemma MulSplits(rate: nat, j: nat, k: nat)
    ensures rate * (j + k) == rate * j + rate * k
  {
  }

  lemma ThousandthsGrow(a: nat, b: nat)
    ensures a / 1000 <= (a + b) / 1000
    ensures b / 1000 <= (a + b) / 1000 - a / 1000 <= b / 1000 + 1
  {
  }

  lemma DueGrows(rate: nat, j: nat, k: nat)
    requires j <= k
    ensures Due(rate, j) <= Due(rate, k)
  {
    var before: nat, since: nat := rate * j, rate * (k - j);
    MulSplits(rate, j, k - j);
    ThousandthsGrow(before, since);
  }

  /** Over any stretch of ticks what is sent is the stretch's own due, or one more: the carry never accumulates. */
  lemma EveryStretchIsFair(rate: nat, j: nat, k: nat)
    requires j <= k
    ensures Due(rate, k - j) <= Due(rate, k) - Due(rate, j) <= Due(rate, k - j) + 1
  {
    var before: nat, since: nat := rate * j, rate * (k - j);
    MulSplits(rate, j, k - j);
    ThousandthsGrow(before, since);
  }

  /** In a whole number of seconds exactly the rate is sent. */
  lemma WholeSecondsAreExact(rate: nat, seconds: nat)
    ensures Due(rate, 1000 * seconds) == rate * seconds
  {
    assert rate * (1000 * seconds) == 1000 * (rate * seconds);
  }
}
