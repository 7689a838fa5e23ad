/**
  Transport positions. The parser keeps a running count of sixteenth notes
  and stamps each event with it written as `bars:quarters:sixteenths`
  (sixteen sixteenths to a bar, four to a quarter).
 */
module Timing {

  datatype Time = Time(bars: nat, quarters: nat, sixteenths: nat)

  /** A position in normal form: the two lower digits are in range. */
  predicate WellFormed(x: Time) {
    x.quarters < 4 && x.sixteenths < 4
  }

  /** The number of sixteenth notes from the start of the transport. */
  function Ticks(x: Time): nat {
    16 * x.bars + 4 * x.quarters + x.sixteenths
  }

  /** Renders a sixteenth-note count as a position. */
  function TimeOf(t: nat): (x: Time)
    ensures WellFormed(x)
    ensures Ticks(x) == t
  {
    TimeOfDigits(t);
    Time(t / 16, (t % 16) / 4, t % 4)
  }

  /** The three digits of a count recombine to the count. */
  lemma TimeOfDigits(t: nat)
    ensures (t % 16) / 4 < 4
    ensures 16 * (t / 16) + 4 * ((t % 16) / 4) + t % 4 == t
  {
    var q, r := t / 16, t % 16;
    assert t == 16 * q + r;
    var q', r' := r / 4, r % 4;
    assert r == 4 * q' + r';
    DivMod4(t, 4 * q + q', r');
  }

  /** Every position in normal form is the rendering of its tick count. */
  lemma TimeOfTicks(x: Time)
    requires WellFormed(x)
    ensures TimeOf(Ticks(x)) == x
  {
    var t := Ticks(x);
    var low := 4 * x.quarters + x.sixteenths;
    assert 0 <= low < 16;
    DivMod16(t, x.bars, low);
    DivMod4(low, x.quarters, x.sixteenths);
    DivMod4(t, 4 * x.bars + x.quarters, x.sixteenths);
  }

  /** Quotient and remainder by 16 are determined by `n == 16 * q + r` with `r < 16`. */
  lemma DivMod16(n: nat, q: nat, r: nat)
    requires r < 16 && n == 16 * q + r
    ensures n / 16 == q && n % 16 == r
  {
  }

  /** Quotient and remainder by 4 are determined by `n == 4 * q + r` with `r < 4`. */
  lemma DivMod4(n: nat, q: nat, r: nat)
    requires r < 4 && n == 4 * q + r
    ensures n / 4 == q && n % 4 == r
  {
  }

  /** Positions ordered bar first, then quarter, then sixteenth. */
  predicate Before(x: Time, y: Time) {
    || x.bars < y.bars
    || (x.bars == y.bars && x.quarters < y.quarters)
    || (x.bars == y.bars && x.quarters == y.quarters && x.sixteenths < y.sixteenths)
  }

  /** On positions in normal form, the lexicographic order is the order of
      the tick counts. */
  lemma BeforeIsTickOrder(x: Time, y: Time)
    requires WellFormed(x) && WellFormed(y)
    ensures Before(x, y) <==> Ticks(x) < Ticks(y)
  {
    if x.bars < y.bars {
      assert Ticks(x) < 16 * x.bars + 16 <= Ticks(y);
    } else if y.bars < x.bars {
      assert Ticks(y) < 16 * y.bars + 16 <= Ticks(x);
    }
  }

  /** Rendering preserves and reflects the order of the counter. */
  lemma TimeOfMonotone(s: nat, t: nat)
    ensures Before(TimeOf(s), TimeOf(t)) <==> s < t
  {
    BeforeIsTickOrder(TimeOf(s), TimeOf(t));
  }
}
