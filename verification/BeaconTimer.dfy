/**
  The software beacon timer: reducing the 64-bit timing function modulo the beacon interval
  with 32-bit words, and the time until the next interface's beacon has to be prepared.
 */
module BeaconTimer {
  import opened Arithmetic

  const TWO32 := 0x1_0000_0000
  const TU := 1024
  const EARLY := 20 * TU
  const INTERVAL := 100 * TU

  // --- The timing function ------------------------------------------------------------------------

  /** What the driver multiplies the high word with. */
  function Factor(interval: nat): (r: nat)
    requires 0 < interval < TWO32
    ensures 1 <= r <= interval
  {
    (TWO32 - 1) % interval + 1
  }

  /** It stands for 2 to the 32nd. */
  lemma FactorIs(interval: nat) returns (q: nat)
    requires 0 < interval < TWO32
    ensures TWO32 == q * interval + Factor(interval)
  {
    q := (TWO32 - 1) / interval;
    assert TWO32 - 1 == q * interval + (TWO32 - 1) % interval;
  }

  /** One round of the reduction keeps the value modulo the interval and makes it smaller. */
  lemma Round(high: nat, low: nat, interval: nat)
    requires 0 < interval < TWO32 && high > 0
    ensures (Factor(interval) * high + low) % interval == (TWO32 * high + low) % interval
    ensures Factor(interval) * high + low < TWO32 * high + low
  {
    var f := Factor(interval);
    var q := FactorIs(interval);
    assert TWO32 * high == (q * interval + f) * high == f * high + (q * high) * interval by {
      Distribute(q, interval, f, high);
    }
    ModPlus(f * high + low, q * high, interval);
    assert f * high < TWO32 * high by { Less(f, TWO32, high); }
  }

  lemma Distribute(q: int, i: int, f: int, h: int)
    ensures (q * i + f) * h == f * h + (q * h) * i
  {
  }

  lemma Less(f: int, g: int, h: int)
    requires f < g && h > 0
    ensures f * h < g * h
  {
  }

  lemma Halves(time: nat)
    ensures TWO32 * (time / TWO32) + time % TWO32 == time
  {
  }

  /** The value modulo the interval, which the reduction preserves. */
  function Residue(high: nat, low: nat, interval: nat): nat
    requires interval > 0
  {
    (TWO32 * high + low) % interval
  }

  lemma NextWords(high: nat, low: nat, interval: nat)
    requires 0 < interval < TWO32 && high > 0
    ensures var time := Factor(interval) * high + low;
      && Residue(time / TWO32, time % TWO32, interval) == Residue(high, low, interval)
      && TWO32 * (time / TWO32) + time % TWO32 < TWO32 * high + low
  {
    hide Factor;
    Round(high, low, interval);
    Halves(Factor(interval) * high + low);
  }

  /** The loop read with products and sums of full width. */
  method ReduceWide(high: nat, low: nat, interval: nat) returns (tick: nat)
    requires low < TWO32 && 0 < interval < TWO32
    ensures tick == Residue(high, low, interval)
  {
    hide Factor, Residue;
    var t1: nat, t0: nat := high, low;
    while t1 != 0
      invariant t0 < TWO32 && Residue(t1, t0, interval) == Residue(high, low, interval)
      decreases TWO32 * t1 + t0
    {
      NextWords(t1, t0, interval);
      var time := Factor(interval) * t1 + t0;
      t0, t1 := time % TWO32, time / TWO32;
    }
    LowOnly(t0, interval);
    tick := t0 % interval;
  }

  lemma LowOnly(low: nat, interval: nat)
    requires interval > 0
    ensures Residue(0, low, interval) == low % interval
  {
  }

  /** The loop as compiled: product and sum are 32 bits wide, so it runs once at most. */
  method Reduce(high: nat, low: nat, interval: nat) returns (tick: nat)
    requires high < TWO32 && low < TWO32 && 0 < interval < TWO32
    ensures tick == (if high == 0 then low else (Factor(interval) * high + low) % TWO32) % interval
  {
    var t1, t0 := high, low;
    while t1 != 0
      invariant (t1 == high && t0 == low) || (t1 == 0 && high != 0 && t0 == (Factor(interval) * high + low) % TWO32)
      decreases t1
    {
      var time := (Factor(interval) * t1 % TWO32 + t0) % TWO32;
      WrapTwice(Factor(interval) * t1, t0);
      t0, t1 := time, 0;
    }
    tick := t0 % interval;
  }

  lemma WrapTwice(p: nat, s: nat)
    ensures (p % TWO32 + s) % TWO32 == (p + s) % TWO32
  {
  }

  /** The number of times the 32-bit result wraps. */
  function Wraps(high: nat, low: nat, interval: nat): nat
    requires 0 < interval < TWO32
  {
    (Factor(interval) * high + low) / TWO32
  }

  /** The result is right if and only if what is lost is a multiple of the interval; so it is
      whenever nothing wraps. */
  lemma ReduceRightIff(high: nat, low: nat, interval: nat)
    requires high > 0 && 0 < interval < TWO32
    ensures ((Factor(interval) * high + low) % TWO32) % interval == Residue(high, low, interval)
       <==> (Factor(interval) * Wraps(high, low, interval)) % interval == 0
  {
    var f, n := Factor(interval), Wraps(high, low, interval);
    var t := f * high + low;
    var w := t % TWO32;
    assert t == TWO32 * n + w;
    Round(high, low, interval);
    if n > 0 {
      Round(n, w, interval);
    }
    assert (f * n + w) % interval == (TWO32 * high + low) % interval;
    SameModIff(f * n, w, interval);
  }

  lemma SameModIff(a: nat, w: nat, b: int)
    requires b > 0
    ensures w % b == (a + w) % b <==> a % b == 0
  {
    var q, r := a / b, a % b;
    assert a + w == (r + w) + q * b;
    ModPlus(r + w, q, b);
    var s := w % b;
    assert w == s + (w / b) * b;
    assert r + w == (r + s) + (w / b) * b;
    ModPlus(r + s, w / b, b);
    if r + s < b {
      DivUnique(r + s, b, 0, r + s);
    } else {
      DivUnique(r + s, b, 1, r + s - b);
    }
  }

  /** For the beacon interval the driver uses: right exactly if the number of wraps is a multiple
      of 25. */
  lemma DefaultInterval(high: nat, low: nat)
    requires high > 0
    ensures Factor(INTERVAL) == 4096
    ensures ((4096 * high + low) % TWO32) % INTERVAL == Residue(high, low, INTERVAL)
       <==> ((4096 * high + low) / TWO32) % 25 == 0
  {
    assert (TWO32 - 1) % 102400 == 4095;
    ReduceRightIff(high, low, INTERVAL);
    var n := (4096 * high + low) / TWO32;
    assert (4096 * n) % 102400 == 0 <==> n % 25 == 0;
  }

  /** It is wrong, for one, in the last microsecond before the high word becomes two. */
  lemma WrongBeforeCarry()
    ensures ((4096 * 1 + (TWO32 - 1)) % TWO32) % INTERVAL != Residue(1, TWO32 - 1, INTERVAL)
  {
  }

  // --- The next beacon ------------------------------------------------------------------------------

  function U32(x: int): (r: nat)
    ensures r < TWO32
    ensures 0 <= x < TWO32 ==> r == x
    ensures -TWO32 <= x < 0 ==> r == x + TWO32
  {
    x % TWO32
  }

  /** The timer computation: which interface is next and in how many microseconds to prepare
      its beacon.  `target` is when the beacon is due; the timer ends the early time before it,
      and the offset is zero only if that is right now. */
  method NextBeacon(curTick: nat, apNum: nat, space: nat)
    returns (bcnIdx: nat, offset: nat, late: bool, ghost target: int)
    requires curTick < INTERVAL && apNum >= 1 && EARLY <= space < 0x1_0000 * TU
    ensures bcnIdx < apNum
    ensures curTick + offset + EARLY == target
    ensures offset > 0 <==> !(apNum > 1 && Slot(curTick, space) >= apNum - 2 && curTick + EARLY == INTERVAL)
    ensures apNum == 1 ==> bcnIdx == 0 && target == if late then INTERVAL else 2 * INTERVAL
    ensures apNum == 1 ==> (late <==> 2 * INTERVAL - curTick - EARLY > INTERVAL + INTERVAL / 2)
    ensures apNum > 1 ==> bcnIdx == if Slot(curTick, space) < apNum - 1 then Slot(curTick, space) + 1 else 0
    ensures apNum > 1 && Slot(curTick, space) >= apNum - 2 ==>
      target == if curTick + EARLY > INTERVAL then INTERVAL + space else INTERVAL
    ensures apNum > 1 && Slot(curTick, space) < apNum - 2 ==>
      && target == Times(Slot(curTick, space) + if late then 1 else 2, space)
      && (late <==> Times(Slot(curTick, space) + 2, space) - curTick - EARLY > space + space / 2)
    ensures apNum == 1 || Slot(curTick, space) < apNum - 2 ==>
      var step := if apNum == 1 then INTERVAL else space;
      offset <= step + step / 2
  {
    hide Slot, Times;
    var nrVap := apNum - 1;
    bcnIdx, late := 0, false;
    if nrVap > 0 {
      var idx := Slot(curTick, space);
      SlotBounds(curTick, space);
      bcnIdx := if idx < nrVap then idx + 1 else 0;
      if (idx + 2 == nrVap + 1 && idx < nrVap + 1) || bcnIdx == 0 {
        offset := LastOffset(curTick, space);
        target := curTick + offset + EARLY;
      } else {
        offset, late := SlotOffset(curTick, Times(idx + 2, space), space);
        target := curTick + offset + EARLY;
      }
    } else {
      offset, late := SlotOffset(curTick, 2 * INTERVAL, INTERVAL);
      target := curTick + offset + EARLY;
    }
  }

  /** The offset is zero, for one, with two interfaces half an interval apart when the early time
      before the end of the interval has just come. */
  method DueNow() returns (bcnIdx: nat, offset: nat)
    ensures bcnIdx == 0 && offset == 0
  {
    var late;
    ghost var target;
    bcnIdx, offset, late, target := NextBeacon(INTERVAL - EARLY, 2, INTERVAL / 2);
  }

  /** Until the end of the interval, or if that is too close the first slot of the next one. */
  method LastOffset(curTick: nat, space: nat) returns (offset: nat)
    requires curTick < INTERVAL && EARLY <= space < 0x1_0000 * TU
    ensures curTick + offset + EARLY == if curTick + EARLY > INTERVAL then INTERVAL + space else INTERVAL
  {
    offset := U32(INTERVAL - curTick - EARLY);
    if offset >= TWO32 / 2 {
      offset := U32(offset + space);
      PastWrap(INTERVAL - curTick - EARLY, space);
    }
  }

  /** Until the slot that ends at `end`, or the one before if that is far enough away. */
  method SlotOffset(curTick: nat, end: nat, space: nat) returns (offset: nat, late: bool)
    requires EARLY <= space && end - 2 * space <= curTick < end - space && 2 * space < TWO32 / 2
    ensures curTick + offset + EARLY == if late then end - space else end
    ensures 0 < offset <= space + space / 2
    ensures late <==> end - curTick - EARLY > space + space / 2
  {
    offset, late := U32(end - curTick - EARLY), false;
    if offset > space + space / 2 {
      offset := U32(offset - space);
      late := true;
    }
  }

  function Slot(t: nat, s: nat): nat
    requires s > 0
  {
    t / s
  }

  function Times(k: nat, s: nat): nat {
    k * s
  }

  lemma SlotBounds(t: nat, s: nat)
    requires s > 0
    ensures Times(Slot(t, s) + 2, s) - 2 * s <= t < Times(Slot(t, s) + 2, s) - s
    ensures Times(Slot(t, s) + 1, s) == Times(Slot(t, s) + 2, s) - s
  {
    assert t == (t / s) * s + t % s;
    assert (t / s + 2) * s == (t / s) * s + 2 * s;
    assert (t / s + 1) * s == (t / s) * s + s;
  }

  lemma PastWrap(x: int, s: nat)
    requires -TWO32 < x < 0 && s < TWO32 && x + s >= 0
    ensures U32(U32(x) + s) == x + s
  {
  }
}
