/**
  Conversions between output frames and microseconds. One direction floors in 64-bit arithmetic,
  the other rounds to the nearest frame with unbounded integers.
 */
module FrameTime {

  const MICROS := 1_000_000
  const TWO63 := 0x8000_0000_0000_0000
  const TWO64 := 0x1_0000_0000_0000_0000

  /** Two's-complement reduction of an integer result to a signed 64-bit value. */
  function Wrap64(x: int): (r: int)
    ensures -TWO63 <= r < TWO63
    ensures -TWO63 <= x < TWO63 ==> r == x
  {
    if -TWO63 <= x < TWO63 then x else (x + TWO63) % TWO64 - TWO63
  }

  datatype Rate = Rate(num: int, den: int) {
    predicate Positive() { num > 0 && den > 0 }

    /** Microseconds covered by `num` frames. */
    function Span(): int { den * MICROS }

    /** The documented working range: half a frame is never shorter than the flooring error. */
    predicate Roomy() { Positive() && 2 * (num - 1) <= Span() }
  }

  datatype TimeError = InvalidTime | FrameOverflow

  datatype FrameResult = Frame(frame: int) | NoFrame(error: TimeError)

  /** Go's integer division by a positive number. */
  function TruncDiv(a: int, b: int): int
    requires b > 0
  {
    if a >= 0 then a / b else -((-a) / b)
  }

  function FrameToUS(frame: int, rate: Rate): int {
    if frame <= 0 || rate.num <= 0 || rate.den <= 0 then 0
    else TruncDiv(Wrap64(Wrap64(frame * rate.den) * MICROS), rate.num)
  }

  /** Rounding as computed by quotient and remainder; a half rounds up. */
  function Nearest(t: nat, rate: Rate): (n: nat)
    requires rate.Positive()
  {
    var q, rem := (t * rate.num) / rate.Span(), (t * rate.num) % rate.Span();
    if 2 * rem >= rate.Span() then q + 1 else q
  }

  function TimeUSToNearestFrame(t: int, rate: Rate): FrameResult {
    if t < 0 || rate.num <= 0 || rate.den <= 0 then NoFrame(InvalidTime)
    else
      var n := Nearest(t, rate);
      if n >= TWO63 then NoFrame(FrameOverflow) else Frame(n)
  }

  /** The exact microsecond position of a frame, rounded down. */
  function FloorUS(frame: nat, rate: Rate): (u: nat)
    requires rate.Positive()
  {
    (frame * rate.Span()) / rate.num
  }

  /** No intermediate product of FrameToUS leaves the 64-bit range. */
  predicate Fits(frame: int, rate: Rate) {
    0 <= frame && frame * rate.Span() < TWO63
  }

  lemma {:induction false} DivBounds(x: int, n: int)
    requires n > 0
    ensures (x / n) * n <= x < (x / n) * n + n
  {
    assert x == (x / n) * n + x % n;
  }

  lemma {:induction false} MulMono(a: int, b: int, c: int)
    requires a <= b && 0 <= c
    ensures a * c <= b * c
  {}

  lemma {:induction false} StepMul(a: int, b: int, c: int)
    requires a < b && 0 <= c
    ensures a * c + c <= b * c
  {
    MulMono(a + 1, b, c);
    assert (a + 1) * c == a * c + c;
  }

  /** Wrapping keeps the value modulo 2^64 and lands in the signed range; nothing else does both. */
  lemma {:induction false} WrapExactly(x: int, r: int)
    ensures Wrap64(x) == r <==>
            -0x8000_0000_0000_0000 <= r < 0x8000_0000_0000_0000 && (x - r) % 0x1_0000_0000_0000_0000 == 0
  {}

  /** Division rounds towards zero. */
  lemma {:induction false} TruncExactly(a: int, b: int)
    requires b > 0
    ensures var rest := a - TruncDiv(a, b) * b;
            if a >= 0 then 0 <= rest < b else -b < rest <= 0
  {
    DivBounds(a, b);
    DivBounds(-a, b);
  }

  /** Without a positive frame and a positive rate the position is zero. */
  lemma {:induction false} NoPosition(frame: int, rate: Rate)
    requires frame < 1 || rate.num < 1 || rate.den < 1
    ensures FrameToUS(frame, rate) == 0
  {}

  /** FrameToUS is the exact floor on frames whose product fits in 64 bits. */
  lemma {:induction false} FrameToUSExact(frame: int, rate: Rate)
    requires rate.Positive() && Fits(frame, rate)
    ensures FrameToUS(frame, rate) == FloorUS(frame, rate)
  {
    if frame > 0 {
      assert frame * rate.Span() == (frame * rate.den) * MICROS;
      assert 0 < frame * rate.den by { MulMono(1, frame, rate.den); }
    } else {
      assert frame == 0;
    }
  }

  /** Specification of flooring without division. */
  lemma {:induction false} FloorBounds(frame: nat, rate: Rate)
    requires rate.Positive()
    ensures FloorUS(frame, rate) * rate.num <= frame * rate.Span() < FloorUS(frame, rate) * rate.num + rate.num
  {
    DivBounds(frame * rate.Span(), rate.num);
  }

  /** Specification of rounding without division: within half a frame, ties upwards. */
  lemma {:induction false} NearestBounds(t: nat, rate: Rate)
    requires rate.Positive()
    ensures 2 * (Nearest(t, rate) * rate.Span()) - rate.Span() <= 2 * (t * rate.num)
    ensures 2 * (t * rate.num) < 2 * (Nearest(t, rate) * rate.Span()) + rate.Span()
  {
    var x, d := t * rate.num, rate.Span();
    DivBounds(x, d);
    var q := x / d;
    assert x == q * d + x % d;
    assert (q + 1) * d == q * d + d;
  }

  /** The rounding bounds have only one solution. */
  lemma {:induction false} NearestUnique(t: nat, n: int, rate: Rate)
    requires rate.Positive()
    requires 2 * (n * rate.Span()) - rate.Span() <= 2 * (t * rate.num) < 2 * (n * rate.Span()) + rate.Span()
    ensures Nearest(t, rate) == n
  {
    NearestBounds(t, rate);
    var m, d := Nearest(t, rate), rate.Span();
    if m < n {
      StepMul(m, n, d);
    } else if n < m {
      StepMul(n, m, d);
    }
  }

  /** Rounding a floored frame gives the frame back exactly when the lost part is at most half a frame. */
  lemma {:induction false} RoundTripExactly(frame: nat, rate: Rate)
    requires rate.Positive()
    ensures Nearest(FloorUS(frame, rate), rate) == frame
       <==> 2 * ((frame * rate.Span()) % rate.num) <= rate.Span()
  {
    var u := FloorUS(frame, rate);
    var x := frame * rate.Span();
    assert x == u * rate.num + x % rate.num;
    if 2 * (x % rate.num) <= rate.Span() {
      NearestUnique(u, frame, rate);
    } else {
      NearestBounds(u, rate);
    }
  }

  /** In the working range every frame survives the trip through microseconds. */
  lemma {:induction false} RoundTrip(frame: nat, rate: Rate)
    requires rate.Roomy()
    ensures Nearest(FloorUS(frame, rate), rate) == frame
  {
    RoundTripExactly(frame, rate);
  }

  /** The working range ends at 500001 frames a second; at 500003 frame 166668 comes back as frame 166667. */
  lemma {:induction false} RoundTripFailsAtHighRate()
    ensures Rate(500_001, 1).Roomy() && !Rate(500_002, 1).Roomy()
    ensures var rate := Rate(500_003, 1);
            rate.Positive() && FloorUS(166_668, rate) == 333_333 && Nearest(333_333, rate) == 166_667
  {
    assert 166_668 * 1_000_000 == 333_333 * 500_003 + 500_001;
    assert 333_333 * 500_003 == 166_667 * 1_000_000 + 499_999;
  }

  lemma {:induction false} NearestMonotone(s: nat, t: nat, rate: Rate)
    requires rate.Positive() && s <= t
    ensures Nearest(s, rate) <= Nearest(t, rate)
  {
    NearestBounds(s, rate);
    NearestBounds(t, rate);
    var m, n, d := Nearest(s, rate), Nearest(t, rate), rate.Span();
    MulMono(s, t, rate.num);
    if n < m {
      StepMul(n, m, d);
    }
  }

  lemma {:induction false} FloorMonotone(f: nat, g: nat, rate: Rate)
    requires rate.Positive() && f <= g
    ensures FloorUS(f, rate) <= FloorUS(g, rate)
  {
    FloorBounds(f, rate);
    FloorBounds(g, rate);
    var u, v, n := FloorUS(f, rate), FloorUS(g, rate), rate.num;
    MulMono(f, g, rate.Span());
    if v < u {
      StepMul(v, u, n);
    }
  }

  /** In the working range distinct frames start at distinct microseconds, in order. */
  lemma {:induction false} FloorStrict(f: nat, g: nat, rate: Rate)
    requires rate.Roomy()
    ensures f < g <==> FloorUS(f, rate) < FloorUS(g, rate)
  {
    RoundTrip(f, rate);
    RoundTrip(g, rate);
    if f < g {
      FloorMonotone(f, g, rate);
    } else {
      FloorMonotone(g, f, rate);
    }
  }

  lemma {:induction false} FitsBelow(f: nat, g: nat, rate: Rate)
    requires rate.Positive() && f <= g && Fits(g, rate)
    ensures Fits(f, rate) && 0 <= FloorUS(f, rate) <= FloorUS(g, rate) < TWO63 && f < TWO63
  {
    MulMono(f, g, rate.Span());
    FloorMonotone(f, g, rate);
    FloorBounds(g, rate);
    assert FloorUS(g, rate) * 1 <= FloorUS(g, rate) * rate.num by { MulMono(1, rate.num, FloorUS(g, rate)); }
    assert f * 1 <= f * rate.Span() by { MulMono(1, rate.Span(), f); }
  }
}
