/**
 * The sub-band ADPCM codec of core/codec/g722.go. All arithmetic runs on a 32-bit integer type, so verification also
 * shows that no intermediate result overflows. Shifts right by one and three are floor divisions by two and eight.
 */
module G722 {
  newtype int32 = x: int | -0x8000_0000 <= x < 0x8000_0000
  newtype int16 = x: int | -0x8000 <= x < 0x8000
  newtype uint8 = x: int | 0 <= x < 256

  // ---- pure helpers ----

  function Clamp(v: int32, lo: int32, hi: int32): int32 {
    if v < lo then lo else if v > hi then hi else v
  }

  /** Whole steps in a distance; truncating and floor division agree here. */
  function Steps(e: int32, step: int32): (n: int32)
    requires e >= 0 && step > 0
    ensures n >= 0
  {
    Quotient(e as int, step as int);
    e / step
  }

  lemma Quotient(e: nat, step: nat)
    requires step > 0
    ensures 0 <= e / step <= e
  {
    Division(e, step);
    QuotientBounds(e, step, e / step);
  }

  lemma QuotientBounds(e: nat, step: nat, q: int)
    requires step > 0 && 0 <= e - q * step < step
    ensures 0 <= q <= e
  {
    if q < 0 {
      Monotone(q, -1, step);
    } else if q > e {
      Monotone(1, step, q);
    }
  }

  function Saturate(v: int32): int32 {
    if v > 32767 then 32767 else if v < -32768 then -32768 else v
  }

  function Saturate16(v: int32): int16 { Saturate(v) as int16 }

  lemma Product(a: int, b: int, top: int)
    requires -top <= a <= top && 0 <= b <= 32767
    ensures -32767 * top <= a * b <= 32767 * top
  {
    assert a * b <= top * b <= top * 32767 && a * b >= -top * b >= -top * 32767;
  }

  function DequantLow(q: int32, step: int32): (d: int32)
    requires 0 <= q < 64 && 8 <= step <= 32767
    ensures -1_015_777 <= d <= 1_015_777
  {
    var (sign, mag) := if q >= 32 then (-1 as int32, q - 32) else (1, q);
    Product((sign * mag) as int, step as int, 31);
    sign * mag * step
  }

  function DequantHigh(q: int32, step: int32): (d: int32)
    requires 0 <= q < 4 && 8 <= step <= 32767
    ensures -65534 <= d <= 65534
  {
    if q >= 2 then -(q - 2 + 1) * step else (q + 1) * step
  }

  function AdaptPredict(s: int32, d: int32): (r: int32)
    requires -0x4000_0000 <= s <= 0x3fff_ffff && -0x4000_0000 <= d <= 0x3fff_ffff
    ensures -32768 <= r <= 32767
  {
    Saturate(s + d)
  }

  function UpdateStep(det: int32, q: int32): (r: int32)
    requires 0 <= det <= 32767
    ensures 8 <= r <= 32767
  {
    var d := if q == 0 then det * 7 / 8 else det * 9 / 8;
    if d < 8 then 8 else if d > 32767 then 32767 else d
  }

  /** A zero codeword shrinks the step and any other one grows it, always by about an eighth and within [8, 32767]. */
  lemma StepFollowsCode(det: int32, q: int32)
    requires 8 <= det <= 32767
    ensures var (d, r) := (det as int, UpdateStep(det, q) as int);
      if q == 0 then (r < d || d == 8) && 8 * (d - r) <= d + 7
      else (r > d || d == 32767) && 8 * (r - d) <= d
    ensures q != 0 && det <= 29126 ==> 8 * (UpdateStep(det, q) as int - det as int) > det as int - 8
    ensures q == 0 && det > 9 ==> 8 * (det as int - UpdateStep(det, q) as int) >= det as int
  {}

  // ---- one band on one side: the predictor and the adaptive step ----

  datatype Band = Band(pred: int32, det: int32)

  ghost predicate Sane(b: Band) {
    -32768 <= b.pred <= 32767 && (b.det == 0 || 8 <= b.det <= 32767)
  }

  function StepOf(b: Band): (step: int32)
    ensures 8 <= step && (b.det <= 32767 ==> step <= 32767)
  {
    if b.det < 8 then 8 else b.det
  }

  function QuantLow(b: Band, x: int16): (q: int32)
    requires Sane(b)
    ensures 0 <= q < 64
  {
    var el := x as int32 - b.pred;
    if el < 0 then 32 + Clamp(Steps(-el, StepOf(b)), 0, 31) else Clamp(Steps(el, StepOf(b)), 0, 31)
  }

  function QuantHigh(b: Band, x: int16): (q: int32)
    requires Sane(b)
    ensures 0 <= q < 4
  {
    var el := x as int32 - b.pred;
    if el < 0 then 2 + Clamp(Steps(-el, StepOf(b)), 0, 1) else Clamp(Steps(el, StepOf(b)), 0, 1)
  }

  /** What a codeword does to the lower band; encoder and decoder both do exactly this. */
  function NextLow(b: Band, q: int32): (r: Band)
    requires Sane(b) && 0 <= q < 64
    ensures Sane(r)
  {
    Band(AdaptPredict(b.pred, DequantLow(q, StepOf(b))), UpdateStep(b.det, q))
  }

  function NextHigh(b: Band, q: int32): (r: Band)
    requires Sane(b) && 0 <= q < 4
    ensures Sane(r)
  {
    Band(AdaptPredict(b.pred, DequantHigh(q, StepOf(b))), UpdateStep(b.det, q))
  }

  /** In both bands the step follows the band's own codeword, and leaves its initial zero for the smallest step. */
  lemma BandsFollowCode(b: Band, q: int32)
    requires Sane(b) && 0 <= q < 64
    ensures var (d, r) := (b.det as int, NextLow(b, q).det as int);
      if d == 0 then r == 8
      else if q == 0 then (r < d || d == 8) && 8 * (d - r) <= d + 7
      else (r > d || d == 32767) && 8 * (r - d) <= d
    ensures q < 4 ==> NextHigh(b, q).det == NextLow(b, q).det
  {
    hide DequantLow, DequantHigh, AdaptPredict;
    if b.det >= 8 {
      StepFollowsCode(b.det, q);
    }
  }

  // ---- the coder state of the source, updated in place ----

  class State {
    var sl: int32
    var dl: int32
    var el: int32
    var detLow: int32
    var detHigh: int32
    var su: int32
    var du: int32

    function Low(): Band reads this { Band(sl, detLow) }
    function High(): Band reads this { Band(su, detHigh) }
    ghost predicate Valid() reads this { Sane(Low()) && Sane(High()) }

    constructor ()
      ensures Valid() && Low() == High() == Band(0, 0)
    {
      sl, dl, el, detLow, detHigh, su, du := 0, 0, 0, 0, 0, 0, 0;
    }

    method EncodeLow(x: int16) returns (q: int32)
      requires Valid()
      modifies this
      ensures Valid() && q == QuantLow(old(Low()), x)
      ensures Low() == NextLow(old(Low()), q) && High() == old(High())
      ensures el == x as int32 - old(sl) && dl == DequantLow(q, StepOf(old(Low()))) && du == old(du)
    {
      hide DequantLow, DequantHigh, AdaptPredict, UpdateStep, Steps;
      el := x as int32 - sl;
      var step := detLow;
      if step < 8 {
        step := 8;
      }
      if el < 0 {
        q := 32 + Clamp(Steps(-el, step), 0, 31);
      } else {
        q := Clamp(Steps(el, step), 0, 31);
      }
      dl := DequantLow(q, step);
      sl := AdaptPredict(sl, dl);
      detLow := UpdateStep(detLow, q);
    }

    method EncodeHigh(x: int16) returns (q: int32)
      requires Valid()
      modifies this
      ensures Valid() && q == QuantHigh(old(High()), x)
      ensures High() == NextHigh(old(High()), q) && Low() == old(Low())
      ensures du == DequantHigh(q, StepOf(old(High()))) && dl == old(dl) && el == old(el)
    {
      hide DequantLow, DequantHigh, AdaptPredict, UpdateStep, Steps;
      var e := x as int32 - su;
      var step := detHigh;
      if step < 8 {
        step := 8;
      }
      if e < 0 {
        q := 2 + Clamp(Steps(-e, step), 0, 1);
      } else {
        q := Clamp(Steps(e, step), 0, 1);
      }
      du := DequantHigh(q, step);
      su := AdaptPredict(su, du);
      detHigh := UpdateStep(detHigh, q);
    }

    method DecodeLow(q: int32) returns (x: int32)
      requires Valid() && 0 <= q < 64
      modifies this
      ensures Valid() && Low() == NextLow(old(Low()), q) && High() == old(High()) && x == Low().pred
      ensures dl == DequantLow(q, StepOf(old(Low()))) && du == old(du) && el == old(el)
    {
      hide DequantLow, DequantHigh, AdaptPredict, UpdateStep, Steps;
      var step := detLow;
      if step < 8 {
        step := 8;
      }
      dl := DequantLow(q, step);
      sl := AdaptPredict(sl, dl);
      detLow := UpdateStep(detLow, q);
      x := sl;
    }

    method DecodeHigh(q: int32) returns (x: int32)
      requires Valid() && 0 <= q < 4
      modifies this
      ensures Valid() && High() == NextHigh(old(High()), q) && Low() == old(Low()) && x == High().pred
      ensures du == DequantHigh(q, StepOf(old(High()))) && dl == old(dl) && el == old(el)
    {
      hide DequantLow, DequantHigh, AdaptPredict, UpdateStep, Steps;
      var step := detHigh;
      if step < 8 {
        step := 8;
      }
      du := DequantHigh(q, step);
      su := AdaptPredict(su, du);
      detHigh := UpdateStep(detHigh, q);
      x := su;
    }
  }

  // ---- frames ----

  datatype Coder = Coder(low: Band, high: Band)

  const RESET := Coder(Band(0, 0), Band(0, 0))

  ghost predicate SaneCoder(c: Coder) { Sane(c.low) && Sane(c.high) }

  function LowBand(x0: int16, x1: int16): int16 { ((x0 as int32 + x1 as int32) / 2) as int16 }
  function HighBand(x0: int16, x1: int16): int16 { ((x0 as int32 - x1 as int32) / 2) as int16 }

  /** Two high bits and six low bits share one octet. */
  function Pack(codL: int32, codH: int32): uint8
    requires 0 <= codL < 64 && 0 <= codH < 4
  {
    (codH * 64 + codL) as uint8
  }

  function CodeLow(b: uint8): (q: int32) ensures 0 <= q < 64 { b as int32 % 64 }
  function CodeHigh(b: uint8): (q: int32) ensures 0 <= q < 4 { b as int32 / 64 }

  lemma PackRoundTrip(codL: int32, codH: int32)
    requires 0 <= codL < 64 && 0 <= codH < 4
    ensures CodeLow(Pack(codL, codH)) == codL && CodeHigh(Pack(codL, codH)) == codH
  {}

  function Padded(samples: seq<int16>): (r: seq<int16>)
    ensures |r| == (|samples| + 1) / 2 * 2
    ensures forall k :: 0 <= k < |samples| ==> r[k] == samples[k]
    ensures forall k :: |samples| <= k < |r| ==> r[k] == 0
  {
    if |samples| % 2 != 0 then samples + [0] else samples
  }

  /** One pair of samples through the encoder: the octet written and the state after it. */
  function PairCode(c: Coder, x0: int16, x1: int16): uint8
    requires SaneCoder(c)
  {
    Pack(QuantLow(c.low, LowBand(x0, x1)), QuantHigh(c.high, HighBand(x0, x1)))
  }

  function EncodePair(c: Coder, x0: int16, x1: int16): (d: Coder)
    requires SaneCoder(c)
    ensures SaneCoder(d)
  {
    Coder(NextLow(c.low, QuantLow(c.low, LowBand(x0, x1))), NextHigh(c.high, QuantHigh(c.high, HighBand(x0, x1))))
  }

  /** One octet through the decoder; it is defined on any octet, not only on encoder output. */
  function DecodePair(c: Coder, b: uint8): (d: Coder)
    requires SaneCoder(c)
    ensures SaneCoder(d)
  {
    Coder(NextLow(c.low, CodeLow(b)), NextHigh(c.high, CodeHigh(b)))
  }

  lemma PairLockstep(c: Coder, x0: int16, x1: int16)
    requires SaneCoder(c)
    ensures DecodePair(c, PairCode(c, x0, x1)) == EncodePair(c, x0, x1)
  {
    hide NextLow, NextHigh, QuantLow, QuantHigh, Pack, CodeLow, CodeHigh, LowBand, HighBand;
    PackRoundTrip(QuantLow(c.low, LowBand(x0, x1)), QuantHigh(c.high, HighBand(x0, x1)));
  }

  /** The encoder after i pairs of samples. */
  function EncoderAfter(xs: seq<int16>, i: nat): (c: Coder)
    requires 2 * i <= |xs|
    ensures SaneCoder(c)
  {
    if i == 0 then RESET else EncodePair(EncoderAfter(xs, i - 1), xs[2 * i - 2], xs[2 * i - 1])
  }

  /** The octet written for pair i. */
  function CodeAt(xs: seq<int16>, i: nat): uint8
    requires 2 * i + 1 < |xs|
  {
    PairCode(EncoderAfter(xs, i), xs[2 * i], xs[2 * i + 1])
  }

  /** The decoder after i octets. */
  function DecoderAfter(frame: seq<uint8>, i: nat): (c: Coder)
    requires i <= |frame|
    ensures SaneCoder(c)
  {
    if i == 0 then RESET else DecodePair(DecoderAfter(frame, i - 1), frame[i - 1])
  }

  function G722Frame(samples: seq<int16>): (out: seq<uint8>)
    ensures |out| == (|samples| + 1) / 2
  {
    var xs := Padded(samples);
    seq(|xs| / 2, i requires 0 <= i < |xs| / 2 => CodeAt(xs, i))
  }

  lemma FrameAt(samples: seq<int16>, i: nat)
    requires i < |G722Frame(samples)|
    ensures var xs := Padded(samples);
      G722Frame(samples)[i] == PairCode(EncoderAfter(xs, i), xs[2 * i], xs[2 * i + 1])
  {}

  /** The two samples a coder state stands for. */
  function Output0(c: Coder): int16 requires SaneCoder(c) { Saturate16(c.low.pred + c.high.pred) }
  function Output1(c: Coder): int16 requires SaneCoder(c) { Saturate16(c.low.pred - c.high.pred) }

  function G722Decode(frame: seq<uint8>): (out: seq<int16>)
    ensures |out| == 2 * |frame|
  {
    seq(2 * |frame|, k requires 0 <= k < 2 * |frame| =>
      var c := DecoderAfter(frame, k / 2 + 1);
      if k % 2 == 0 then Output0(c) else Output1(c))
  }

  method Encode(samples: seq<int16>) returns (out: seq<uint8>)
    ensures out == G722Frame(samples)
  {
    hide NextLow, NextHigh, QuantLow, QuantHigh, Pack, Sane, EncoderAfter, Padded;
    hide State.Valid, State.Low, State.High;
    var xs := Padded(samples);
    Start(xs, []);
    var s := new State();
    var buf := new uint8[|xs| / 2];
    for i := 0 to |xs| / 2
      invariant s.Valid() && Coder(s.Low(), s.High()) == EncoderAfter(xs, i)
      invariant forall k :: 0 <= k < i ==> buf[k] == CodeAt(xs, k)
    {
      var (x0, x1) := (xs[i * 2] as int32, xs[i * 2 + 1] as int32);
      var codL := s.EncodeLow(((x0 + x1) / 2) as int16);
      var codH := s.EncodeHigh(((x0 - x1) / 2) as int16);
      EncoderStep(xs, i + 1);
      buf[i] := Pack(codL, codH);
    }
    out := buf[..];
  }

  method Decode(frame: seq<uint8>) returns (out: seq<int16>)
    ensures out == G722Decode(frame)
  {
    hide NextLow, NextHigh, CodeLow, CodeHigh, Saturate16, DecoderAfter;
    Start([], frame);
    var s := new State();
    var buf := new int16[2 * |frame|];
    for i := 0 to |frame|
      invariant s.Valid() && Coder(s.Low(), s.High()) == DecoderAfter(frame, i)
      invariant forall k :: 0 <= k < 2 * i ==> buf[k] == G722Decode(frame)[k]
    {
      var xL := s.DecodeLow(CodeLow(frame[i]));
      var xH := s.DecodeHigh(CodeHigh(frame[i]));
      DecoderStep(frame, i + 1);
      buf[i * 2] := Saturate16(xL + xH);
      buf[i * 2 + 1] := Saturate16(xL - xH);
    }
    out := buf[..];
  }

  /** From the octets alone the decoder reaches, after every octet, the encoder's predictors and steps in both bands. */
  lemma {:induction false} Lockstep(samples: seq<int16>, i: nat)
    requires i <= |G722Frame(samples)|
    ensures DecoderAfter(G722Frame(samples), i) == EncoderAfter(Padded(samples), i)
  {
    hide *;
    var xs, frame := Padded(samples), G722Frame(samples);
    if i == 0 {
      Start(xs, frame);
    } else {
      Lockstep(samples, i - 1);
      FrameAt(samples, i - 1);
      EncoderStep(xs, i);
      DecoderStep(frame, i);
      PairLockstep(EncoderAfter(xs, i - 1), xs[2 * i - 2], xs[2 * i - 1]);
    }
  }

  lemma Start(xs: seq<int16>, frame: seq<uint8>)
    ensures EncoderAfter(xs, 0) == RESET && DecoderAfter(frame, 0) == RESET
  {}

  lemma EncoderStep(xs: seq<int16>, i: nat)
    requires 0 < 2 * i <= |xs|
    ensures EncoderAfter(xs, i) == EncodePair(EncoderAfter(xs, i - 1), xs[2 * i - 2], xs[2 * i - 1])
  {}

  lemma DecoderStep(frame: seq<uint8>, i: nat)
    requires 0 < i <= |frame|
    ensures DecoderAfter(frame, i) == DecodePair(DecoderAfter(frame, i - 1), frame[i - 1])
  {}

  // ---- error bounds ----

  function Abs(x: int): nat { if x < 0 then -x else x }
  function Max(a: int, b: int): int { if a < b then b else a }

  function Overshoot(b: Band, x: int16): nat { Abs(x as int - b.pred as int) }

  function LowBound(b: Band, x: int16): int {
    Max(StepOf(b) as int - 1, Overshoot(b, x) - 31 * StepOf(b) as int)
  }

  function HighBound(b: Band, x: int16): int {
    Max(StepOf(b) as int, Overshoot(b, x) - 2 * StepOf(b) as int)
  }

  lemma Division(e: nat, step: nat)
    requires step > 0
    ensures 0 <= e - e / step * step < step
  {
    assert e == e / step * step + e % step;
  }

  /** Saturating to 16 bits never moves a value away from a 16-bit target. */
  lemma SaturateNearer(v: int32, x: int16)
    ensures Abs(Saturate(v) as int - x as int) <= Abs(v as int - x as int)
  {}

  /** The distance left after removing the largest multiple of the step up to `top` steps. */
  lemma Remainder(e: nat, step: int, top: nat, mag: int)
    requires step > 0 && mag == (if e / step > top then top else e / step)
    ensures mag >= 0 && mag * step <= e
    ensures e - mag * step <= Max(step - 1, e - top * step)
  {
    Division(e, step);
    if e / step > top {
      assert top * step <= e / step * step by { Monotone(top, e / step, step); }
    }
  }

  lemma Monotone(a: int, b: int, step: int)
    requires a <= b && step >= 0
    ensures a * step <= b * step
  {}

  function Difference(b: Band, x: int16): (e: int32)
    requires Sane(b)
    ensures 0 <= e && e as int == Overshoot(b, x)
  {
    if x as int32 < b.pred then b.pred - x as int32 else x as int32 - b.pred
  }

  /** The lower quantiser keeps the sign of the difference and its whole number of steps, up to 31. */
  lemma QuantLowValue(b: Band, x: int16)
    requires Sane(b)
    ensures var (q, step) := (QuantLow(b, x), StepOf(b));
      var mag := Clamp(Steps(Difference(b, x), step), 0, 31) as int;
      && q as int == (if x as int32 < b.pred then 32 + mag else mag)
      && DequantLow(q, step) as int == if x as int32 < b.pred then -(mag * step as int) else mag * step as int
  {
    hide Steps;
    var mag := Clamp(Steps(Difference(b, x), StepOf(b)), 0, 31) as int;
    Negated(mag, StepOf(b) as int);
  }

  lemma Negated(a: int, b: int)
    ensures (-a) * b == -(a * b)
  {}

  lemma LowError(b: Band, x: int16)
    requires Sane(b)
    ensures Abs(NextLow(b, QuantLow(b, x)).pred as int - x as int) <= LowBound(b, x)
  {
    hide UpdateStep, QuantLow, DequantLow;
    var (step, q, e) := (StepOf(b), QuantLow(b, x), Difference(b, x));
    QuantLowValue(b, x);
    Remainder(e as int, step as int, 31, Clamp(Steps(e, step), 0, 31) as int);
    SaturateNearer(b.pred + DequantLow(q, step), x);
  }

  /** The upper quantiser keeps the sign and one of two sizes, one or two steps; it has no zero. */
  lemma QuantHighValue(b: Band, x: int16)
    requires Sane(b)
    ensures var (q, step) := (QuantHigh(b, x), StepOf(b));
      var size := if Steps(Difference(b, x), step) >= 1 then 2 * step as int else step as int;
      && DequantHigh(q, step) as int == (if x as int32 < b.pred then -size else size)
      && (q == 0 <==> x as int32 >= b.pred && Steps(Difference(b, x), step) == 0)
  {
    hide Steps;
  }

  lemma HighError(b: Band, x: int16)
    requires Sane(b)
    ensures Abs(NextHigh(b, QuantHigh(b, x)).pred as int - x as int) <= HighBound(b, x)
  {
    hide UpdateStep, QuantHigh, DequantHigh;
    var (step, q, e) := (StepOf(b), QuantHigh(b, x), Difference(b, x));
    QuantHighValue(b, x);
    Remainder(e as int, step as int, 1, Clamp(Steps(e, step), 0, 1) as int);
    SaturateNearer(b.pred + DequantHigh(q, step), x);
  }

  /** One pair through the band split, both quantisers and the synthesis, with no condition on the signal. */
  lemma PairError(c: Coder, x0: int16, x1: int16)
    requires SaneCoder(c)
    ensures var (l, h, d) := (LowBand(x0, x1), HighBand(x0, x1), EncodePair(c, x0, x1));
      && Abs(Output0(d) as int - x0 as int) <= LowBound(c.low, l) + HighBound(c.high, h) + 1
      && Abs(Output1(d) as int - x1 as int) <= LowBound(c.low, l) + HighBound(c.high, h)
  {
    hide NextLow, NextHigh, QuantLow, QuantHigh, LowBound, HighBound;
    var (l, h, d) := (LowBand(x0, x1), HighBand(x0, x1), EncodePair(c, x0, x1));
    LowError(c.low, l);
    HighError(c.high, h);
    SaturateNearer(d.low.pred + d.high.pred, x0);
    SaturateNearer(d.low.pred - d.high.pred, x1);
    assert x1 as int == l as int - h as int;
    assert l as int + h as int <= x0 as int <= l as int + h as int + 1;
  }

  lemma DecodedPair(samples: seq<int16>, i: nat)
    requires i < |G722Frame(samples)|
    ensures var (xs, out) := (Padded(samples), G722Decode(G722Frame(samples)));
      var d := EncodePair(EncoderAfter(xs, i), xs[2 * i], xs[2 * i + 1]);
      out[2 * i] == Output0(d) && out[2 * i + 1] == Output1(d)
  {
    hide EncodePair, DecodePair, PairCode, SaneCoder, Output0, Output1, G722Frame, Padded, DecoderAfter;
    Lockstep(samples, i + 1);
  }

  lemma DecodedPairError(samples: seq<int16>, i: nat)
    requires i < |G722Frame(samples)|
    ensures var (xs, out) := (Padded(samples), G722Decode(G722Frame(samples)));
      var (c, l, h) := (EncoderAfter(xs, i), LowBand(xs[2 * i], xs[2 * i + 1]), HighBand(xs[2 * i], xs[2 * i + 1]));
      && Abs(out[2 * i] as int - xs[2 * i] as int) <= LowBound(c.low, l) + HighBound(c.high, h) + 1
      && Abs(out[2 * i + 1] as int - xs[2 * i + 1] as int) <= LowBound(c.low, l) + HighBound(c.high, h)
  {
    hide EncodePair, G722Decode, Output0, Output1, LowBound, HighBound, LowBand, HighBand, Abs;
    var xs := Padded(samples);
    DecodedPair(samples, i);
    PairError(EncoderAfter(xs, i), xs[2 * i], xs[2 * i + 1]);
  }

  /** The encoder just before the pair that holds sample k, and that pair; an odd frame ends with a zero. */
  function EncoderBefore(samples: seq<int16>, k: nat): (c: Coder)
    requires k < |samples|
    ensures SaneCoder(c)
  {
    EncoderAfter(Padded(samples), k / 2)
  }

  function PairOf(samples: seq<int16>, k: nat): (int16, int16)
    requires k < |samples|
  {
    var i := k / 2 * 2;
    (samples[i], if i + 1 < |samples| then samples[i + 1] else 0)
  }

  /** End to end: every decoded sample is within the bounds that the encoder's own state gave just before its pair. */
  lemma DecodedError(samples: seq<int16>, k: nat)
    requires k < |samples|
    ensures var (c, (x0, x1), out) := (EncoderBefore(samples, k), PairOf(samples, k), G722Decode(G722Frame(samples)));
      && |samples| <= |out| <= |samples| + 1
      && Abs(out[k] as int - samples[k] as int) <=
         LowBound(c.low, LowBand(x0, x1)) + HighBound(c.high, HighBand(x0, x1)) + (k + 1) % 2
  {
    hide G722Decode, LowBound, HighBound, LowBand, HighBand, Abs, EncoderAfter, G722Frame;
    DecodedPairError(samples, k / 2);
  }

  /** Neither band overshoots what its quantiser can express. */
  ghost predicate InQuantiserRange(c: Coder, x0: int16, x1: int16) {
    && Overshoot(c.low, LowBand(x0, x1)) < 32 * StepOf(c.low) as int
    && Overshoot(c.high, HighBand(x0, x1)) <= 3 * StepOf(c.high) as int
  }

  /** Within range, every sample is off by at most the sum of the two steps, the second of a pair by one less. */
  lemma DecodedErrorInRange(samples: seq<int16>, k: nat)
    requires k < |samples|
    ensures var (c, (x0, x1), out) := (EncoderBefore(samples, k), PairOf(samples, k), G722Decode(G722Frame(samples)));
      && |samples| <= |out|
      && (InQuantiserRange(c, x0, x1) ==>
          Abs(out[k] as int - samples[k] as int) <= StepOf(c.low) as int + StepOf(c.high) as int - k % 2)
  {
    hide G722Decode, EncoderAfter, LowBand, HighBand, G722Frame, Abs;
    DecodedError(samples, k);
  }

  // ---- silence ----

  /** The upper band under silence: the quantiser has no zero level, so the predictor circles between -8 and 8. */
  ghost predicate Humming(c: Coder) {
    && c.low.pred == 0 && c.low.det == 8
    && ((c.high.det == 8 && 1 <= c.high.pred <= 8) || (c.high.det == 9 && -8 <= c.high.pred <= -1))
  }

  lemma SilentPair(c: Coder)
    requires c == RESET || Humming(c)
    ensures Humming(EncodePair(c, 0, 0))
  {
    SilentLow(c.low);
    SilentHigh(c.high);
  }

  lemma SilentLow(b: Band)
    requires b.pred == 0 && b.det in {0, 8}
    ensures NextLow(b, QuantLow(b, 0)) == Band(0, 8)
  {
    assert Steps(0, 8) == 0;
    QuantLowValue(b, 0);
  }

  lemma SilentHigh(b: Band)
    requires b == Band(0, 0) || (b.det == 8 && 1 <= b.pred <= 8) || (b.det == 9 && -8 <= b.pred <= -1)
    ensures var d := NextHigh(b, QuantHigh(b, 0));
      (d.det == 8 && 1 <= d.pred <= 8) || (d.det == 9 && -8 <= d.pred <= -1)
  {
    QuantHighValue(b, 0);
    if b.det == 9 {
      assert StepOf(b) == 9 && Steps(-b.pred, 9) == 0;
    } else {
      assert StepOf(b) == 8 && (Steps(b.pred, 8) >= 1 <==> b.pred == 8);
    }
  }

  lemma {:induction false} SilentState(xs: seq<int16>, i: nat)
    requires 2 * i <= |xs| && forall k :: 0 <= k < |xs| ==> xs[k] == 0
    ensures if i == 0 then EncoderAfter(xs, i) == RESET else Humming(EncoderAfter(xs, i))
  {
    hide *;
    if i == 0 {
      Start(xs, []);
    } else {
      SilentState(xs, i - 1);
      SilentPair(EncoderAfter(xs, i - 1));
      EncoderStep(xs, i);
    }
  }

  /** A silent frame of any length never decodes to silence: every pair is (v, -v) with 1 <= |v| <= 8. */
  lemma SilenceHums(samples: seq<int16>, i: nat)
    requires i < |G722Frame(samples)| && forall k :: 0 <= k < |samples| ==> samples[k] == 0
    ensures var out := G722Decode(G722Frame(samples));
      1 <= Abs(out[2 * i] as int) <= 8 && out[2 * i + 1] == -out[2 * i]
  {
    hide EncodePair, G722Decode, G722Frame, EncoderAfter;
    DecodedPair(samples, i);
    SilentState(Padded(samples), i + 1);
    EncoderStep(Padded(samples), i + 1);
  }

  /** Every pair of a silent frame is within the range of both quantisers. */
  lemma SilenceInRange(samples: seq<int16>, i: nat)
    requires i < |G722Frame(samples)| && forall k :: 0 <= k < |samples| ==> samples[k] == 0
    ensures var xs := Padded(samples); InQuantiserRange(EncoderAfter(xs, i), xs[2 * i], xs[2 * i + 1])
  {
    hide EncodePair, G722Frame, EncoderAfter;
    SilentState(Padded(samples), i);
  }
}
