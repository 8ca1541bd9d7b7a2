/** From camera bands to a model input: which output rows belong to which band, and that four
    calls write every tensor element once, from its own source pixel. */
module Tiling {
  import opened Bytes

  const HEIGHT := 240
  const WIDTH := 320
  const BAND_ROWS := 60
  const BANDS := 4

  // ---- division by something that is not a constant ----

  /** a / d is at least k exactly when a is at least k * d. */
  lemma AtLeast(a: nat, d: nat, k: nat)
    requires d > 0
    ensures a / d >= k <==> a >= k * d
  {
    var q, m := a / d, a % d;
    assert a == q * d + m;
    if q >= k { MulMono(q, k, d); } else { MulMono(k, q + 1, d); assert (q + 1) * d == q * d + d; }
  }

  lemma Divided(q: nat, m: nat, d: nat)
    requires m < d
    ensures (q * d + m) / d == q && (q * d + m) % d == m
  {
    var a := q * d + m;
    AtLeast(a, d, q);
    AtLeast(a, d, q + 1);
    assert (q + 1) * d == q * d + d;
    assert a == (a / d) * d + a % d;
  }

  // ---- the bands ----

  /** The first output row of a band, in 32-bit arithmetic. */
  function Bound32(band: nat, oh: nat): nat {
    (band * BAND_ROWS * oh % WORD + HEIGHT - 1) % WORD / HEIGHT
  }

  /** The same without a word size: the ceiling of a quarter of the height, so many times. */
  function Bound(band: nat, oh: nat): nat {
    (band * BAND_ROWS * oh + HEIGHT - 1) / HEIGHT
  }

  /** The tiling part of the start-up check. */
  predicate TilingOk(oh: nat) {
    oh != 0 && Bound32(0, oh) == 0 && Bound32(BANDS, oh) == oh
  }

  /** The check accepts exactly the heights for which its own arithmetic does not wrap. */
  lemma AcceptedIffNoWrap(oh: nat)
    requires oh < WORD
    ensures TilingOk(oh) <==> oh != 0 && HEIGHT * oh + HEIGHT - 1 < WORD
  {
    var n := HEIGHT * oh;
    if n + HEIGHT - 1 < WORD {
      SmallSum(n);
    } else {
      BoundStaysBelow(n % WORD, oh);
    }
  }

  /** Whatever a wrapped product leaves, it is too little for a height that wraps it. */
  lemma BoundStaysBelow(n: nat, oh: nat)
    requires n < WORD && HEIGHT * oh + HEIGHT - 1 >= WORD
    ensures (n + HEIGHT - 1) % WORD / HEIGHT < oh || oh == WORD / HEIGHT
    ensures oh == WORD / HEIGHT && n == HEIGHT * oh % WORD ==> (n + HEIGHT - 1) % WORD / HEIGHT < oh
  {
  }

  /** No height a tensor descriptor can hold makes it wrap. */
  lemma HeightsNeverWrap(oh: nat)
    requires 0 < oh < 0x1_0000
    ensures TilingOk(oh)
  {
    AcceptedIffNoWrap(oh);
  }

  /** And for those the 32-bit bounds are the real ones. */
  lemma NoWrap(band: nat, oh: nat)
    requires TilingOk(oh) && oh < WORD && band <= BANDS
    ensures Bound32(band, oh) == Bound(band, oh)
  {
    hide TilingOk;
    AcceptedIffNoWrap(oh);
    MulMono(BANDS * BAND_ROWS, band * BAND_ROWS, oh);
    SmallSum(band * BAND_ROWS * oh);
  }

  lemma SmallSum(n: nat)
    requires n + HEIGHT - 1 < WORD
    ensures (n % WORD + HEIGHT - 1) % WORD == n + HEIGHT - 1
  {
  }

  function SourceRow(oy: nat, oh: nat): nat
    requires oh > 0
  {
    oy * HEIGHT / oh
  }

  function SourceCol(ox: nat, ow: nat): nat
    requires ow > 0
  {
    ox * WIDTH / ow
  }

  /** Every output pixel samples the source in proportion, rounding down. */
  lemma SamplesInProportion(oy: nat, oh: nat, ox: nat, ow: nat)
    requires oy < oh && ox < ow
    ensures SourceRow(oy, oh) * oh <= oy * HEIGHT < (SourceRow(oy, oh) + 1) * oh
    ensures SourceCol(ox, ow) * ow <= ox * WIDTH < (SourceCol(ox, ow) + 1) * ow
  {
    Floor(oy * HEIGHT, oh);
    Floor(ox * WIDTH, ow);
  }

  /** An output row is in a band's share exactly when its source row is in the band. */
  lemma InBandIff(band: nat, oh: nat, oy: nat)
    requires oh > 0 && band < BANDS
    ensures Bound(band, oh) <= oy < Bound(band + 1, oh) <==>
      band * BAND_ROWS <= SourceRow(oy, oh) < (band + 1) * BAND_ROWS
  {
    CeilAtMost(band * BAND_ROWS * oh, oy);
    CeilAtMost((band + 1) * BAND_ROWS * oh, oy);
    AtLeast(oy * HEIGHT, oh, band * BAND_ROWS);
    AtLeast(oy * HEIGHT, oh, (band + 1) * BAND_ROWS);
  }

  lemma CeilAtMost(n: nat, k: nat)
    ensures (n + HEIGHT - 1) / HEIGHT <= k <==> n <= k * HEIGHT
  {
  }

  /** The bands partition the output rows. */
  lemma BandsPartition(oh: nat)
    requires oh > 0
    ensures Bound(0, oh) == 0 && Bound(BANDS, oh) == oh
    ensures forall b :: 0 <= b < BANDS ==> Bound(b, oh) <= Bound(b + 1, oh)
  {
    forall b | 0 <= b < BANDS ensures Bound(b, oh) <= Bound(b + 1, oh) {
      MulMono((b + 1) * BAND_ROWS, b * BAND_ROWS, oh);
    }
  }

  lemma SourceColFits(ox: nat, ow: nat)
    requires ox < ow
    ensures SourceCol(ox, ow) < WIDTH
  {
    AtLeast(ox * WIDTH, ow, WIDTH);
    MulMono(ow, ox + 1, WIDTH);
  }

  // ---- one element ----

  type Pixel = p: int | 0 <= p < 0x1_0000

  function Channel(px: Pixel, c: nat): (v: nat)
    requires c < 3
    ensures v <= 255
  {
    if c == 0 then px / 2048 % 32 * 255 / 31
    else if c == 1 then px / 32 % 64 * 255 / 63
    else px % 32 * 255 / 31
  }

  /** The sixteen bits, five for red above six for green above five for blue. */
  function Packed(r: nat, g: nat, b: nat): Pixel
    requires r < 32 && g < 64 && b < 32
  {
    (r * 64 + g) * 32 + b
  }

  lemma Fields(px: Pixel) returns (r: nat, g: nat, b: nat)
    ensures r == px / 2048 == px / 2048 % 32 && g == px / 32 % 64 && b == px % 32
    ensures r < 32 && px == (r * 64 + g) * 32 + b
  {
    var rest := px / 32;
    b, r, g := px % 32, rest / 64, rest % 64;
    assert px == rest * 32 + b && rest == r * 64 + g && rest < 2048;
    assert px / 2048 == r;
  }

  /** Every pixel is packed of three fields, and each channel is its own field alone, stretched
      over the whole of eight bits: nothing of a pixel is lost. */
  lemma ChannelIsField(px: Pixel) returns (r: nat, g: nat, b: nat)
    ensures r < 32 && g < 64 && b < 32 && px == Packed(r, g, b)
    ensures Channel(px, 0) * 31 <= r * 255 < (Channel(px, 0) + 1) * 31
    ensures Channel(px, 1) * 63 <= g * 255 < (Channel(px, 1) + 1) * 63
    ensures Channel(px, 2) * 31 <= b * 255 < (Channel(px, 2) + 1) * 31
  {
    r, g, b := Fields(px);
    Floor(r * 255, 31);
    Floor(g * 255, 63);
    Floor(b * 255, 31);
  }

  lemma Floor(n: nat, d: nat)
    requires d > 0
    ensures n / d * d <= n < (n / d + 1) * d
  {
  }

  /** Two pixels look alike in all three channels only if they are the same. */
  lemma ChannelsTellPixels(p: Pixel, q: Pixel)
    requires forall c :: 0 <= c < 3 ==> Channel(p, c) == Channel(q, c)
    ensures p == q
  {
    hide Channel;
    var r, g, b := ChannelIsField(p);
    var r', g', b' := ChannelIsField(q);
    assert Channel(p, 0) == Channel(q, 0) && Channel(p, 1) == Channel(q, 1);
    assert Channel(p, 2) == Channel(q, 2);
  }

  datatype Shape = Shape(ow: nat, oh: nat, oc: nat)

  predicate ShapeOk(s: Shape) {
    s.ow > 0 && s.oh > 0 && (s.oc == 1 || s.oc == 3)
  }

  function Elements(s: Shape): nat { s.oh * s.ow * s.oc }

  function RowStart(s: Shape, oy: nat): nat { oy * s.ow * s.oc }

  function IndexOf(s: Shape, oy: nat, ox: nat, c: nat): nat { (oy * s.ow + ox) * s.oc + c }

  /** What element e of the tensor should say, read off the whole frame. */
  function Expected(s: Shape, frame: seq<Pixel>, norm: nat -> int, e: nat): int
    requires ShapeOk(s) && |frame| == HEIGHT * WIDTH
  {
    var p := e / s.oc;
    var at := SourceRow(p / s.ow, s.oh) * WIDTH + SourceCol(p % s.ow, s.ow);
    if at < |frame| then norm(Channel(frame[at], e % s.oc)) else 0
  }

  lemma ElementAt(s: Shape, oy: nat, ox: nat, c: nat)
    requires ShapeOk(s) && ox < s.ow && c < s.oc
    ensures var e := IndexOf(s, oy, ox, c);
      e % s.oc == c && e / s.oc / s.ow == oy && e / s.oc % s.ow == ox
  {
    Divided(oy * s.ow + ox, c, s.oc);
    Divided(oy, ox, s.ow);
  }

  // ---- the four calls ----

  /** Elements [lo, hi) have been written once more than before, with what they should say;
      nothing else has been touched. */
  ghost predicate Written(s: Shape, frame: seq<Pixel>, norm: nat -> int,
                          was: seq<int>, now: seq<int>, timesWas: seq<nat>, times: seq<nat>,
                          lo: nat, hi: nat)
    requires ShapeOk(s) && |frame| == HEIGHT * WIDTH
  {
    && |was| == |now| == |timesWas| == |times| && lo <= hi <= |was|
    && (forall e :: lo <= e < hi ==> now[e] == Expected(s, frame, norm, e) && times[e] == timesWas[e] + 1)
    && (forall e :: 0 <= e < |was| && !(lo <= e < hi) ==> now[e] == was[e] && times[e] == timesWas[e])
  }

  lemma WriteOne(s: Shape, frame: seq<Pixel>, norm: nat -> int,
                 was: seq<int>, now: seq<int>, timesWas: seq<nat>, times: seq<nat>, lo: nat, hi: nat)
    requires ShapeOk(s) && |frame| == HEIGHT * WIDTH && hi < |was|
    requires Written(s, frame, norm, was, now, timesWas, times, lo, hi)
    ensures Written(s, frame, norm, was, now[hi := Expected(s, frame, norm, hi)],
                    timesWas, times[hi := times[hi] + 1], lo, hi + 1)
  {
    hide Expected;
  }

  lemma WrittenJoins(s: Shape, frame: seq<Pixel>, norm: nat -> int,
                     a: seq<int>, b: seq<int>, c: seq<int>,
                     ta: seq<nat>, tb: seq<nat>, tc: seq<nat>, lo: nat, mid: nat, hi: nat)
    requires ShapeOk(s) && |frame| == HEIGHT * WIDTH
    requires Written(s, frame, norm, a, b, ta, tb, lo, mid)
    requires Written(s, frame, norm, b, c, tb, tc, mid, hi)
    ensures Written(s, frame, norm, a, c, ta, tc, lo, hi)
  {
    hide Expected;
  }

  /** The products the sampler forms fit in 32 bits. */
  predicate Fits(s: Shape) {
    WIDTH * s.ow < WORD && HEIGHT * s.oh < WORD && Elements(s) < WORD
  }

  lemma RowsFit(s: Shape, oy: nat)
    requires ShapeOk(s) && oy < s.oh
    ensures RowStart(s, oy) + s.ow * s.oc == RowStart(s, oy + 1) <= Elements(s)
  {
    assert (oy + 1) * s.ow * s.oc == oy * s.ow * s.oc + s.ow * s.oc by {
      assert (oy + 1) * s.ow == oy * s.ow + s.ow;
    }
    MulMono(s.oh, oy + 1, s.ow);
    MulMono(s.oh * s.ow, (oy + 1) * s.ow, s.oc);
  }

  lemma PixelsFit(s: Shape, oy: nat, ox: nat)
    requires ShapeOk(s) && oy < s.oh && ox < s.ow
    ensures (oy * s.ow + ox) * s.oc == RowStart(s, oy) + ox * s.oc
    ensures RowStart(s, oy) + (ox + 1) * s.oc <= RowStart(s, oy + 1) <= Elements(s)
  {
    RowsFit(s, oy);
    MulMono(s.ow, ox + 1, s.oc);
    assert (oy * s.ow + ox) * s.oc == oy * s.ow * s.oc + ox * s.oc;
  }

  class Tensor {
    const shape: Shape
    const data: array<int>
    ghost var times: seq<nat>       // how often each element has been written

    ghost predicate Valid()
      reads this
    {
      && ShapeOk(shape) && Fits(shape) && TilingOk(shape.oh)
      && data.Length == |times| == Elements(shape)
    }

    constructor (s: Shape)
      requires ShapeOk(s) && Fits(s) && TilingOk(s.oh)
      ensures Valid() && shape == s && forall e :: 0 <= e < |times| ==> times[e] == 0
    {
      shape := s;
      data := new int[Elements(s)](_ => 0);
      times := seq(Elements(s), _ => 0);
    }

    /** One pixel's channels. */
    method Pixels(px: Pixel, oy: nat, ox: nat, norm: nat -> int, ghost frame: seq<Pixel>)
      requires Valid() && oy < shape.oh && ox < shape.ow && |frame| == HEIGHT * WIDTH
      requires SourceRow(oy, shape.oh) < HEIGHT
      requires var at := SourceRow(oy, shape.oh) * WIDTH + SourceCol(ox, shape.ow);
        at < |frame| && px == frame[at]
      modifies data, `times
      ensures Valid() && RowStart(shape, oy) + (ox + 1) * shape.oc <= data.Length
      ensures Written(shape, frame, norm, old(data[..]), data[..], old(times), times,
        RowStart(shape, oy) + ox * shape.oc, RowStart(shape, oy) + (ox + 1) * shape.oc)
    {
      hide Expected, Channel, SourceRow, SourceCol, TilingOk, Fits;
      PixelsFit(shape, oy, ox);
      ghost var was, timesWas := data[..], times;
      var o := (oy * shape.ow + ox) * shape.oc;
      for c := 0 to shape.oc
        invariant data.Length == |times| == Elements(shape) && o + shape.oc <= data.Length
        invariant Written(shape, frame, norm, was, data[..], timesWas, times, o, o + c)
      {
        ElementIs(shape, oy, ox, c, px, norm, frame);
        WriteOne(shape, frame, norm, was, data[..], timesWas, times, o, o + c);
        data[o + c] := norm(Channel(px, c));
        times := times[o + c := times[o + c] + 1];
      }
    }

    /** nncam_rows: output rows [first, end) from one band. */
    method Rows(src: seq<Pixel>, srcY: nat, first: nat, end: nat, norm: nat -> int,
                ghost frame: seq<Pixel>)
      requires Valid() && first <= end <= shape.oh && |frame| == HEIGHT * WIDTH
      requires srcY + BAND_ROWS <= HEIGHT && src == frame[srcY * WIDTH..(srcY + BAND_ROWS) * WIDTH]
      requires forall oy :: first <= oy < end ==>
        srcY <= SourceRow(oy, shape.oh) < srcY + BAND_ROWS
      modifies data, `times
      ensures Valid()
      ensures Written(shape, frame, norm, old(data[..]), data[..], old(times), times,
        RowStart(shape, first), RowStart(shape, end))
    {
      hide Expected, TilingOk, Fits, Written;
      ghost var was, timesWas := data[..], times;
      StartsInOrder(shape, first, end);
      NothingWritten(shape, frame, norm, was, timesWas, RowStart(shape, first));
      for oy := first to end
        invariant Valid()
        invariant Written(shape, frame, norm, was, data[..], timesWas, times,
          RowStart(shape, first), RowStart(shape, oy))
      {
        RowsFit(shape, oy);
        SourceProducts(shape, oy);
        var sy := oy * HEIGHT % WORD / shape.oh;
        assert sy == SourceRow(oy, shape.oh);
        for ox := 0 to shape.ow
          invariant Valid()
          invariant Written(shape, frame, norm, was, data[..], timesWas, times,
            RowStart(shape, first), RowStart(shape, oy) + ox * shape.oc)
        {
          SourceColumns(shape, ox);
          var sx := ox * WIDTH % WORD / shape.ow;
          assert sx == SourceCol(ox, shape.ow);
          PixelInBand(frame, src, srcY, sy, sx);
          ghost var before, timesBefore := data[..], times;
          Pixels(src[(sy - srcY) * WIDTH + sx], oy, ox, norm, frame);
          WrittenJoins(shape, frame, norm, was, before, data[..], timesWas, timesBefore, times,
            RowStart(shape, first), RowStart(shape, oy) + ox * shape.oc,
            RowStart(shape, oy) + (ox + 1) * shape.oc);
        }
      }
    }

    /** One frame, band by band: afterwards every element has been written exactly once more,
        with the value of its own source pixel. */
    method Frame(frame: seq<Pixel>, norm: nat -> int)
      requires Valid() && |frame| == HEIGHT * WIDTH
      modifies data, `times
      ensures Valid()
      ensures forall e :: 0 <= e < Elements(shape) ==>
        data[e] == Expected(shape, frame, norm, e) && times[e] == old(times[e]) + 1
    {
      hide Expected, TilingOk, Fits, SourceRow, Bound, Bound32;
      ghost var was, timesWas := data[..], times;
      BandsPartition(shape.oh);
      FitsWord(shape);
      NothingWritten(shape, frame, norm, was, timesWas, 0);
      for b := 0 to BANDS
        invariant Valid()
        invariant Written(shape, frame, norm, was, data[..], timesWas, times, 0,
          RowStart(shape, Bound(b, shape.oh)))
      {
        NoWrap(b, shape.oh);
        NoWrap(b + 1, shape.oh);
        var first, end := Bound32(b, shape.oh), Bound32(b + 1, shape.oh);
        BoundAtMost(b + 1, shape.oh);
        forall oy | first <= oy < end
          ensures b * BAND_ROWS <= SourceRow(oy, shape.oh) < b * BAND_ROWS + BAND_ROWS
        {
          InBandIff(b, shape.oh, oy);
        }
        ghost var before, timesBefore := data[..], times;
        Rows(frame[b * BAND_ROWS * WIDTH..(b * BAND_ROWS + BAND_ROWS) * WIDTH], b * BAND_ROWS,
          first, end, norm, frame);
        WrittenJoins(shape, frame, norm, was, before, data[..], timesWas, timesBefore, times, 0,
          RowStart(shape, Bound(b, shape.oh)), RowStart(shape, Bound(b + 1, shape.oh)));
      }
    }
  }

  lemma ElementIs(s: Shape, oy: nat, ox: nat, c: nat, px: Pixel, norm: nat -> int, frame: seq<Pixel>)
    requires ShapeOk(s) && ox < s.ow && oy < s.oh && c < s.oc && |frame| == HEIGHT * WIDTH
    requires var at := SourceRow(oy, s.oh) * WIDTH + SourceCol(ox, s.ow);
      at < |frame| && px == frame[at]
    ensures Expected(s, frame, norm, (oy * s.ow + ox) * s.oc + c) == norm(Channel(px, c))
  {
    hide Channel, SourceRow, SourceCol;
    ElementAt(s, oy, ox, c);
  }

  lemma NothingWritten(s: Shape, frame: seq<Pixel>, norm: nat -> int, was: seq<int>, times: seq<nat>, at: nat)
    requires ShapeOk(s) && |frame| == HEIGHT * WIDTH && at <= |was| == |times|
    ensures Written(s, frame, norm, was, was, times, times, at, at)
  {
  }

  lemma StartsInOrder(s: Shape, a: nat, b: nat)
    requires ShapeOk(s) && a <= b <= s.oh
    ensures RowStart(s, a) <= RowStart(s, b) <= Elements(s)
  {
    MulMono(b, a, s.ow);
    MulMono(b * s.ow, a * s.ow, s.oc);
    MulMono(s.oh, b, s.ow);
    MulMono(s.oh * s.ow, b * s.ow, s.oc);
  }

  lemma SourceProducts(s: Shape, oy: nat)
    requires Fits(s) && oy < s.oh
    ensures oy * HEIGHT % WORD == oy * HEIGHT
  {
  }

  lemma SourceColumns(s: Shape, ox: nat)
    requires ShapeOk(s) && Fits(s) && ox < s.ow
    ensures ox * WIDTH % WORD == ox * WIDTH && SourceCol(ox, s.ow) < WIDTH
  {
    SourceColFits(ox, s.ow);
  }

  lemma PixelInBand(frame: seq<Pixel>, src: seq<Pixel>, srcY: nat, sy: nat, sx: nat)
    requires |frame| == HEIGHT * WIDTH && srcY + BAND_ROWS <= HEIGHT
    requires src == frame[srcY * WIDTH..(srcY + BAND_ROWS) * WIDTH]
    requires srcY <= sy < srcY + BAND_ROWS && sx < WIDTH
    ensures (sy - srcY) * WIDTH + sx < |src| && sy * WIDTH + sx < |frame|
    ensures src[(sy - srcY) * WIDTH + sx] == frame[sy * WIDTH + sx]
  {
  }

  lemma BoundAtMost(band: nat, oh: nat)
    requires band <= BANDS
    ensures Bound(band, oh) <= oh
  {
    CeilAtMost(band * BAND_ROWS * oh, oh);
    MulMono(BANDS * BAND_ROWS, band * BAND_ROWS, oh);
  }

  lemma FitsWord(s: Shape)
    requires Fits(s)
    ensures s.oh < WORD
  {
  }

  /** The size part of the check is 32-bit too. */
  predicate SizeOk(s: Shape, elementBytes: nat, bytes: nat) {
    s.ow * s.oh * s.oc * elementBytes % WORD <= bytes
  }

  /** A shape as the tensor descriptor can hold it. */
  predicate Dims16(s: Shape) {
    s.ow < 0x1_0000 && s.oh < 0x1_0000 && s.oc < 0x1_0000
  }

  /** Here a wrap is within reach and is not caught: a 32768 by 32768 float tensor passes for
      one that needs no bytes at all. */
  lemma SizeCheckCanWrap()
    ensures var s := Shape(0x8000, 0x8000, 1);
      && ShapeOk(s) && Dims16(s) && TilingOk(s.oh)
      && SizeOk(s, 4, 0) && Elements(s) * 4 == WORD
  {
    HeightsNeverWrap(0x8000);
  }

  /** It means what it says exactly when the product fits. */
  lemma SizeCheckIff(s: Shape, elementBytes: nat, bytes: nat)
    requires bytes < WORD
    ensures SizeOk(s, elementBytes, bytes) && s.ow * s.oh * s.oc * elementBytes < WORD <==>
      s.ow * s.oh * s.oc * elementBytes <= bytes
  {
  }

  /** A shape that fits its buffer satisfies everything the sampler's arithmetic asks for. */
  lemma AcceptedShapesFit(s: Shape, elementBytes: nat, bytes: nat)
    requires ShapeOk(s) && Dims16(s) && elementBytes > 0 && bytes < WORD
    requires s.ow * s.oh * s.oc * elementBytes <= bytes
    ensures Fits(s) && TilingOk(s.oh) && SizeOk(s, elementBytes, bytes)
  {
    HeightsNeverWrap(s.oh);
    SizeCheckIff(s, elementBytes, bytes);
    var n := s.ow * s.oh * s.oc;
    assert n == Elements(s) by { assert s.ow * s.oh == s.oh * s.ow; }
    MulMono(elementBytes, 1, n);
  }
}
