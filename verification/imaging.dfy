/** Image preprocessing shared by both backends: nearest-neighbour resize of an
    interleaved (HWC) RGB byte buffer to the model's input size, relayout into a
    planar (CHW) buffer, and per-channel normalisation applied pointwise.

    The two backends carry identical copies of this code; both use this module.
 */
module Imaging {

  type byte = b: int | 0 <= b < 256

  /** The arguments `rgb, W, H, C` handed to a backend's `classify`. */
  datatype Image = Image(width: int, height: int, channels: int, pixels: seq<byte>)

  /** What the resize reads once the channel check has passed: a non-empty
      `W x H` image of `W * H * 3` interleaved bytes. */
  predicate WellFormed(img: Image) {
    img.width > 0 && img.height > 0 && img.channels == 3
    && |img.pixels| == Slots(img.height, img.width)
  }

  /** Number of bytes of an `h x w` three-channel image, in either layout. */
  function Slots(h: nat, w: nat): nat {
    h * w * 3
  }

  /** Coordinates of one byte: row, column, channel. */
  datatype Coord = Coord(y: nat, x: nat, c: nat)

  predicate InImage(h: nat, w: nat, p: Coord) {
    p.y < h && p.x < w && p.c < 3
  }

  lemma MulLe(x: int, y: int, d: int)
    requires x <= y && d >= 0
    ensures x * d <= y * d
  {
  }

  lemma MulBelow(a: int, b: int, n: int)
    requires 0 <= a < n && b >= 0
    ensures a * b + b <= n * b
  {
    MulLe(a + 1, n, b);
  }

  lemma DivBelow(a: int, d: int, n: int)
    requires 0 <= a < n * d && d > 0
    ensures 0 <= a / d < n
  {
  }

  lemma DivModUnique(a: int, d: int, q: int, r: int)
    requires d > 0 && 0 <= r < d && a == q * d + r
    ensures a / d == q && a % d == r
  {
    var q' := a / d;
    if q > q' {
      MulLe(q' + 1, q, d);
    } else if q < q' {
      MulLe(q + 1, q', d);
    }
  }

  /** Interleaved (HWC) slot of `(y, x, c)`: `(y * w + x) * 3 + c`. */
  function Interleaved(h: nat, w: nat, y: nat, x: nat, c: nat): (i: nat)
    requires InImage(h, w, Coord(y, x, c))
    ensures i < Slots(h, w)
  {
    MulBelow(y, w, h);
    (y * w + x) * 3 + c
  }

  /** Planar (CHW) slot of `(c, y, x)`: `c * h * w + y * w + x`. */
  function Planar(h: nat, w: nat, c: nat, y: nat, x: nat): (j: nat)
    requires InImage(h, w, Coord(y, x, c))
    ensures j < Slots(h, w)
  {
    MulBelow(y, w, h);
    MulLe(c, 2, h * w);
    c * (h * w) + y * w + x
  }

  /** The coordinates an interleaved slot stands for. */
  function InterleavedCoord(h: nat, w: nat, i: nat): (p: Coord)
    requires i < Slots(h, w)
    ensures InImage(h, w, p)
    ensures Interleaved(h, w, p.y, p.x, p.c) == i
  {
    var pix := i / 3;
    DivBelow(i, 3, h * w);
    DivBelow(pix, w, h);
    Coord(pix / w, pix % w, i % 3)
  }

  /** The coordinates a planar slot stands for. */
  function PlanarCoord(h: nat, w: nat, j: nat): (p: Coord)
    requires j < Slots(h, w)
    ensures InImage(h, w, p)
    ensures Planar(h, w, p.c, p.y, p.x) == j
  {
    var plane := h * w;
    var rest := j % plane;
    DivBelow(j, plane, 3);
    DivBelow(rest, w, h);
    Coord(rest / w, rest % w, j / plane)
  }

  lemma InterleavedInjective(h: nat, w: nat, p: Coord, q: Coord)
    requires InImage(h, w, p) && InImage(h, w, q)
    requires Interleaved(h, w, p.y, p.x, p.c) == Interleaved(h, w, q.y, q.x, q.c)
    ensures p == q
  {
    var i := Interleaved(h, w, p.y, p.x, p.c);
    DivModUnique(i, 3, p.y * w + p.x, p.c);
    DivModUnique(i, 3, q.y * w + q.x, q.c);
    DivModUnique(i / 3, w, p.y, p.x);
    DivModUnique(i / 3, w, q.y, q.x);
  }

  lemma PlanarInjective(h: nat, w: nat, p: Coord, q: Coord)
    requires InImage(h, w, p) && InImage(h, w, q)
    requires Planar(h, w, p.c, p.y, p.x) == Planar(h, w, q.c, q.y, q.x)
    ensures p == q
  {
    var j := Planar(h, w, p.c, p.y, p.x);
    MulBelow(p.y, w, h);
    MulBelow(q.y, w, h);
    DivModUnique(j, h * w, p.c, p.y * w + p.x);
    DivModUnique(j, h * w, q.c, q.y * w + q.x);
    DivModUnique(j % (h * w), w, p.y, p.x);
    DivModUnique(j % (h * w), w, q.y, q.x);
  }

  /** A pixel's coordinates survive a trip through its interleaved slot, whose
      remainder modulo 3 is the channel. */
  lemma InterleavedCoordInverse(h: nat, w: nat)
    ensures forall y: nat, x: nat, c: nat | InImage(h, w, Coord(y, x, c)) ::
      && InterleavedCoord(h, w, Interleaved(h, w, y, x, c)) == Coord(y, x, c)
      && Interleaved(h, w, y, x, c) % 3 == c
  {
    forall y: nat, x: nat, c: nat | InImage(h, w, Coord(y, x, c))
      ensures InterleavedCoord(h, w, Interleaved(h, w, y, x, c)) == Coord(y, x, c)
      ensures Interleaved(h, w, y, x, c) % 3 == c
    {
      var i := Interleaved(h, w, y, x, c);
      InterleavedInjective(h, w, InterleavedCoord(h, w, i), Coord(y, x, c));
      DivModUnique(i, 3, y * w + x, c);
    }
  }

  /** A pixel's coordinates survive a trip through its planar slot. */
  lemma PlanarCoordInverse(h: nat, w: nat)
    ensures forall y: nat, x: nat, c: nat | InImage(h, w, Coord(y, x, c)) ::
      PlanarCoord(h, w, Planar(h, w, c, y, x)) == Coord(y, x, c)
  {
    forall y: nat, x: nat, c: nat | InImage(h, w, Coord(y, x, c))
      ensures PlanarCoord(h, w, Planar(h, w, c, y, x)) == Coord(y, x, c)
    {
      var j := Planar(h, w, c, y, x);
      PlanarInjective(h, w, PlanarCoord(h, w, j), Coord(y, x, c));
    }
  }

  /** Nearest source row (or column) for destination row `d`: `d * srcLen / outLen`
      with truncating integer division. */
  function SourceCoord(d: nat, srcLen: nat, outLen: nat): (s: nat)
    requires d < outLen && srcLen > 0
    ensures s < srcLen
  {
    MulBelow(d, srcLen, outLen);
    DivBelow(d * srcLen, outLen, srcLen);
    d * srcLen / outLen
  }

  const Int32Min: int := -0x8000_0000
  const Int32Max: int := 0x7FFF_FFFF

  /** A product as a 32-bit `int` holds it: reduced into `[Int32Min, Int32Max]`.
      Signed overflow is undefined behaviour in C++; the model picks
      two's-complement wrap-around as one possible outcome of it. */
  function Wrap32(v: int): (r: int)
    ensures Int32Min <= r <= Int32Max
    ensures Int32Min <= v <= Int32Max ==> r == v
  {
    (v - Int32Min) % 0x1_0000_0000 + Int32Min
  }

  lemma DivAtMost(a: nat, b: int)
    requires b > 0
    ensures 0 <= a / b <= a
  {
    var q := a / b;
    assert q * b + a % b == a;
    if q < 0 {
      MulLe(q, -1, b);
    } else {
      MulLe(1, b, q);
    }
  }

  /** C++ integer division: truncates toward zero, so the quotient keeps the
      sign of `a` and is no larger in magnitude. */
  function TruncDiv(a: int, b: int): (q: int)
    requires b > 0
    ensures a >= 0 ==> q == a / b && 0 <= q <= a
    ensures a < 0 ==> a <= q <= 0
  {
    var m := if a >= 0 then a else -a;
    DivAtMost(m, b);
    if a >= 0 then a / b else -((-a) / b)
  }

  /** The source row (or column) exactly as the C++ code computes it: the
      product `y * H` is an `int`. */
  function SourceCoordAsWritten(d: nat, srcLen: nat, outLen: nat): (s: int)
    requires d < outLen
    ensures Int32Min <= s <= Int32Max
    ensures d * srcLen <= Int32Max ==> s == d * srcLen / outLen
  {
    var product := d * srcLen;
    TruncDiv(Wrap32(product), outLen)
  }

  /** For a 1 x 10,000,000 image, the last destination row of a 224-row resize
      computes `223 * 10000000`, which does not fit in an `int`; the row it then
      reads from is negative, outside the source buffer. */
  lemma SourceCoordAsWrittenOverflows()
    ensures SourceCoordAsWritten(223, 10_000_000, 224) < 0
  {
    assert Wrap32(223 * 10_000_000) == 2_230_000_000 - 0x1_0000_0000;
  }

  /** For the 224-row resize the backends perform, the converse holds too: once
      `d * srcLen` no longer fits in an `int`, the row computed as written is
      never the intended one. */
  lemma SourceCoordAsWrittenWrongAt224(d: nat, srcLen: nat)
    requires d < 224 && d * srcLen > Int32Max
    ensures SourceCoordAsWritten(d, srcLen, 224) != d * srcLen / 224
  {
  }

  /** Below that size the computation as written and the intended one agree. */
  lemma SourceCoordAsWrittenAgrees(d: nat, srcLen: nat, outLen: nat)
    requires d < outLen && srcLen > 0
    requires d * srcLen <= Int32Max
    ensures SourceCoordAsWritten(d, srcLen, outLen) == SourceCoord(d, srcLen, outLen)
  {
  }

  /** Nearest-neighbour resize of an interleaved image to `outH x outW`: every
      destination byte `(y, x, c)` is a copy of the source byte at the nearest
      pixel `(y * H / outH, x * W / outW)`, same channel. That read is inside the
      `W * H * 3` source buffer (the index's own bound), so there is no
      interpolation and no out-of-bounds read. */
  function Resize(img: Image, outH: nat, outW: nat): (r: seq<byte>)
    requires WellFormed(img)
    ensures |r| == Slots(outH, outW)
    ensures forall y: nat, x: nat, c: nat | InImage(outH, outW, Coord(y, x, c)) ::
      r[Interleaved(outH, outW, y, x, c)]
        == img.pixels[Interleaved(img.height, img.width,
                                  SourceCoord(y, img.height, outH), SourceCoord(x, img.width, outW), c)]
  {
    InterleavedCoordInverse(outH, outW);
    seq(Slots(outH, outW), i requires 0 <= i < Slots(outH, outW) =>
      var p := InterleavedCoord(outH, outW, i);
      img.pixels[Interleaved(img.height, img.width,
                             SourceCoord(p.y, img.height, outH), SourceCoord(p.x, img.width, outW), p.c)])
  }

  /** Resizing to the image's own size changes nothing. */
  lemma ResizeIdentity(img: Image)
    requires WellFormed(img)
    ensures Resize(img, img.height, img.width) == img.pixels
  {
    var h, w := img.height, img.width;
    var r := Resize(img, h, w);
    forall i | 0 <= i < |r|
      ensures r[i] == img.pixels[i]
    {
      var p := InterleavedCoord(h, w, i);
      DivModUnique(p.y * h, h, p.y, 0);
      DivModUnique(p.x * w, w, p.x, 0);
    }
  }

  /** Relayout from interleaved (HWC) to planar (CHW) order: planar slot
      `c * h * w + y * w + x` receives interleaved slot `(y * w + x) * 3 + c`. */
  function ToPlanar<T>(s: seq<T>, h: nat, w: nat): (r: seq<T>)
    requires |s| == Slots(h, w)
    ensures |r| == Slots(h, w)
    ensures forall y: nat, x: nat, c: nat | InImage(h, w, Coord(y, x, c)) ::
      r[Planar(h, w, c, y, x)] == s[Interleaved(h, w, y, x, c)]
  {
    PlanarCoordInverse(h, w);
    seq(Slots(h, w), j requires 0 <= j < Slots(h, w) =>
      var p := PlanarCoord(h, w, j);
      s[Interleaved(h, w, p.y, p.x, p.c)])
  }

  /** Relayout from planar (CHW) back to interleaved (HWC) order. */
  function ToInterleaved<T>(s: seq<T>, h: nat, w: nat): (r: seq<T>)
    requires |s| == Slots(h, w)
    ensures |r| == Slots(h, w)
  {
    seq(Slots(h, w), i requires 0 <= i < Slots(h, w) =>
      var p := InterleavedCoord(h, w, i);
      s[Planar(h, w, p.c, p.y, p.x)])
  }

  /** The relayout is a bijection on the `3 * h * w` slots: it loses and duplicates
      nothing, and the reverse relayout undoes it (in both orders). */
  lemma PlanarRoundTrip<T>(s: seq<T>, h: nat, w: nat)
    requires |s| == Slots(h, w)
    ensures ToInterleaved(ToPlanar(s, h, w), h, w) == s
    ensures ToPlanar(ToInterleaved(s, h, w), h, w) == s
  {
    var a := ToInterleaved(ToPlanar(s, h, w), h, w);
    forall i | 0 <= i < |s|
      ensures a[i] == s[i]
    {
      var p := InterleavedCoord(h, w, i);
      var j := Planar(h, w, p.c, p.y, p.x);
      PlanarInjective(h, w, PlanarCoord(h, w, j), p);
    }
    var b := ToPlanar(ToInterleaved(s, h, w), h, w);
    forall j | 0 <= j < |s|
      ensures b[j] == s[j]
    {
      var p := PlanarCoord(h, w, j);
      var i := Interleaved(h, w, p.y, p.x, p.c);
      InterleavedInjective(h, w, InterleavedCoord(h, w, i), p);
    }
  }

  /** Per-channel normalisation `(v / 255 - mean[c]) / std[c]`, abstracted to a
      function of the channel and the byte, applied to every interleaved slot. */
  function Normalize(s: seq<byte>, norm: (int, byte) -> real): (r: seq<real>)
    ensures |r| == |s|
    ensures forall i :: 0 <= i < |s| ==> r[i] == norm(i % 3, s[i])
  {
    seq(|s|, i requires 0 <= i < |s| => norm(i % 3, s[i]))
  }

  /** The model's input tensor: resize to `h x w`, normalise, lay out planar.
      Whatever the source size, the tensor has `3 * h * w` values, and the value
      at planar slot `(c, y, x)` is the normalised source byte of channel `c` at
      the nearest source pixel. */
  function Preprocess(img: Image, h: nat, w: nat, norm: (int, byte) -> real): (t: seq<real>)
    requires WellFormed(img)
    ensures |t| == 3 * h * w
    ensures forall y: nat, x: nat, c: nat | InImage(h, w, Coord(y, x, c)) ::
      t[Planar(h, w, c, y, x)]
        == norm(c, img.pixels[Interleaved(img.height, img.width,
                                          SourceCoord(y, img.height, h), SourceCoord(x, img.width, w), c)])
  {
    InterleavedCoordInverse(h, w);
    ToPlanar(Normalize(Resize(img, h, w), norm), h, w)
  }
}
