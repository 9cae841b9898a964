/**
 * `fingerprint` (main.go): walks an image's bounds with x in the outer loop and
 * y in the inner loop, collects the red, green and blue value of every pixel
 * (alpha is dropped) and hands the whole sequence to `NewID`.
 */
module Fingerprinting {
  import opened Serialise
  import opened Uuid

  /** The four 32-bit channel values `Color.RGBA()` returns. */
  datatype Color = Color(r: uint32, g: uint32, b: uint32, a: uint32)

  /** `image.Rectangle`: the points with minX <= x < maxX and minY <= y < maxY. */
  datatype Rect = Rect(minX: int, minY: int, maxX: int, maxY: int)

  /** A decoded image: its bounds and the colour `At` reports for each point. */
  datatype Image = Image(bounds: Rect, at: (int, int) -> Color)

  function Width(r: Rect): nat {
    if r.maxX > r.minX then r.maxX - r.minX else 0
  }

  function Height(r: Rect): nat {
    if r.maxY > r.minY then r.maxY - r.minY else 0
  }

  predicate InBounds(r: Rect, x: int, y: int) {
    r.minX <= x < r.maxX && r.minY <= y < r.maxY
  }

  /** The samples one pixel contributes: red, green, blue; alpha is discarded. */
  function Rgb(c: Color): seq<uint32> {
    [c.r, c.g, c.b]
  }

  /** The samples of column `x` for the rows minY .. y - 1, in the order the inner loop appends them. */
  function ColumnSamples(im: Image, x: int, y: int): seq<uint32>
    decreases y - im.bounds.minY
  {
    if y <= im.bounds.minY then [] else ColumnSamples(im, x, y - 1) + Rgb(im.at(x, y - 1))
  }

  /** The samples of the columns minX .. x - 1, in the order the outer loop appends them. */
  function PrefixSamples(im: Image, x: int): seq<uint32>
    decreases x - im.bounds.minX
  {
    if x <= im.bounds.minX then []
    else PrefixSamples(im, x - 1) + ColumnSamples(im, x - 1, im.bounds.maxY)
  }

  /** The whole sample sequence `vals` that `fingerprint` builds. */
  function Samples(im: Image): seq<uint32> {
    PrefixSamples(im, im.bounds.maxX)
  }

  /** Where the samples of the point (x, y) start: column by column, each column top to bottom. */
  function Offset(r: Rect, x: int, y: int): int {
    3 * ((x - r.minX) * Height(r) + (y - r.minY))
  }

  /** The string `fingerprint(im)` returns, given the draw the generator would supply. */
  function FingerprintOf(im: Image, md5: Hash, draw: Draw): string {
    NewId(Samples(im), md5, draw)
  }

  /** `fingerprint`: the nested traversal that builds `vals`, then `NewID(vals...)`. */
  method Fingerprint(im: Image, md5: Hash, draw: Draw) returns (id: string)
    ensures id == NewId(Samples(im), md5, draw)
  {
    var vals: seq<uint32> := [];
    var dx := im.bounds.minX;
    while dx < im.bounds.maxX
      invariant im.bounds.minX <= dx && (dx <= im.bounds.maxX || dx == im.bounds.minX)
      invariant vals == PrefixSamples(im, dx)
    {
      var dy := im.bounds.minY;
      while dy < im.bounds.maxY
        invariant im.bounds.minY <= dy && (dy <= im.bounds.maxY || dy == im.bounds.minY)
        invariant vals == PrefixSamples(im, dx) + ColumnSamples(im, dx, dy)
      {
        var c := im.at(dx, dy);
        vals := vals + [c.r, c.g, c.b];
        dy := dy + 1;
      }
      dx := dx + 1;
    }
    assert vals == Samples(im);
    id := NewId(vals, md5, draw);
  }

  // ---- The traversal ----

  lemma {:induction false} ColumnLength(im: Image, x: int, y: int)
    ensures |ColumnSamples(im, x, y)| == 3 * (if y > im.bounds.minY then y - im.bounds.minY else 0)
    decreases y - im.bounds.minY
  {
    if y > im.bounds.minY {
      ColumnLength(im, x, y - 1);
    }
  }

  lemma {:induction false} ColumnAt(im: Image, x: int, y: int, j: int)
    requires im.bounds.minY <= j < y
    ensures 3 * (j - im.bounds.minY) + 3 <= |ColumnSamples(im, x, y)|
    ensures ColumnSamples(im, x, y)[3 * (j - im.bounds.minY)..3 * (j - im.bounds.minY) + 3] == Rgb(im.at(x, j))
    decreases y - im.bounds.minY
  {
    ColumnLength(im, x, y - 1);
    if j < y - 1 {
      ColumnAt(im, x, y - 1, j);
    }
  }

  lemma {:induction false} PrefixLength(im: Image, x: int)
    ensures |PrefixSamples(im, x)| == 3 * ((if x > im.bounds.minX then x - im.bounds.minX else 0) * Height(im.bounds))
    decreases x - im.bounds.minX
  {
    if x > im.bounds.minX {
      PrefixLength(im, x - 1);
      ColumnLength(im, x - 1, im.bounds.maxY);
      var w, h := x - 1 - im.bounds.minX, Height(im.bounds);
      assert (w + 1) * h == w * h + h;
    }
  }

  lemma {:induction false} PrefixAt(im: Image, x: int, i: int, j: int)
    requires im.bounds.minX <= i < x && InBounds(im.bounds, i, j)
    ensures 0 <= Offset(im.bounds, i, j) && Offset(im.bounds, i, j) + 3 <= |PrefixSamples(im, x)|
    ensures PrefixSamples(im, x)[Offset(im.bounds, i, j)..Offset(im.bounds, i, j) + 3] == Rgb(im.at(i, j))
    decreases x - im.bounds.minX
  {
    var r, h := im.bounds, Height(im.bounds);
    PrefixLength(im, x - 1);
    ColumnLength(im, x - 1, r.maxY);
    var before := (x - 1 - r.minX) * h;
    var here := (i - r.minX) * h;
    assert |PrefixSamples(im, x - 1)| == 3 * before;
    assert Offset(r, i, j) == 3 * (here + (j - r.minY));
    if i == x - 1 {
      ColumnAt(im, i, r.maxY, j);
      assert here == before;
    } else {
      PrefixAt(im, x - 1, i, j);
      MultiplyMonotonic(i - r.minX + 1, x - 1 - r.minX, h);
      assert (i - r.minX + 1) * h == here + h;
    }
  }

  lemma MultiplyMonotonic(a: nat, b: nat, c: nat)
    requires a <= b
    ensures a * c <= b * c
  {
  }

  /** The sample sequence has three entries per pixel, and is empty when either extent is zero or negative. */
  lemma SamplesLength(im: Image)
    ensures |Samples(im)| == 3 * (Width(im.bounds) * Height(im.bounds))
    ensures Samples(im) == [] <==> Width(im.bounds) == 0 || Height(im.bounds) == 0
  {
    PrefixLength(im, im.bounds.maxX);
  }

  /**
   * Every point inside the bounds is visited exactly once, x outer and y inner:
   * the samples at `Offset(x, y)` are that pixel's red, green and blue.
   */
  lemma SampleAt(im: Image, x: int, y: int)
    requires InBounds(im.bounds, x, y)
    ensures 0 <= Offset(im.bounds, x, y) && Offset(im.bounds, x, y) + 3 <= |Samples(im)|
    ensures Samples(im)[Offset(im.bounds, x, y)..Offset(im.bounds, x, y) + 3] == Rgb(im.at(x, y))
  {
    PrefixAt(im, im.bounds.maxX, x, y);
  }

  lemma {:induction false} SameRgbSameColumn(im1: Image, im2: Image, x: int, y: int)
    requires im1.bounds == im2.bounds
    requires forall j :: im1.bounds.minY <= j < y ==> Rgb(im1.at(x, j)) == Rgb(im2.at(x, j))
    ensures ColumnSamples(im1, x, y) == ColumnSamples(im2, x, y)
    decreases y - im1.bounds.minY
  {
    if y > im1.bounds.minY {
      SameRgbSameColumn(im1, im2, x, y - 1);
    }
  }

  lemma {:induction false} SameRgbSamePrefix(im1: Image, im2: Image, x: int)
    requires im1.bounds == im2.bounds
    requires forall i, j :: InBounds(im1.bounds, i, j) ==> Rgb(im1.at(i, j)) == Rgb(im2.at(i, j))
    requires x <= im1.bounds.maxX
    ensures PrefixSamples(im1, x) == PrefixSamples(im2, x)
    decreases x - im1.bounds.minX
  {
    if x > im1.bounds.minX {
      SameRgbSamePrefix(im1, im2, x - 1);
      SameRgbSameColumn(im1, im2, x - 1, im1.bounds.maxY);
    }
  }

  /**
   * For equal bounds, the sample sequences are equal exactly when the two images
   * agree in red, green and blue at every point; alpha plays no part.
   */
  lemma SamplesEqualIff(im1: Image, im2: Image)
    requires im1.bounds == im2.bounds
    ensures Samples(im1) == Samples(im2)
      <==> forall x, y :: InBounds(im1.bounds, x, y) ==> Rgb(im1.at(x, y)) == Rgb(im2.at(x, y))
  {
    if forall x, y :: InBounds(im1.bounds, x, y) ==> Rgb(im1.at(x, y)) == Rgb(im2.at(x, y)) {
      SameRgbSamePrefix(im1, im2, im1.bounds.maxX);
    }
    if Samples(im1) == Samples(im2) {
      forall x, y | InBounds(im1.bounds, x, y) ensures Rgb(im1.at(x, y)) == Rgb(im2.at(x, y)) {
        SampleAt(im1, x, y);
        SampleAt(im2, x, y);
      }
    }
  }

  // ---- The fingerprint ----

  /** A zero-area image has no samples, so `NewID` takes its random branch. */
  lemma ZeroAreaFingerprint(im: Image, md5: Hash, draw: Draw)
    requires Width(im.bounds) == 0 || Height(im.bounds) == 0
    ensures FingerprintOf(im, md5, draw) == String(Derive([draw.a, draw.b, draw.c], md5))
  {
    SamplesLength(im);
  }

  /** An image with at least one pixel is fingerprinted by hashing alone: the generator plays no part. */
  lemma FingerprintIgnoresDraw(im: Image, md5: Hash, d: Draw, e: Draw)
    requires Width(im.bounds) > 0 && Height(im.bounds) > 0
    ensures FingerprintOf(im, md5, d) == FingerprintOf(im, md5, e)
    ensures FingerprintOf(im, md5, d) == String(Derive(Samples(im), md5))
  {
    SamplesLength(im);
  }

  /** Images with the same bounds and the same red, green and blue everywhere share a fingerprint, whatever their alpha. */
  lemma SameRgbSameFingerprint(im1: Image, im2: Image, md5: Hash, d: Draw, e: Draw)
    requires im1.bounds == im2.bounds
    requires Width(im1.bounds) > 0 && Height(im1.bounds) > 0
    requires forall x, y :: InBounds(im1.bounds, x, y) ==> Rgb(im1.at(x, y)) == Rgb(im2.at(x, y))
    ensures FingerprintOf(im1, md5, d) == FingerprintOf(im2, md5, e)
  {
    SamplesEqualIff(im1, im2);
    FingerprintIgnoresDraw(im1, md5, d, e);
  }

  /**
   * Images with the same bounds that differ in red, green or blue at some point
   * share a fingerprint only through a hash collision: the hash inputs differ,
   * yet the digests agree on every bit the identifier keeps.
   */
  lemma FingerprintCollision(im1: Image, im2: Image, md5: Hash, d: Draw, e: Draw, x: int, y: int)
    requires im1.bounds == im2.bounds && InBounds(im1.bounds, x, y)
    requires Rgb(im1.at(x, y)) != Rgb(im2.at(x, y))
    requires FingerprintOf(im1, md5, d) == FingerprintOf(im2, md5, e)
    ensures Serialised(Samples(im1)) != Serialised(Samples(im2))
    ensures KeptBitsAgree(md5(Serialised(Samples(im1))), md5(Serialised(Samples(im2))))
  {
    SamplesEqualIff(im1, im2);
    SamplesLength(im1);
    SamplesLength(im2);
    NewIdCollision(Samples(im1), Samples(im2), md5, d, e);
  }

  /**
   * The bounds themselves are not hashed: a uniform 1x2 image and a uniform 2x1
   * image of the same colour have the same samples, hence the same fingerprint.
   */
  lemma TransposedImagesCollide(c: Color, md5: Hash, draw: Draw)
    ensures var tall := Image(Rect(0, 0, 1, 2), (x, y) => c);
      var wide := Image(Rect(0, 0, 2, 1), (x, y) => c);
      Width(tall.bounds) != Width(wide.bounds)
      && FingerprintOf(tall, md5, draw) == FingerprintOf(wide, md5, draw)
  {
    var tall := Image(Rect(0, 0, 1, 2), (x, y) => c);
    var wide := Image(Rect(0, 0, 2, 1), (x, y) => c);
    assert Samples(tall) == Rgb(c) + Rgb(c);
    assert Samples(wide) == Rgb(c) + Rgb(c);
  }
}
