/**
 * The rendering of the simulation into an image buffer: every particle
 * sets one pixel, every cell stamps its centre at full colour and blends
 * its four neighbours with a translucent copy of that colour.
 *
 * Pixels are Qt `QRgb` words, `0xAARRGGBB`.  The image holds them in a
 * two-dimensional array indexed by column `x` and row `y`; reading outside
 * the image yields QImage's fixed out-of-range value 12345, and writing
 * outside it changes nothing, so that value never reaches the image.
 * Positions are wrapped onto the torus by the universe correction
 * of UnitGrid.
 */
module ImageRender {
  import opened UnitGrid

  /** A 32-bit pixel word. */
  type QRgb = c: int | 0 <= c < 0x1_0000_0000

  /** `qRed`, `qGreen`, `qBlue`: the channel bytes of a pixel. */
  function Red(c: QRgb): int { (c / 0x1_0000) % 0x100 }
  function Green(c: QRgb): int { (c / 0x100) % 0x100 }
  function Blue(c: QRgb): int { c % 0x100 }

  /** `c | 0xff000000`: the pixel with its alpha byte set. */
  function Opaque(c: QRgb): QRgb { 0xff00_0000 + c % 0x100_0000 }

  /**
   * `qRgb(r, g, b)`: an opaque pixel from the low bytes of the three
   * channels (`& 0xff` on a two's complement `int` is the remainder modulo
   * 256 that is never negative).
   */
  function Pack(r: int, g: int, b: int): QRgb
  {
    0xff00_0000 + (r % 256) * 0x1_0000 + (g % 256) * 0x100 + b % 256
  }

  /** Unpacking a packed pixel gives back the low byte of each channel, and the pixel is opaque. */
  lemma PackRoundTrip(r: int, g: int, b: int)
    ensures Red(Pack(r, g, b)) == r % 256
    ensures Green(Pack(r, g, b)) == g % 256
    ensures Blue(Pack(r, g, b)) == b % 256
    ensures Opaque(Pack(r, g, b)) == Pack(r, g, b)
  {
    var r8, g8, b8 := r % 256, g % 256, b % 256;
    var c := Pack(r, g, b);
    DivModUnique(c, 0x1_0000, 0xff00 + r8, g8 * 0x100 + b8);
    DivModUnique(0xff00 + r8, 256, 0xff, r8);
    DivModUnique(c, 0x100, 0xff_0000 + r8 * 0x100 + g8, b8);
    DivModUnique(0xff_0000 + r8 * 0x100 + g8, 256, 0xff00 + r8, g8);
    DivModUnique(c, 0x100_0000, 0xff, r8 * 0x1_0000 + g8 * 0x100 + b8);
  }

  /** Packing the channels of a pixel gives the pixel back, made opaque. */
  lemma UnpackRoundTrip(c: QRgb)
    ensures Pack(Red(c), Green(c), Blue(c)) == Opaque(c)
  {
    var q1, b8 := c / 256, c % 256;
    var q2, g8 := q1 / 256, q1 % 256;
    var q3, r8 := q2 / 256, q2 % 256;
    assert c == q2 * 0x1_0000 + (g8 * 256 + b8);
    assert c == q3 * 0x100_0000 + (r8 * 0x1_0000 + g8 * 256 + b8);
    DivModUnique(c, 0x1_0000, q2, g8 * 256 + b8);
    DivModUnique(c, 0x100_0000, q3, r8 * 0x1_0000 + g8 * 0x100 + b8);
    DivModUnique(r8, 256, 0, r8);
    DivModUnique(g8, 256, 0, g8);
    DivModUnique(b8, 256, 0, b8);
  }

  /** The C++ `/` on `int`: division truncated toward zero. */
  function TDiv(a: int, n: int): int
    requires n > 0
  {
    if a >= 0 then a / n else -((-a) / n)
  }

  /** One channel of `colorPixel`: `(c * alpha + o * (255 - alpha)) / 255`. */
  function BlendChannel(c: int, o: int, alpha: int): int
  {
    TDiv(c * alpha + o * (255 - alpha), 255)
  }

  /** The pixel `colorPixel` writes over `orig` when painting `color` at opacity `alpha`. */
  function Blend(color: QRgb, orig: QRgb, alpha: int): QRgb
  {
    Pack(BlendChannel(Red(color), Red(orig), alpha),
         BlendChannel(Green(color), Green(orig), alpha),
         BlendChannel(Blue(color), Blue(orig), alpha))
  }

  lemma MultiplyBelow(lo: int, c: int, a: int)
    requires lo <= c && a >= 0
    ensures lo * a <= c * a
  {
    assert c * a - lo * a == (c - lo) * a;
  }

  /**
   * For an opacity in [0, 255] a blended channel lies between the two
   * channels it blends.
   */
  lemma BlendChannelBetween(c: int, o: int, alpha: int)
    requires 0 <= c && 0 <= o && 0 <= alpha <= 255
    ensures var lo, hi := if c <= o then c else o, if c <= o then o else c;
            lo <= BlendChannel(c, o, alpha) <= hi
  {
    var lo, hi := if c <= o then c else o, if c <= o then o else c;
    MultiplyBelow(lo, c, alpha);
    MultiplyBelow(lo, o, 255 - alpha);
    MultiplyBelow(c, hi, alpha);
    MultiplyBelow(o, hi, 255 - alpha);
    assert lo * alpha + lo * (255 - alpha) == lo * 255;
    assert hi * alpha + hi * (255 - alpha) == hi * 255;
  }

  /** Full opacity paints the colour exactly. */
  lemma BlendChannelOpaque(c: int, o: int)
    requires 0 <= c
    ensures BlendChannel(c, o, 255) == c
  {
  }

  /** Zero opacity keeps the original exactly. */
  lemma BlendChannelTransparent(c: int, o: int)
    requires 0 <= o
    ensures BlendChannel(c, o, 0) == o
  {
  }

  /** For an opacity in [0, 255] each channel of a blended pixel is the blended channel, unclipped. */
  lemma BlendChannels(color: QRgb, orig: QRgb, alpha: int)
    requires 0 <= alpha <= 255
    ensures Red(Blend(color, orig, alpha)) == BlendChannel(Red(color), Red(orig), alpha)
    ensures Green(Blend(color, orig, alpha)) == BlendChannel(Green(color), Green(orig), alpha)
    ensures Blue(Blend(color, orig, alpha)) == BlendChannel(Blue(color), Blue(orig), alpha)
  {
    var rr := BlendChannel(Red(color), Red(orig), alpha);
    var gg := BlendChannel(Green(color), Green(orig), alpha);
    var bb := BlendChannel(Blue(color), Blue(orig), alpha);
    BlendChannelBetween(Red(color), Red(orig), alpha);
    BlendChannelBetween(Green(color), Green(orig), alpha);
    BlendChannelBetween(Blue(color), Blue(orig), alpha);
    PackOfBytes(rr, gg, bb);
  }

  lemma PackOfBytes(r: int, g: int, b: int)
    requires 0 <= r < 256 && 0 <= g < 256 && 0 <= b < 256
    ensures Red(Pack(r, g, b)) == r && Green(Pack(r, g, b)) == g && Blue(Pack(r, g, b)) == b
  {
    PackRoundTrip(r, g, b);
  }

  /** Each channel of a blended pixel lies between the channels of the colour and of the original. */
  lemma BlendBetween(color: QRgb, orig: QRgb, alpha: int)
    requires 0 <= alpha <= 255
    ensures var r := Blend(color, orig, alpha);
            && (Red(color) <= Red(r) <= Red(orig) || Red(orig) <= Red(r) <= Red(color))
            && (Green(color) <= Green(r) <= Green(orig) || Green(orig) <= Green(r) <= Green(color))
            && (Blue(color) <= Blue(r) <= Blue(orig) || Blue(orig) <= Blue(r) <= Blue(color))
  {
    BlendChannels(color, orig, alpha);
    BlendChannelBetween(Red(color), Red(orig), alpha);
    BlendChannelBetween(Green(color), Green(orig), alpha);
    BlendChannelBetween(Blue(color), Blue(orig), alpha);
  }

  /** Blending at full opacity gives the colour, made opaque. */
  lemma BlendOpaque(color: QRgb, orig: QRgb)
    ensures Blend(color, orig, 255) == Opaque(color)
  {
    BlendChannelOpaque(Red(color), Red(orig));
    BlendChannelOpaque(Green(color), Green(orig));
    BlendChannelOpaque(Blue(color), Blue(orig));
    UnpackRoundTrip(color);
  }

  /** Blending at zero opacity gives the original, made opaque. */
  lemma BlendTransparent(color: QRgb, orig: QRgb)
    ensures Blend(color, orig, 0) == Opaque(orig)
  {
    BlendChannelTransparent(Red(color), Red(orig));
    BlendChannelTransparent(Green(color), Green(orig));
    BlendChannelTransparent(Blue(color), Blue(orig));
    UnpackRoundTrip(orig);
  }

  /*
   * Images as values: `img[x][y]` is the pixel in column `x`, row `y`.
   */

  predicate IsGrid(img: seq<seq<QRgb>>, width: nat, height: nat)
  {
    |img| == width && forall x | 0 <= x < width :: |img[x]| == height
  }

  predicate InImage(img: seq<seq<QRgb>>, x: int, y: int)
  {
    0 <= x < |img| && 0 <= y < |img[x]|
  }

  /** What `QImage::pixel` returns for coordinates outside the image. */
  const OutsidePixel: QRgb := 12345

  /** `QImage::pixel`: the stored pixel, `OutsidePixel` outside the image. */
  function PixelAt(img: seq<seq<QRgb>>, x: int, y: int): QRgb
  {
    if InImage(img, x, y) then img[x][y] else OutsidePixel
  }

  /** `QImage::setPixel`: the one pixel replaced, nothing at all outside the image. */
  function WithPixel(img: seq<seq<QRgb>>, x: int, y: int, c: QRgb): (r: seq<seq<QRgb>>)
    ensures |r| == |img| && forall i | 0 <= i < |img| :: |r[i]| == |img[i]|
    ensures forall i, j | InImage(img, i, j) :: PixelAt(r, i, j) == if i == x && j == y then c else PixelAt(img, i, j)
    ensures !InImage(img, x, y) ==> r == img
  {
    if InImage(img, x, y) then
      var row: seq<QRgb> := img[x][y := c];
      img[x := row]
    else img
  }

  /** The image `colorPixel` leaves behind: only the pixel at `pos` changes, to the blend over its old value. */
  function ColorPixelSpec(img: seq<seq<QRgb>>, pos: IntVector2D, color: QRgb, alpha: int): (r: seq<seq<QRgb>>)
    ensures |r| == |img| && forall i | 0 <= i < |img| :: |r[i]| == |img[i]|
    ensures forall x, y | InImage(img, x, y) :: PixelAt(r, x, y) ==
              if x == pos.x && y == pos.y then Blend(color, PixelAt(img, x, y), alpha) else PixelAt(img, x, y)
  {
    WithPixel(img, pos.x, pos.y, Blend(color, PixelAt(img, pos.x, pos.y), alpha))
  }

  /** The opacity of the four neighbours of a stamped cell. */
  const NeighbourAlpha: int := 0x60

  /** The image after blending `color` at opacity `alpha` into each position of `path` in turn. */
  function BlendAlong(img: seq<seq<QRgb>>, path: seq<IntVector2D>, color: QRgb, alpha: int): seq<seq<QRgb>>
    decreases |path|
  {
    if path == [] then img else BlendAlong(ColorPixelSpec(img, path[0], color, alpha), path[1..], color, alpha)
  }

  /**
   * The positions the stamp blends after painting the centre `c`: `x` one
   * down, then two up, then back to the centre with `y` one down, then two up,
   * each corrected onto the torus.
   */
  function StampPath(c: IntVector2D, universeSize: IntVector2D): seq<IntVector2D>
    requires universeSize.x > 0 && universeSize.y > 0
  {
    var p1 := CorrectUniversePosition(IntVector2D(c.x - 1, c.y), universeSize);
    var p2 := CorrectUniversePosition(IntVector2D(p1.x + 2, p1.y), universeSize);
    var p3 := CorrectUniversePosition(IntVector2D(p2.x - 1, p2.y - 1), universeSize);
    var p4 := CorrectUniversePosition(IntVector2D(p3.x, p3.y + 2), universeSize);
    [p1, p2, p3, p4]
  }

  /** The image after one cell is stamped at `pos`, as `createImageFromGpuModel` does it. */
  function StampSpec(img: seq<seq<QRgb>>, pos: IntVector2D, color: QRgb, universeSize: IntVector2D): seq<seq<QRgb>>
    requires universeSize.x > 0 && universeSize.y > 0
  {
    var c := CorrectUniversePosition(pos, universeSize);
    BlendAlong(WithPixel(img, c.x, c.y, color), StampPath(c, universeSize), color, NeighbourAlpha)
  }

  /** The four neighbours of a cell at `c` on the torus: left, right, above, below. */
  function Neighbours(c: IntVector2D, universeSize: IntVector2D): seq<IntVector2D>
    requires universeSize.x > 0 && universeSize.y > 0
  {
    [IntVector2D((c.x - 1) % universeSize.x, c.y), IntVector2D((c.x + 1) % universeSize.x, c.y),
     IntVector2D(c.x, (c.y - 1) % universeSize.y), IntVector2D(c.x, (c.y + 1) % universeSize.y)]
  }

  /** The stamp visits the four neighbours of a corrected position, `x` being restored before `y` moves. */
  lemma StampPathIsNeighbours(c: IntVector2D, universeSize: IntVector2D)
    requires universeSize.x > 0 && universeSize.y > 0
    requires 0 <= c.x < universeSize.x && 0 <= c.y < universeSize.y
    ensures StampPath(c, universeSize) == Neighbours(c, universeSize)
  {
    var u := universeSize;
    var p1 := CorrectUniversePosition(IntVector2D(c.x - 1, c.y), u);
    WrapIsEuclideanRemainder(c.x - 1, u.x);
    WrapIsEuclideanRemainder(c.y, u.y);
    DivModUnique(c.y, u.y, 0, c.y);
    DivModUnique(c.x, u.x, 0, c.x);
    assert p1 == IntVector2D((c.x - 1) % u.x, c.y);
    var p2 := CorrectUniversePosition(IntVector2D(p1.x + 2, p1.y), u);
    WrapIsEuclideanRemainder(p1.x + 2, u.x);
    RemainderOfSum(c.x - 1, 2, u.x);
    assert p2 == IntVector2D((c.x + 1) % u.x, c.y);
    var p3 := CorrectUniversePosition(IntVector2D(p2.x - 1, p2.y - 1), u);
    WrapIsEuclideanRemainder(p2.x - 1, u.x);
    RemainderOfSum(c.x + 1, -1, u.x);
    WrapIsEuclideanRemainder(c.y - 1, u.y);
    assert p3 == IntVector2D(c.x, (c.y - 1) % u.y);
    var p4 := CorrectUniversePosition(IntVector2D(p3.x, p3.y + 2), u);
    WrapIsEuclideanRemainder(c.x, u.x);
    WrapIsEuclideanRemainder(p3.y + 2, u.y);
    RemainderOfSum(c.y - 1, 2, u.y);
    assert p4 == IntVector2D(c.x, (c.y + 1) % u.y);
  }

  /** Blending along distinct positions blends each of them once over its old value and touches nothing else. */
  lemma {:induction false} BlendAlongEffect(img: seq<seq<QRgb>>, path: seq<IntVector2D>, color: QRgb, alpha: int, x: int, y: int)
    requires InImage(img, x, y)
    requires forall i, j | 0 <= i < j < |path| :: path[i] != path[j]
    ensures PixelAt(BlendAlong(img, path, color, alpha), x, y) ==
            if IntVector2D(x, y) in path then Blend(color, PixelAt(img, x, y), alpha) else PixelAt(img, x, y)
    decreases |path|
  {
    if path != [] {
      var next := ColorPixelSpec(img, path[0], color, alpha);
      assert forall i, j | 0 <= i < j < |path[1..]| :: path[1..][i] != path[1..][j] by {
        forall i, j | 0 <= i < j < |path[1..]| ensures path[1..][i] != path[1..][j] {
          assert path[1..][i] == path[i + 1] && path[1..][j] == path[j + 1];
        }
      }
      BlendAlongEffect(next, path[1..], color, alpha, x, y);
      if IntVector2D(x, y) == path[0] {
        assert IntVector2D(x, y) !in path[1..] by {
          forall i | 0 <= i < |path[1..]| ensures path[1..][i] != path[0] {
            assert path[1..][i] == path[i + 1];
          }
        }
      } else {
        assert IntVector2D(x, y) in path <==> IntVector2D(x, y) in path[1..] by {
          assert path == [path[0]] + path[1..];
        }
      }
    }
  }

  /** On a universe of at least three positions per axis, a cell's neighbours are four distinct positions other than the cell. */
  lemma NeighboursAreDistinct(c: IntVector2D, universeSize: IntVector2D)
    requires universeSize.x >= 3 && universeSize.y >= 3
    requires 0 <= c.x < universeSize.x && 0 <= c.y < universeSize.y
    ensures var n := Neighbours(c, universeSize);
            c !in n && forall i, j | 0 <= i < j < |n| :: n[i] != n[j]
  {
    NeighboursDistinct(c.x, universeSize.x);
    NeighboursDistinct(c.y, universeSize.y);
  }

  /**
   * On a universe of at least three positions per axis, stamping a cell
   * paints its centre in the full colour, blends each of its four
   * neighbours at opacity 0x60 over what was there, and leaves every other
   * pixel alone.
   */
  lemma StampEffect(img: seq<seq<QRgb>>, pos: IntVector2D, color: QRgb, universeSize: IntVector2D, x: int, y: int)
    requires universeSize.x >= 3 && universeSize.y >= 3
    requires IsGrid(img, universeSize.x, universeSize.y) && InImage(img, x, y)
    ensures var c := CorrectUniversePosition(pos, universeSize);
            PixelAt(StampSpec(img, pos, color, universeSize), x, y) ==
              if x == c.x && y == c.y then color
              else if IntVector2D(x, y) in Neighbours(c, universeSize) then Blend(color, PixelAt(img, x, y), NeighbourAlpha)
              else PixelAt(img, x, y)
  {
    var c := CorrectUniversePosition(pos, universeSize);
    CorrectedPositionInUniverse(pos, universeSize);
    StampPathIsNeighbours(c, universeSize);
    NeighboursAreDistinct(c, universeSize);
    var painted := WithPixel(img, c.x, c.y, color);
    BlendAlongEffect(painted, Neighbours(c, universeSize), color, NeighbourAlpha, x, y);
  }

  /*
   * The image buffer and the operations that change it in place.
   */

  /** The pixels of the buffer as a value. */
  ghost function Contents(image: array2<QRgb>): (r: seq<seq<QRgb>>)
    reads image
    ensures IsGrid(r, image.Length0, image.Length1)
    ensures forall x, y | 0 <= x < image.Length0 && 0 <= y < image.Length1 :: r[x][y] == image[x, y]
  {
    seq(image.Length0, x requires 0 <= x < image.Length0 reads image =>
      seq(image.Length1, y requires 0 <= y < image.Length1 reads image => image[x, y]))
  }

  /** Two grids of the same shape holding the same pixels are the same grid. */
  lemma GridExtensionality(a: seq<seq<QRgb>>, b: seq<seq<QRgb>>, width: nat, height: nat)
    requires IsGrid(a, width, height) && IsGrid(b, width, height)
    requires forall x, y | 0 <= x < width && 0 <= y < height :: a[x][y] == b[x][y]
    ensures a == b
  {
    forall x | 0 <= x < width ensures a[x] == b[x] {
      assert forall y | 0 <= y < height :: a[x][y] == b[x][y];
    }
  }

  /** `QImage::pixel`. */
  method ReadPixel(image: array2<QRgb>, x: int, y: int) returns (c: QRgb)
    ensures c == PixelAt(Contents(image), x, y)
  {
    if 0 <= x < image.Length0 && 0 <= y < image.Length1 {
      c := image[x, y];
    } else {
      c := OutsidePixel;
    }
  }

  /** `QImage::setPixel`. */
  method SetPixel(image: array2<QRgb>, x: int, y: int, c: QRgb)
    modifies image
    ensures Contents(image) == WithPixel(old(Contents(image)), x, y, c)
  {
    ghost var before := Contents(image);
    if 0 <= x < image.Length0 && 0 <= y < image.Length1 {
      image[x, y] := c;
    }
    GridExtensionality(Contents(image), WithPixel(before, x, y, c), image.Length0, image.Length1);
  }

  /** An image of the given shape with every pixel `c`. */
  function Filled(width: nat, height: nat, c: QRgb): (r: seq<seq<QRgb>>)
    ensures IsGrid(r, width, height)
    ensures forall x, y | 0 <= x < width && 0 <= y < height :: r[x][y] == c
  {
    seq(width, x => seq(height, y => c))
  }

  /** `QImage::fill`. */
  method Fill(image: array2<QRgb>, c: QRgb)
    modifies image
    ensures Contents(image) == Filled(image.Length0, image.Length1, c)
  {
    forall x, y | 0 <= x < image.Length0 && 0 <= y < image.Length1 {
      image[x, y] := c;
    }
    GridExtensionality(Contents(image), Filled(image.Length0, image.Length1, c), image.Length0, image.Length1);
  }

  /** `colorPixel`: blends `color` at opacity `alpha` into the pixel at `pos`. */
  method ColorPixel(image: array2<QRgb>, pos: IntVector2D, color: QRgb, alpha: int)
    modifies image
    ensures Contents(image) == ColorPixelSpec(old(Contents(image)), pos, color, alpha)
  {
    ghost var before := Contents(image);
    var origColor := ReadPixel(image, pos.x, pos.y);
    var red := TDiv(Red(color) * alpha + Red(origColor) * (255 - alpha), 255);
    var green := TDiv(Green(color) * alpha + Green(origColor) * (255 - alpha), 255);
    var blue := TDiv(Blue(color) * alpha + Blue(origColor) * (255 - alpha), 255);
    assert Pack(red, green, blue) == Blend(color, PixelAt(before, pos.x, pos.y), alpha);
    SetPixel(image, pos.x, pos.y, Pack(red, green, blue));
  }

  /** The stamp of one cell in `createImageFromGpuModel`. */
  method StampCell(image: array2<QRgb>, pos: IntVector2D, color: QRgb, universeSize: IntVector2D)
    requires universeSize.x > 0 && universeSize.y > 0
    modifies image
    ensures Contents(image) == StampSpec(old(Contents(image)), pos, color, universeSize)
  {
    var intPos := CorrectUniversePosition(pos, universeSize);
    ghost var centre := intPos;
    SetPixel(image, intPos.x, intPos.y, color);
    ghost var painted := Contents(image);
    intPos := IntVector2D(intPos.x - 1, intPos.y);
    intPos := CorrectUniversePosition(intPos, universeSize);
    ghost var p1 := intPos;
    ColorPixel(image, intPos, color, NeighbourAlpha);
    intPos := IntVector2D(intPos.x + 2, intPos.y);
    intPos := CorrectUniversePosition(intPos, universeSize);
    ghost var p2 := intPos;
    ColorPixel(image, intPos, color, NeighbourAlpha);
    intPos := IntVector2D(intPos.x - 1, intPos.y);
    intPos := IntVector2D(intPos.x, intPos.y - 1);
    intPos := CorrectUniversePosition(intPos, universeSize);
    ghost var p3 := intPos;
    ColorPixel(image, intPos, color, NeighbourAlpha);
    intPos := IntVector2D(intPos.x, intPos.y + 2);
    intPos := CorrectUniversePosition(intPos, universeSize);
    ColorPixel(image, intPos, color, NeighbourAlpha);
    StampPathSteps(centre, universeSize, p1, p2, p3, intPos);
    BlendAlongFour(painted, [p1, p2, p3, intPos], color, NeighbourAlpha);
  }

  lemma StampPathSteps(c: IntVector2D, universeSize: IntVector2D, p1: IntVector2D, p2: IntVector2D, p3: IntVector2D, p4: IntVector2D)
    requires universeSize.x > 0 && universeSize.y > 0
    requires p1 == CorrectUniversePosition(IntVector2D(c.x - 1, c.y), universeSize)
    requires p2 == CorrectUniversePosition(IntVector2D(p1.x + 2, p1.y), universeSize)
    requires p3 == CorrectUniversePosition(IntVector2D(p2.x - 1, p2.y - 1), universeSize)
    requires p4 == CorrectUniversePosition(IntVector2D(p3.x, p3.y + 2), universeSize)
    ensures StampPath(c, universeSize) == [p1, p2, p3, p4]
  {
  }

  lemma BlendAlongFour(img: seq<seq<QRgb>>, path: seq<IntVector2D>, color: QRgb, alpha: int)
    requires |path| == 4
    ensures BlendAlong(img, path, color, alpha) ==
            ColorPixelSpec(ColorPixelSpec(ColorPixelSpec(ColorPixelSpec(img, path[0], color, alpha),
              path[1], color, alpha), path[2], color, alpha), path[3], color, alpha)
  {
    var i1 := ColorPixelSpec(img, path[0], color, alpha);
    var i2 := ColorPixelSpec(i1, path[1], color, alpha);
    var i3 := ColorPixelSpec(i2, path[2], color, alpha);
    var i4 := ColorPixelSpec(i3, path[3], color, alpha);
    var p1 := path[1..];
    var p2 := p1[1..];
    var p3 := p2[1..];
    assert p1[0] == path[1] && p2[0] == path[2] && p3[0] == path[3] && p3[1..] == [];
    assert BlendAlong(i3, p3, color, alpha) == i4;
    assert BlendAlong(i2, p2, color, alpha) == i4;
    assert BlendAlong(i1, p1, color, alpha) == i4;
  }

  /*
   * The whole picture: background, then particles, then cells.
   */

  /**
   * A particle or cell as the picture sees it: its position truncated to
   * whole pixels, and the colour the entity renderer gives it.
   */
  datatype Dot = Dot(pos: IntVector2D, color: QRgb)

  /** `QColor(0x00, 0x00, 0x1b)` as an opaque pixel word. */
  const Background: QRgb := 0xff00_001b

  /** The image after each particle has set the pixel at its corrected position, in order. */
  function DrawParticles(img: seq<seq<QRgb>>, particles: seq<Dot>, universeSize: IntVector2D): seq<seq<QRgb>>
    requires universeSize.x > 0 && universeSize.y > 0
  {
    if particles == [] then img
    else
      var last := particles[|particles| - 1];
      var c := CorrectUniversePosition(last.pos, universeSize);
      WithPixel(DrawParticles(img, particles[..|particles| - 1], universeSize), c.x, c.y, last.color)
  }

  /** The image after each cell has been stamped, in order. */
  function StampCells(img: seq<seq<QRgb>>, cells: seq<Dot>, universeSize: IntVector2D): seq<seq<QRgb>>
    requires universeSize.x > 0 && universeSize.y > 0
  {
    if cells == [] then img
    else
      var last := cells[|cells| - 1];
      StampSpec(StampCells(img, cells[..|cells| - 1], universeSize), last.pos, last.color, universeSize)
  }

  /** The picture `createImageFromGpuModel` draws into an image of the given shape. */
  function Rendered(width: nat, height: nat, particles: seq<Dot>, cells: seq<Dot>, universeSize: IntVector2D): seq<seq<QRgb>>
    requires universeSize.x > 0 && universeSize.y > 0
  {
    StampCells(DrawParticles(Filled(width, height, Background), particles, universeSize), cells, universeSize)
  }

  /** The particle loop of `createImageFromGpuModel`: each particle sets the pixel at its corrected position. */
  method DrawParticlesInto(image: array2<QRgb>, particles: seq<Dot>, universeSize: IntVector2D)
    requires universeSize.x > 0 && universeSize.y > 0
    modifies image
    ensures Contents(image) == DrawParticles(old(Contents(image)), particles, universeSize)
  {
    ghost var background := Contents(image);
    for i := 0 to |particles|
      invariant Contents(image) == DrawParticles(background, particles[..i], universeSize)
    {
      var intPos := CorrectUniversePosition(particles[i].pos, universeSize);
      SetPixel(image, intPos.x, intPos.y, particles[i].color);
      assert particles[..i + 1][..i] == particles[..i];
    }
    assert particles[..|particles|] == particles;
  }

  /** The cell loop of `createImageFromGpuModel`: each cell is stamped in turn. */
  method StampCellsInto(image: array2<QRgb>, cells: seq<Dot>, universeSize: IntVector2D)
    requires universeSize.x > 0 && universeSize.y > 0
    modifies image
    ensures Contents(image) == StampCells(old(Contents(image)), cells, universeSize)
  {
    ghost var drawn := Contents(image);
    for i := 0 to |cells|
      invariant Contents(image) == StampCells(drawn, cells[..i], universeSize)
    {
      StampCell(image, cells[i].pos, cells[i].color, universeSize);
      assert cells[..i + 1][..i] == cells[..i];
    }
    assert cells[..|cells|] == cells;
  }

  /** `createImageFromGpuModel`, with the particles and cells read from the simulation passed in. */
  method CreateImage(image: array2<QRgb>, particles: seq<Dot>, cells: seq<Dot>, universeSize: IntVector2D)
    requires universeSize.x > 0 && universeSize.y > 0
    modifies image
    ensures Contents(image) == Rendered(image.Length0, image.Length1, particles, cells, universeSize)
  {
    Fill(image, Background);
    DrawParticlesInto(image, particles, universeSize);
    StampCellsInto(image, cells, universeSize);
  }

  /** Neither kind of drawing changes the shape of the image. */
  lemma {:induction false} DrawingKeepsShape(img: seq<seq<QRgb>>, particles: seq<Dot>, cells: seq<Dot>, universeSize: IntVector2D, width: nat, height: nat)
    requires universeSize.x > 0 && universeSize.y > 0
    requires IsGrid(img, width, height)
    ensures IsGrid(DrawParticles(img, particles, universeSize), width, height)
    ensures IsGrid(StampCells(img, cells, universeSize), width, height)
    decreases |particles| + |cells|
  {
    if particles != [] {
      DrawingKeepsShape(img, particles[..|particles| - 1], [], universeSize, width, height);
    }
    if cells != [] {
      DrawingKeepsShape(img, [], cells[..|cells| - 1], universeSize, width, height);
      var last := cells[|cells| - 1];
      var before := StampCells(img, cells[..|cells| - 1], universeSize);
      var c := CorrectUniversePosition(last.pos, universeSize);
      BlendAlongKeepsShape(WithPixel(before, c.x, c.y, last.color), StampPath(c, universeSize), last.color, NeighbourAlpha, width, height);
    }
  }

  lemma {:induction false} BlendAlongKeepsShape(img: seq<seq<QRgb>>, path: seq<IntVector2D>, color: QRgb, alpha: int, width: nat, height: nat)
    requires IsGrid(img, width, height)
    ensures IsGrid(BlendAlong(img, path, color, alpha), width, height)
    decreases |path|
  {
    if path != [] {
      BlendAlongKeepsShape(ColorPixelSpec(img, path[0], color, alpha), path[1..], color, alpha, width, height);
    }
  }

  /** Blending along a path leaves every pixel off the path as it was. */
  lemma {:induction false} BlendAlongUntouched(img: seq<seq<QRgb>>, path: seq<IntVector2D>, color: QRgb, alpha: int, x: int, y: int)
    requires InImage(img, x, y) && IntVector2D(x, y) !in path
    ensures PixelAt(BlendAlong(img, path, color, alpha), x, y) == PixelAt(img, x, y)
    decreases |path|
  {
    if path != [] {
      assert path == [path[0]] + path[1..];
      BlendAlongUntouched(ColorPixelSpec(img, path[0], color, alpha), path[1..], color, alpha, x, y);
    }
  }

  /** The pixels a cell's stamp covers: its corrected position and the four neighbours of it. */
  predicate StampCovers(cell: Dot, universeSize: IntVector2D, q: IntVector2D)
    requires universeSize.x > 0 && universeSize.y > 0
  {
    var c := CorrectUniversePosition(cell.pos, universeSize);
    q == c || q in Neighbours(c, universeSize)
  }

  /** A stamp leaves every pixel outside what it covers as it was. */
  lemma StampUntouched(img: seq<seq<QRgb>>, cell: Dot, universeSize: IntVector2D, x: int, y: int)
    requires universeSize.x > 0 && universeSize.y > 0
    requires InImage(img, x, y) && !StampCovers(cell, universeSize, IntVector2D(x, y))
    ensures PixelAt(StampSpec(img, cell.pos, cell.color, universeSize), x, y) == PixelAt(img, x, y)
  {
    var c := CorrectUniversePosition(cell.pos, universeSize);
    CorrectedPositionInUniverse(cell.pos, universeSize);
    StampPathIsNeighbours(c, universeSize);
    BlendAlongUntouched(WithPixel(img, c.x, c.y, cell.color), StampPath(c, universeSize), cell.color, NeighbourAlpha, x, y);
  }

  /**
   * A pixel that no particle lands on and no cell's stamp covers keeps the
   * background colour.
   */
  lemma {:induction false} UncoveredPixelKeepsBackground(width: nat, height: nat, particles: seq<Dot>, cells: seq<Dot>,
                                                        universeSize: IntVector2D, x: int, y: int)
    requires universeSize.x > 0 && universeSize.y > 0
    requires 0 <= x < width && 0 <= y < height
    requires forall p | p in particles :: CorrectUniversePosition(p.pos, universeSize) != IntVector2D(x, y)
    requires forall cell | cell in cells :: !StampCovers(cell, universeSize, IntVector2D(x, y))
    ensures PixelAt(Rendered(width, height, particles, cells, universeSize), x, y) == Background
    decreases |particles| + |cells|
  {
    var background := Filled(width, height, Background);
    DrawingKeepsShape(background, particles, [], universeSize, width, height);
    DrawingKeepsShape(DrawParticles(background, particles, universeSize), [], cells, universeSize, width, height);
    if cells != [] {
      var init := cells[..|cells| - 1];
      assert forall cell | cell in init :: cell in cells;
      UncoveredPixelKeepsBackground(width, height, particles, init, universeSize, x, y);
      var before := StampCells(DrawParticles(background, particles, universeSize), init, universeSize);
      DrawingKeepsShape(DrawParticles(background, particles, universeSize), [], init, universeSize, width, height);
      StampUntouched(before, cells[|cells| - 1], universeSize, x, y);
    } else if particles != [] {
      var init := particles[..|particles| - 1];
      assert forall p | p in init :: p in particles;
      UncoveredPixelKeepsBackground(width, height, init, [], universeSize, x, y);
      DrawingKeepsShape(background, init, [], universeSize, width, height);
    }
  }

  /**
   * On a universe of at least three positions per axis, drawn at its own
   * size, the last cell's colour shows unblended at its corrected position.
   */
  lemma LastCellShowsItsColor(particles: seq<Dot>, cells: seq<Dot>, universeSize: IntVector2D)
    requires universeSize.x >= 3 && universeSize.y >= 3 && cells != []
    ensures var last := cells[|cells| - 1];
            var c := CorrectUniversePosition(last.pos, universeSize);
            PixelAt(Rendered(universeSize.x, universeSize.y, particles, cells, universeSize), c.x, c.y) == last.color
  {
    var last := cells[|cells| - 1];
    var c := CorrectUniversePosition(last.pos, universeSize);
    var drawn := DrawParticles(Filled(universeSize.x, universeSize.y, Background), particles, universeSize);
    DrawingKeepsShape(Filled(universeSize.x, universeSize.y, Background), particles, [], universeSize, universeSize.x, universeSize.y);
    DrawingKeepsShape(drawn, [], cells[..|cells| - 1], universeSize, universeSize.x, universeSize.y);
    CorrectedPositionInUniverse(last.pos, universeSize);
    StampEffect(StampCells(drawn, cells[..|cells| - 1], universeSize), last.pos, last.color, universeSize, c.x, c.y);
  }
}
