/**
 * The XOR mask that process_image applies to a decoded RGB image: every
 * channel of every pixel is replaced by its exclusive or with the key.
 * The decoded image is a width-by-height buffer indexed [x, y], as PIL's
 * pixel access object is.
 */
module PixelCodec {
  import opened Bitwise

  /** An 8-bit channel value; a validated key has the same range. */
  type Byte = x: int | 0 <= x < 256

  datatype Pixel = Pixel(r: Byte, g: Byte, b: Byte)

  /** One channel masked with the key; the mask keeps it an 8-bit value, and changes it unless the key is 0. */
  function XorChannel(c: Byte, key: Byte): (masked: Byte)
    ensures masked == c <==> key == 0
  {
    XorByte(c, key);
    XorInjectiveInKey(c, key, 0);
    Xor(c, key)
  }

  /** A pixel with each of its three channels masked; every channel changes unless the key is 0. */
  function XorPixel(p: Pixel, key: Byte): (q: Pixel)
    ensures q == p <==> key == 0
    ensures key != 0 <==> q.r != p.r && q.g != p.g && q.b != p.b
  {
    Pixel(XorChannel(p.r, key), XorChannel(p.g, key), XorChannel(p.b, key))
  }

  /** The transform applied to one pixel, (128, 64, 32) masked with key 5. */
  lemma MaskExample()
    ensures XorPixel(Pixel(128, 64, 32), 5) == Pixel(133, 69, 37)
  {
    // Each step halves both operands: 128 ^ 5 = 2 * (64 ^ 2) + 1, and so on.
    assert Xor(32, 1) == 33 && Xor(64, 2) == 66 && Xor(128, 5) == 133;
    assert Xor(16, 1) == 17 && Xor(32, 2) == 34 && Xor(64, 5) == 69;
    assert Xor(8, 1) == 9 && Xor(16, 2) == 18 && Xor(32, 5) == 37;
  }

  /** The value view of a buffer: one column per x, each holding the pixels for y = 0 .. height-1. */
  predicate HasDimensions(grid: seq<seq<Pixel>>, width: nat, height: nat)
  {
    |grid| == width && forall x :: 0 <= x < |grid| ==> |grid[x]| == height
  }

  function XorColumn(col: seq<Pixel>, key: Byte): (r: seq<Pixel>)
    ensures |r| == |col|
    ensures forall y :: 0 <= y < |col| ==> r[y] == XorPixel(col[y], key)
  {
    if col == [] then [] else [XorPixel(col[0], key)] + XorColumn(col[1..], key)
  }

  /** The whole transform on the value view: same shape, every pixel masked on its own. */
  function XorGrid(grid: seq<seq<Pixel>>, key: Byte): (r: seq<seq<Pixel>>)
    ensures |r| == |grid|
    ensures forall x :: 0 <= x < |grid| ==> |r[x]| == |grid[x]|
    ensures forall x, y :: 0 <= x < |grid| && 0 <= y < |grid[x]| ==> r[x][y] == XorPixel(grid[x][y], key)
  {
    if grid == [] then [] else [XorColumn(grid[0], key)] + XorGrid(grid[1..], key)
  }

  /** Every channel of a masked pixel is the exclusive or of the old channel and the key. */
  lemma XorPixelChannels(p: Pixel, key: Byte)
    ensures XorPixel(p, key) == Pixel(Xor(p.r, key), Xor(p.g, key), Xor(p.b, key))
  {
  }

  lemma XorPixelInvolution(p: Pixel, key: Byte)
    ensures XorPixel(XorPixel(p, key), key) == p
  {
    XorSelfInverse(p.r, key);
    XorSelfInverse(p.g, key);
    XorSelfInverse(p.b, key);
  }

  /** The transform keeps the width and height of the buffer. */
  lemma XorGridKeepsDimensions(grid: seq<seq<Pixel>>, key: Byte, width: nat, height: nat)
    ensures HasDimensions(XorGrid(grid, key), width, height) <==> HasDimensions(grid, width, height)
  {
  }

  /** Applying the mask twice with the same key restores the buffer exactly. */
  lemma XorGridInvolution(grid: seq<seq<Pixel>>, key: Byte)
    ensures XorGrid(XorGrid(grid, key), key) == grid
  {
    var once := XorGrid(grid, key);
    var twice := XorGrid(once, key);
    forall x | 0 <= x < |grid|
      ensures twice[x] == grid[x]
    {
      forall y | 0 <= y < |grid[x]|
        ensures twice[x][y] == grid[x][y]
      {
        XorPixelInvolution(grid[x][y], key);
      }
    }
  }

  /** Key 0 leaves every pixel unchanged. */
  lemma XorGridKeyZero(grid: seq<seq<Pixel>>)
    ensures XorGrid(grid, 0) == grid
  {
    var r := XorGrid(grid, 0);
    forall x | 0 <= x < |grid|
      ensures r[x] == grid[x]
    {
      forall y | 0 <= y < |grid[x]|
        ensures r[x][y] == grid[x][y]
      {
        var p := grid[x][y];
        XorZero(p.r);
        XorZero(p.g);
        XorZero(p.b);
      }
    }
  }

  /** On a buffer with at least one pixel, two different keys give two different results. */
  lemma XorGridDistinctKeys(grid: seq<seq<Pixel>>, k1: Byte, k2: Byte, x: nat, y: nat)
    requires x < |grid| && y < |grid[x]|
    ensures XorGrid(grid, k1) == XorGrid(grid, k2) <==> k1 == k2
  {
    if XorGrid(grid, k1) == XorGrid(grid, k2) {
      assert XorPixel(grid[x][y], k1) == XorPixel(grid[x][y], k2);
      XorInjectiveInKey(grid[x][y].r, k1, k2);
    }
  }

  /** The abstract value of a pixel buffer. */
  ghost function Grid(a: array2<Pixel>): (grid: seq<seq<Pixel>>)
    reads a
    ensures HasDimensions(grid, a.Length0, a.Length1)
    ensures forall x, y :: 0 <= x < a.Length0 && 0 <= y < a.Length1 ==> grid[x][y] == a[x, y]
  {
    seq(a.Length0, x requires 0 <= x < a.Length0 reads a =>
      seq(a.Length1, y requires 0 <= y < a.Length1 reads a => a[x, y]))
  }

  /**
   * The pixel loop of process_image: visits every (x, y), x outermost, and
   * overwrites the pixel in place with its three channels masked by the key.
   */
  method XorMaskInPlace(pixels: array2<Pixel>, key: Byte)
    modifies pixels
    ensures forall x, y :: 0 <= x < pixels.Length0 && 0 <= y < pixels.Length1 ==>
      pixels[x, y] == XorPixel(old(pixels[x, y]), key)
    ensures Grid(pixels) == XorGrid(old(Grid(pixels)), key)
  {
    ghost var before := Grid(pixels);
    var width, height := pixels.Length0, pixels.Length1;
    for x := 0 to width
      invariant forall i, j :: 0 <= i < x && 0 <= j < height ==>
        pixels[i, j] == XorPixel(old(pixels[i, j]), key)
      invariant forall i, j :: x <= i < width && 0 <= j < height ==>
        pixels[i, j] == old(pixels[i, j])
    {
      for y := 0 to height
        invariant forall i, j :: 0 <= i < x && 0 <= j < height ==>
          pixels[i, j] == XorPixel(old(pixels[i, j]), key)
        invariant forall j :: 0 <= j < y ==> pixels[x, j] == XorPixel(old(pixels[x, j]), key)
        invariant forall i, j :: (x < i < width && 0 <= j < height) || (i == x && y <= j < height) ==>
          pixels[i, j] == old(pixels[i, j])
      {
        var p := pixels[x, y];
        pixels[x, y] := Pixel(XorChannel(p.r, key), XorChannel(p.g, key), XorChannel(p.b, key));
      }
    }
    ghost var after := Grid(pixels);
    ghost var expected := XorGrid(before, key);
    forall x | 0 <= x < width
      ensures after[x] == expected[x]
    {
      assert |after[x]| == |expected[x]| == height;
      forall y | 0 <= y < height
        ensures after[x][y] == expected[x][y]
      {
      }
    }
  }

  /** Encrypting and then decrypting with the same key is the same call made twice, and restores the buffer. */
  method EncryptThenDecrypt(pixels: array2<Pixel>, key: Byte)
    modifies pixels
    ensures Grid(pixels) == old(Grid(pixels))
  {
    ghost var original := Grid(pixels);
    XorMaskInPlace(pixels, key);
    XorMaskInPlace(pixels, key);
    XorGridInvolution(original, key);
  }
}
