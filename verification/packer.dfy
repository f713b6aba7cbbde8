/**
  The framebuffer packer of the 2.9-inch driver: it turns a rendered image into
  the panel's packed 1-bit-per-pixel RAM layout (bit set = white, MSB first).
  The two nested pixel loops of the source are flattened into one visiting
  index `p = y * imageWidth + x`, which keeps their row-major order.
 */
module Packer {
  import opened Geometry
  import opened Bits

  /** A rendered image. `zero[y][x]` holds when the pixel at column x, row y has
      packed RGBA value 0, which is the test both branches of the packer make. */
  datatype Image = Image(width: nat, height: nat, zero: seq<seq<bool>>) {
    predicate Valid() {
      |zero| == height && forall y :: 0 <= y < |zero| ==> |zero[y]| == width
    }
  }

  /** Which branch of the packer an image takes, decided by its size alone. */
  datatype Layout = Landscape | Portrait | Unsupported

  function LayoutOf(img: Image): Layout {
    if img.width == Width && img.height == Height then Landscape
    else if img.width == Height && img.height == Width then Portrait
    else Unsupported
  }

  /** A framebuffer of every bit set: all white. */
  function Blank(): seq<bv8> {
    seq(BufferSize, _ => 0xFF)
  }

  /** Byte index and bit number (0 = MSB) the packer touches for visiting index p. */
  function Target(l: Layout, p: nat): (t: (int, int))
    requires l != Unsupported && p < PixelCount
    ensures 0 <= t.0 < BufferSize && 0 <= t.1 < 8
  {
    if l == Landscape then
      var x, y := p % Width, p / Width;
      ((x + y * Width) / 8, x % 8)
    else
      var x, y := p % Height, p / Height;
      var newx, newy := y, Height - x - 1;
      ((newx + newy * Width) / 8, y % 8)
  }

  /** The visiting index whose pixel lands on bit k of byte i: the inverse of Target. */
  function Source(l: Layout, i: nat, k: nat): nat
    requires l != Unsupported && i < BufferSize && k < 8
  {
    if l == Landscape then 8 * i + k
    else (i % BytesPerRow * 8 + k) * Height + (Height - 1 - i / BytesPerRow)
  }

  /** The pixel (column, row) the packer reads at visiting index p. */
  function Coord(l: Layout, p: nat): (c: (nat, nat))
    requires l != Unsupported && p < PixelCount
    ensures l == Landscape ==> c.0 < Width && c.1 < Height
    ensures l == Portrait ==> c.0 < Height && c.1 < Width
  {
    if l == Landscape then (p % Width, p / Width) else (p % Height, p / Height)
  }

  /** Whether the packer clears the target bit at visiting index p: the landscape
      branch clears for a zero pixel, the portrait branch for a non-zero one. */
  predicate Clears(img: Image, p: nat)
    requires img.Valid() && LayoutOf(img) != Unsupported && p < PixelCount
  {
    var (x, y) := Coord(LayoutOf(img), p);
    if LayoutOf(img) == Landscape then img.zero[y][x] else !img.zero[y][x]
  }

  /** The buffer after the first n pixels have been visited. */
  function Fold(img: Image, n: nat): (buf: seq<bv8>)
    requires img.Valid() && LayoutOf(img) != Unsupported && n <= PixelCount
    ensures |buf| == BufferSize
    decreases n
  {
    if n == 0 then Blank()
    else
      var buf := Fold(img, n - 1);
      var (i, k) := Target(LayoutOf(img), n - 1);
      if Clears(img, n - 1) then buf[i := ClearBit(buf[i], k)] else buf
  }

  /** Quotient and remainder by one of the packer's divisors are the unique such pair. */
  lemma DivMod(a: int, d: int, q: int, r: int)
    requires d == 8 || d == 16 || d == 128 || d == 296
    requires 0 <= r < d && a == q * d + r
    ensures a / d == q && a % d == r
  {
    if d == 8 {
      assert a == q * 8 + r;
    } else if d == 16 {
      assert a == q * 16 + r;
    } else if d == 128 {
      assert a == q * 128 + r;
    } else {
      assert a == q * 296 + r;
    }
  }

  lemma TargetSource(l: Layout, i: nat, k: nat)
    requires l != Unsupported && i < BufferSize && k < 8
    ensures Source(l, i, k) < PixelCount
    ensures Target(l, Source(l, i, k)) == (i, k)
    ensures l == Landscape ==> Coord(l, Source(l, i, k)) == (i % BytesPerRow * 8 + k, i / BytesPerRow)
    ensures l == Portrait ==> Coord(l, Source(l, i, k)) == (Height - 1 - i / BytesPerRow, i % BytesPerRow * 8 + k)
  {
    var p := Source(l, i, k);
    if l == Landscape {
      DivMod(p, Width, i / 16, i % 16 * 8 + k);
      DivMod(p, 8, i, k);
      DivMod(i % 16 * 8 + k, 8, i % 16, k);
    } else {
      var c, r := i % BytesPerRow, i / BytesPerRow;
      DivMod(i, BytesPerRow, r, c);
      DivMod(p, Height, c * 8 + k, Height - 1 - r);
      DivMod(c * 8 + k + r * Width, 8, c + 16 * r, k);
      DivMod(c * 8 + k, 8, c, k);
    }
  }

  lemma SourceTarget(l: Layout, p: nat)
    requires l != Unsupported && p < PixelCount
    ensures Source(l, Target(l, p).0, Target(l, p).1) == p
  {
    if l == Landscape {
      var x, y := p % Width, p / Width;
      DivMod(p, Width, y, x);
      DivMod(x, 8, x / 8, x % 8);
      DivMod(p, 8, y * 16 + x / 8, x % 8);
    } else {
      var x, y := p % Height, p / Height;
      DivMod(p, Height, y, x);
      var newy := Height - x - 1;
      DivMod(y + newy * Width, 8, y / 8 + 16 * newy, y % 8);
      DivMod(y / 8 + 16 * newy, BytesPerRow, newy, y / 8);
    }
  }

  /** Bit k of byte i is clear after n visits exactly when its source pixel has
      been visited and is one the branch clears for. */
  lemma {:induction false} FoldBits(img: Image, n: nat)
    requires img.Valid() && LayoutOf(img) != Unsupported && n <= PixelCount
    ensures forall i, k :: 0 <= i < BufferSize && 0 <= k < 8 ==>
      (Lit(Fold(img, n)[i], k) <==> !(Source(LayoutOf(img), i, k) < n && Clears(img, Source(LayoutOf(img), i, k))))
  {
    var l := LayoutOf(img);
    if n == 0 {
      forall i, k | 0 <= i < BufferSize && 0 <= k < 8
        ensures Lit(Fold(img, n)[i], k)
      {
        AllLit(k);
      }
    } else {
      FoldBits(img, n - 1);
      forall i, k | 0 <= i < BufferSize && 0 <= k < 8
        ensures Lit(Fold(img, n)[i], k) <==> !(Source(l, i, k) < n && Clears(img, Source(l, i, k)))
      {
        StepBit(img, n, i, k);
      }
    }
  }

  /** One visit changes at most the one bit its pixel maps to. */
  lemma StepBit(img: Image, n: nat, i: nat, k: nat)
    requires img.Valid() && LayoutOf(img) != Unsupported && 0 < n <= PixelCount
    requires i < BufferSize && k < 8
    requires Lit(Fold(img, n - 1)[i], k) <==>
      !(Source(LayoutOf(img), i, k) < n - 1 && Clears(img, Source(LayoutOf(img), i, k)))
    ensures Lit(Fold(img, n)[i], k) <==>
      !(Source(LayoutOf(img), i, k) < n && Clears(img, Source(LayoutOf(img), i, k)))
  {
    var l, p := LayoutOf(img), n - 1;
    var prev := Fold(img, p);
    var t := Target(l, p);
    SourceIff(l, p, i, k);
    if Clears(img, p) {
      assert Fold(img, n) == prev[t.0 := ClearBit(prev[t.0], t.1)];
      ClearAt(prev, t.0, t.1, i, k);
    } else {
      assert Fold(img, n) == prev;
    }
  }

  /** Visiting index p lands on bit k of byte i exactly when p is that bit's source. */
  lemma SourceIff(l: Layout, p: nat, i: nat, k: nat)
    requires l != Unsupported && p < PixelCount && i < BufferSize && k < 8
    ensures Target(l, p) == (i, k) <==> Source(l, i, k) == p
  {
    TargetSource(l, i, k);
    SourceTarget(l, p);
  }

  /** Clearing bit b of byte a changes that bit and no other bit of the buffer. */
  lemma ClearAt(buf: seq<bv8>, a: int, b: int, i: nat, k: nat)
    requires 0 <= a < |buf| && 0 <= b < 8 && i < |buf| && k < 8
    ensures Lit(buf[a := ClearBit(buf[a], b)][i], k) <==> Lit(buf[i], k) && (i, k) != (a, b)
  {
  }

  /** Getbuffer: pack an image into the panel's RAM layout. */
  function GetBuffer(img: Image): (buf: seq<bv8>)
    requires img.Valid()
    ensures |buf| == BufferSize
    ensures LayoutOf(img) == Unsupported ==> forall i :: 0 <= i < BufferSize ==> buf[i] == 0xFF
    ensures LayoutOf(img) == Landscape ==> forall i, k :: 0 <= i < BufferSize && 0 <= k < 8 ==>
      (Lit(buf[i], k) <==> !img.zero[i / BytesPerRow][i % BytesPerRow * 8 + k])
    ensures LayoutOf(img) == Portrait ==> forall i, k :: 0 <= i < BufferSize && 0 <= k < 8 ==>
      (Lit(buf[i], k) <==> img.zero[i % BytesPerRow * 8 + k][Height - 1 - i / BytesPerRow])
  {
    if LayoutOf(img) == Unsupported then Blank()
    else
      PackedBits(img);
      Fold(img, PixelCount)
  }

  lemma PackedBits(img: Image)
    requires img.Valid() && LayoutOf(img) != Unsupported
    ensures LayoutOf(img) == Landscape ==> forall i, k :: 0 <= i < BufferSize && 0 <= k < 8 ==>
      (Lit(Fold(img, PixelCount)[i], k) <==> !img.zero[i / BytesPerRow][i % BytesPerRow * 8 + k])
    ensures LayoutOf(img) == Portrait ==> forall i, k :: 0 <= i < BufferSize && 0 <= k < 8 ==>
      (Lit(Fold(img, PixelCount)[i], k) <==> img.zero[i % BytesPerRow * 8 + k][Height - 1 - i / BytesPerRow])
  {
    FoldBits(img, PixelCount);
    forall i, k | 0 <= i < BufferSize && 0 <= k < 8 {
      PackedBit(img, i, k);
    }
  }

  lemma PackedBit(img: Image, i: nat, k: nat)
    requires img.Valid() && LayoutOf(img) != Unsupported && i < BufferSize && k < 8
    requires Lit(Fold(img, PixelCount)[i], k) <==>
      !(Source(LayoutOf(img), i, k) < PixelCount && Clears(img, Source(LayoutOf(img), i, k)))
    ensures LayoutOf(img) == Landscape ==>
      (Lit(Fold(img, PixelCount)[i], k) <==> !img.zero[i / BytesPerRow][i % BytesPerRow * 8 + k])
    ensures LayoutOf(img) == Portrait ==>
      (Lit(Fold(img, PixelCount)[i], k) <==> img.zero[i % BytesPerRow * 8 + k][Height - 1 - i / BytesPerRow])
  {
    if LayoutOf(img) == Landscape {
      LandscapeSource(img, i, k);
    } else {
      PortraitSource(img, i, k);
    }
  }

  lemma LandscapeSource(img: Image, i: nat, k: nat)
    requires img.Valid() && LayoutOf(img) == Landscape && i < BufferSize && k < 8
    ensures Source(Landscape, i, k) < PixelCount
    ensures Clears(img, Source(Landscape, i, k)) == img.zero[i / BytesPerRow][i % BytesPerRow * 8 + k]
  {
    TargetSource(Landscape, i, k);
  }

  lemma PortraitSource(img: Image, i: nat, k: nat)
    requires img.Valid() && LayoutOf(img) == Portrait && i < BufferSize && k < 8
    ensures Source(Portrait, i, k) < PixelCount
    ensures Clears(img, Source(Portrait, i, k)) == !img.zero[i % BytesPerRow * 8 + k][Height - 1 - i / BytesPerRow]
  {
    TargetSource(Portrait, i, k);
  }

  /** A zero pixel of a landscape image clears exactly bit `0x80 >> (x % 8)` of
      byte `(x + y * Width) / 8`; any other pixel leaves that bit set. */
  lemma LandscapePixel(img: Image, x: nat, y: nat)
    requires img.Valid() && LayoutOf(img) == Landscape && x < Width && y < Height
    ensures 0 <= (x + y * Width) / 8 < BufferSize
    ensures Lit(GetBuffer(img)[(x + y * Width) / 8], x % 8) <==> !img.zero[y][x]
  {
    ByteOf(x, y);
    LandscapeBit(img, (x + y * Width) / 8, x % 8, x, y);
  }

  /** Pixel (x, y) of a 128-wide frame sits in byte `y * 16 + x / 8`, at bit `x % 8`. */
  lemma ByteOf(x: nat, y: nat)
    requires x < Width && y < Height
    ensures (x + y * Width) / 8 == y * BytesPerRow + x / 8
    ensures ((x + y * Width) / 8) / BytesPerRow == y && ((x + y * Width) / 8) % BytesPerRow * 8 + x % 8 == x
  {
    DivMod(x, 8, x / 8, x % 8);
    DivMod(x + y * Width, 8, y * BytesPerRow + x / 8, x % 8);
    DivMod(y * BytesPerRow + x / 8, BytesPerRow, y, x / 8);
  }

  /** Proof step of LandscapePixel: GetBuffer's landscape clause taken at the
      bit of pixel (x, y), so that the pixel lemma's goal matches it term for
      term. */
  lemma LandscapeBit(img: Image, i: nat, k: nat, x: nat, y: nat)
    requires img.Valid() && LayoutOf(img) == Landscape && i < BufferSize && k < 8
    requires x == i % BytesPerRow * 8 + k && y == i / BytesPerRow
    ensures Lit(GetBuffer(img)[i], k) <==> !img.zero[y][x]
  {
  }

  /** In a portrait image the pixel at (x, y) is rotated to column y, row
      `Height - x - 1`; the byte it maps to is in bounds, and its bit
      `0x80 >> (y % 8)` is cleared exactly when the pixel is non-zero. */
  lemma PortraitPixel(img: Image, x: nat, y: nat)
    requires img.Valid() && LayoutOf(img) == Portrait && x < Height && y < Width
    ensures 0 <= (y + (Height - x - 1) * Width) / 8 < BufferSize
    ensures Lit(GetBuffer(img)[(y + (Height - x - 1) * Width) / 8], y % 8) <==> img.zero[y][x]
  {
    var i, k := (y + (Height - x - 1) * Width) / 8, y % 8;
    ByteOf(y, Height - x - 1);
    assert i % BytesPerRow * 8 + k == y && Height - 1 - i / BytesPerRow == x;
    PortraitBit(img, i, k, x, y);
  }

  /** Byte holding landscape pixel (x, y): `(x + y * Width) / 8`. */
  function LandscapeIndex(x: nat, y: nat): (i: nat)
    requires x < Width && y < Height
    ensures i < BufferSize && i / BytesPerRow == y && i % BytesPerRow == x / 8
  {
    ByteOf(x, y);
    DivMod(x, 8, x / 8, x % 8);
    (x + y * Width) / 8
  }

  /** Byte holding portrait pixel (x, y) after rotation: `(y + (Height - x - 1) * Width) / 8`. */
  function PortraitIndex(x: nat, y: nat): (i: nat)
    requires x < Height && y < Width
    ensures i < BufferSize && i / BytesPerRow == Height - x - 1 && i % BytesPerRow == y / 8
  {
    ByteOf(y, Height - x - 1);
    DivMod(y, 8, y / 8, y % 8);
    (y + (Height - x - 1) * Width) / 8
  }

  /** Reads a landscape framebuffer back as an image: a clear bit is a zero pixel. */
  function Unpack(buf: seq<bv8>): (img: Image)
    requires |buf| == BufferSize
    ensures img.Valid() && LayoutOf(img) == Landscape
  {
    Image(Width, Height, seq(Height, y requires 0 <= y < Height =>
      seq(Width, x requires 0 <= x < Width => !Lit(buf[LandscapeIndex(x, y)], x % 8))))
  }

  /** Reads a framebuffer back as a portrait image under the portrait branch's
      polarity: a clear bit is a non-zero pixel. */
  function UnpackPortrait(buf: seq<bv8>): (img: Image)
    requires |buf| == BufferSize
    ensures img.Valid() && LayoutOf(img) == Portrait
  {
    Image(Height, Width, seq(Width, y requires 0 <= y < Width =>
      seq(Height, x requires 0 <= x < Height => Lit(buf[PortraitIndex(x, y)], y % 8))))
  }

  /** Packing a landscape image loses nothing. */
  lemma UnpackGetBuffer(img: Image)
    requires img.Valid() && LayoutOf(img) == Landscape
    ensures Unpack(GetBuffer(img)) == img
  {
    var u := Unpack(GetBuffer(img));
    forall y | 0 <= y < Height
      ensures u.zero[y] == img.zero[y]
    {
      UnpackRow(img, y);
    }
    assert u.zero == img.zero;
  }

  lemma UnpackRow(img: Image, y: nat)
    requires img.Valid() && LayoutOf(img) == Landscape && y < Height
    ensures Unpack(GetBuffer(img)).zero[y] == img.zero[y]
  {
    var u := Unpack(GetBuffer(img));
    forall x | 0 <= x < Width
      ensures u.zero[y][x] == img.zero[y][x]
    {
      LandscapePixel(img, x, y);
    }
  }

  /** Every framebuffer is the packing of its unpacked landscape image. */
  lemma GetBufferUnpack(buf: seq<bv8>)
    requires |buf| == BufferSize
    ensures GetBuffer(Unpack(buf)) == buf
  {
    var out := GetBuffer(Unpack(buf));
    forall i | 0 <= i < BufferSize
      ensures out[i] == buf[i]
    {
      forall k | 0 <= k < 8
        ensures Lit(out[i], k) <==> Lit(buf[i], k)
      {
        UnpackBit(buf, i, k);
      }
      Ext(out[i], buf[i]);
    }
  }

  lemma UnpackBit(buf: seq<bv8>, i: nat, k: nat)
    requires |buf| == BufferSize && i < BufferSize && k < 8
    ensures Lit(GetBuffer(Unpack(buf))[i], k) <==> Lit(buf[i], k)
  {
    var x, y := i % BytesPerRow * 8 + k, i / BytesPerRow;
    DivMod(x, 8, i % BytesPerRow, k);
    DivMod(i, BytesPerRow, y, i % BytesPerRow);
    assert LandscapeIndex(x, y) == i;
    assert Unpack(buf).zero[y][x] == !Lit(buf[i], k);
  }

  /** Packing a portrait image loses nothing. */
  lemma UnpackPortraitGetBuffer(img: Image)
    requires img.Valid() && LayoutOf(img) == Portrait
    ensures UnpackPortrait(GetBuffer(img)) == img
  {
    var u := UnpackPortrait(GetBuffer(img));
    forall y | 0 <= y < Width
      ensures u.zero[y] == img.zero[y]
    {
      forall x | 0 <= x < Height
        ensures u.zero[y][x] == img.zero[y][x]
      {
        PortraitPixel(img, x, y);
        assert PortraitIndex(x, y) == (y + (Height - x - 1) * Width) / 8;
      }
    }
  }

  /** Every framebuffer is the packing of its unpacked portrait image. */
  lemma GetBufferUnpackPortrait(buf: seq<bv8>)
    requires |buf| == BufferSize
    ensures GetBuffer(UnpackPortrait(buf)) == buf
  {
    var out := GetBuffer(UnpackPortrait(buf));
    forall i | 0 <= i < BufferSize
      ensures out[i] == buf[i]
    {
      forall k | 0 <= k < 8
        ensures Lit(out[i], k) <==> Lit(buf[i], k)
      {
        UnpackPortraitBit(buf, i, k);
      }
      Ext(out[i], buf[i]);
    }
  }

  lemma UnpackPortraitBit(buf: seq<bv8>, i: nat, k: nat)
    requires |buf| == BufferSize && i < BufferSize && k < 8
    ensures Lit(GetBuffer(UnpackPortrait(buf))[i], k) <==> Lit(buf[i], k)
  {
    var img := UnpackPortrait(buf);
    var x, y := Height - 1 - i / BytesPerRow, i % BytesPerRow * 8 + k;
    assert y / 8 == i % BytesPerRow && y % 8 == k by {
      DivMod(y, 8, i % BytesPerRow, k);
    }
    assert PortraitIndex(x, y) == i by {
      SameIndex(i, PortraitIndex(x, y));
    }
    assert img.zero[y][x] == Lit(buf[i], k);
    PortraitBit(img, i, k, x, y);
  }

  /** Proof step of PortraitPixel and UnpackPortraitBit: GetBuffer's portrait
      clause taken at the bit that pixel (x, y) is rotated onto, so that their
      goals match it term for term. */
  lemma PortraitBit(img: Image, i: nat, k: nat, x: nat, y: nat)
    requires img.Valid() && LayoutOf(img) == Portrait && i < BufferSize && k < 8
    requires y == i % BytesPerRow * 8 + k && x == Height - 1 - i / BytesPerRow
    ensures Lit(GetBuffer(img)[i], k) <==> img.zero[y][x]
  {
  }

  lemma SameIndex(a: nat, b: nat)
    requires a / BytesPerRow == b / BytesPerRow && a % BytesPerRow == b % BytesPerRow
    ensures a == b
  {
    DivMod(a, BytesPerRow, a / BytesPerRow, a % BytesPerRow);
    DivMod(b, BytesPerRow, b / BytesPerRow, b % BytesPerRow);
  }

  /** A landscape image with no zero pixel packs to all 0xFF. */
  lemma LandscapeBlank(img: Image)
    requires img.Valid() && LayoutOf(img) == Landscape
    requires forall y, x :: 0 <= y < Height && 0 <= x < Width ==> !img.zero[y][x]
    ensures GetBuffer(img) == Blank()
  {
    var out := GetBuffer(img);
    forall i | 0 <= i < BufferSize
      ensures out[i] == 0xFF
    {
      forall k | 0 <= k < 8
        ensures Lit(out[i], k) <==> Lit(0xFF, k)
      {
        AllLit(k);
      }
      Ext(out[i], 0xFF);
    }
  }

  /** A portrait image whose every pixel is zero packs to all 0xFF. */
  lemma PortraitBlank(img: Image)
    requires img.Valid() && LayoutOf(img) == Portrait
    requires forall y, x :: 0 <= y < Width && 0 <= x < Height ==> img.zero[y][x]
    ensures GetBuffer(img) == Blank()
  {
    var out := GetBuffer(img);
    forall i | 0 <= i < BufferSize
      ensures out[i] == 0xFF
    {
      forall k | 0 <= k < 8
        ensures Lit(out[i], k) <==> Lit(0xFF, k)
      {
        AllLit(k);
      }
      Ext(out[i], 0xFF);
    }
  }

  /** A landscape image whose only zero pixel is (x0, y0) packs to all 0xFF
      except byte `(x0 + y0 * Width) / 8`, which loses exactly bit `0x80 >> (x0 % 8)`. */
  lemma LandscapeSinglePixel(x0: nat, y0: nat)
    requires x0 < Width && y0 < Height
    ensures GetBuffer(Image(Width, Height, seq(Height, y => seq(Width, x => x == x0 && y == y0))))
         == Blank()[LandscapeIndex(x0, y0) := ClearBit(0xFF, x0 % 8)]
  {
    var img := Image(Width, Height, seq(Height, y => seq(Width, x => x == x0 && y == y0)));
    var b := Blank()[LandscapeIndex(x0, y0) := ClearBit(0xFF, x0 % 8)];
    forall y | 0 <= y < Height
      ensures Unpack(b).zero[y] == img.zero[y]
    {
      forall x | 0 <= x < Width
        ensures Unpack(b).zero[y][x] == (x == x0 && y == y0)
      {
        SingleBit(LandscapeIndex(x0, y0), x0 % 8, LandscapeIndex(x, y), x % 8);
        DivMod(x, 8, x / 8, x % 8);
        DivMod(x0, 8, x0 / 8, x0 % 8);
      }
    }
    assert Unpack(b) == img;
    GetBufferUnpack(b);
  }

  /** A portrait image whose only non-zero pixel is (x0, y0) packs to all 0xFF
      except byte `(y0 + (Height - x0 - 1) * Width) / 8`, which loses exactly bit
      `0x80 >> (y0 % 8)`. */
  lemma PortraitSinglePixel(x0: nat, y0: nat)
    requires x0 < Height && y0 < Width
    ensures GetBuffer(Image(Height, Width, seq(Width, y => seq(Height, x => !(x == x0 && y == y0)))))
         == Blank()[PortraitIndex(x0, y0) := ClearBit(0xFF, y0 % 8)]
  {
    var img := Image(Height, Width, seq(Width, y => seq(Height, x => !(x == x0 && y == y0))));
    var b := Blank()[PortraitIndex(x0, y0) := ClearBit(0xFF, y0 % 8)];
    forall y | 0 <= y < Width
      ensures UnpackPortrait(b).zero[y] == img.zero[y]
    {
      forall x | 0 <= x < Height
        ensures UnpackPortrait(b).zero[y][x] == !(x == x0 && y == y0)
      {
        SingleBit(PortraitIndex(x0, y0), y0 % 8, PortraitIndex(x, y), y % 8);
        DivMod(y, 8, y / 8, y % 8);
        DivMod(y0, 8, y0 / 8, y0 % 8);
      }
    }
    assert UnpackPortrait(b) == img;
    GetBufferUnpackPortrait(b);
  }

  /** In a blank buffer with one bit cleared, a bit is clear exactly when it is that bit. */
  lemma SingleBit(i0: nat, k0: nat, i: nat, k: nat)
    requires i0 < BufferSize && k0 < 8 && i < BufferSize && k < 8
    ensures Lit(Blank()[i0 := ClearBit(0xFF, k0)][i], k) <==> !(i == i0 && k == k0)
  {
    AllLit(k);
  }
}
