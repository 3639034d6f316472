/**
 * The input-tensor packing of the image classifier: a 224 x 224 array of
 * packed ARGB pixels becomes a byte buffer of R, G, B triples, row-major in
 * the pixel array's order, with the alpha byte dropped.
 */
module TensorEncoder {

  const DIM_BATCH_SIZE: nat := 1
  const DIM_PIXEL_SIZE: nat := 3
  const DIM_IMG_SIZE_X: nat := 224
  const DIM_IMG_SIZE_Y: nat := 224

  /** Number of pixels the scaled bitmap delivers, the length of `intValues`. */
  const PIXEL_COUNT: nat := DIM_IMG_SIZE_X * DIM_IMG_SIZE_Y

  /** Capacity of the direct byte buffer handed to the interpreter. */
  const BUFFER_SIZE: nat := DIM_BATCH_SIZE * DIM_IMG_SIZE_X * DIM_IMG_SIZE_Y * DIM_PIXEL_SIZE

  const TWO_31: int := 0x8000_0000
  const TWO_32: int := 0x1_0000_0000

  /** A Kotlin `Int`: a two's-complement 32-bit value. */
  type Int32 = x: int | -0x8000_0000 <= x < 0x8000_0000

  /** One byte of a `ByteBuffer`, read as unsigned (0..255). */
  type UByte = x: int | 0 <= x < 256

  /** The 32-bit pattern of a Kotlin `Int`, read as an unsigned number. */
  function Unsigned32(v: Int32): (u: int)
    ensures 0 <= u < TWO_32
    ensures (u - v) % TWO_32 == 0
  {
    if v < 0 then v + TWO_32 else v
  }

  /*
   * Kotlin's `shr` is an arithmetic shift, which is division rounding toward
   * negative infinity; Dafny's `/` by a positive divisor rounds the same way.
   * `and 0xFF` on a two's-complement value keeps its remainder modulo 256,
   * which is Dafny's (never negative) `%`.
   */

  /** `v shr 16 and 0xFF`: the red channel. */
  function Red(v: Int32): (r: int)
    ensures 0 <= r < 256
  {
    (v / 0x1_0000) % 0x100
  }

  /** `v shr 8 and 0xFF`: the green channel. */
  function Green(v: Int32): (r: int)
    ensures 0 <= r < 256
  {
    (v / 0x100) % 0x100
  }

  /** `v and 0xFF`: the blue channel. */
  function Blue(v: Int32): (r: int)
    ensures 0 <= r < 256
  {
    v % 0x100
  }

  /** The alpha byte, which the packing never emits. */
  function Alpha(v: Int32): (r: int)
    ensures 0 <= r < 256
  {
    (v / 0x100_0000) % 0x100
  }

  /** The Kotlin `Int` whose 32-bit pattern is the bytes a, r, g, b (high to low). */
  function Argb(a: UByte, r: UByte, g: UByte, b: UByte): (v: Int32)
    ensures Unsigned32(v) == a * 0x100_0000 + r * 0x1_0000 + g * 0x100 + b
  {
    var u := a * 0x100_0000 + r * 0x1_0000 + g * 0x100 + b;
    if u >= TWO_31 then u - TWO_32 else u
  }

  /** The three bytes `put` for one pixel, in the order red, green, blue. */
  function PixelBytes(v: Int32): seq<UByte>
  {
    [Red(v), Green(v), Blue(v)]
  }

  /** Channel c (0 red, 1 green, 2 blue) of a pixel. */
  function Channel(v: Int32, c: nat): UByte
    requires c < 3
  {
    if c == 0 then Red(v) else if c == 1 then Green(v) else Blue(v)
  }

  /** The buffer contents produced for the pixels px, in order. */
  function Encode(px: seq<Int32>): (r: seq<UByte>)
    ensures |r| == 3 * |px|
  {
    if px == [] then [] else Encode(px[..|px| - 1]) + PixelBytes(px[|px| - 1])
  }

  /** Division with remainder is unique. */
  lemma DivModUnique(v: int, d: int, q: int, m: int)
    requires d > 0 && v == q * d + m && 0 <= m < d
    ensures v / d == q && v % d == m
  {
    var q0, m0 := v / d, v % d;
    assert v == q0 * d + m0 && 0 <= m0 < d;
    if q0 > q {
      MulGap(q0, q, d);
      assert false;
    } else if q0 < q {
      MulGap(q, q0, d);
      assert false;
    }
  }

  lemma MulGap(a: int, b: int, d: int)
    requires a > b && d > 0
    ensures a * d >= b * d + d
  {
    var k := a - b - 1;
    assert a * d == k * d + b * d + d;
    assert k * d >= 0;
  }

  /**
   * Arithmetic shift and mask pick the same bits as a shift of the unsigned
   * 32-bit pattern, so a pixel whose alpha makes the Int negative still
   * yields its colour bytes.
   */
  lemma {:induction false} ChannelsAreBitFields(v: Int32)
    ensures Red(v) == (Unsigned32(v) / 0x1_0000) % 0x100
    ensures Green(v) == (Unsigned32(v) / 0x100) % 0x100
    ensures Blue(v) == Unsigned32(v) % 0x100
  {
    if v < 0 {
      var u := v + TWO_32;
      DivModUnique(v, 0x1_0000, u / 0x1_0000 - 0x1_0000, u % 0x1_0000);
      DivModUnique(v / 0x1_0000, 0x100, (u / 0x1_0000) / 0x100 - 0x100, (u / 0x1_0000) % 0x100);
      DivModUnique(v, 0x100, u / 0x100 - 0x100_0000, u % 0x100);
      DivModUnique(v / 0x100, 0x100, (u / 0x100) / 0x100 - 0x1_0000, (u / 0x100) % 0x100);
    }
  }

  /** Unpacking a packed pixel returns its colour bytes, whatever its alpha. */
  lemma {:induction false} ArgbChannels(a: UByte, r: UByte, g: UByte, b: UByte)
    ensures Red(Argb(a, r, g, b)) == r
    ensures Green(Argb(a, r, g, b)) == g
    ensures Blue(Argb(a, r, g, b)) == b
    ensures Alpha(Argb(a, r, g, b)) == a
  {
    var v := Argb(a, r, g, b);
    var c := if a >= 0x80 then 1 else 0;
    assert v == a * 0x100_0000 + r * 0x1_0000 + g * 0x100 + b - c * TWO_32;
    DivModUnique(v, 0x1_0000, a * 0x100 + r - c * 0x1_0000, g * 0x100 + b);
    DivModUnique(v / 0x1_0000, 0x100, a - c * 0x100, r);
    DivModUnique(v, 0x100, a * 0x1_0000 + r * 0x100 + g - c * 0x100_0000, b);
    DivModUnique(v / 0x100, 0x100, a * 0x100 + r - c * 0x1_0000, g);
    DivModUnique(v, 0x100_0000, a - c * 0x100, r * 0x1_0000 + g * 0x100 + b);
    DivModUnique(v / 0x100_0000, 0x100, -c, a);
  }

  /** Every Int is the packing of its four bytes: the four channels lose nothing. */
  lemma {:induction false} ChannelsArgb(v: Int32)
    ensures Argb(Alpha(v), Red(v), Green(v), Blue(v)) == v
  {
    var q1 := v / 0x100;
    var q2 := q1 / 0x100;
    var q3 := q2 / 0x100;
    assert v == q1 * 0x100 + Blue(v);
    assert q1 == q2 * 0x100 + Green(v);
    assert q2 == q3 * 0x100 + Red(v);
    DivModUnique(v, 0x1_0000, q2, Green(v) * 0x100 + Blue(v));
    DivModUnique(v, 0x100_0000, q3, Red(v) * 0x1_0000 + Green(v) * 0x100 + Blue(v));
    assert q3 == (q3 / 0x100) * 0x100 + Alpha(v);
    assert -0x80 <= q3 < 0x80;
  }

  /** Byte 3p + c of the encoding is channel c of pixel p. */
  lemma {:induction false} EncodeAt(px: seq<Int32>, p: nat, c: nat)
    requires p < |px| && c < 3
    ensures Encode(px)[3 * p + c] == Channel(px[p], c)
  {
    var n := |px| - 1;
    if p < n {
      EncodeAt(px[..n], p, c);
      assert px[..n][p] == px[p];
    }
  }

  /** Encoding one more pixel appends its three bytes. */
  lemma EncodeStep(px: seq<Int32>, n: nat)
    requires n < |px|
    ensures Encode(px[..n + 1]) == Encode(px[..n]) + PixelBytes(px[n])
  {
    assert px[..n + 1][..n] == px[..n];
  }

  /**
   * convertBitmapToByteBuffer after scaling: `intValues` holds the scaled
   * bitmap's pixels as `getPixels` delivered them.
   */
  method ConvertBitmapToByteBuffer(intValues: array<Int32>) returns (imgData: array<UByte>)
    requires intValues.Length == PIXEL_COUNT
    ensures fresh(imgData)
    ensures imgData.Length == BUFFER_SIZE
    ensures imgData[..] == Encode(intValues[..])
  {
    imgData := new UByte[BUFFER_SIZE];
    var position := 0;  // the buffer's position, advanced by every put
    var pixel := 0;
    for i := 0 to DIM_IMG_SIZE_X
      invariant pixel == i * DIM_IMG_SIZE_Y
      invariant position == 3 * pixel
      invariant imgData[..position] == Encode(intValues[..pixel])
    {
      for j := 0 to DIM_IMG_SIZE_Y
        invariant pixel == i * DIM_IMG_SIZE_Y + j
        invariant position == 3 * pixel
        invariant imgData[..position] == Encode(intValues[..pixel])
      {
        var val := intValues[pixel];
        pixel := pixel + 1;
        ghost var done := imgData[..position];
        imgData[position] := Red(val);
        imgData[position + 1] := Green(val);
        imgData[position + 2] := Blue(val);
        position := position + 3;
        assert imgData[..position] == done + PixelBytes(val);
        EncodeStep(intValues[..], pixel - 1);
      }
    }
    assert imgData[..] == imgData[..position];
    assert intValues[..] == intValues[..pixel];
  }
}
