/** `Extensions.GetGrayscaleImageData`: a grey copy of an RGBA image. The
    luminance of a pixel's colour is left as a parameter `lum`; every property
    proved here holds whatever it computes. */
module Extensions {
  import opened Primitives

  type Luminance = (byte, byte, byte) -> byte

  /** The grey value of one RGBA pixel: visible pixels get their luminance in
      all three colour channels, transparent ones stay black; alpha is kept. */
  function GrayPixel(r: byte, g: byte, b: byte, a: byte, lum: Luminance): seq<byte> {
    if a > 0 then
      var y := lum(r, g, b);
      [y, y, y, a]
    else
      [0, 0, 0, a]
  }

  /** The whole image, four bytes at a time; the bytes after the last whole
      pixel are zero. */
  function GrayPixels(rgba: seq<byte>, lum: Luminance): (gray: seq<byte>)
    ensures |gray| == |rgba|
    decreases |rgba|
  {
    if |rgba| < 4 then seq(|rgba|, _ => 0)
    else GrayPixel(rgba[0], rgba[1], rgba[2], rgba[3], lum) + GrayPixels(rgba[4..], lum)
  }

  /** Byte `4 * p + c` of the grey image: channel `c` of pixel `p`. */
  function GrayByte(rgba: seq<byte>, lum: Luminance, p: nat, c: nat): byte
    requires c < 4
  {
    if 4 * p + 4 > |rgba| then 0
    else if c == 3 then rgba[4 * p + 3]
    else if rgba[4 * p + 3] > 0 then lum(rgba[4 * p], rgba[4 * p + 1], rgba[4 * p + 2])
    else 0
  }

  /** The pixel-by-pixel conversion agrees, byte for byte, with the closed form. */
  lemma {:induction false} GrayPixelsByte(rgba: seq<byte>, lum: Luminance, p: nat, c: nat)
    requires c < 4 && 4 * p + c < |rgba|
    ensures GrayPixels(rgba, lum)[4 * p + c] == GrayByte(rgba, lum, p, c)
    decreases p
  {
    if |rgba| >= 4 && p > 0 {
      var tail := rgba[4..];
      GrayPixelsByte(tail, lum, p - 1, c);
      assert tail[4 * (p - 1) + c] == rgba[4 * p + c];
      if 4 * p + 4 <= |rgba| {
        assert tail[4 * (p - 1) + 3] == rgba[4 * p + 3];
        assert tail[4 * (p - 1)] == rgba[4 * p];
        assert tail[4 * (p - 1) + 1] == rgba[4 * p + 1];
        assert tail[4 * (p - 1) + 2] == rgba[4 * p + 2];
      }
    }
  }

  /** Pixel `p` of an image, as four bytes. */
  function Pixel(s: seq<byte>, p: nat): seq<byte>
    requires 4 * p + 4 <= |s|
  {
    s[4 * p..4 * p + 4]
  }

  lemma PixelOfBytes(s: seq<byte>, p: nat, b0: byte, b1: byte, b2: byte, b3: byte)
    requires 4 * p + 4 <= |s|
    requires s[4 * p] == b0 && s[4 * p + 1] == b1 && s[4 * p + 2] == b2 && s[4 * p + 3] == b3
    ensures Pixel(s, p) == [b0, b1, b2, b3]
  {
  }

  /** Whole pixel `p` of the grey image, channel by channel. */
  lemma GrayPixelsPixel(rgba: seq<byte>, lum: Luminance, p: nat)
    requires 4 * p + 4 <= |rgba|
    ensures Pixel(GrayPixels(rgba, lum), p) ==
      [GrayByte(rgba, lum, p, 0), GrayByte(rgba, lum, p, 1), GrayByte(rgba, lum, p, 2), GrayByte(rgba, lum, p, 3)]
  {
    GrayPixelsByte(rgba, lum, p, 0);
    GrayPixelsByte(rgba, lum, p, 1);
    GrayPixelsByte(rgba, lum, p, 2);
    GrayPixelsByte(rgba, lum, p, 3);
    PixelOfBytes(GrayPixels(rgba, lum), p, GrayByte(rgba, lum, p, 0), GrayByte(rgba, lum, p, 1),
      GrayByte(rgba, lum, p, 2), GrayByte(rgba, lum, p, 3));
  }

  /** Every whole grey pixel, channel by channel. */
  lemma GrayscaleWholePixels(rgba: seq<byte>, lum: Luminance)
    ensures forall p :: 0 <= p < |rgba| / 4 ==>
      Pixel(GrayPixels(rgba, lum), p) ==
        [GrayByte(rgba, lum, p, 0), GrayByte(rgba, lum, p, 1), GrayByte(rgba, lum, p, 2), GrayByte(rgba, lum, p, 3)]
  {
    forall p | 0 <= p < |rgba| / 4
      ensures Pixel(GrayPixels(rgba, lum), p) ==
        [GrayByte(rgba, lum, p, 0), GrayByte(rgba, lum, p, 1), GrayByte(rgba, lum, p, 2), GrayByte(rgba, lum, p, 3)]
    {
      GrayPixelsPixel(rgba, lum, p);
    }
  }

  /** The bytes after the last whole pixel are zero. */
  lemma GrayscaleTrailingZero(rgba: seq<byte>, lum: Luminance)
    ensures forall j :: 4 * (|rgba| / 4) <= j < |rgba| ==> GrayPixels(rgba, lum)[j] == 0
  {
    forall j | 4 * (|rgba| / 4) <= j < |rgba| ensures GrayPixels(rgba, lum)[j] == 0 {
      GrayPixelsByte(rgba, lum, j / 4, j % 4);
    }
  }

  /** What the grey image is: as long as the input; every whole pixel keeps its
      alpha; a transparent pixel is black; a visible one has equal red, green
      and blue, its luminance; the bytes after the last whole pixel are zero. */
  lemma GrayscaleProperties(rgba: seq<byte>, lum: Luminance)
    ensures |GrayPixels(rgba, lum)| == |rgba|
    ensures forall p :: 0 <= p < |rgba| / 4 ==> Pixel(GrayPixels(rgba, lum), p)[3] == Pixel(rgba, p)[3]
    ensures forall p :: 0 <= p < |rgba| / 4 && Pixel(rgba, p)[3] == 0 ==>
      Pixel(GrayPixels(rgba, lum), p)[..3] == [0, 0, 0]
    ensures forall p :: 0 <= p < |rgba| / 4 && Pixel(rgba, p)[3] > 0 ==>
      var y := lum(Pixel(rgba, p)[0], Pixel(rgba, p)[1], Pixel(rgba, p)[2]);
      Pixel(GrayPixels(rgba, lum), p)[..3] == [y, y, y]
    ensures forall j :: 4 * (|rgba| / 4) <= j < |rgba| ==> GrayPixels(rgba, lum)[j] == 0
  {
    GrayscaleWholePixels(rgba, lum);
    GrayscaleTrailingZero(rgba, lum);
  }

  /** `GetGrayscaleImageData(tex)`, on the RGBA bytes of the texture. */
  method GetGrayscaleImageData(rgba: seq<byte>, lum: Luminance) returns (newData: array<byte>)
    ensures fresh(newData)
    ensures newData[..] == GrayPixels(rgba, lum)
  {
    var pixels := |rgba| / 4;
    newData := new byte[|rgba|](_ => 0);
    for i := 0 to pixels
      invariant newData.Length == |rgba|
      invariant forall p, c :: 0 <= p < i && 0 <= c < 4 ==> newData[4 * p + c] == GrayByte(rgba, lum, p, c)
      invariant forall j :: 4 * i <= j < |rgba| ==> newData[j] == 0
    {
      var pixel := i * 4;
      var alpha := rgba[pixel + 3];
      if alpha > 0 {
        var avg := lum(rgba[pixel], rgba[pixel + 1], rgba[pixel + 2]);
        newData[pixel] := avg;
        newData[pixel + 1] := avg;
        newData[pixel + 2] := avg;
      }
      newData[pixel + 3] := alpha;
    }
    forall j | 0 <= j < |rgba| ensures newData[j] == GrayPixels(rgba, lum)[j] {
      GrayPixelsByte(rgba, lum, j / 4, j % 4);
    }
  }
}
