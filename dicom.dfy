/**
 * `DicomUtils.convertDicomToBitmap`: decode the stored samples of a DICOM
 * image (little-endian 16-bit words, two's complement when Pixel
 * Representation is 1, as the Image Pixel Module of DICOM PS3.3 section
 * C.7.6.3 and the byte order of DICOM PS3.5 section 7.3 lay down, or single
 * bytes), find their range, and paint every pixel grey at its place in the
 * range scaled to 0..255.
 */
module DicomUtils {
  import opened Wrappers
  import opened KotlinNum
  import opened Arith

  /** A byte of the pixel data, read unsigned (`toInt() and 0xFF`). */
  type Byte = b: int | 0 <= b < 256

  function Pow2(n: nat): (r: real)
    ensures r >= 1.0
  {
    if n == 0 then 1.0 else 2.0 * Pow2(n - 1)
  }

  /** `Double.MAX_VALUE`, where the search for the least sample starts. */
  const DoubleMaxValue: real := (2.0 - 1.0 / Pow2(52)) * Pow2(1023)

  /** `Double.MIN_VALUE`, the least positive double, where the search for the greatest sample starts. */
  const DoubleMinValue: real := 1.0 / Pow2(1074)

  // ---------------------------------------------------------------- one sample

  /** `(hi shl 8) or lo`: the 16-bit word of two bytes, the low byte first. */
  function Word(lo: Byte, hi: Byte): (w: int)
    ensures 0 <= w < 0x1_0000
    ensures w % 0x100 == lo && w / 0x100 == hi
  {
    DivideBetween(hi * 0x100 + lo, 0x100, hi);
    hi * 0x100 + lo
  }

  /** `v.toShort().toInt()`: the low 16 bits of `v` read as a two's-complement number. */
  function ToShort(v: int): (r: int)
    ensures -0x8000 <= r < 0x8000
    ensures (v - r) % 0x1_0000 == 0
    ensures 0 <= v < 0x8000 ==> r == v
    ensures 0x8000 <= v < 0x1_0000 ==> r == v - 0x1_0000
  {
    var low := v % 0x1_0000;
    if low < 0x8000 then low else low - 0x1_0000
  }

  /** How the samples are stored and rescaled: Bits Allocated, Pixel Representation, Rescale Slope and Intercept. */
  datatype SampleFormat = SampleFormat(bitsAllocated: int, pixelRepresentation: int, rescaleSlope: real, rescaleIntercept: real)

  /** The stored value of sample `i`, or None when the pixel data ends before it. */
  function StoredValue(data: seq<Byte>, format: SampleFormat, i: int): (r: Option<int>)
    requires 0 <= i
    ensures format.bitsAllocated > 8 ==> (r.Some? <==> 2 * i + 1 < |data|)
    ensures format.bitsAllocated <= 8 ==> (r.Some? <==> i < |data|)
    ensures r.Some? && format.bitsAllocated > 8 && format.pixelRepresentation == 1 ==> -0x8000 <= r.value < 0x8000
    ensures r.Some? && (format.bitsAllocated <= 8 || format.pixelRepresentation != 1) ==> 0 <= r.value < 0x1_0000
  {
    if format.bitsAllocated > 8 then
      if 2 * i + 1 >= |data| then None
      else
        var raw := Word(data[2 * i], data[2 * i + 1]);
        Some(if format.pixelRepresentation == 1 then ToShort(raw) else raw)
    else if i < |data| then Some(data[i])
    else None
  }

  /** The value of sample `i`: the stored value rescaled, or 0 when it is missing. */
  function SampleValue(data: seq<Byte>, format: SampleFormat, i: int): real
    requires 0 <= i
  {
    match StoredValue(data, format, i)
    case Some(v) => v as real * format.rescaleSlope + format.rescaleIntercept
    case None => 0.0
  }

  /** The two bytes that store a 16-bit sample, the low byte first (unsigned or two's complement). */
  function EncodeWord(v: int): (Byte, Byte)
    requires -0x8000 <= v < 0x1_0000
  {
    var u := v % 0x1_0000;
    (u % 0x100, u / 0x100)
  }

  /** Decoding the bytes a 16-bit sample is stored in gives the sample back, in either pixel representation. */
  lemma WordRoundTrip(v: int, format: SampleFormat, data: seq<Byte>, i: int)
    requires format.bitsAllocated > 8 && 0 <= i && 2 * i + 1 < |data|
    requires format.pixelRepresentation == 1 ==> -0x8000 <= v < 0x8000
    requires format.pixelRepresentation != 1 ==> 0 <= v < 0x1_0000
    requires (data[2 * i], data[2 * i + 1]) == EncodeWord(v)
    ensures StoredValue(data, format, i) == Some(v)
  {
    var u := LowWord(v);
    WordOfBytes(u);
    assert Word(data[2 * i], data[2 * i + 1]) == u;
  }

  /** `v % 2^16` for a 16-bit sample: the sample itself, or the sample plus 2^16 when it is negative. */
  lemma LowWord(v: int) returns (u: int)
    requires -0x8000 <= v < 0x1_0000
    ensures u == v % 0x1_0000
    ensures 0 <= v ==> u == v
    ensures v < 0 ==> u == v + 0x1_0000
  {
    u := v % 0x1_0000;
    if v < 0 {
      DivideBetween(v, 0x1_0000, -1);
    } else {
      DivideBetween(v, 0x1_0000, 0);
    }
  }

  /** The word of a number's low and high bytes is the number. */
  lemma WordOfBytes(u: int)
    requires 0 <= u < 0x1_0000
    ensures Word(u % 0x100, u / 0x100) == u
  {
    assert u == u / 0x100 * 0x100 + u % 0x100;
  }

  /** Every pair of bytes is the encoding of the sample it decodes to. */
  lemma BytesRoundTrip(format: SampleFormat, data: seq<Byte>, i: int)
    requires format.bitsAllocated > 8 && 0 <= i && 2 * i + 1 < |data|
    ensures StoredValue(data, format, i).Some?
    ensures EncodeWord(StoredValue(data, format, i).value) == (data[2 * i], data[2 * i + 1])
  {
    var w := Word(data[2 * i], data[2 * i + 1]);
    var v := StoredValue(data, format, i).value;
    UnsignedOf(v, w);
  }

  /** A 16-bit sample read either way is congruent to its word modulo 2^16. */
  lemma UnsignedOf(v: int, w: int)
    requires 0 <= w < 0x1_0000 && (v == w || (w >= 0x8000 && v == w - 0x1_0000))
    ensures v % 0x1_0000 == w
  {
    if v != w {
      DivideBetween(v, 0x1_0000, -1);
    }
  }

  // ---------------------------------------------------------------- the value range

  /** The values of the first `n` samples, in pixel order. */
  function SampleValues(data: seq<Byte>, format: SampleFormat, n: nat): (vs: seq<real>)
    ensures |vs| == n && forall i :: 0 <= i < n ==> vs[i] == SampleValue(data, format, i)
  {
    seq(n, i requires 0 <= i < n => SampleValue(data, format, i))
  }

  /** `min` over the values, starting from `Double.MAX_VALUE`. */
  function Lowest(vs: seq<real>): real
  {
    if vs == [] then DoubleMaxValue else MinReal(Lowest(vs[..|vs| - 1]), vs[|vs| - 1])
  }

  /** `max` over the values, starting from `Double.MIN_VALUE`. */
  function Highest(vs: seq<real>): real
  {
    if vs == [] then DoubleMinValue else MaxReal(Highest(vs[..|vs| - 1]), vs[|vs| - 1])
  }

  /** The least value is below every value and is one of them, unless none is below the starting `Double.MAX_VALUE`. */
  lemma {:induction false} LowestIsLeast(vs: seq<real>)
    ensures forall i :: 0 <= i < |vs| ==> Lowest(vs) <= vs[i]
    ensures Lowest(vs) == DoubleMaxValue || exists i :: 0 <= i < |vs| && Lowest(vs) == vs[i]
  {
    if vs != [] {
      var n := |vs| - 1;
      LowestIsLeast(vs[..n]);
      assert forall i :: 0 <= i < n ==> vs[..n][i] == vs[i];
    }
  }

  /** The greatest value is above every value and is one of them, unless none is above the starting `Double.MIN_VALUE`. */
  lemma {:induction false} HighestIsGreatest(vs: seq<real>)
    ensures forall i :: 0 <= i < |vs| ==> vs[i] <= Highest(vs)
    ensures Highest(vs) == DoubleMinValue || exists i :: 0 <= i < |vs| && Highest(vs) == vs[i]
  {
    if vs != [] {
      var n := |vs| - 1;
      HighestIsGreatest(vs[..n]);
      assert forall i :: 0 <= i < n ==> vs[..n][i] == vs[i];
    }
  }

  /**
   * The range the grey scale spans: the least and the greatest value, the
   * top moved to one above the bottom when it is not above it (all samples
   * equal). The range is never empty and holds every value.
   */
  function DisplayRange(vs: seq<real>): (r: (real, real))
    ensures r.0 < r.1
    ensures forall i :: 0 <= i < |vs| ==> r.0 <= vs[i] <= r.1
    ensures r.0 == Lowest(vs)
    ensures r.1 == Highest(vs) || r.1 == Lowest(vs) + 1.0
  {
    LowestIsLeast(vs);
    HighestIsGreatest(vs);
    var lo, hi := Lowest(vs), Highest(vs);
    (lo, if hi <= lo then lo + 1.0 else hi)
  }

  /** The first pass of `convertDicomToBitmap`: the least and greatest of the `n` sample values, with the equal-values guard. */
  method ValueRange(data: seq<Byte>, format: SampleFormat, n: nat) returns (minValue: real, maxValue: real)
    ensures (minValue, maxValue) == DisplayRange(SampleValues(data, format, n))
  {
    ghost var vs := SampleValues(data, format, n);
    minValue := DoubleMaxValue;
    maxValue := DoubleMinValue;
    var i := 0;
    while i < n
      invariant 0 <= i <= n
      invariant minValue == Lowest(vs[..i]) && maxValue == Highest(vs[..i])
    {
      var value := SampleValue(data, format, i);
      assert vs[..i + 1][..i] == vs[..i];
      minValue := MinReal(minValue, value);
      maxValue := MaxReal(maxValue, value);
      i := i + 1;
    }
    assert vs[..n] == vs;
    if maxValue <= minValue {
      maxValue := minValue + 1.0;
    }
  }

  // ---------------------------------------------------------------- grey levels

  /** `((value - min) / (max - min) * 255).toInt().coerceIn(0, 255)`. */
  function GreyLevel(value: real, minValue: real, maxValue: real): (g: int)
    requires minValue < maxValue
    ensures 0 <= g <= 255
    ensures value <= minValue ==> g == 0
    ensures value >= maxValue ==> g == 255
  {
    var ratio := (value - minValue) / (maxValue - minValue);
    assert value <= minValue ==> ratio <= 0.0;
    assert value >= maxValue ==> ratio >= 1.0 by {
      if value >= maxValue {
        DivAtLeastOne(value - minValue, maxValue - minValue);
      }
    }
    var scaled := FloatToInt(ratio * 255.0);
    CoerceIn(scaled, 0, 255).value
  }

  lemma DivAtLeastOne(a: real, d: real)
    requires 0.0 < d <= a
    ensures a / d >= 1.0
  {
    var q := a / d;
    assert (q - 1.0) * d == a - d;
  }

  lemma TruncateMonotone(a: real, b: real)
    requires a <= b
    ensures Truncate(a) <= Truncate(b)
  {
  }

  /** A brighter sample is never painted darker. */
  lemma GreyMonotone(a: real, b: real, minValue: real, maxValue: real)
    requires minValue < maxValue && a <= b
    ensures GreyLevel(a, minValue, maxValue) <= GreyLevel(b, minValue, maxValue)
  {
    var d := maxValue - minValue;
    assert (a - minValue) / d <= (b - minValue) / d;
    TruncateMonotone((a - minValue) / d * 255.0, (b - minValue) / d * 255.0);
  }

  /** `Color.rgb(r, g, b)`: an opaque ARGB colour as a signed 32-bit Int. */
  function Rgb(r: Byte, g: Byte, b: Byte): (c: int)
    ensures IsInt(c)
  {
    (r - 0x100) * 0x1_0000 + g * 0x100 + b
  }

  /** `Color.alpha`, `Color.red`, `Color.green`, `Color.blue`: the bytes of an ARGB Int (`(c shr k) and 0xFF`). */
  function Alpha(c: int): int { (c / 0x100_0000) % 0x100 }
  function Red(c: int): int { (c / 0x1_0000) % 0x100 }
  function Green(c: int): int { (c / 0x100) % 0x100 }
  function Blue(c: int): int { c % 0x100 }

  /** `Color.rgb` is opaque and its channels read back the components it was given. */
  lemma RgbChannels(r: Byte, g: Byte, b: Byte)
    ensures Alpha(Rgb(r, g, b)) == 0xFF
    ensures Red(Rgb(r, g, b)) == r && Green(Rgb(r, g, b)) == g && Blue(Rgb(r, g, b)) == b
  {
    var c := Rgb(r, g, b);
    var gb := g * 0x100 + b;
    DivideBetween(c, 0x1_0000, r - 0x100);
    DivideBetween(r - 0x100, 0x100, -1);
    DivideBetween(c, 0x100_0000, -1);
    DivideBetween(-1, 0x100, -1);
    var rg := (r - 0x100) * 0x100 + g;
    assert c == rg * 0x100 + b;
    DivideBetween(c, 0x100, rg);
    DivideBetween(rg, 0x100, r - 0x100);
    DivideBetween(c, 0x100, rg);
  }

  /** The colour of the pixel at sample `i`: grey at its place in the range. */
  function PixelColour(data: seq<Byte>, format: SampleFormat, i: int, minValue: real, maxValue: real): int
    requires 0 <= i && minValue < maxValue
  {
    var g := GreyLevel(SampleValue(data, format, i), minValue, maxValue);
    Rgb(g, g, g)
  }

  /** The second pass: paint pixel `(x, y)` with the grey of sample `y * width + x`, row by row. */
  method Paint(data: seq<Byte>, format: SampleFormat, width: nat, height: nat, minValue: real, maxValue: real)
    returns (bitmap: array2<int>)
    requires minValue < maxValue
    ensures fresh(bitmap) && bitmap.Length0 == height && bitmap.Length1 == width
    ensures forall y, x :: 0 <= y < height && 0 <= x < width ==>
      bitmap[y, x] == PixelColour(data, format, y * width + x, minValue, maxValue)
  {
    bitmap := new int[height, width];
    var y := 0;
    while y < height
      invariant 0 <= y <= height
      invariant forall yy, xx :: 0 <= yy < y && 0 <= xx < width ==>
        bitmap[yy, xx] == PixelColour(data, format, yy * width + xx, minValue, maxValue)
    {
      var x := 0;
      while x < width
        invariant 0 <= x <= width
        invariant forall yy, xx :: 0 <= yy < y && 0 <= xx < width ==>
          bitmap[yy, xx] == PixelColour(data, format, yy * width + xx, minValue, maxValue)
        invariant forall xx :: 0 <= xx < x ==>
          bitmap[y, xx] == PixelColour(data, format, y * width + xx, minValue, maxValue)
      {
        var i := y * width + x;
        var value := SampleValue(data, format, i);
        var clamped := GreyLevel(value, minValue, maxValue);
        bitmap[y, x] := Rgb(clamped, clamped, clamped);
        x := x + 1;
      }
      y := y + 1;
    }
  }

  // ---------------------------------------------------------------- the whole conversion

  /** The attributes of a data set the conversion reads; None where the data set lacks the attribute. */
  datatype DicomAttributes = DicomAttributes(
    columns: Option<int>, rows: Option<int>, bitsAllocated: Option<int>, pixelRepresentation: Option<int>,
    rescaleSlope: Option<real>, rescaleIntercept: Option<real>, pixelData: Option<seq<Byte>>)

  /** A DICOM file: whether it exists and can be read, and its data set, None when it does not parse. */
  datatype DicomFile = DicomFile(exists_: bool, canRead: bool, dataset: Option<DicomAttributes>)

  /** `attrs.getInt(tag, default)` and `attrs.getDouble(tag, default)`. */
  function IntOr(v: Option<int>, default: int): int { if v.Some? then v.value else default }
  function RealOr(v: Option<real>, default: real): real { if v.Some? then v.value else default }

  /** The sample format a data set declares, with the defaults the conversion uses. */
  function FormatOf(attrs: DicomAttributes): SampleFormat
  {
    SampleFormat(IntOr(attrs.bitsAllocated, 8), IntOr(attrs.pixelRepresentation, 0),
                 RealOr(attrs.rescaleSlope, 1.0), RealOr(attrs.rescaleIntercept, 0.0))
  }

  /** The conversion fails (IOException) on an unreadable or unparsable file, a missing Columns, Rows or PixelData, or an empty size. */
  predicate Convertible(file: DicomFile)
  {
    file.exists_ && file.canRead && file.dataset.Some? &&
    file.dataset.value.columns.Some? && file.dataset.value.rows.Some? && file.dataset.value.pixelData.Some? &&
    file.dataset.value.columns.value > 0 && file.dataset.value.rows.value > 0
  }

  const ConversionFailed := "Failed to convert DICOM to bitmap"

  /**
   * `convertDicomToBitmap`: a Columns × Rows bitmap whose pixel `(x, y)` is
   * grey at the place of sample `y * Columns + x` in the range of all the
   * samples; an IOException when the file cannot be converted.
   */
  method ConvertDicomToBitmap(file: DicomFile) returns (r: Result<array2<int>>)
    ensures r.Failure? <==> !Convertible(file)
    ensures r.Failure? ==> r.error == ConversionFailed
    ensures r.Success? ==>
      var attrs := file.dataset.value;
      var width, height := attrs.columns.value, attrs.rows.value;
      var data, format := attrs.pixelData.value, FormatOf(attrs);
      var range := DisplayRange(SampleValues(data, format, width * height));
      fresh(r.value) && r.value.Length0 == height && r.value.Length1 == width &&
      forall y, x :: 0 <= y < height && 0 <= x < width ==>
        r.value[y, x] == PixelColour(data, format, y * width + x, range.0, range.1)
  {
    if !Convertible(file) {
      return Failure(ConversionFailed);
    }
    var attrs := file.dataset.value;
    var width, height := attrs.columns.value, attrs.rows.value;
    var data, format := attrs.pixelData.value, FormatOf(attrs);
    var minValue, maxValue := ValueRange(data, format, width * height);
    var bitmap := Paint(data, format, width, height, minValue, maxValue);
    return Success(bitmap);
  }
}
