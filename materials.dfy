/** Texture images, material parameters and the texture loader (src/scene/material.cpp). */
module Materials {
  import opened Common
  import opened Vectors

  /** Texture coordinates of a hit. */
  datatype UV = UV(u: real, v: real)

  /** A decoded image: `width` x `height` pixels of three bytes, row by row; `data` is
      None when nothing was loaded (the null `data` pointer). */
  datatype Image = Image(width: int, height: int, data: Option<seq<byte>>)

  /** Loaded pixel data covers every pixel the lookup can address. */
  predicate ValidImage(img: Image)
  {
    0 <= img.width && 0 <= img.height &&
    (img.data.Some? ==> 1 <= img.width && 1 <= img.height && img.width * img.height * 3 <= |img.data.value|)
  }

  /** Byte offset of pixel (x, y) in a row-major three-byte image. */
  function PixelOffset(x: int, y: int, width: int): int
  {
    (y * width + x) * 3
  }

  lemma PixelOffsetInRange(x: int, y: int, w: int, h: int)
    requires 0 <= x < w && 0 <= y < h
    ensures 0 <= PixelOffset(x, y, w) && PixelOffset(x, y, w) + 2 < w * h * 3
  {
    assert y * w <= (h - 1) * w by {
      assert (h - 1) * w - y * w == (h - 1 - y) * w;
    }
    assert (h - 1) * w + w == h * w;
  }

  function ByteUnit(b: byte): (r: real)
    ensures 0.0 <= r <= 1.0
  {
    (b as real) / 255.0
  }

  /** `TextureMap::getPixelAt` (and `BumpMap::getPixelAt`, the same code): white without
      data; coordinates past the right or bottom edge are clamped to the last column or row. */
  function PixelAt(img: Image, x: int, y: int): (r: Vec3)
    requires ValidImage(img) && (img.data.Some? ==> 0 <= x && 0 <= y)
    ensures r.InUnit()
    ensures img.data.None? ==> r == White
  {
    match img.data
    case None => White
    case Some(data) =>
      var cx := if x >= img.width then img.width - 1 else x;
      var cy := if y >= img.height then img.height - 1 else y;
      var pos := PixelOffset(cx, cy, img.width);
      PixelOffsetInRange(cx, cy, img.width, img.height);
      Vec3(ByteUnit(data[pos]), ByteUnit(data[pos + 1]), ByteUnit(data[pos + 2]))
  }

  /** An in-range lookup reads the three bytes at offset (y * width + x) * 3, and a lookup past
      an edge reads the pixel on that edge. */
  lemma PixelAtReadsOffset(img: Image, x: int, y: int)
    requires ValidImage(img) && img.data.Some? && 0 <= x && 0 <= y
    ensures var cx := if x < img.width then x else img.width - 1;
            var cy := if y < img.height then y else img.height - 1;
            var pos := PixelOffset(cx, cy, img.width);
            0 <= pos && pos + 2 < |img.data.value| &&
            PixelAt(img, x, y) == Vec3(ByteUnit(img.data.value[pos]), ByteUnit(img.data.value[pos + 1]),
                                       ByteUnit(img.data.value[pos + 2]))
    ensures PixelAt(img, x, y) == PixelAt(img, if x < img.width then x else img.width - 1,
                                              if y < img.height then y else img.height - 1)
  {
    var cx := if x < img.width then x else img.width - 1;
    var cy := if y < img.height then y else img.height - 1;
    PixelOffsetInRange(cx, cy, img.width, img.height);
  }

  /** The four bilinear weights of `getMappedValue`, built from the fractional parts of a
      texture coordinate. */
  datatype Weights = Weights(a: real, b: real, c: real, d: real)

  function BilinearWeights(dX: real, dY: real): (w: Weights)
    ensures w.a + w.b + w.c + w.d == 1.0
    ensures 0.0 <= dX <= 1.0 && 0.0 <= dY <= 1.0 ==>
              w.a >= 0.0 && w.b >= 0.0 && w.c >= 0.0 && w.d >= 0.0
  {
    var w := Weights((1.0 - dX) * (1.0 - dY), dX * (1.0 - dY), (1.0 - dX) * dY, dX * dY);
    assert w.a + w.b + w.c + w.d == (1.0 - dX + dX) * (1.0 - dY) + (1.0 - dX + dX) * dY;
    WeightsNonNegative(dX, dY);
    w
  }

  lemma WeightsNonNegative(dX: real, dY: real)
    ensures 0.0 <= dX <= 1.0 && 0.0 <= dY <= 1.0 ==>
              (1.0 - dX) * (1.0 - dY) >= 0.0 && dX * (1.0 - dY) >= 0.0 && (1.0 - dX) * dY >= 0.0 && dX * dY >= 0.0
  {
    if 0.0 <= dX <= 1.0 && 0.0 <= dY <= 1.0 {
      MulNonNegative(1.0 - dX, 1.0 - dY);
      MulNonNegative(dX, 1.0 - dY);
      MulNonNegative(1.0 - dX, dY);
      MulNonNegative(dX, dY);
    }
  }

  lemma MulNonNegative(p: real, q: real)
    requires p >= 0.0 && q >= 0.0
    ensures p * q >= 0.0
  {
  }

  /** A channel scaled by a weight: for a channel in [0, 1] it lies between 0 and the weight. */
  function Weighted(k: real, v: real): (r: real)
    ensures k >= 0.0 && 0.0 <= v <= 1.0 ==> 0.0 <= r <= k
  {
    WeightedBound(k, v);
    k * v
  }

  lemma WeightedBound(k: real, v: real)
    ensures k >= 0.0 && 0.0 <= v <= 1.0 ==> 0.0 <= k * v <= k
  {
    if k >= 0.0 && 0.0 <= v <= 1.0 {
      assert k - k * v == k * (1.0 - v);
      MulNonNegative(k, 1.0 - v);
      MulNonNegative(k, v);
    }
  }

  function BlendChannel(w: Weights, p: real, q: real, r: real, s: real): real
  {
    Weighted(w.a, p) + Weighted(w.b, q) + Weighted(w.c, r) + Weighted(w.d, s)
  }

  /** The blend of four texels by the bilinear weights. */
  function Blend(w: Weights, p: Vec3, q: Vec3, r: Vec3, s: Vec3): Vec3
  {
    Vec3(BlendChannel(w, p.x, q.x, r.x, s.x), BlendChannel(w, p.y, q.y, r.y, s.y),
         BlendChannel(w, p.z, q.z, r.z, s.z))
  }

  /** The blend of four colours in [0, 1] under the weights of a convex combination stays in [0, 1]. */
  lemma BlendInUnit(w: Weights, p: Vec3, q: Vec3, r: Vec3, s: Vec3)
    requires w.a >= 0.0 && w.b >= 0.0 && w.c >= 0.0 && w.d >= 0.0 && w.a + w.b + w.c + w.d == 1.0
    requires p.InUnit() && q.InUnit() && r.InUnit() && s.InUnit()
    ensures Blend(w, p, q, r, s).InUnit()
  {
  }

  /** `TextureMap::getMappedValue`: the bilinear blend of the four texels around
      (u * width, v * height); with coordinates that are not negative the blend is a convex
      combination, so every channel stays in [0, 1]. */
  function MappedValue(img: Image, uv: UV): (r: Vec3)
    requires ValidImage(img) && uv.u >= 0.0 && uv.v >= 0.0
    ensures r.InUnit()
  {
    var xcoord := uv.u * (img.width as real);
    MulNonNegative(uv.u, img.width as real);
    MulNonNegative(uv.v, img.height as real);
    TruncNonNegative(xcoord);
    TruncNonNegative(uv.v * (img.height as real));
    var ycoord := uv.v * (img.height as real);
    var xIdx := Trunc(xcoord);
    var yIdx := Trunc(ycoord);
    var dX := xcoord - xIdx as real;
    var dY := ycoord - yIdx as real;
    var w := BilinearWeights(dX, dY);
    var p := PixelAt(img, xIdx, yIdx);
    var q := PixelAt(img, xIdx + 1, yIdx);
    var r := PixelAt(img, xIdx, yIdx + 1);
    var s := PixelAt(img, xIdx + 1, yIdx + 1);
    BlendInUnit(w, p, q, r, s);
    Blend(w, p, q, r, s)
  }

  lemma TruncNonNegative(x: real)
    requires x >= 0.0
    ensures 0 <= Trunc(x) && 0.0 <= x - Trunc(x) as real < 1.0
  {
  }

  /** `BumpMap::getDiffValue`: the normalised vector (scaled x-difference, scaled
      y-difference, 1) of the texel at (u * width, v * height) against its right and lower
      neighbours. */
  function BumpDiff(m: Math, img: Image, uv: UV, scale: real): Vec3
    requires ValidImage(img) && uv.u >= 0.0 && uv.v >= 0.0
  {
    var xCor := uv.u * (img.width as real);
    var yCor := uv.v * (img.height as real);
    MulNonNegative(uv.u, img.width as real);
    MulNonNegative(uv.v, img.height as real);
    TruncNonNegative(xCor);
    TruncNonNegative(yCor);
    var x := Trunc(xCor);
    var y := Trunc(yCor);
    var diffX := PixelAt(img, x, y).Sub(PixelAt(img, x + 1, y));
    var avgX := scale * (diffX.x + diffX.y + diffX.z) / 3.0;
    var diffY := PixelAt(img, x, y).Sub(PixelAt(img, x, y + 1));
    var avgY := scale * (diffY.x + diffY.y + diffY.z) / 3.0;
    m.normalize(Vec3(avgX, avgY, 1.0))
  }

  /** A material coefficient: a constant, optionally replaced by a texture lookup, with an
      optional bump source (`MaterialParameter`). */
  datatype Param = Param(constant: Vec3, texture: Option<Image>, bump: Option<Image>)

  predicate ValidParam(p: Param)
  {
    (p.texture.Some? ==> ValidImage(p.texture.value)) && (p.bump.Some? ==> ValidImage(p.bump.value))
  }

  /** The value `valueTMP` returns when no bump source is bound. */
  const BumpSentinel := Vec3(2.0, 2.0, 2.0)

  /** `MaterialParameter::value`: the texture lookup iff a texture is bound, else the constant. */
  function Value(p: Param, uv: UV): (r: Vec3)
    requires ValidParam(p) && uv.u >= 0.0 && uv.v >= 0.0
    ensures p.texture.None? ==> r == p.constant
    ensures p.texture.Some? ==> r == MappedValue(p.texture.value, uv) && r.InUnit()
  {
    if p.texture.Some? then MappedValue(p.texture.value, uv) else p.constant
  }

  /** `MaterialParameter::valueTMP`: the bump perturbation iff a bump source is bound, else
      the sentinel (2, 2, 2). */
  function BumpValue(m: Math, p: Param, uv: UV, scale: real): (r: Vec3)
    requires ValidParam(p) && uv.u >= 0.0 && uv.v >= 0.0
    ensures p.bump.None? ==> r == BumpSentinel
    ensures p.bump.Some? ==> r == BumpDiff(m, p.bump.value, uv, scale)
  {
    if p.bump.Some? then BumpDiff(m, p.bump.value, uv, scale) else BumpSentinel
  }

  /** Perceived brightness with the weights 0.299, 0.587 and 0.114, which sum to 1. */
  function Luminance(v: Vec3): (r: real)
    ensures v.x == v.y == v.z ==> r == v.x
    ensures v.InUnit() ==> 0.0 <= r <= 1.0
  {
    0.299 * v.x + 0.587 * v.y + 0.114 * v.z
  }

  /** `MaterialParameter::intensityValue`: the luminance of `value`. */
  function IntensityValue(p: Param, uv: UV): (r: real)
    requires ValidParam(p) && uv.u >= 0.0 && uv.v >= 0.0
    ensures p.texture.None? ==> r == Luminance(p.constant)
    ensures p.texture.Some? ==> 0.0 <= r <= 1.0
  {
    Luminance(Value(p, uv))
  }

  /** A material: emissive, ambient, specular, diffuse, reflective and transmissive
      coefficients, shininess, refractive index and bump source. */
  datatype Material = Material(ke: Param, ka: Param, ks: Param, kd: Param, kr: Param, kt: Param,
                               shininess: Param, index: Param, bump: Param)

  predicate ValidMaterial(mat: Material)
  {
    ValidParam(mat.ke) && ValidParam(mat.ka) && ValidParam(mat.ks) && ValidParam(mat.kd) &&
    ValidParam(mat.kr) && ValidParam(mat.kt) && ValidParam(mat.shininess) && ValidParam(mat.index) &&
    ValidParam(mat.bump)
  }
}

module TextureLoading {
  import opened Common
  import opened Materials

  /** What the PNG decoder reports for a file: the image size, its channel count, the length
      of a row in bytes and the rows in file order. */
  datatype PngImage = PngImage(width: int, height: int, channels: int, rowBytes: int, rows: seq<byte>)

  /** Index of the last occurrence of `c` in `s`, or -1 (`find_last_of` cast to int). */
  function LastIndexOf(s: string, c: char): (r: int)
    ensures -1 <= r < |s|
    ensures r >= 0 ==> s[r] == c && forall k :: r < k < |s| ==> s[k] != c
    ensures r == -1 ==> forall k :: 0 <= k < |s| ==> s[k] != c
  {
    if |s| == 0 then -1
    else if s[|s| - 1] == c then |s| - 1
    else LastIndexOf(s[..|s| - 1], c)
  }

  /** The extension the loader compares: `filename.substr(start, end)` with `start` the last
      '.' and `end` the index of the last character, so the count `end` keeps the whole tail
      except when the dot is the first character. None when there is no dot before the last
      character. */
  function Extension(filename: string): (r: Option<string>)
    ensures r.Some? <==> 0 <= LastIndexOf(filename, '.') < |filename| - 1
    ensures r.Some? && LastIndexOf(filename, '.') > 0 ==> r.value == filename[LastIndexOf(filename, '.')..]
    ensures r.Some? && LastIndexOf(filename, '.') == 0 ==> r.value == filename[..|filename| - 1]
  {
    var start := LastIndexOf(filename, '.');
    var end := |filename| - 1;
    if 0 <= start < end then
      var count := if end <= |filename| - start then end else |filename| - start;
      Some(filename[start .. start + count])
    else None
  }

  /** Position of byte `c` of row `j` in an image whose rows are `rowBytes` long. */
  function Cell(j: int, c: int, rowBytes: int): int
  {
    j * rowBytes + c
  }

  lemma CellInImage(j: int, c: int, rowBytes: int, height: int)
    requires 0 <= j < height && 0 <= c < rowBytes
    ensures 0 <= Cell(j, c, rowBytes) < rowBytes * height
  {
    assert j * rowBytes + rowBytes == (j + 1) * rowBytes;
    assert (height - (j + 1)) * rowBytes >= 0;
  }

  lemma RowBefore(jj: int, j: int, c: int, rowBytes: int)
    requires 0 <= jj < j && 0 <= c < rowBytes
    ensures 0 <= Cell(jj, c, rowBytes) < j * rowBytes
  {
    MulNonNegativeInt(jj, rowBytes);
    MulNonNegativeInt(j - (jj + 1), rowBytes);
    assert j * rowBytes - (jj + 1) * rowBytes == (j - (jj + 1)) * rowBytes;
  }

  lemma ChannelFits(q: int, n: int, channels: int, k: int)
    requires 0 <= q < n && 0 <= k < channels
    ensures q * channels + k < n * channels
  {
    assert n * channels - (q + 1) * channels == (n - q - 1) * channels;
    assert (n - q - 1) * channels >= 0;
  }

  /** Rows `0 .. done - 1` of `data` hold rows `height - 1`, `height - 2`, ... of `rows`. */
  ghost predicate FlippedRows(data: seq<byte>, rows: seq<byte>, done: int, height: int, rowBytes: int)
  {
    forall j, c {:trigger Cell(j, c, rowBytes)} :: 0 <= j < done && 0 <= c < rowBytes ==>
      0 <= Cell(j, c, rowBytes) < |data| && 0 <= Cell(height - 1 - j, c, rowBytes) < |rows| &&
      data[Cell(j, c, rowBytes)] == rows[Cell(height - 1 - j, c, rowBytes)]
  }

  /** The copy loop of the PNG branch of the `TextureMap` constructor: output row `j` is input
      row `height - 1 - j`, byte for byte, so the image is stored bottom row first. */
  method FlipRows(rows: seq<byte>, height: int, rowBytes: int, channels: int) returns (data: array<byte>)
    requires channels >= 1 && rowBytes >= 0 && height >= 0 && rowBytes % channels == 0
    requires rowBytes * height <= |rows|
    ensures fresh(data) && data.Length == rowBytes * height
    ensures FlippedRows(data[..], rows, height, height, rowBytes)
  {
    MulNonNegativeInt(rowBytes, height);
    data := new byte[rowBytes * height];
    var j := 0;
    while j < height
      invariant 0 <= j <= height && data.Length == rowBytes * height
      invariant FlippedRows(data[..], rows, j, height, rowBytes)
    {
      RowFits(j, rowBytes, height);
      RowFits(height - 1 - j, rowBytes, height);
      var dst := j * rowBytes;
      var src := (height - j - 1) * rowBytes;
      ghost var before := data[..];
      CopyRow(data, rows, dst, src, rowBytes, channels);
      ghost var after := data[..];
      forall jj, c {:trigger Cell(jj, c, rowBytes)} | 0 <= jj < j + 1 && 0 <= c < rowBytes
        ensures 0 <= Cell(jj, c, rowBytes) < |after| && 0 <= Cell(height - 1 - jj, c, rowBytes) < |rows|
        ensures after[Cell(jj, c, rowBytes)] == rows[Cell(height - 1 - jj, c, rowBytes)]
      {
        if jj < j {
          RowBefore(jj, j, c, rowBytes);
          assert after[Cell(jj, c, rowBytes)] == before[Cell(jj, c, rowBytes)];
        } else {
          assert Cell(jj, c, rowBytes) == dst + c;
          assert Cell(height - 1 - jj, c, rowBytes) == src + c;
        }
      }
      assert FlippedRows(after, rows, j + 1, height, rowBytes);
      j := j + 1;
    }
  }

  lemma RowFits(j: int, rowBytes: int, height: int)
    requires 0 <= j < height && 0 <= rowBytes
    ensures 0 <= j * rowBytes && j * rowBytes + rowBytes <= rowBytes * height
  {
    assert j * rowBytes + rowBytes == (j + 1) * rowBytes;
    assert rowBytes * height - (j + 1) * rowBytes == (height - (j + 1)) * rowBytes;
    MulNonNegativeInt(height - (j + 1), rowBytes);
    MulNonNegativeInt(j, rowBytes);
  }

  /** The two inner loops of the copy: one row, pixel by pixel and channel by channel. */
  method CopyRow(data: array<byte>, rows: seq<byte>, dst: int, src: int, rowBytes: int, channels: int)
    requires channels >= 1 && rowBytes >= 0 && rowBytes % channels == 0
    requires 0 <= dst && dst + rowBytes <= data.Length && 0 <= src && src + rowBytes <= |rows|
    modifies data
    ensures forall p :: dst <= p < dst + rowBytes ==> data[p] == rows[p - dst + src]
    ensures forall p :: 0 <= p < data.Length && !(dst <= p < dst + rowBytes) ==> data[p] == old(data[p])
  {
    ghost var n := rowBytes / channels;
    assert rowBytes == n * channels;
    var i := 0;
    ghost var q := 0;
    while i < rowBytes
      invariant 0 <= q <= n && i == q * channels && i <= rowBytes
      invariant forall p :: dst <= p < dst + i ==> data[p] == rows[p - dst + src]
      invariant forall p :: 0 <= p < data.Length && !(dst <= p < dst + rowBytes) ==> data[p] == old(data[p])
    {
      var k := 0;
      while k < channels
        invariant 0 <= k <= channels
        invariant 0 <= i + k <= rowBytes
        invariant forall p :: dst <= p < dst + i + k ==> data[p] == rows[p - dst + src]
        invariant forall p :: 0 <= p < data.Length && !(dst <= p < dst + rowBytes) ==> data[p] == old(data[p])
      {
        ChannelFits(q, n, channels, k);
        data[dst + k + i] := rows[src + k + i];
        k := k + 1;
      }
      ChannelFits(q, n, channels, channels - 1);
      i := i + channels;
      q := q + 1;
    }
  }

  lemma MulNonNegativeInt(a: int, b: int)
    requires a >= 0 && b >= 0
    ensures a * b >= 0
  {
  }

  /** What the PNG decoder must deliver for the copy to stay inside its rows. */
  predicate DecodedPng(png: PngImage)
  {
    png.channels >= 1 && png.rowBytes >= 0 && png.height >= 0 && png.rowBytes % png.channels == 0 &&
    png.rowBytes * png.height <= |png.rows|
  }

  /** What the BMP reader returns on success: the size and the pixel bytes. */
  datatype BmpImage = BmpImage(width: int, height: int, pixels: seq<byte>)

  function LoadError(filename: string): string
  {
    "Unable to load texture map '" + filename + "'."
  }

  /** The `TextureMap` constructor. The decoders are parameters: `png` is None when the PNG
      reader fails to open the file, `bmp` is None when the BMP reader returns no data. A
      ".png" file is copied bottom row first, a ".bmp" file is taken as read, and anything
      else, including an extension that is neither, fails with the loader's message. */
  method LoadTextureMap(filename: string, png: Option<PngImage>, bmp: Option<BmpImage>) returns (r: Result<Image>)
    requires png.Some? ==> DecodedPng(png.value)
    ensures Extension(filename) == Some(".png") && png.Some? ==>
              r.Ok? && r.value.width == png.value.width && r.value.height == png.value.height &&
              r.value.data.Some? && |r.value.data.value| == png.value.rowBytes * png.value.height &&
              FlippedRows(r.value.data.value, png.value.rows, png.value.height, png.value.height, png.value.rowBytes)
    ensures Extension(filename) == Some(".bmp") && bmp.Some? ==>
              r == Ok(Image(bmp.value.width, bmp.value.height, Some(bmp.value.pixels)))
    ensures r.Err? <==> !((Extension(filename) == Some(".png") && png.Some?) ||
                          (Extension(filename) == Some(".bmp") && bmp.Some?))
    ensures r.Err? ==> r.message == LoadError(filename)
  {
    var ext := Extension(filename);
    if ext == Some(".png") && png.Some? {
      var p := png.value;
      var data := FlipRows(p.rows, p.height, p.rowBytes, p.channels);
      return Ok(Image(p.width, p.height, Some(data[..])));
    } else if ext == Some(".bmp") && bmp.Some? {
      return Ok(Image(bmp.value.width, bmp.value.height, Some(bmp.value.pixels)));
    }
    return Err(LoadError(filename));
  }

  /** A PNG of at least one pixel whose rows hold at least three bytes per pixel loads into
      an image every lookup can address. */
  lemma PngTextureValid(png: PngImage, data: seq<byte>)
    requires DecodedPng(png) && png.width >= 1 && png.height >= 1 && png.rowBytes >= 3 * png.width
    requires |data| == png.rowBytes * png.height
    ensures ValidImage(Image(png.width, png.height, Some(data)))
  {
    assert png.width * png.height * 3 == (3 * png.width) * png.height;
    assert png.rowBytes * png.height - (3 * png.width) * png.height == (png.rowBytes - 3 * png.width) * png.height;
    MulNonNegativeInt(png.rowBytes - 3 * png.width, png.height);
  }
}
