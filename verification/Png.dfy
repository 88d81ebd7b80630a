/**
  From the compressed bytes of a PNG image to its pixels (lsapi/picopng.cpp, PNG::decode), for
  images with at least 8 bits per pixel: the decoder for zlib streams, then the rows or the
  passes of the interlaced image. An encoder for both is given beside it.
 */
module Png {
  import opened Options
  import opened Bits
  import opened Filter
  import opened Rows
  import opened Adam7
  import Inflate
  import Inflator
  import Deflate
  import Encoder

  /** The scanlines that a zlib stream holds. */
  function Inflated(idat: seq<byte>): Result<seq<byte>, nat> {
    if |idat| < 2 then Err(53)
    else if Inflator.HeaderError(idat[0], idat[1]) != 0 then Err(Inflator.HeaderError(idat[0], idat[1]))
    else Inflate.Blocks(idat[2..], |idat|, 0, [])
  }

  /** The error and the pixels that the scanlines of an image without interlacing give. */
  ghost predicate ShowsRows(scanlines: seq<byte>, w: nat, h: nat, bw: nat, error: nat, pixels: seq<byte>)
    requires bw > 0
  {
    match Lines(scanlines, 0, w * bw, bw, h)
    case None => error == ERROR_FILTER
    case Some(rows) => error == 0 && pixels == Flatten(rows)
  }

  /** Those of an interlaced image. */
  ghost predicate ShowsPasses(scanlines: seq<byte>, w: nat, h: nat, bw: nat, error: nat, pixels: seq<byte>)
    requires bw > 0
  {
    && error == (if Decodable(scanlines, w, h, bw) then 0 else ERROR_FILTER)
    && (error == 0 ==> |pixels| == h * w * bw && PassesInPlace(pixels, scanlines, w, h, bw, 7))
  }

  /** The error and the pixels are what the image holds. */
  ghost predicate Decodes(idat: seq<byte>, w: nat, h: nat, bw: nat, interlaced: bool, error: nat, pixels: seq<byte>)
    requires bw > 0
  {
    var r := Inflated(idat);
    if r.Err? then error == r.error
    else if interlaced then ShowsPasses(r.value, w, h, bw, error, pixels)
    else ShowsRows(r.value, w, h, bw, error, pixels)
  }

  method DecodePixels(idat: seq<byte>, w: nat, h: nat, bw: nat, interlaced: bool) returns (error: nat, out: array<byte>)
    requires w > 0 && bw > 0
    ensures Decodes(idat, w, h, bw, interlaced, error, out[..])
  {
    hide *;
    var scanlines: seq<byte> := seq<byte>(w * (h * (8 * bw) + 7) / 8 + h, _ => 0);
    InflateErrors(idat);
    error, scanlines := Inflator.Decompress(scanlines, idat);
    if error != 0 {
      out := new byte[0];
      NotInflated(idat, w, h, bw, interlaced, error, out[..]);
      return;
    }
    out := new byte[h * w * bw](_ => 0);
    if interlaced {
      error := DecodeInterlaced(out, scanlines, w, h, bw);
      InterlacedDecodes(idat, w, h, bw, error, out[..]);
    } else {
      assert h * w * bw == h * (w * bw);
      error := UnfilterRows(out, scanlines, w, h, bw);
      RowsShow(scanlines, w, h, bw, error, out[..]);
      RowsDecode(idat, w, h, bw, error, out[..]);
    }
  }

  /** There are errors exactly where nothing is inflated. */
  lemma InflateErrors(idat: seq<byte>)
    ensures |idat| < 2 ==> Inflated(idat) == Err(53)
    ensures |idat| >= 2 ==>
      var e := Inflator.HeaderError(idat[0], idat[1]);
      Inflated(idat) == if e != 0 then Err(e) else Inflate.Blocks(idat[2..], |idat|, 0, [])
    ensures Inflated(idat).Err? ==> Inflated(idat).error != 0
  {
    hide Inflate.Blocks;
  }

  lemma NotInflated(idat: seq<byte>, w: nat, h: nat, bw: nat, interlaced: bool, error: nat, pixels: seq<byte>)
    requires bw > 0 && Inflated(idat) == Err(error)
    ensures Decodes(idat, w, h, bw, interlaced, error, pixels)
  {
    hide Inflated;
  }

  lemma InterlacedDecodes(idat: seq<byte>, w: nat, h: nat, bw: nat, error: nat, pixels: seq<byte>)
    requires bw > 0 && Inflated(idat).Ok? && |pixels| == h * w * bw
    requires error == if Decodable(Inflated(idat).value, w, h, bw) then 0 else ERROR_FILTER
    requires error == 0 ==> PassesInPlace(pixels, Inflated(idat).value, w, h, bw, 7)
    ensures Decodes(idat, w, h, bw, true, error, pixels)
  {
    hide Inflated, Decodable, PassesInPlace;
  }

  lemma RowsShow(scanlines: seq<byte>, w: nat, h: nat, bw: nat, error: nat, pixels: seq<byte>)
    requires bw > 0
    requires var r := Lines(scanlines, 0, w * bw, bw, h);
      if r.None? then error == ERROR_FILTER else error == 0 && pixels == Flatten(r.value)
    ensures ShowsRows(scanlines, w, h, bw, error, pixels)
  {
    hide Lines, Flatten;
  }

  lemma RowsDecode(idat: seq<byte>, w: nat, h: nat, bw: nat, error: nat, pixels: seq<byte>)
    requires bw > 0 && Inflated(idat).Ok? && ShowsRows(Inflated(idat).value, w, h, bw, error, pixels)
    ensures Decodes(idat, w, h, bw, false, error, pixels)
  {
    hide Inflated, ShowsRows;
  }

  // ---- An encoder ----

  /** The rows, each behind its filter type and filtered against the one above. */
  function FilteredRows(rows: seq<seq<byte>>, types: seq<byte>, len: nat, bw: nat): (bytes: seq<byte>)
    requires bw > 0 && |types| == |rows| && AllLength(rows, len)
    ensures |bytes| == |rows| * (1 + len)
  {
    if rows == [] then []
    else
      var n := |rows| - 1;
      assert |rows| * (1 + len) == n * (1 + len) + (1 + len);
      FilteredRows(rows[..n], types[..n], len, bw) + ([types[n]] + FilterLine(types[n], rows[n], Last(rows[..n], len), bw))
  }

  /** Every filter type exists. */
  predicate FilterTypes(types: seq<byte>) {
    forall i | 0 <= i < |types| :: types[i] <= 4
  }

  lemma StartNext(p: nat, y: nat, len: nat)
    ensures Start(p, y + 1, len) == Start(p, y, len) + 1 + len >= p
    ensures Start(p, 0, len) == p && p <= Start(p, y, len) == p + y * (1 + len)
  {
    assert (y + 1) * (1 + len) == y * (1 + len) + (1 + len);
  }

  lemma {:induction false} RowsAreThere(data: seq<byte>, p: nat, rows: seq<seq<byte>>, types: seq<byte>, len: nat, bw: nat)
    requires bw > 0 && |types| == |rows| && AllLength(rows, len) && FilterTypes(types)
    requires p <= |data| && FilteredRows(rows, types, len, bw) <= data[p..]
    ensures LinesAt(data, p, rows, types, len, bw)
    decreases |rows|
  {
    hide *;
    NoRows(data, p, rows, types, len, bw);
    if rows != [] {
      var n := |rows| - 1;
      RowsBut(rows, types, len);
      LastFiltered(rows, types, len, bw);
      StartNext(p, n, len);
      var above := Last(rows[..n], len);
      SplitRow(data, p, FilteredRows(rows[..n], types[..n], len, bw), types[n], FilterLine(types[n], rows[n], above, bw));
      RowsAreThere(data, p, rows[..n], types[..n], len, bw);
      RowIsThere(data, Start(p, n, len), types[n], rows[n], above, bw);
      OneMoreLine(data, p, rows, types, len, bw);
    }
  }

  lemma NoRows(data: seq<byte>, p: nat, rows: seq<seq<byte>>, types: seq<byte>, len: nat, bw: nat)
    requires bw > 0 && |types| == |rows|
    ensures rows == [] ==> LinesAt(data, p, rows, types, len, bw)
  {
  }

  lemma RowsBut(rows: seq<seq<byte>>, types: seq<byte>, len: nat)
    requires rows != [] && |types| == |rows| && AllLength(rows, len) && FilterTypes(types)
    ensures var n := |rows| - 1;
      && AllLength(rows[..n], len) && FilterTypes(types[..n]) && |rows[n]| == len && types[n] <= 4
      && forall y | 0 <= y < n :: |rows[..n][y]| == len
  {
  }

  lemma LastFiltered(rows: seq<seq<byte>>, types: seq<byte>, len: nat, bw: nat)
    requires rows != [] && bw > 0 && |types| == |rows| && AllLength(rows, len)
    ensures var n := |rows| - 1;
      && |rows[n]| == len && |FilteredRows(rows[..n], types[..n], len, bw)| == n * (1 + len)
      && FilteredRows(rows, types, len, bw)
         == FilteredRows(rows[..n], types[..n], len, bw) + ([types[n]] + FilterLine(types[n], rows[n], Last(rows[..n], len), bw))
  {
    hide FilterLine, Last;
  }

  lemma OneMoreLine(data: seq<byte>, p: nat, rows: seq<seq<byte>>, types: seq<byte>, len: nat, bw: nat)
    requires rows != [] && bw > 0 && |types| == |rows| && AllLength(rows, len)
    requires var n := |rows| - 1;
      && LinesAt(data, p, rows[..n], types[..n], len, bw)
      && (forall y | 0 <= y < n :: |rows[..n][y]| == len)
      && LineAt(data, Start(p, n, len), types[n], rows[n], Last(rows[..n], len), bw)
    ensures LinesAt(data, p, rows, types, len, bw)
  {
    hide LineAt, Last, Start;
    var n := |rows| - 1;
    forall y | 0 <= y < |rows|
      ensures LineAt(data, Start(p, y, len), types[y], rows[y], Last(rows[..y], len), bw)
    {
      if y < n {
        assert rows[..n][..y] == rows[..y] && rows[..n][y] == rows[y] && types[..n][y] == types[y];
      }
    }
  }

  lemma SplitRow(data: seq<byte>, p: nat, before: seq<byte>, filterType: byte, line: seq<byte>)
    requires p <= |data| && before + ([filterType] + line) <= data[p..]
    ensures before <= data[p..] && p + |before| + 1 + |line| <= |data|
    ensures data[p + |before|] == filterType && data[p + |before| + 1..p + |before| + 1 + |line|] == line
  {
    var all := before + ([filterType] + line);
    assert data[p..][..|all|] == all;
    assert data[p + |before|] == all[|before|];
    assert data[p + |before| + 1..p + |before| + 1 + |line|] == all[|before| + 1..];
  }

  lemma RowIsThere(data: seq<byte>, start: nat, filterType: byte, line: seq<byte>, above: seq<byte>, bw: nat)
    requires bw > 0 && |line| == |above| && filterType <= 4 && start + 1 + |line| <= |data|
    requires data[start] == filterType && data[start + 1..start + 1 + |line|] == FilterLine(filterType, line, above, bw)
    ensures LineAt(data, start, filterType, line, above, bw)
  {
  }

  /** The lines of a pass; a pass without columns has none. */
  ghost function FilteredPass(img: seq<byte>, w: nat, h: nat, bw: nat, types: seq<seq<byte>>, p: nat): (bytes: seq<byte>)
    requires bw > 0 && |img| == h * w * bw && p < 7 && PassTypes(w, h, types)
    ensures |bytes| == if PassW(p, w) > 0 then PassH(p, h) * (1 + PassW(p, w) * bw) else 0
  {
    if PassW(p, w) == 0 then []
    else
      ExtractedLength(img, w, h, bw, p);
      FilteredRows(ExtractLines(img, w, h, bw, p), types[p], PassW(p, w) * bw, bw)
  }

  /** A filter type for each line of each pass. */
  predicate PassTypes(w: nat, h: nat, types: seq<seq<byte>>) {
    |types| == 7 && forall p | 0 <= p < 7 :: FilterTypes(types[p]) && |types[p]| == PassH(p, h)
  }

  lemma ExtractedLength(img: seq<byte>, w: nat, h: nat, bw: nat, p: nat)
    requires bw > 0 && |img| == h * w * bw && p < 7
    ensures AllLength(ExtractLines(img, w, h, bw, p), PassW(p, w) * bw)
  {
    hide PassW, PassH, ExtractLine;
  }

  /** The first n passes one behind the other. */
  ghost function FilteredPasses(img: seq<byte>, w: nat, h: nat, bw: nat, types: seq<seq<byte>>, n: nat): (bytes: seq<byte>)
    requires bw > 0 && |img| == h * w * bw && n <= 7 && PassTypes(w, h, types)
    ensures 0 < n < 7 ==> |bytes| == PassStart(n, w, h, 8 * bw)
  {
    if n == 0 then []
    else
      var before := FilteredPasses(img, w, h, bw, types, n - 1);
      PassEnds(w, h, bw, n - 1);
      before + FilteredPass(img, w, h, bw, types, n - 1)
  }

  lemma PassEnds(w: nat, h: nat, bw: nat, p: nat)
    requires p < 7
    ensures PassStart(0, w, h, 8 * bw) == 0
    ensures p < 6 ==>
      PassStart(p + 1, w, h, 8 * bw)
      == PassStart(p, w, h, 8 * bw) + (if PassW(p, w) > 0 then PassH(p, h) * (1 + PassW(p, w) * bw) else 0)
  {
    hide PassW, PassH;
    if p < 6 {
      PassesAdjacent(p, w, h, bw);
    }
  }

  /** A pass stands where the decoder looks for it. */
  ghost predicate PassIsThere(data: seq<byte>, img: seq<byte>, w: nat, h: nat, bw: nat, kinds: seq<nat>, p: nat)
    requires bw > 0 && |img| == h * w * bw && p < 7
  {
    PassW(p, w) > 0 ==>
      LinesAt(data, PassStart(p, w, h, 8 * bw), ExtractLines(img, w, h, bw, p), kinds, PassW(p, w) * bw, bw)
  }

  lemma {:induction false} PassesAreThere(img: seq<byte>, w: nat, h: nat, bw: nat, types: seq<seq<byte>>, n: nat, data: seq<byte>)
    requires bw > 0 && |img| == h * w * bw && n <= 7 && PassTypes(w, h, types)
    requires FilteredPasses(img, w, h, bw, types, n) <= data
    ensures forall p | 0 <= p < n :: PassIsThere(data, img, w, h, bw, types[p], p)
  {
    hide PassW, PassH, PassStart, ExtractLines, LinesAt, FilteredRows, FilteredPass, PassIsThere, FilterTypes;
    if n > 0 {
      var p := n - 1;
      var before, pass := FilteredPasses(img, w, h, bw, types, p), FilteredPass(img, w, h, bw, types, p);
      assert before <= data;
      PassesAreThere(img, w, h, bw, types, p, data);
      PassEnds(w, h, bw, p);
      assert |before| == PassStart(p, w, h, 8 * bw);
      assert data[|before|..|before| + |pass|] == (before + pass)[|before|..] == pass;
      NextPassIsThere(img, w, h, bw, types, p, data);
    }
  }

  lemma NextPassIsThere(img: seq<byte>, w: nat, h: nat, bw: nat, types: seq<seq<byte>>, p: nat, data: seq<byte>)
    requires bw > 0 && |img| == h * w * bw && p < 7 && PassTypes(w, h, types)
    requires var start, pass := PassStart(p, w, h, 8 * bw), FilteredPass(img, w, h, bw, types, p);
      start + |pass| <= |data| && data[start..start + |pass|] == pass
    ensures PassIsThere(data, img, w, h, bw, types[p], p)
  {
    hide PassW, PassH, PassStart, ExtractLines, LinesAt, FilteredRows;
    if PassW(p, w) > 0 {
      ExtractedLength(img, w, h, bw, p);
      RowsAreThere(data, PassStart(p, w, h, 8 * bw), ExtractLines(img, w, h, bw, p), types[p], PassW(p, w) * bw, bw);
    }
  }

  // ---- Images come back ----

  /** The blocks expand to the scanlines. */
  ghost predicate Carries(blocks: seq<Deflate.Block>, scanlines: seq<byte>) {
    && blocks != [] && (forall i | 0 <= i < |blocks| :: Encoder.Sendable(blocks[i]))
    && Deflate.BlocksOk([], blocks) && Deflate.ExpandBlocks([], blocks) == scanlines
  }

  lemma CarriedIsInflated(blocks: seq<Deflate.Block>, scanlines: seq<byte>, trailer: seq<byte>)
    requires Carries(blocks, scanlines)
    ensures Inflated(Encoder.Encode(blocks, trailer)) == Ok(scanlines)
  {
    hide Encoder.Encode, Inflate.Blocks, Encoder.Sendable, Deflate.BlocksOk, Deflate.ExpandBlocks, Inflator.HeaderError;
    Encoder.DecompressInvertsEncode(blocks, trailer);
  }

  /**
    Every image of at least 8 bits per pixel comes back from its filtered and compressed rows,
    whatever filter types and blocks an encoder chooses.
   */
  lemma ImageComesBack(rows: seq<seq<byte>>, types: seq<byte>, w: nat, bw: nat, blocks: seq<Deflate.Block>, trailer: seq<byte>, error: nat, pixels: seq<byte>)
    requires bw > 0 && |types| == |rows| && AllLength(rows, w * bw) && FilterTypes(types)
    requires Carries(blocks, FilteredRows(rows, types, w * bw, bw))
    requires Decodes(Encoder.Encode(blocks, trailer), w, |rows|, bw, false, error, pixels)
    ensures error == 0 && pixels == Flatten(rows)
  {
    hide Carries, FilterTypes, AllLength, Inflated, Encoder.Encode, LinesAt, Lines, Flatten;
    var scanlines := FilteredRows(rows, types, w * bw, bw);
    CarriedIsInflated(blocks, scanlines, trailer);
    assert scanlines[0..] == scanlines;
    RowsAreThere(scanlines, 0, rows, types, w * bw, bw);
    RowsRestored(scanlines, rows, types, w, bw);
  }

  /** So does every interlaced one. */
  lemma InterlacedImageComesBack(img: seq<byte>, w: nat, h: nat, bw: nat, types: seq<seq<byte>>, blocks: seq<Deflate.Block>, trailer: seq<byte>, error: nat, pixels: seq<byte>)
    requires bw > 0 && w > 0 && |img| == h * w * bw && PassTypes(w, h, types)
    requires Carries(blocks, FilteredPasses(img, w, h, bw, types, 7))
    requires Decodes(Encoder.Encode(blocks, trailer), w, h, bw, true, error, pixels)
    ensures error == 0 && pixels == img
  {
    hide Carries, Inflated, Encoder.Encode, PassesInPlace, Decodable, EncodedImage, FilteredPasses, PassTypes;
    var scanlines := FilteredPasses(img, w, h, bw, types, 7);
    CarriedIsInflated(blocks, scanlines, trailer);
    PassesAreThere(img, w, h, bw, types, 7, scanlines);
    ImageIsThere(scanlines, img, w, h, bw, types);
    InterlacedRestored(img, scanlines, img, w, h, bw, types);
    if error == 0 {
      InterlacedRestored(pixels, scanlines, img, w, h, bw, types);
    }
  }

  lemma ImageIsThere(scanlines: seq<byte>, img: seq<byte>, w: nat, h: nat, bw: nat, types: seq<seq<byte>>)
    requires bw > 0 && |img| == h * w * bw && PassTypes(w, h, types)
    requires forall p | 0 <= p < 7 :: PassIsThere(scanlines, img, w, h, bw, types[p], p)
    ensures EncodedImage(scanlines, img, w, h, bw, types)
  {
    hide LinesAt, PassW, PassH, PassStart, ExtractLines, FilterTypes;
  }
}
