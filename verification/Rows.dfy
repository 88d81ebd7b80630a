/**
  The rows of a PNG image (lsapi/picopng.cpp, PNG::decode) without interlacing, for
  images with at least 8 bits per pixel. bw is the number of bytes of a pixel.
 */
module Rows {
  import opened Options
  import opened Bits
  import opened Filter

  // ---- Filtered lines, one behind the other ----

  function Last(lines: seq<seq<byte>>, len: nat): (line: seq<byte>)
    requires forall y | 0 <= y < |lines| :: |lines[y]| == len
    ensures |line| == len
  {
    if |lines| == 0 then Zeros(len) else lines[|lines| - 1]
  }

  /** Where the filter type of line y stands, for lines of len bytes from p on. */
  function Start(p: nat, y: nat, len: nat): nat {
    p + y * (1 + len)
  }

  /**
    The first h lines of len bytes that stand in data from p on, each behind its filter
    type; None when one of the types does not exist.
   */
  function Lines(data: seq<byte>, p: nat, len: nat, bw: nat, h: nat): (r: Option<seq<seq<byte>>>)
    requires bw > 0
    ensures r.Some? ==> |r.value| == h && forall y | 0 <= y < h :: |r.value[y]| == len
  {
    if h == 0 then Some([])
    else
      match Lines(data, p, len, bw, h - 1)
      case None => None
      case Some(lines) =>
        var start := Start(p, h - 1, len);
        if ByteAt(data, start) > 4 then None
        else Some(lines + [UnfilterLine(ByteAt(data, start), BytesAt(data, start + 1, len), Last(lines, len), bw)])
  }

  /** The encoder's side of one line: its filter type, then the line filtered against the one above. */
  ghost predicate LineAt(data: seq<byte>, start: nat, filterType: nat, line: seq<byte>, above: seq<byte>, bw: nat)
    requires bw > 0 && |line| == |above|
  {
    && start + 1 + |line| <= |data| && filterType <= 4
    && data[start] == filterType
    && data[start + 1..start + 1 + |line|] == FilterLine(filterType, line, above, bw)
  }

  ghost predicate AllLength(lines: seq<seq<byte>>, len: nat) {
    forall y | 0 <= y < |lines| :: |lines[y]| == len
  }

  /** All lines are encoded from p on, each with a filter type of its own. */
  ghost predicate LinesAt(data: seq<byte>, p: nat, lines: seq<seq<byte>>, types: seq<nat>, len: nat, bw: nat)
    requires bw > 0
  {
    && |types| == |lines| && AllLength(lines, len)
    && forall y | 0 <= y < |lines| :: LineAt(data, Start(p, y, len), types[y], lines[y], Last(lines[..y], len), bw)
  }

  lemma LineRestored(data: seq<byte>, start: nat, filterType: nat, line: seq<byte>, above: seq<byte>, bw: nat)
    requires bw > 0 && |line| == |above| && LineAt(data, start, filterType, line, above, bw)
    ensures ByteAt(data, start) == filterType <= 4
    ensures UnfilterLine(filterType, BytesAt(data, start + 1, |line|), above, bw) == line
  {
    assert BytesAt(data, start + 1, |line|) == data[start + 1..start + 1 + |line|];
    UnfilterInvertsFilter(filterType, line, above, bw);
  }

  lemma NoLines(data: seq<byte>, start: nat, len: nat, bw: nat)
    requires bw > 0
    ensures Lines(data, start, len, bw, 0) == Some([])
  {
  }

  lemma LinesStep(data: seq<byte>, p: nat, lines: seq<seq<byte>>, types: seq<nat>, len: nat, bw: nat, y: nat)
    requires bw > 0 && LinesAt(data, p, lines, types, len, bw) && y < |lines|
    requires Lines(data, p, len, bw, y) == Some(lines[..y])
    ensures Lines(data, p, len, bw, y + 1) == Some(lines[..y] + [lines[y]])
  {
    hide Start, LineAt, UnfilterLine;
    var above, start := Last(lines[..y], len), Start(p, y, len);
    assert LineAt(data, start, types[y], lines[y], above, bw);
    LineRestored(data, start, types[y], lines[y], above, bw);
  }

  /** Filtered lines are restored, whatever filter types the encoder chose. */
  lemma {:induction false} LinesRestored(data: seq<byte>, p: nat, lines: seq<seq<byte>>, types: seq<nat>, len: nat, bw: nat, h: nat)
    requires bw > 0 && LinesAt(data, p, lines, types, len, bw) && h <= |lines|
    ensures Lines(data, p, len, bw, h) == Some(lines[..h])
  {
    hide LinesAt, Lines;
    if h == 0 {
      NoLines(data, p, len, bw);
    } else {
      LinesRestored(data, p, lines, types, len, bw, h - 1);
      LinesStep(data, p, lines, types, len, bw, h - 1);
      assert lines[..h - 1] + [lines[h - 1]] == lines[..h];
    }
  }

  /** Byte i of row y; outside of the image there are zeros. */
  function At(rows: seq<seq<byte>>, y: int, i: int): byte {
    if 0 <= y < |rows| && 0 <= i < |rows[y]| then rows[y][i] else 0
  }

  /**
    Each byte of an image is what the scanlines have in its place, to which the filter type of
    its row adds what the filter types of section 9.2 of the PNG specification add, with zeros
    outside of the image.
   */
  lemma RowBytes(data: seq<byte>, len: nat, bw: nat, h: nat, rows: seq<seq<byte>>, y: nat, i: nat)
    requires bw > 0 && Lines(data, 0, len, bw, h) == Some(rows) && y < h && i < len
    ensures
      var t, x := ByteAt(data, y * (1 + len)), ByteAt(data, y * (1 + len) + 1 + i);
      var left, above, corner := At(rows, y, i - bw), At(rows, y - 1, i), At(rows, y - 1, i - bw);
      && t <= 4
      && At(rows, y, i)
         == (x as nat + (match t
                  case 0 => 0
                  case 1 => left as nat
                  case 2 => above as nat
                  case 3 => (left as nat + above) / 2
                  case _ => PaethPredictor(left, above, corner) as nat)) % 256
  {
    hide Lines, UnfilterLine, PaethPredictor, At, Last, ByteAt;
    LineOf(data, 0, len, bw, h, rows, y);
    var start := Start(0, y, len);
    UnfilteredBytes(ByteAt(data, start), BytesAt(data, start + 1, len), Last(rows[..y], len), bw, i);
    AboveAt(rows, len, y, i);
    if i >= bw {
      AboveAt(rows, len, y, i - bw);
    } else {
      NothingLeft(rows, y, i - bw);
    }
  }

  lemma AboveAt(rows: seq<seq<byte>>, len: nat, y: nat, i: nat)
    requires AllLength(rows, len) && y < |rows| && i < len
    ensures AllLength(rows[..y], len) && Last(rows[..y], len)[i] == At(rows, y - 1, i) && rows[y][i] == At(rows, y, i)
  {
  }

  lemma NothingLeft(rows: seq<seq<byte>>, y: nat, i: int)
    requires i < 0
    ensures At(rows, y, i) == 0 && At(rows, y - 1, i) == 0
  {
  }

  /** A line comes from its part of the scanlines and the line above. */
  lemma {:induction false} LineOf(data: seq<byte>, p: nat, len: nat, bw: nat, h: nat, rows: seq<seq<byte>>, y: nat)
    requires bw > 0 && Lines(data, p, len, bw, h) == Some(rows) && y < h
    ensures AllLength(rows[..y], len)
    ensures var start := Start(p, y, len);
      ByteAt(data, start) <= 4
      && rows[y] == UnfilterLine(ByteAt(data, start), BytesAt(data, start + 1, len), Last(rows[..y], len), bw)
  {
    hide UnfilterLine, ByteAt, BytesAt, Start;
    assert rows[..h - 1][..y] == rows[..y];
    if y < h - 1 {
      LineOf(data, p, len, bw, h - 1, rows[..h - 1], y);
    }
  }

  // ---- Rows of an image without interlacing ----

  function Flatten(lines: seq<seq<byte>>): seq<byte> {
    if |lines| == 0 then [] else Flatten(lines[..|lines| - 1]) + lines[|lines| - 1]
  }

  lemma {:induction false} FlattenSize(lines: seq<seq<byte>>, len: nat)
    requires AllLength(lines, len)
    ensures |Flatten(lines)| == |lines| * len
  {
    if |lines| > 0 {
      FlattenSize(lines[..|lines| - 1], len);
      assert |lines| * len == (|lines| - 1) * len + len;
    }
  }

  /** The rows stand one behind the other, from the top. */
  lemma {:induction false} FlattenAt(lines: seq<seq<byte>>, len: nat, y: nat, i: nat)
    requires AllLength(lines, len) && y < |lines| && i < len
    ensures y * len + i < |Flatten(lines)| && Flatten(lines)[y * len + i] == lines[y][i]
  {
    var n := |lines| - 1;
    FlattenSize(lines, len);
    FlattenSize(lines[..n], len);
    RowWithin(y, |lines|, len);
    hide Flatten;
    FlattenLast(lines);
    if y < n {
      FlattenAt(lines[..n], len, y, i);
    }
  }

  lemma FlattenLast(lines: seq<seq<byte>>)
    requires |lines| > 0
    ensures Flatten(lines) == Flatten(lines[..|lines| - 1]) + lines[|lines| - 1]
  {
  }

  /** Where row y starts in a buffer of rows of len bytes. */
  function Row(y: nat, len: nat): nat {
    y * len
  }

  lemma RowWithin(y: nat, height: nat, len: nat)
    requires y < height
    ensures Row(y, len) + len == Row(y + 1, len) <= Row(height, len)
  {
    MulLe(y + 1, height, len);
  }

  lemma StartStep(y: nat, len: nat)
    ensures Start(0, y + 1, len) == Start(0, y, len) + 1 + len
    ensures Start(0, y, len) - y == Row(y, len)
  {
    assert y * (1 + len) == y + y * len;
    assert (y + 1) * (1 + len) == y * (1 + len) + 1 + len;
  }

  /** A filter type that does not exist spoils the rest of the image. */
  lemma {:induction false} LinesFail(data: seq<byte>, p: nat, len: nat, bw: nat, y: nat, h: nat)
    requires bw > 0 && y <= h && Lines(data, p, len, bw, y) == None
    ensures Lines(data, p, len, bw, h) == None
  {
    if y < h {
      LinesFail(data, p, len, bw, y, h - 1);
    }
  }

  /** The row above, read back from the output. */
  lemma AboveIsLast(out: seq<byte>, lines: seq<seq<byte>>, y: nat, len: nat)
    requires AllLength(lines, len) && |lines| == y > 0 && Row(y, len) <= |out|
    requires out[..Row(y, len)] == Flatten(lines)
    ensures len <= Row(y, len) && out[Row(y, len) - len..Row(y, len)] == Last(lines, len)
  {
    assert y * len == (y - 1) * len + len;
    FlattenSize(lines[..y - 1], len);
    assert out[Row(y, len) - len..Row(y, len)] == Flatten(lines)[(y - 1) * len..];
  }

  /**
    The row loop for a buffer of height lines. The source keeps the start of the line in
    the scanlines, counting filter types, and finds its place in the output from it.
   */
  method UnfilterRows(out: array<byte>, scanlines: seq<byte>, width: nat, height: nat, bytewidth: nat)
      returns (error: nat)
    requires width > 0 && bytewidth > 0 && out.Length == height * (width * bytewidth)
    modifies out
    ensures match Lines(scanlines, 0, width * bytewidth, bytewidth, height)
            case None => error == ERROR_FILTER
            case Some(lines) => error == 0 && out[..] == Flatten(lines)
  {
    var linestart, linelength := 0, width * bytewidth;
    assert linelength >= bytewidth by {
      MulLe(1, width, bytewidth);
    }
    StartStep(0, linelength);
    assert out.Length == Row(height, linelength) && Row(0, linelength) == 0;
    ghost var lines: seq<seq<byte>> := [];
    assert Flatten(lines) == [] && Lines(scanlines, 0, linelength, bytewidth, 0) == Some(lines);
    hide Start, Row, Lines, Flatten;
    for y := 0 to height
      invariant linestart == Start(0, y, linelength) && linestart - y == Row(y, linelength) <= out.Length
      invariant Lines(scanlines, 0, linelength, bytewidth, y) == Some(lines)
      invariant out[..Row(y, linelength)] == Flatten(lines)
    {
      RowWithin(y, height, linelength);
      StartStep(y, linelength);
      StartStep(y + 1, linelength);
      error, lines := UnfilterRow(out, scanlines, linestart, y, lines, linelength, bytewidth);
      if error != 0 {
        LinesFail(scanlines, 0, linelength, bytewidth, y + 1, height);
        return;
      }
      linestart := linestart + (1 + linelength);
    }
    assert out[..Row(height, linelength)] == out[..];
    error := 0;
  }

  /** The loop body: row y behind the rows that are in place already. */
  method UnfilterRow(out: array<byte>, scanlines: seq<byte>, linestart: nat, y: nat, ghost lines: seq<seq<byte>>, linelength: nat, bytewidth: nat)
      returns (error: nat, ghost lines': seq<seq<byte>>)
    requires 0 < bytewidth <= linelength && linestart == Start(0, y, linelength)
    requires linestart - y == Row(y, linelength) && Row(y, linelength) + linelength == Row(y + 1, linelength) <= out.Length
    requires Lines(scanlines, 0, linelength, bytewidth, y) == Some(lines)
    requires out[..Row(y, linelength)] == Flatten(lines)
    modifies out
    ensures match Lines(scanlines, 0, linelength, bytewidth, y + 1)
            case None => error == ERROR_FILTER
            case Some(ls) => error == 0 && ls == lines' && out[..Row(y + 1, linelength)] == Flatten(ls)
  {
    hide Start, Row, Lines, Flatten, Last, UnfilterLine, ByteAt, BytesAt;
    var filterType := ByteAt(scanlines, linestart);
    LinesNext(scanlines, lines, linelength, bytewidth, y);
    var prevline: array?<byte>, p0, r0 := null, 0, linestart - y;
    if y > 0 {
      AboveIsLast(out[..], lines, y, linelength);
      prevline, p0 := out, r0 - linelength;
      WithinSlice(out[..], p0, r0);
    } else {
      NothingAbove(lines, linelength);
    }
    assert Above(prevline, p0, linelength) == Last(lines, linelength);
    var scan := BytesAt(scanlines, linestart + 1, linelength);
    assert scan[..linelength] == scan;
    error := UnFilterScanline(out, r0, scan, prevline, p0, bytewidth, filterType, linelength);
    ghost var line := UnfilterLine(filterType, scan, Last(lines, linelength), bytewidth);
    lines' := lines + [line];
    if error == 0 {
      RowAdded(out[..], r0, linelength, lines, line);
    }
  }

  lemma WithinSlice(out: seq<byte>, p: nat, r: nat)
    requires p <= r <= |out|
    ensures out[p..r] == out[..][p..r]
  {
  }

  lemma NothingAbove(lines: seq<seq<byte>>, len: nat)
    requires |lines| == 0
    ensures Last(lines, len) == Zeros(len)
  {
  }

  /** One more line, or none any more. */
  lemma LinesNext(data: seq<byte>, lines: seq<seq<byte>>, len: nat, bw: nat, y: nat)
    requires bw > 0 && Lines(data, 0, len, bw, y) == Some(lines)
    ensures var start := Start(0, y, len);
      Lines(data, 0, len, bw, y + 1)
      == if ByteAt(data, start) > 4 then None
         else Some(lines + [UnfilterLine(ByteAt(data, start), BytesAt(data, start + 1, len), Last(lines, len), bw)])
  {
    hide UnfilterLine, Start, ByteAt, BytesAt, Last;
  }

  lemma RowAdded(out: seq<byte>, r0: nat, len: nat, lines: seq<seq<byte>>, line: seq<byte>)
    requires r0 + len <= |out| && out[..r0] == Flatten(lines) && out[r0..r0 + len] == line
    ensures out[..r0 + len] == Flatten(lines + [line])
  {
    assert (lines + [line])[..|lines|] == lines;
  }

  /** Every image comes back from its filtered rows, whatever filter types were chosen. */
  lemma RowsRestored(scanlines: seq<byte>, rows: seq<seq<byte>>, types: seq<nat>, width: nat, bw: nat)
    requires bw > 0 && LinesAt(scanlines, 0, rows, types, width * bw, bw)
    ensures Lines(scanlines, 0, width * bw, bw, |rows|) == Some(rows)
  {
    LinesRestored(scanlines, 0, rows, types, width * bw, bw, |rows|);
    assert rows[..|rows|] == rows;
  }
}
