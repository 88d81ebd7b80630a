/**
  Scanline filters of PNG: the encoder side as section 9.2 of the PNG specification
  defines it, and unFilterScanline of lsapi/picopng.cpp, which undoes it in place.
 */
module Filter {
  import opened Bits

  const ERROR_FILTER: nat := 36

  // ---- Prediction ----

  function Abs(x: int): nat {
    if x < 0 then -x else x
  }

  /**
    The Paeth predictor of section 9.4: whichever of left, above and upper left is nearest
    to left + above - upper left, preferring them in this order.
   */
  function PaethPredictor(a: byte, b: byte, c: byte): (r: byte)
    ensures r == a || r == b || r == c
    ensures var p := (a as int) + b - c;
            && Abs(p - r) <= Abs(p - a) && Abs(p - r) <= Abs(p - b) && Abs(p - r) <= Abs(p - c)
            && (Abs(p - a) == Abs(p - r) ==> r == a)
            && (Abs(p - a) > Abs(p - r) && Abs(p - b) == Abs(p - r) ==> r == b)
  {
    var p := (a as int) + b - c;
    var pa := if p > a then p - a else a - p;
    var pb := if p > b then p - b else b - p;
    var pc := if p > c then p - c else c - p;
    if pa <= pb && pa <= pc then a else if pb <= pc then b else c
  }

  /** What a filter type predicts from the bytes to the left, above and to the upper left. */
  function Predict(filterType: nat, a: byte, b: byte, c: byte): byte {
    match filterType
    case 1 => a
    case 2 => b
    case 3 => ((a as nat) + b) / 2
    case 4 => PaethPredictor(a, b, c)
    case _ => 0
  }

  /** The byte bw before index i, or 0 at the start of the line. */
  function Left(line: seq<byte>, i: nat, bw: nat): byte
    requires i < |line| + bw
  {
    if i < bw then 0 else line[i - bw]
  }

  function PredictAt(filterType: nat, line: seq<byte>, prev: seq<byte>, i: nat, bw: nat): byte
    requires bw > 0 && i <= |line| && i < |prev|
  {
    Predict(filterType, Left(line, i, bw), prev[i], Left(prev, i, bw))
  }

  // ---- Filtering and its inverse ----

  function AddMod(a: byte, b: byte): byte {
    ((a as nat) + b) % 256
  }

  function SubMod(a: byte, b: byte): byte {
    ((a as int) - b) % 256
  }

  /** The filtered line that an encoder sends: each byte minus its prediction. */
  function FilterLine(filterType: nat, line: seq<byte>, prev: seq<byte>, bw: nat): (r: seq<byte>)
    requires bw > 0 && |line| <= |prev|
    ensures |r| == |line|
  {
    seq<byte>(|line|, i requires 0 <= i < |line| => SubMod(line[i], PredictAt(filterType, line, prev, i, bw)))
  }

  /** The line that a filtered line stands for, byte by byte from the left. */
  function UnfilterLine(filterType: nat, scan: seq<byte>, prev: seq<byte>, bw: nat): (r: seq<byte>)
    requires bw > 0 && |scan| <= |prev|
    ensures |r| == |scan|
  {
    if |scan| == 0 then []
    else
      var n := |scan| - 1;
      var rest := UnfilterLine(filterType, scan[..n], prev, bw);
      rest + [AddMod(scan[n], PredictAt(filterType, rest, prev, n, bw))]
  }

  /** The bytes to the left do not depend on those further right. */
  lemma {:induction false} UnfilterPrefix(filterType: nat, scan: seq<byte>, prev: seq<byte>, bw: nat, n: nat)
    requires bw > 0 && n <= |scan| <= |prev|
    ensures UnfilterLine(filterType, scan, prev, bw)[..n] == UnfilterLine(filterType, scan[..n], prev, bw)
  {
    hide PredictAt;
    var m := |scan|;
    if n < m {
      UnfilterPrefix(filterType, scan[..m - 1], prev, bw, n);
      assert scan[..m - 1][..n] == scan[..n];
    } else {
      assert scan[..n] == scan;
    }
  }

  /** Nor on more of the line above than there is of the line itself. */
  lemma {:induction false} UnfilterAbove(filterType: nat, scan: seq<byte>, prev: seq<byte>, above: seq<byte>, bw: nat)
    requires bw > 0 && |scan| <= |prev| && |scan| <= |above| && prev[..|scan|] == above[..|scan|]
    ensures UnfilterLine(filterType, scan, prev, bw) == UnfilterLine(filterType, scan, above, bw)
  {
    if |scan| > 0 {
      var n := |scan| - 1;
      assert prev[..n + 1][..n] == prev[..n] && above[..n + 1][..n] == above[..n];
      UnfilterAbove(filterType, scan[..n], prev, above, bw);
      assert prev[n] == prev[..n + 1][n] == above[..n + 1][n] == above[n];
      var rest := UnfilterLine(filterType, scan[..n], prev, bw);
      assert Left(prev, n, bw) == Left(above, n, bw) by {
        if n >= bw {
          assert prev[n - bw] == prev[..n][n - bw] == above[..n][n - bw];
        }
      }
      assert PredictAt(filterType, rest, prev, n, bw) == PredictAt(filterType, rest, above, n, bw) by {
        hide Predict;
      }
    }
  }

  lemma AddSub(a: byte, p: byte)
    ensures AddMod(SubMod(a, p), p) == a && SubMod(AddMod(a, p), p) == a
  {
  }

  lemma {:induction false} UnfilterOfPrefix(filterType: nat, line: seq<byte>, prev: seq<byte>, bw: nat, n: nat)
    requires bw > 0 && n <= |line| <= |prev|
    ensures UnfilterLine(filterType, FilterLine(filterType, line, prev, bw)[..n], prev, bw) == line[..n]
  {
    if n > 0 {
      var scan := FilterLine(filterType, line, prev, bw);
      UnfilterOfPrefix(filterType, line, prev, bw, n - 1);
      assert scan[..n][..n - 1] == scan[..n - 1];
      assert PredictAt(filterType, line[..n - 1], prev, n - 1, bw) == PredictAt(filterType, line, prev, n - 1, bw);
      AddSub(line[n - 1], PredictAt(filterType, line, prev, n - 1, bw));
    }
  }

  /** Unfiltering restores every line, for every filter type and line above. */
  lemma UnfilterInvertsFilter(filterType: nat, line: seq<byte>, prev: seq<byte>, bw: nat)
    requires bw > 0 && |line| <= |prev|
    ensures UnfilterLine(filterType, FilterLine(filterType, line, prev, bw), prev, bw) == line
  {
    UnfilterOfPrefix(filterType, line, prev, bw, |line|);
    assert FilterLine(filterType, line, prev, bw)[..|line|] == FilterLine(filterType, line, prev, bw);
  }

  lemma {:induction false} UnfilterAt(filterType: nat, scan: seq<byte>, prev: seq<byte>, bw: nat, i: nat)
    requires bw > 0 && i < |scan| <= |prev|
    ensures var line := UnfilterLine(filterType, scan, prev, bw);
            line[i] == AddMod(scan[i], PredictAt(filterType, line, prev, i, bw))
  {
    var n := |scan| - 1;
    var rest := UnfilterLine(filterType, scan[..n], prev, bw);
    if i < n {
      UnfilterAt(filterType, scan[..n], prev, bw, i);
    }
  }

  /** Every filtered line stands for a line that filters to it. */
  lemma FilterInvertsUnfilter(filterType: nat, scan: seq<byte>, prev: seq<byte>, bw: nat)
    requires bw > 0 && |scan| <= |prev|
    ensures FilterLine(filterType, UnfilterLine(filterType, scan, prev, bw), prev, bw) == scan
  {
    var line := UnfilterLine(filterType, scan, prev, bw);
    forall i | 0 <= i < |scan|
      ensures FilterLine(filterType, line, prev, bw)[i] == scan[i]
    {
      UnfilterAt(filterType, scan, prev, bw, i);
      AddSub(scan[i], PredictAt(filterType, line, prev, i, bw));
    }
  }

  /**
    The five filter types of section 9.2, by the bytes of the lines themselves: what has to be
    added to x so that it becomes byte i of the line.
   */
  predicate Becomes(filterType: nat, x: byte, line: seq<byte>, prev: seq<byte>, bw: nat, i: nat)
    requires bw > 0 && i < |line| <= |prev|
  {
    var left, above, corner := if i < bw then 0 else line[i - bw], prev[i], if i < bw then 0 else prev[i - bw];
    && (filterType == 0 ==> line[i] == x)
    && (filterType == 1 ==> line[i] == (x as nat + left) % 256)
    && (filterType == 2 ==> line[i] == (x as nat + above) % 256)
    && (filterType == 3 ==> line[i] == (x as nat + (left as nat + above) / 2) % 256)
    && (filterType == 4 ==> line[i] == (x as nat + PaethPredictor(left, above, corner)) % 256)
  }

  lemma UnfilteredBytes(filterType: nat, scan: seq<byte>, prev: seq<byte>, bw: nat, i: nat)
    requires bw > 0 && i < |scan| <= |prev|
    ensures Becomes(filterType, scan[i], UnfilterLine(filterType, scan, prev, bw), prev, bw, i)
  {
    UnfilterAt(filterType, scan, prev, bw, i);
    hide PaethPredictor, UnfilterLine;
  }

  /** So are the filters, which subtract what is added again. */
  lemma FilteredBytes(filterType: nat, line: seq<byte>, prev: seq<byte>, bw: nat, i: nat)
    requires bw > 0 && i < |line| <= |prev|
    ensures Becomes(filterType, FilterLine(filterType, line, prev, bw)[i], line, prev, bw, i)
  {
    hide *;
    UnfilterInvertsFilter(filterType, line, prev, bw);
    UnfilteredBytes(filterType, FilterLine(filterType, line, prev, bw), prev, bw, i);
  }

  function Zeros(n: nat): seq<byte> {
    seq(n, _ => 0)
  }

  /** The line above as a filter sees it: all zeros above the first line. */
  function Above(precon: array?<byte>, p0: nat, length: nat): (prev: seq<byte>)
    requires precon == null || p0 + length <= precon.Length
    reads precon
    ensures |prev| == length
  {
    if precon == null then Zeros(length) else precon[p0..p0 + length]
  }

  // ---- unFilterScanline ----

  /** What is added to byte i of the line, case by case as in the source. */
  method PredictByte(recon: array<byte>, r0: nat, precon: array?<byte>, p0: nat, bytewidth: nat, filterType: nat, length: nat, i: nat)
      returns (predicted: byte)
    requires 0 < bytewidth && i < length && r0 + length <= recon.Length
    requires precon != null ==> p0 + length <= precon.Length
    ensures predicted == PredictAt(filterType, recon[r0..r0 + i], Above(precon, p0, length), i, bytewidth)
  {
    match filterType {
      case 1 => predicted := if i < bytewidth then 0 else recon[r0 + i - bytewidth];
      case 2 => predicted := if precon == null then 0 else precon[p0 + i];
      case 3 =>
        if precon != null {
          predicted := if i < bytewidth then precon[p0 + i] / 2 else ((recon[r0 + i - bytewidth] as nat) + precon[p0 + i]) / 2;
        } else {
          predicted := if i < bytewidth then 0 else recon[r0 + i - bytewidth] / 2;
        }
      case 4 =>
        if precon != null {
          predicted := if i < bytewidth then PaethPredictor(0, precon[p0 + i], 0)
            else PaethPredictor(recon[r0 + i - bytewidth], precon[p0 + i], precon[p0 + i - bytewidth]);
        } else {
          predicted := if i < bytewidth then 0 else PaethPredictor(recon[r0 + i - bytewidth], 0, 0);
        }
      case _ => predicted := 0;
    }
  }

  /**
    Reconstructs one line of length bytes at recon[r0..] from scan. The line above is at
    precon[p0..], or all zeros where precon is null; it may lie in the same buffer, before r0.
    The source writes this loop once for every filter type, with and without a line above.
   */
  method UnFilterScanline(recon: array<byte>, r0: nat, scan: seq<byte>, precon: array?<byte>, p0: nat, bytewidth: nat, filterType: nat, length: nat)
      returns (error: nat)
    requires 0 < bytewidth <= length <= |scan| && r0 + length <= recon.Length
    requires precon != null ==> p0 + length <= precon.Length
    requires precon == recon ==> p0 + length <= r0
    modifies recon
    ensures error == if filterType <= 4 then 0 else ERROR_FILTER
    ensures filterType <= 4 ==>
      recon[r0..r0 + length] == UnfilterLine(filterType, scan[..length], old(Above(precon, p0, length)), bytewidth)
    ensures filterType > 4 ==> recon[..] == old(recon[..])
    ensures recon[..r0] == old(recon[..r0]) && recon[r0 + length..] == old(recon[r0 + length..])
  {
    if filterType > 4 {
      return ERROR_FILTER;
    }
    hide PredictAt;
    ghost var prev := Above(precon, p0, length);
    ghost var before, after := recon[..r0], recon[r0 + length..];
    assert UnfilterLine(filterType, scan[..0], prev, bytewidth) == [];
    for i := 0 to length
      invariant recon[..r0] == before && recon[r0 + length..] == after
      invariant Above(precon, p0, length) == prev
      invariant recon[r0..r0 + i] == UnfilterLine(filterType, scan[..i], prev, bytewidth)
    {
      ghost var line := recon[r0..r0 + i];
      var predicted := PredictByte(recon, r0, precon, p0, bytewidth, filterType, length, i);
      recon[r0 + i] := AddMod(scan[i], predicted);
      assert scan[..i + 1][..i] == scan[..i];
      assert recon[r0..r0 + i] == line;
      assert recon[r0..r0 + i + 1] == line + [recon[r0 + i]];
      assert Above(precon, p0, length) == prev;
    }
    error := 0;
  }
}
