/**
  Adam7 interlacing (lsapi/picopng.cpp, PNG::decode and adam7Pass), for images with at
  least 8 bits per pixel. bw is the number of bytes of a pixel.
 */
module Adam7 {
  import opened Options
  import opened Bits
  import opened Filter
  import opened Rows

  // ---- The seven passes ----

  function PassLeft(p: nat): nat
    requires p < 7
  {
    match p
    case 0 => 0
    case 1 => 4
    case 2 => 0
    case 3 => 2
    case 4 => 0
    case 5 => 1
    case _ => 0
  }

  function PassTop(p: nat): nat
    requires p < 7
  {
    match p
    case 0 => 0
    case 1 => 0
    case 2 => 4
    case 3 => 0
    case 4 => 2
    case 5 => 0
    case _ => 1
  }

  function SpaceX(p: nat): (d: nat)
    requires p < 7
    ensures d >= 1
  {
    match p
    case 0 => 8
    case 1 => 8
    case 2 => 4
    case 3 => 4
    case 4 => 2
    case 5 => 2
    case _ => 1
  }

  function SpaceY(p: nat): (d: nat)
    requires p < 7
    ensures d >= 1
  {
    match p
    case 0 => 8
    case 1 => 8
    case 2 => 8
    case 3 => 4
    case 4 => 4
    case 5 => 2
    case _ => 2
  }

  function PassW(p: nat, w: nat): nat
    requires p < 7
  {
    match p
    case 0 => (w + 7) / 8
    case 1 => (w + 3) / 8
    case 2 => (w + 3) / 4
    case 3 => (w + 1) / 4
    case 4 => (w + 1) / 2
    case 5 => w / 2
    case _ => w
  }

  function PassH(p: nat, h: nat): nat
    requires p < 7
  {
    match p
    case 0 => (h + 7) / 8
    case 1 => (h + 7) / 8
    case 2 => (h + 3) / 8
    case 3 => (h + 3) / 4
    case 4 => (h + 1) / 4
    case 5 => (h + 1) / 2
    case _ => h / 2
  }

  /** Column and row of pixel i of line j of a pass. */
  function Column(p: nat, i: nat): nat
    requires p < 7
  {
    PassLeft(p) + SpaceX(p) * i
  }

  function Line(p: nat, j: nat): nat
    requires p < 7
  {
    PassTop(p) + SpaceY(p) * j
  }

  /** The pass that sends pixel (x, y), as section 8.2 of the PNG specification tiles the image. */
  function PassOf(x: nat, y: nat): (p: nat)
    ensures p < 7
  {
    if y % 2 == 1 then 6
    else if x % 2 == 1 then 5
    else if y % 4 == 2 then 4
    else if x % 4 == 2 then 3
    else if y % 8 == 4 then 2
    else if x % 8 == 4 then 1
    else 0
  }

  /** Position of pixel (x, y) within its pass. */
  function IndexX(x: nat, y: nat): nat {
    x / SpaceX(PassOf(x, y))
  }

  function IndexY(x: nat, y: nat): nat {
    y / SpaceY(PassOf(x, y))
  }

  lemma DivMod(k: nat, c: nat, m: nat)
    requires c < m
    ensures (m * k + c) / m == k && (m * k + c) % m == c
  {
    DivUnique(m * k + c, m, k, c);
  }

  lemma LowBits(v: nat)
    ensures v % 4 == v % 8 % 4 && v % 2 == v % 4 % 2
  {
    var q, r := v / 8, v % 8;
    assert v == 8 * q + r && r == 4 * (r / 4) + r % 4;
    assert v == 4 * (2 * q + r / 4) + r % 4;
    DivMod(2 * q + r / 4, r % 4, 4);
    var h, s := v / 4, v % 4;
    assert v == 4 * h + s && s == 2 * (s / 2) + s % 2;
    assert v == 2 * (2 * h + s / 2) + s % 2;
    DivMod(2 * h + s / 2, s % 2, 2);
  }

  lemma ColumnOfPass(p: nat, i: nat)
    requires p < 7
    ensures var x := Column(p, i);
            x / SpaceX(p) == i && x % SpaceX(p) == PassLeft(p)
  {
    DivMod(i, PassLeft(p), SpaceX(p));
  }

  lemma LineOfPass(p: nat, j: nat)
    requires p < 7
    ensures var y := Line(p, j);
            y / SpaceY(p) == j && y % SpaceY(p) == PassTop(p)
  {
    DivMod(j, PassTop(p), SpaceY(p));
  }

  /** A pixel is on a pass when its column and line have the remainders of that pass. */
  lemma OnOnePass(x: nat, y: nat, p: nat)
    requires p < 7
    ensures x % SpaceX(p) == PassLeft(p) && y % SpaceY(p) == PassTop(p) <==> p == PassOf(x, y)
  {
    LowBits(x);
    LowBits(y);
  }

  /**
    The passes partition the image: pixel (x, y) is pixel (i, j) of pass p exactly where p
    and (i, j) are the pass and position of (x, y).
   */
  lemma PassesPartition(x: nat, y: nat, p: nat, i: nat, j: nat)
    requires p < 7
    ensures x == Column(p, i) && y == Line(p, j) <==> p == PassOf(x, y) && i == IndexX(x, y) && j == IndexY(x, y)
  {
    OnOnePass(x, y, p);
    if x == Column(p, i) && y == Line(p, j) {
      ColumnOfPass(p, i);
      LineOfPass(p, j);
    }
    if p == PassOf(x, y) && i == IndexX(x, y) && j == IndexY(x, y) {
      hide PassOf;
      assert x == x / SpaceX(p) * SpaceX(p) + x % SpaceX(p);
      assert y == y / SpaceY(p) * SpaceY(p) + y % SpaceY(p);
    }
  }

  lemma CeilingDivision(i: nat, l: nat, d: nat, w: nat)
    requires l < d
    ensures i < (w + d - 1 - l) / d <==> l + d * i < w
  {
    var v := w + d - 1 - l;
    var q, r := v / d, v % d;
    assert v == q * d + r;
    MulLess(i, q, d);
    MulLess(q, i + 1, d);
    assert (i + 1) * d == d * i + d;
  }

  /** The size of a pass is the number of its columns and lines that lie in the image. */
  lemma PassSize(p: nat, w: nat, h: nat, i: nat, j: nat)
    requires p < 7
    ensures i < PassW(p, w) <==> Column(p, i) < w
    ensures j < PassH(p, h) <==> Line(p, j) < h
  {
    assert PassW(p, w) == (w + SpaceX(p) - 1 - PassLeft(p)) / SpaceX(p);
    assert PassH(p, h) == (h + SpaceY(p) - 1 - PassTop(p)) / SpaceY(p);
    CeilingDivision(i, PassLeft(p), SpaceX(p), w);
    CeilingDivision(j, PassTop(p), SpaceY(p), h);
  }

  function PassPixels(p: nat, w: nat, h: nat): nat
    requires p <= 7
  {
    if p == 0 then 0 else PassPixels(p - 1, w, h) + PassW(p - 1, w) * PassH(p - 1, h)
  }

  lemma Distribute(a: nat, b: nat, c: nat)
    ensures a * b + a * c == a * (b + c) && b * a + c * a == (b + c) * a
  {
  }

  lemma Halve(v: nat)
    ensures (v + 1) / 2 + v / 2 == v
  {
  }

  lemma Quarter(v: nat)
    ensures (v + 3) / 4 + (v + 1) / 4 == (v + 1) / 2
  {
    Halve((v + 1) / 2);
    DivTwice(v + 1, 2);
    DivTwice(v + 3, 2);
  }

  lemma Eighth(v: nat)
    ensures (v + 7) / 8 + (v + 3) / 8 == (v + 3) / 4
  {
    Halve((v + 3) / 4);
    Quarters(v + 3);
    Quarters(v + 7);
  }

  lemma Quarters(v: nat)
    ensures v / 4 / 2 == v / 8
  {
  }

  /** The sizes of the passes add up to the size of the image. */
  lemma PassPixelsTotal(w: nat, h: nat)
    ensures PassPixels(7, w, h) == w * h
  {
    var w2, w4, w8, h2, h4, h8 := (w + 1) / 2, (w + 3) / 4, (w + 7) / 8, (h + 1) / 2, (h + 3) / 4, (h + 7) / 8;
    Halve(w);
    Quarter(w);
    Eighth(w);
    Halve(h);
    Quarter(h);
    Eighth(h);
    assert PassPixels(1, w, h) == w8 * h8;
    assert PassPixels(2, w, h) == w4 * h8 by { Distribute(h8, w8, (w + 3) / 8); }
    assert PassPixels(3, w, h) == w4 * h4 by { Distribute(w4, h8, (h + 3) / 8); }
    assert PassPixels(4, w, h) == w2 * h4 by { Distribute(h4, w4, (w + 1) / 4); }
    assert PassPixels(5, w, h) == w2 * h2 by { Distribute(w2, h4, (h + 1) / 4); }
    assert PassPixels(6, w, h) == w * h2 by { Distribute(h2, w2, w / 2); }
    assert PassPixels(7, w, h) == w * h by { Distribute(w, h2, h / 2); }
  }

  // ---- The scanlines of the passes ----

  /** Bytes of a line of passw pixels with its filter type, 0 for a line without pixels. */
  function LineBytes(passw: nat, bpp: nat): nat {
    (if passw > 0 then 1 else 0) + (passw * bpp + 7) / 8
  }

  /** passstart: where the lines of a pass start in the scanlines. */
  function PassStart(p: nat, w: nat, h: nat, bpp: nat): nat
    requires p < 7
  {
    hide PassW, PassH, LineBytes;
    if p == 0 then 0
    else
      PassStart(p - 1, w, h, bpp) + PassH(p - 1, h) * LineBytes(PassW(p - 1, w), bpp)
  }

  /** The lines of a pass as they are decoded; a pass without columns has none. */
  function PassLines(scanlines: seq<byte>, p: nat, w: nat, h: nat, bw: nat): (r: Option<seq<seq<byte>>>)
    requires p < 7 && bw > 0
    ensures r.Some? && PassW(p, w) > 0 ==> |r.value| == PassH(p, h) && AllLength(r.value, PassW(p, w) * bw)
  {
    if PassW(p, w) == 0 then Some([])
    else Lines(scanlines, PassStart(p, w, h, 8 * bw), PassW(p, w) * bw, bw, PassH(p, h))
  }

  // ---- Pixels in a buffer ----

  /** Index of byte b of pixel (x, y) in an image of width w. */
  function Idx(w: nat, bw: nat, x: nat, y: nat, b: nat): nat {
    bw * w * y + bw * x + b
  }

  lemma IdxForm(w: nat, bw: nat, x: nat, y: nat, b: nat)
    ensures Idx(w, bw, x, y, b) == (y * w + x) * bw + b
  {
    assert bw * w * y == y * w * bw by { Commute(bw, w, y); }
    assert (y * w + x) * bw == y * w * bw + x * bw;
  }

  lemma Commute(a: nat, b: nat, c: nat)
    ensures a * b * c == c * b * a
  {
    assert a * b == b * a;
    assert b * a * c == c * (b * a);
    assert c * (b * a) == c * b * a by { Associate(c, b, a); }
  }

  lemma Associate(a: nat, b: nat, c: nat)
    ensures a * (b * c) == a * b * c
  {
  }

  lemma MixedUnique(q: nat, r: nat, q': nat, r': nat, d: nat)
    requires r < d && r' < d && q * d + r == q' * d + r'
    ensures q == q' && r == r'
  {
    MulLess(q, q', d);
    MulLess(q', q, d);
  }

  /** Different bytes of different pixels have different places. */
  lemma IdxInjective(w: nat, bw: nat, x: nat, y: nat, b: nat, x': nat, y': nat, b': nat)
    requires x < w && x' < w && b < bw && b' < bw
    ensures Idx(w, bw, x, y, b) == Idx(w, bw, x', y', b') ==> x == x' && y == y' && b == b'
  {
    IdxForm(w, bw, x, y, b);
    IdxForm(w, bw, x', y', b');
    if Idx(w, bw, x, y, b) == Idx(w, bw, x', y', b') {
      MixedUnique(y * w + x, b, y' * w + x', b', bw);
      MixedUnique(y, x, y', x', w);
    }
  }

  lemma IdxWithin(w: nat, h: nat, bw: nat, x: nat, y: nat, b: nat)
    requires x < w && y < h && b < bw
    ensures Idx(w, bw, x, y, b) < h * w * bw
  {
    IdxForm(w, bw, x, y, b);
    MulLess(y, h, w);
    MulLess(y * w + x, h * w, bw);
  }

  lemma DivLess(k: nat, n: nat, d: nat)
    requires d > 0 && k < n * d
    ensures k / d < n && k == k / d * d + k % d
  {
    MulLess(n, k / d + 1, d);
  }

  /** Every place in the buffer is a byte of a pixel. */
  lemma PixelOfIndex(w: nat, h: nat, bw: nat, k: nat) returns (x: nat, y: nat, b: nat)
    requires k < h * w * bw && bw > 0 && w > 0
    ensures x < w && y < h && b < bw && k == Idx(w, bw, x, y, b)
  {
    var q := k / bw;
    DivLess(k, h * w, bw);
    DivLess(q, h, w);
    x, y, b := q % w, q / w, k % bw;
    IdxForm(w, bw, x, y, b);
  }

  // ---- adam7Pass ----

  /** Byte b of pixel (x, y) of the image in a buffer of the right size. */
  function Pixel(img: seq<byte>, w: nat, h: nat, bw: nat, x: nat, y: nat, b: nat): byte
    requires |img| == h * w * bw && x < w && y < h && b < bw
  {
    IdxWithin(w, h, bw, x, y, b);
    img[Idx(w, bw, x, y, b)]
  }

  /** What a line of a pass says of byte b of pixel i. */
  function LinePixel(line: seq<byte>, bw: nat, i: nat, b: nat): byte {
    if bw * i + b < |line| then line[bw * i + b] else 0
  }

  /** Writes the bw bytes of pixel i of a line to pixel (x0, y0). */
  method PutPixel(out: array<byte>, linen: seq<byte>, w: nat, h: nat, bw: nat, i: nat, x0: nat, y0: nat)
    requires out.Length == h * w * bw && x0 < w && y0 < h && bw * i + bw <= |linen|
    modifies out
    ensures forall x, y, b | 0 <= x < w && 0 <= y < h && 0 <= b < bw ::
      Pixel(out[..], w, h, bw, x, y, b)
      == if x == x0 && y == y0 then LinePixel(linen, bw, i, b) else old(Pixel(out[..], w, h, bw, x, y, b))
  {
    ghost var before := out[..];
    for b0 := 0 to bw
      invariant forall x, y, b | 0 <= x < w && 0 <= y < h && 0 <= b < bw ::
        Pixel(out[..], w, h, bw, x, y, b)
        == if x == x0 && y == y0 && b < b0 then LinePixel(linen, bw, i, b) else Pixel(before, w, h, bw, x, y, b)
    {
      ghost var now := out[..];
      IdxWithin(w, h, bw, x0, y0, b0);
      out[Idx(w, bw, x0, y0, b0)] := linen[bw * i + b0];
      forall x, y, b | 0 <= x < w && 0 <= y < h && 0 <= b < bw
        ensures Pixel(out[..], w, h, bw, x, y, b)
             == if x == x0 && y == y0 && b == b0 then linen[bw * i + b0] else Pixel(now, w, h, bw, x, y, b)
      {
        IdxInjective(w, bw, x, y, b, x0, y0, b0);
        IdxWithin(w, h, bw, x, y, b);
      }
    }
  }

  lemma IndexWithin(x: nat, y: nat, w: nat, h: nat)
    requires x < w && y < h
    ensures IndexX(x, y) < PassW(PassOf(x, y), w) && IndexY(x, y) < PassH(PassOf(x, y), h)
  {
    PassesPartition(x, y, PassOf(x, y), IndexX(x, y), IndexY(x, y));
    PassSize(PassOf(x, y), w, h, IndexX(x, y), IndexY(x, y));
  }

  lemma LineWithin(bw: nat, i: nat, n: nat, len: nat)
    requires i < n && n * bw <= len
    ensures bw * i + bw <= len
  {
    MulLess(i, n, bw);
  }

  /** The first i pixels of a line of a pass are in place, everything else is as before. */
  ghost predicate LineInPlace(img: seq<byte>, before: seq<byte>, w: nat, h: nat, bw: nat, p: nat, j: nat, line: seq<byte>, i: nat)
    requires |img| == |before| == h * w * bw
  {
    forall x, y, b | 0 <= x < w && 0 <= y < h && 0 <= b < bw ::
      Pixel(img, w, h, bw, x, y, b)
      == if PassOf(x, y) == p && IndexY(x, y) == j && IndexX(x, y) < i then LinePixel(line, bw, IndexX(x, y), b)
         else Pixel(before, w, h, bw, x, y, b)
  }

  /** Places the pixels of one line of a pass in the image. */
  method PlaceLine(out: array<byte>, linen: seq<byte>, w: nat, h: nat, bw: nat, p: nat, j: nat)
    requires p < 7 && out.Length == h * w * bw && j < PassH(p, h) && PassW(p, w) * bw <= |linen|
    modifies out
    ensures LineInPlace(out[..], old(out[..]), w, h, bw, p, j, linen, PassW(p, w))
  {
    hide PassOf, PassW, PassH, PassTop, PassLeft, SpaceX, SpaceY, Pixel, LinePixel;
    ghost var before := out[..];
    for i := 0 to PassW(p, w)
      invariant LineInPlace(out[..], before, w, h, bw, p, j, linen, i)
    {
      ghost var now := out[..];
      PassSize(p, w, h, i, j);
      LineWithin(bw, i, PassW(p, w), |linen|);
      PutPixel(out, linen, w, h, bw, i, Column(p, i), Line(p, j));
      forall x, y, b | 0 <= x < w && 0 <= y < h && 0 <= b < bw
        ensures Pixel(out[..], w, h, bw, x, y, b)
             == if PassOf(x, y) == p && IndexY(x, y) == j && IndexX(x, y) < i + 1 then LinePixel(linen, bw, IndexX(x, y), b)
                else Pixel(before, w, h, bw, x, y, b)
      {
        PassesPartition(x, y, p, i, j);
      }
    }
  }

  /** The first k lines of a pass are in place, everything else is as before. */
  ghost predicate LinesInPlace(img: seq<byte>, before: seq<byte>, w: nat, h: nat, bw: nat, p: nat, lines: seq<seq<byte>>, k: nat)
    requires |img| == |before| == h * w * bw && k <= |lines|
  {
    forall x, y, b | 0 <= x < w && 0 <= y < h && 0 <= b < bw ::
      Pixel(img, w, h, bw, x, y, b)
      == if PassOf(x, y) == p && IndexY(x, y) < k then LinePixel(lines[IndexY(x, y)], bw, IndexX(x, y), b)
         else Pixel(before, w, h, bw, x, y, b)
  }

  lemma NextLineInPlace(img: seq<byte>, now: seq<byte>, before: seq<byte>, w: nat, h: nat, bw: nat, p: nat, lines: seq<seq<byte>>, k: nat, line: seq<byte>, full: seq<byte>)
    requires |img| == |now| == |before| == h * w * bw && k == |lines| && p < 7
    requires LinesInPlace(now, before, w, h, bw, p, lines, k)
    requires LineInPlace(img, now, w, h, bw, p, k, full, PassW(p, w))
    requires |line| == PassW(p, w) * bw && line <= full
    ensures LinesInPlace(img, before, w, h, bw, p, lines + [line], k + 1)
  {
    hide PassOf, PassW, SpaceX, SpaceY, Pixel, LinePixel, IndexX, IndexY;
    var next := lines + [line];
    forall x, y, b | 0 <= x < w && 0 <= y < h && 0 <= b < bw
      ensures Pixel(img, w, h, bw, x, y, b)
           == if PassOf(x, y) == p && IndexY(x, y) < k + 1 then LinePixel(next[IndexY(x, y)], bw, IndexX(x, y), b)
              else Pixel(before, w, h, bw, x, y, b)
    {
      if PassOf(x, y) == p {
        IndexWithin(x, y, w, h);
        LinePixelPrefix(line, full, bw, IndexX(x, y), PassW(p, w), b);
      }
    }
  }

  lemma LinePixelPrefix(line: seq<byte>, full: seq<byte>, bw: nat, i: nat, n: nat, b: nat)
    requires line <= full && |line| == n * bw && i < n && b < bw
    ensures LinePixel(line, bw, i, b) == LinePixel(full, bw, i, b)
  {
    LineWithin(bw, i, n, |line|);
  }

  /**
    Unfilters and places the lines of one pass. The source unfilters as many bytes as a full
    row of the image has; only those of the pass row are placed, and they do not depend on
    the ones behind them.
   */
  method Adam7Pass(out: array<byte>, linen0: array<byte>, lineo0: array<byte>, data: seq<byte>, start: nat, w: nat, h: nat, bw: nat, p: nat)
      returns (error: nat)
    requires p < 7 && bw > 0 && out.Length == h * w * bw && w > 0
    requires linen0 != lineo0 && linen0 != out && lineo0 != out && linen0.Length == lineo0.Length == w * bw
    modifies out, linen0, lineo0
    ensures PassW(p, w) == 0 ==> error == 0 && out[..] == old(out[..])
    ensures PassW(p, w) > 0 ==>
      match Lines(data, start, PassW(p, w) * bw, bw, PassH(p, h))
      case None => error == ERROR_FILTER
      case Some(lines) => error == 0 && LinesInPlace(out[..], old(out[..]), w, h, bw, p, lines, PassH(p, h))
  {
    var passw, passh := PassW(p, w), PassH(p, h);
    error := 0;
    if passw == 0 {
      return;
    }
    var linen, lineo := linen0, lineo0;
    var len := passw * bw;
    ghost var before := out[..];
    ghost var lines: seq<seq<byte>> := [];
    WidthBounds(p, w, bw);
    hide PassW, PassH, LinesInPlace, Lines;
    EmptyInPlace(out[..], w, h, bw, p);
    NoLines(data, start, len, bw);
    for y := 0 to passh
      invariant {linen, lineo} == {linen0, lineo0} && linen != lineo && error == 0
      invariant Lines(data, start, len, bw, y) == Some(lines)
      invariant y > 0 ==> lineo[..len] == lines[y - 1]
      invariant LinesInPlace(out[..], before, w, h, bw, p, lines, y)
    {
      error, lines := PassLine(out, linen, lineo, data, start, w, h, bw, p, y, before, lines);
      if error != 0 {
        LinesFail(data, start, len, bw, y + 1, passh);
        return;
      }
      linen, lineo := lineo, linen;
    }
  }

  /** The loop body: line y of the pass, with the line above it in lineo. */
  method PassLine(out: array<byte>, linen: array<byte>, lineo: array<byte>, data: seq<byte>, start: nat, w: nat, h: nat, bw: nat, p: nat, y: nat, ghost before: seq<byte>, ghost lines: seq<seq<byte>>)
      returns (error: nat, ghost lines': seq<seq<byte>>)
    requires p < 7 && bw > 0 && out.Length == |before| == h * w * bw && y < PassH(p, h) && bw <= w * bw
    requires linen != lineo && linen != out && lineo != out && linen.Length == lineo.Length == w * bw
    requires PassW(p, w) * bw <= w * bw && Lines(data, start, PassW(p, w) * bw, bw, y) == Some(lines)
    requires y > 0 ==> lineo[..PassW(p, w) * bw] == lines[y - 1]
    requires LinesInPlace(out[..], before, w, h, bw, p, lines, y)
    modifies out, linen
    ensures match Lines(data, start, PassW(p, w) * bw, bw, y + 1)
            case None => error == ERROR_FILTER
            case Some(ls) =>
              && error == 0 && ls == lines' && |ls| == y + 1 && LinesInPlace(out[..], before, w, h, bw, p, ls, y + 1)
              && linen[..PassW(p, w) * bw] == ls[y]
  {
    hide PassW, PassH, Start, LinesInPlace, LineInPlace, UnfilterLine;
    ghost var now, len := out[..], PassW(p, w) * bw;
    var linestart := start + y * (1 + PassW(p, w) * bw);
    assert linestart == Start(start, y, len) by {
      StartIs(start, y, len);
    }
    var filterType := ByteAt(data, linestart);
    var prevline: array?<byte> := if y == 0 then null else lineo;
    var scan := BytesAt(data, linestart + 1, w * bw);
    ghost var above := Above(prevline, 0, w * bw);
    ghost var line := UnfilterLine(filterType, BytesAt(data, linestart + 1, len), Last(lines, len), bw);
    lines' := lines + [line];
    PartialLine(filterType, data, linestart + 1, above, Last(lines, len), len, w * bw, bw);
    error := UnFilterScanline(linen, 0, scan, prevline, 0, bw, filterType, w * bw);
    if error == 0 {
      assert scan[..w * bw] == scan && linen[0..w * bw] == linen[..];
      PlaceLine(out, linen[..], w, h, bw, p, y);
      NextLineInPlace(out[..], now, before, w, h, bw, p, lines, y, line, linen[..]);
    }
  }

  lemma StartIs(p: nat, y: nat, len: nat)
    ensures Start(p, y, len) == p + y * (1 + len)
  {
  }

  lemma WidthBounds(p: nat, w: nat, bw: nat)
    requires p < 7 && w > 0
    ensures PassW(p, w) * bw <= w * bw && bw <= w * bw
  {
    MulLe(PassW(p, w), w, bw);
    MulLe(1, w, bw);
  }

  lemma EmptyInPlace(img: seq<byte>, w: nat, h: nat, bw: nat, p: nat)
    requires |img| == h * w * bw
    ensures LinesInPlace(img, img, w, h, bw, p, [], 0)
  {
  }

  /** Unfiltering more bytes than the pass row has leaves the pass row as it should be. */
  lemma PartialLine(filterType: nat, data: seq<byte>, start: nat, above: seq<byte>, last: seq<byte>, len: nat, full: nat, bw: nat)
    requires bw > 0 && len <= full == |above| && |last| == len && above[..len] == last
    ensures UnfilterLine(filterType, BytesAt(data, start, len), last, bw)
         <= UnfilterLine(filterType, BytesAt(data, start, full), above, bw)
  {
    var scan := BytesAt(data, start, full);
    assert scan[..len] == BytesAt(data, start, len);
    UnfilterPrefix(filterType, scan, above, bw, len);
    UnfilterAbove(filterType, scan[..len], above, last, bw);
  }

  // ---- The whole image ----

  /** Every filter type in the scanlines exists. */
  ghost predicate Decodable(scanlines: seq<byte>, w: nat, h: nat, bw: nat)
    requires bw > 0
  {
    forall p | 0 <= p < 7 :: PassLines(scanlines, p, w, h, bw).Some?
  }

  /** All pixels of the first k passes are in place, if no filter type was missing so far. */
  ghost predicate PassesInPlace(img: seq<byte>, scanlines: seq<byte>, w: nat, h: nat, bw: nat, k: nat)
    requires bw > 0 && |img| == h * w * bw && k <= 7
  {
    && (forall p | 0 <= p < k :: PassLines(scanlines, p, w, h, bw).Some?)
    && forall x, y, b | 0 <= x < w && 0 <= y < h && 0 <= b < bw && PassOf(x, y) < k ::
         PlacedPixel(img, scanlines, w, h, bw, x, y, b)
  }

  ghost predicate PlacedPixel(img: seq<byte>, scanlines: seq<byte>, w: nat, h: nat, bw: nat, x: nat, y: nat, b: nat)
    requires bw > 0 && |img| == h * w * bw && x < w && y < h && b < bw
  {
    var r := PassLines(scanlines, PassOf(x, y), w, h, bw);
    && r.Some? && IndexY(x, y) < |r.value|
    && Pixel(img, w, h, bw, x, y, b) == LinePixel(r.value[IndexY(x, y)], bw, IndexX(x, y), b)
  }

  lemma NextPassInPlace(img: seq<byte>, before: seq<byte>, scanlines: seq<byte>, w: nat, h: nat, bw: nat, k: nat)
    requires bw > 0 && |img| == |before| == h * w * bw && k < 7
    requires PassesInPlace(before, scanlines, w, h, bw, k) && PassLines(scanlines, k, w, h, bw).Some?
    requires PassW(k, w) == 0 ==> img == before
    requires PassW(k, w) > 0 ==>
      LinesInPlace(img, before, w, h, bw, k, PassLines(scanlines, k, w, h, bw).value, PassH(k, h))
    ensures PassesInPlace(img, scanlines, w, h, bw, k + 1)
  {
    hide PassOf, SpaceX, SpaceY, Pixel, LinePixel, Lines, PassW, PassH;
    forall x, y, b | 0 <= x < w && 0 <= y < h && 0 <= b < bw && PassOf(x, y) < k + 1
      ensures PlacedPixel(img, scanlines, w, h, bw, x, y, b)
    {
      IndexWithin(x, y, w, h);
      if PassOf(x, y) < k {
        assert PlacedPixel(before, scanlines, w, h, bw, x, y, b);
      }
    }
  }

  /** The lines of a pass stand exactly between its start and the start of the next pass. */
  lemma PassesAdjacent(p: nat, w: nat, h: nat, bw: nat)
    requires p < 6
    ensures PassStart(p + 1, w, h, 8 * bw)
         == if PassW(p, w) > 0 then Start(PassStart(p, w, h, 8 * bw), PassH(p, h), PassW(p, w) * bw)
            else PassStart(p, w, h, 8 * bw)
  {
    hide PassW, PassH;
    assert PassW(p, w) * (8 * bw) == 8 * (PassW(p, w) * bw);
  }

  /**
    The source's loop over the seven passes. After an error in one pass each of the others
    returns behind its first line, before it places a pixel, which is left out here.
   */
  method DecodeInterlaced(out: array<byte>, scanlines: seq<byte>, w: nat, h: nat, bw: nat) returns (error: nat)
    requires bw > 0 && w > 0 && out.Length == h * w * bw
    modifies out
    ensures error == if Decodable(scanlines, w, h, bw) then 0 else ERROR_FILTER
    ensures error == 0 ==> PassesInPlace(out[..], scanlines, w, h, bw, 7)
  {
    hide PassW, PassH, LinesInPlace, Lines, PassOf, LineBytes, PlacedPixel;
    var bpp := 8 * bw;
    var passstart: seq<nat> := [0];
    for i := 0 to 6
      invariant |passstart| == i + 1
      invariant forall p | 0 <= p <= i :: passstart[p] == PassStart(p, w, h, bpp)
    {
      passstart := passstart + [passstart[i] + PassH(i, h) * LineBytes(PassW(i, w), bpp)];
    }
    var scanlineo, scanlinen := new byte[w * bw], new byte[w * bw];
    error := 0;
    for i := 0 to 7
      invariant error == 0 || error == ERROR_FILTER
      invariant error == 0 ==> PassesInPlace(out[..], scanlines, w, h, bw, i)
      invariant error != 0 ==> !Decodable(scanlines, w, h, bw)
    {
      if error == 0 {
        ghost var before := out[..];
        error := Adam7Pass(out, scanlinen, scanlineo, scanlines, passstart[i], w, h, bw, i);
        if error != 0 {
          assert PassLines(scanlines, i, w, h, bw).None?;
        } else {
          NextPassInPlace(out[..], before, scanlines, w, h, bw, i);
        }
      }
    }
  }

  /** Line j of a pass, as an encoder takes its pixels out of the image. */
  ghost function ExtractLine(img: seq<byte>, w: nat, h: nat, bw: nat, p: nat, j: nat): (line: seq<byte>)
    requires bw > 0 && |img| == h * w * bw && p < 7 && j < PassH(p, h)
    ensures |line| == PassW(p, w) * bw
  {
    hide PassW, PassH, PassLeft, PassTop, SpaceX, SpaceY;
    seq<byte>(PassW(p, w) * bw, k requires 0 <= k < PassW(p, w) * bw =>
      DivLess(k, PassW(p, w), bw);
      PassSize(p, w, h, k / bw, j);
      Pixel(img, w, h, bw, Column(p, k / bw), Line(p, j), k % bw))
  }

  ghost function ExtractLines(img: seq<byte>, w: nat, h: nat, bw: nat, p: nat): (lines: seq<seq<byte>>)
    requires bw > 0 && |img| == h * w * bw && p < 7
    ensures |lines| == PassH(p, h)
    ensures forall j | 0 <= j < PassH(p, h) :: lines[j] == ExtractLine(img, w, h, bw, p, j)
  {
    seq(PassH(p, h), j requires 0 <= j < PassH(p, h) => ExtractLine(img, w, h, bw, p, j))
  }

  /** The scanlines hold the lines of every pass, each filtered with a type of its own. */
  ghost predicate EncodedImage(scanlines: seq<byte>, img: seq<byte>, w: nat, h: nat, bw: nat, types: seq<seq<nat>>)
    requires bw > 0 && |img| == h * w * bw
  {
    |types| == 7 && forall p | 0 <= p < 7 && PassW(p, w) > 0 ::
      LinesAt(scanlines, PassStart(p, w, h, 8 * bw), ExtractLines(img, w, h, bw, p), types[p], PassW(p, w) * bw, bw)
  }

  lemma PassRestored(scanlines: seq<byte>, img: seq<byte>, w: nat, h: nat, bw: nat, types: seq<seq<nat>>, p: nat)
    requires bw > 0 && |img| == h * w * bw && p < 7 && EncodedImage(scanlines, img, w, h, bw, types)
    ensures PassLines(scanlines, p, w, h, bw)
         == Some(if PassW(p, w) > 0 then ExtractLines(img, w, h, bw, p) else [])
  {
    if PassW(p, w) > 0 {
      var lines := ExtractLines(img, w, h, bw, p);
      LinesRestored(scanlines, PassStart(p, w, h, 8 * bw), lines, types[p], PassW(p, w) * bw, bw, PassH(p, h));
      assert lines[..PassH(p, h)] == lines;
    }
  }

  lemma ExtractedPixel(img: seq<byte>, w: nat, h: nat, bw: nat, x: nat, y: nat, b: nat)
    requires bw > 0 && |img| == h * w * bw && x < w && y < h && b < bw
    requires IndexY(x, y) < PassH(PassOf(x, y), h)
    ensures LinePixel(ExtractLine(img, w, h, bw, PassOf(x, y), IndexY(x, y)), bw, IndexX(x, y), b)
         == Pixel(img, w, h, bw, x, y, b)
  {
    hide PassOf, PassW, PassH, SpaceX, SpaceY, PassLeft, PassTop, Pixel;
    var p, i, j := PassOf(x, y), IndexX(x, y), IndexY(x, y);
    IndexWithin(x, y, w, h);
    LineWithin(bw, i, PassW(p, w), PassW(p, w) * bw);
    DivMod(i, b, bw);
    PassesPartition(x, y, p, i, j);
  }

  /**
    For every image of at least 8 bits per pixel and every choice of filter types, decoding
    the seven passes that were taken out of the image puts the image together again.
   */
  lemma InterlacedRestored(out: seq<byte>, scanlines: seq<byte>, img: seq<byte>, w: nat, h: nat, bw: nat, types: seq<seq<nat>>)
    requires bw > 0 && w > 0 && |out| == |img| == h * w * bw && EncodedImage(scanlines, img, w, h, bw, types)
    ensures Decodable(scanlines, w, h, bw)
    ensures PassesInPlace(out, scanlines, w, h, bw, 7) ==> out == img
  {
    hide PassOf, PassW, PassH, SpaceX, SpaceY, LinePixel, EncodedImage, PassLines;
    forall p | 0 <= p < 7
      ensures PassLines(scanlines, p, w, h, bw).Some?
    {
      PassRestored(scanlines, img, w, h, bw, types, p);
    }
    if PassesInPlace(out, scanlines, w, h, bw, 7) {
      forall k | 0 <= k < |out|
        ensures out[k] == img[k]
      {
        var x, y, b := PixelOfIndex(w, h, bw, k);
        assert PlacedPixel(out, scanlines, w, h, bw, x, y, b);
        IndexWithin(x, y, w, h);
        PassRestored(scanlines, img, w, h, bw, types, PassOf(x, y));
        ExtractedPixel(img, w, h, bw, x, y, b);
      }
    }
  }
}
