/**
  Application bars at the edges of the desktop (litestep/TrayService.cpp): where bars are
  placed and what remains of a monitor as work area. Rectangles contain their left and top
  side but not their right and bottom side.
 */
module AppBars {
  import opened Options

  datatype Rect = Rect(left: int, top: int, right: int, bottom: int)

  type Window = nat
  type Monitor = nat

  // The edges; callers can pass other numbers.
  const LEFT: nat := 0
  const TOP: nat := 1
  const RIGHT: nat := 2
  const BOTTOM: nat := 3

  /** AppBar. Positioned bars have the flag for a clean rectangle. */
  datatype Bar = Bar(window: Window, overlap: bool, positioned: bool, rect: Rect, edge: nat, monitor: Option<Monitor>)

  /** What the system says of monitors; the primary one is used with a work area of its own. */
  datatype Desktop = Desktop(
    primary: Monitor,
    defaultArea: Rect,
    screen: Rect,
    areas: map<Monitor, Rect>,
    monitorOf: Rect -> Monitor
  )

  function Max(a: int, b: int): int { if a > b then a else b }

  function Min(a: int, b: int): int { if a < b then a else b }

  predicate Contains(r: Rect, x: int, y: int) {
    r.left <= x < r.right && r.top <= y < r.bottom
  }

  predicate IsEmpty(r: Rect) {
    r.left >= r.right || r.top >= r.bottom
  }

  const EMPTY: Rect := Rect(0, 0, 0, 0)

  function Intersect(a: Rect, b: Rect): Rect {
    var r := Rect(Max(a.left, b.left), Max(a.top, b.top), Min(a.right, b.right), Min(a.bottom, b.bottom));
    if IsEmpty(a) || IsEmpty(b) || IsEmpty(r) then EMPTY else r
  }

  /** IntersectRect finds no common point. */
  predicate Disjoint(a: Rect, b: Rect) {
    IsEmpty(Intersect(a, b))
  }

  lemma DisjointMeans(a: Rect, b: Rect)
    ensures Disjoint(a, b) <==> forall x, y :: !(Contains(a, x, y) && Contains(b, x, y))
  {
    if !Disjoint(a, b) {
      var r := Intersect(a, b);
      assert Contains(a, r.left, r.top) && Contains(b, r.left, r.top);
    }
  }

  // ---- The work area ----

  /** SubtractRect as documented: it cuts off what spans a full side, and nothing else. */
  function Subtract(a: Rect, b: Rect): Rect {
    var c := Intersect(a, b);
    if IsEmpty(a) then EMPTY
    else if IsEmpty(c) then a
    else if c == a then EMPTY
    else if c.top == a.top && c.bottom == a.bottom then
      if c.left == a.left then a.(left := c.right)
      else if c.right == a.right then a.(right := c.left)
      else a
    else if c.left == a.left && c.right == a.right then
      if c.top == a.top then a.(top := c.bottom)
      else if c.bottom == a.bottom then a.(bottom := c.top)
      else a
    else a
  }

  /** What a bar takes of its monitor: everything up to its inner side. */
  function Strip(area: Rect, bar: Bar): Rect {
    if bar.edge == LEFT then area.(right := bar.rect.right)
    else if bar.edge == RIGHT then area.(left := bar.rect.left)
    else if bar.edge == TOP then area.(bottom := bar.rect.bottom)
    else if bar.edge == BOTTOM then area.(top := bar.rect.top)
    else area
  }

  /** The bar reserves space on the monitor. */
  predicate Reserves(bar: Bar, monitor: Monitor, alive: Window -> bool) {
    !bar.overlap && bar.monitor == Some(monitor) && bar.positioned && alive(bar.window)
  }

  /** What the loop over the bars leaves of a rectangle. */
  function Reduce(area: Rect, rest: Rect, bars: seq<Bar>, monitor: Monitor, alive: Window -> bool): Rect
    decreases |bars|
  {
    if bars == [] then rest
    else
      var rest' := if Reserves(bars[0], monitor, alive) then Subtract(rest, Strip(area, bars[0])) else rest;
      Reduce(area, rest', bars[1..], monitor, alive)
  }

  function WorkArea(area: Rect, bars: seq<Bar>, monitor: Monitor, alive: Window -> bool): Rect {
    Reduce(area, area, bars, monitor, alive)
  }

  predicate Within(r: Rect, area: Rect) {
    IsEmpty(r) || (area.left <= r.left && area.top <= r.top && r.right <= area.right && r.bottom <= area.bottom)
  }

  /** A strip leaves a rectangle, and exactly the points that are not in the strip. */
  lemma SubtractStrip(area: Rect, rest: Rect, bar: Bar)
    requires Within(rest, area)
    ensures var r := Subtract(rest, Strip(area, bar));
      Within(r, area) && (IsEmpty(r) ==> r == EMPTY || r == rest)
      && forall x, y :: Contains(r, x, y) <==> Contains(rest, x, y) && !Contains(Strip(area, bar), x, y)
  {
  }

  predicate Taken(area: Rect, bars: seq<Bar>, monitor: Monitor, alive: Window -> bool, x: int, y: int) {
    exists i | 0 <= i < |bars| :: Reserves(bars[i], monitor, alive) && Contains(Strip(area, bars[i]), x, y)
  }

  lemma {:induction false} ReduceLeavesRest(area: Rect, rest: Rect, bars: seq<Bar>, monitor: Monitor, alive: Window -> bool, x: int, y: int)
    requires Within(rest, area)
    ensures var r := Reduce(area, rest, bars, monitor, alive);
      Within(r, area) && (Contains(r, x, y) <==> Contains(rest, x, y) && !Taken(area, bars, monitor, alive, x, y))
    decreases |bars|
  {
    hide Subtract, Strip, Contains;
    if bars != [] {
      var rest' := if Reserves(bars[0], monitor, alive) then Subtract(rest, Strip(area, bars[0])) else rest;
      SubtractStrip(area, rest, bars[0]);
      ReduceLeavesRest(area, rest', bars[1..], monitor, alive, x, y);
      assert Taken(area, bars, monitor, alive, x, y)
        <==> (Reserves(bars[0], monitor, alive) && Contains(Strip(area, bars[0]), x, y)) || Taken(area, bars[1..], monitor, alive, x, y) by {
        TakenByFirst(area, bars, monitor, alive, x, y);
      }
    }
  }

  lemma TakenByFirst(area: Rect, bars: seq<Bar>, monitor: Monitor, alive: Window -> bool, x: int, y: int)
    requires bars != []
    ensures Taken(area, bars, monitor, alive, x, y)
       <==> (Reserves(bars[0], monitor, alive) && Contains(Strip(area, bars[0]), x, y)) || Taken(area, bars[1..], monitor, alive, x, y)
  {
    hide Reserves, Contains, Strip;
    if Taken(area, bars[1..], monitor, alive, x, y) {
      var i :| 0 <= i < |bars[1..]| && Reserves(bars[1..][i], monitor, alive) && Contains(Strip(area, bars[1..][i]), x, y);
      assert bars[1..][i] == bars[i + 1];
    }
    if Taken(area, bars, monitor, alive, x, y) {
      var i :| 0 <= i < |bars| && Reserves(bars[i], monitor, alive) && Contains(Strip(area, bars[i]), x, y);
      assert i > 0 ==> bars[1..][i - 1] == bars[i];
    }
  }

  /** The work area is exactly what no bar takes. */
  lemma WorkAreaIsRest(area: Rect, bars: seq<Bar>, monitor: Monitor, alive: Window -> bool, x: int, y: int)
    ensures Contains(WorkArea(area, bars, monitor, alive), x, y)
       <==> Contains(area, x, y) && !Taken(area, bars, monitor, alive, x, y)
  {
    ReduceLeavesRest(area, area, bars, monitor, alive, x, y);
  }

  /** A rectangle is determined by its points, and there is one empty rectangle. */
  predicate Canonical(r: Rect) {
    IsEmpty(r) ==> r == EMPTY
  }

  lemma PointsDetermine(a: Rect, b: Rect)
    requires Canonical(a) && Canonical(b)
    requires forall x, y :: Contains(a, x, y) <==> Contains(b, x, y)
    ensures a == b
  {
    if !IsEmpty(a) {
      assert Contains(a, a.left, a.top) && Contains(a, a.right - 1, a.bottom - 1);
      assert Contains(b, b.left, b.top) && Contains(b, b.right - 1, b.bottom - 1);
    } else if !IsEmpty(b) {
      assert Contains(b, b.left, b.top);
    }
  }

  lemma {:induction false} ReduceCanonical(area: Rect, rest: Rect, bars: seq<Bar>, monitor: Monitor, alive: Window -> bool)
    requires Within(rest, area) && Canonical(rest)
    ensures Canonical(Reduce(area, rest, bars, monitor, alive))
    decreases |bars|
  {
    hide Subtract, Strip, Contains;
    if bars != [] {
      SubtractStrip(area, rest, bars[0]);
      var rest' := if Reserves(bars[0], monitor, alive) then Subtract(rest, Strip(area, bars[0])) else rest;
      ReduceCanonical(area, rest', bars[1..], monitor, alive);
    }
  }

  /** The order of the bars does not matter, only which bars there are. */
  lemma OrderDoesNotMatter(area: Rect, bars: seq<Bar>, bars': seq<Bar>, monitor: Monitor, alive: Window -> bool)
    requires !IsEmpty(area) && forall b :: b in bars <==> b in bars'
    ensures WorkArea(area, bars, monitor, alive) == WorkArea(area, bars', monitor, alive)
  {
    hide WorkArea, Contains;
    var a, a' := WorkArea(area, bars, monitor, alive), WorkArea(area, bars', monitor, alive);
    assert Canonical(a) && Canonical(a') by {
      WorkAreaCanonical(area, bars, monitor, alive);
      WorkAreaCanonical(area, bars', monitor, alive);
    }
    forall x, y
      ensures Contains(a, x, y) <==> Contains(a', x, y)
    {
      WorkAreaIsRest(area, bars, monitor, alive, x, y);
      WorkAreaIsRest(area, bars', monitor, alive, x, y);
      SameTaken(area, bars, bars', monitor, alive, x, y);
      SameTaken(area, bars', bars, monitor, alive, x, y);
    }
    PointsDetermine(a, a');
  }

  lemma WorkAreaCanonical(area: Rect, bars: seq<Bar>, monitor: Monitor, alive: Window -> bool)
    requires !IsEmpty(area)
    ensures Canonical(WorkArea(area, bars, monitor, alive))
  {
    ReduceCanonical(area, area, bars, monitor, alive);
  }

  lemma SameTaken(area: Rect, bars: seq<Bar>, bars': seq<Bar>, monitor: Monitor, alive: Window -> bool, x: int, y: int)
    requires forall b :: b in bars ==> b in bars'
    ensures Taken(area, bars, monitor, alive, x, y) ==> Taken(area, bars', monitor, alive, x, y)
  {
    hide Reserves, Contains, Strip;
    if Taken(area, bars, monitor, alive, x, y) {
      var i :| 0 <= i < |bars| && Reserves(bars[i], monitor, alive) && Contains(Strip(area, bars[i]), x, y);
      assert bars[i] in bars';
      var j :| 0 <= j < |bars'| && bars'[j] == bars[i];
    }
  }

  /** The area shrunk to the innermost side of the bars on each of the four edges. */
  function Bounds(area: Rect, bars: seq<Bar>, monitor: Monitor, alive: Window -> bool): Rect {
    if bars == [] then area
    else
      var r := Bounds(area, bars[1..], monitor, alive);
      var b := bars[0];
      if !Reserves(b, monitor, alive) then r
      else if b.edge == LEFT then r.(left := Max(r.left, b.rect.right))
      else if b.edge == RIGHT then r.(right := Min(r.right, b.rect.left))
      else if b.edge == TOP then r.(top := Max(r.top, b.rect.bottom))
      else if b.edge == BOTTOM then r.(bottom := Min(r.bottom, b.rect.top))
      else r
  }

  /** Some bar with an edge that is none of the four reserves space. */
  predicate UnknownEdge(bars: seq<Bar>, monitor: Monitor, alive: Window -> bool) {
    exists i | 0 <= i < |bars| :: Reserves(bars[i], monitor, alive) && bars[i].edge > BOTTOM
  }

  lemma {:induction false} BoundsLeaveRest(area: Rect, bars: seq<Bar>, monitor: Monitor, alive: Window -> bool, x: int, y: int)
    requires !UnknownEdge(bars, monitor, alive)
    ensures var r := Bounds(area, bars, monitor, alive);
      && area.left <= r.left && r.right <= area.right && area.top <= r.top && r.bottom <= area.bottom
      && (Contains(r, x, y) <==> Contains(area, x, y) && !Taken(area, bars, monitor, alive, x, y))
  {
    if bars != [] {
      KnownInRest(bars, monitor, alive);
      hide UnknownEdge, Taken;
      BoundsLeaveRest(area, bars[1..], monitor, alive, x, y);
      TakenByFirst(area, bars, monitor, alive, x, y);
    }
  }

  lemma KnownInRest(bars: seq<Bar>, monitor: Monitor, alive: Window -> bool)
    requires bars != [] && !UnknownEdge(bars, monitor, alive)
    ensures !UnknownEdge(bars[1..], monitor, alive) && (Reserves(bars[0], monitor, alive) ==> bars[0].edge <= BOTTOM)
  {
    hide Reserves;
    forall i | 0 <= i < |bars[1..]| && Reserves(bars[1..][i], monitor, alive)
      ensures bars[1..][i].edge <= BOTTOM
    {
      var next := i + 1;
      assert bars[next] == bars[1..][i];
    }
  }

  /** A bar with an edge that is none of the four takes the whole area. */
  lemma UnknownEdgeTakesAll(area: Rect, bars: seq<Bar>, monitor: Monitor, alive: Window -> bool)
    requires !IsEmpty(area) && UnknownEdge(bars, monitor, alive)
    ensures WorkArea(area, bars, monitor, alive) == EMPTY
  {
    hide WorkArea;
    var i :| 0 <= i < |bars| && Reserves(bars[i], monitor, alive) && bars[i].edge > BOTTOM;
    assert Strip(area, bars[i]) == area;
    var a := WorkArea(area, bars, monitor, alive);
    WorkAreaCanonical(area, bars, monitor, alive);
    WorkAreaIsRest(area, bars, monitor, alive, a.left, a.top);
    assert Contains(area, a.left, a.top) ==> Taken(area, bars, monitor, alive, a.left, a.top);
    assert !Contains(a, a.left, a.top);
  }

  /**
    The work area is the area shrunk to the innermost side on each edge, or the one empty
    rectangle if these sides enclose nothing, exactly if no bar with an unknown edge reserves
    space or the sides enclose nothing anyway.
   */
  lemma WorkAreaIsBounds(area: Rect, bars: seq<Bar>, monitor: Monitor, alive: Window -> bool)
    requires !IsEmpty(area)
    ensures var r := Bounds(area, bars, monitor, alive);
      WorkArea(area, bars, monitor, alive) == (if IsEmpty(r) then EMPTY else r)
      <==> !UnknownEdge(bars, monitor, alive) || IsEmpty(r)
  {
    hide WorkArea, Bounds;
    var a, r := WorkArea(area, bars, monitor, alive), Bounds(area, bars, monitor, alive);
    var c := if IsEmpty(r) then EMPTY else r;
    if UnknownEdge(bars, monitor, alive) {
      UnknownEdgeTakesAll(area, bars, monitor, alive);
    } else {
      WorkAreaCanonical(area, bars, monitor, alive);
      forall x, y
        ensures Contains(a, x, y) <==> Contains(c, x, y)
      {
        WorkAreaIsRest(area, bars, monitor, alive, x, y);
        BoundsLeaveRest(area, bars, monitor, alive, x, y);
      }
      PointsDetermine(a, c);
    }
  }

  /** An input for which it is not: one bar, ten high, whose edge is given as 7. */
  lemma UnknownEdgeHappens(alive: Window -> bool)
    requires alive(1)
    ensures
      var area, bars := Rect(0, 0, 100, 100), [Bar(1, false, true, Rect(0, 0, 100, 10), 7, Some(0))];
      WorkArea(area, bars, 0, alive) == EMPTY && Bounds(area, bars, 0, alive) == area
  {
    var area, bars := Rect(0, 0, 100, 100), [Bar(1, false, true, Rect(0, 0, 100, 10), 7, Some(0))];
    assert Reserves(bars[0], 0, alive) && bars[0].edge > BOTTOM;
    UnknownEdgeTakesAll(area, bars, 0, alive);
    assert bars[1..] == [];
  }

  /** No bar that lies on its monitor covers any of the work area. */
  lemma WorkAreaIsFree(area: Rect, bars: seq<Bar>, monitor: Monitor, alive: Window -> bool, i: nat)
    requires i < |bars| && Reserves(bars[i], monitor, alive) && Within(bars[i].rect, area)
    ensures Disjoint(WorkArea(area, bars, monitor, alive), bars[i].rect)
  {
    var a := WorkArea(area, bars, monitor, alive);
    forall x, y
      ensures !(Contains(a, x, y) && Contains(bars[i].rect, x, y))
    {
      WorkAreaIsRest(area, bars, monitor, alive, x, y);
      if Contains(bars[i].rect, x, y) {
        assert Contains(Strip(area, bars[i]), x, y);
      }
    }
    DisjointMeans(a, bars[i].rect);
  }

  /** A bar of a living window that is positioned on the monitor and lies over no other takes what is up to its inner side. */
  lemma BarTakes(area: Rect, bars: seq<Bar>, monitor: Monitor, alive: Window -> bool, i: nat, x: int, y: int)
    requires i < |bars| && bars[i].monitor == Some(monitor) && alive(bars[i].window) && bars[i].positioned && !bars[i].overlap
    requires Contains(WorkArea(area, bars, monitor, alive), x, y)
    ensures match bars[i].edge
      case 0 => x >= bars[i].rect.right
      case 1 => y >= bars[i].rect.bottom
      case 2 => x < bars[i].rect.left
      case 3 => y < bars[i].rect.top
      case _ => false
  {
    hide WorkArea;
    WorkAreaIsRest(area, bars, monitor, alive, x, y);
    assert Reserves(bars[i], monitor, alive);
    assert !Contains(Strip(area, bars[i]), x, y);
  }

  /** Any other bar leaves the work area as it is. */
  lemma OtherBarsTakeNothing(area: Rect, before: seq<Bar>, bar: Bar, after: seq<Bar>, monitor: Monitor, alive: Window -> bool)
    requires !IsEmpty(area)
    requires bar.monitor != Some(monitor) || !alive(bar.window) || !bar.positioned || bar.overlap
    ensures WorkArea(area, before + [bar] + after, monitor, alive) == WorkArea(area, before + after, monitor, alive)
  {
    assert !Reserves(bar, monitor, alive);
    hide Reserves;
    ReducePasses(area, area, before, bar, after, monitor, alive);
  }

  lemma {:induction false} ReducePasses(area: Rect, rest: Rect, before: seq<Bar>, bar: Bar, after: seq<Bar>, monitor: Monitor, alive: Window -> bool)
    requires !Reserves(bar, monitor, alive)
    ensures Reduce(area, rest, before + [bar] + after, monitor, alive) == Reduce(area, rest, before + after, monitor, alive)
    decreases |before|
  {
    hide Reserves, Subtract, Strip;
    if before == [] {
      assert ([] + [bar] + after)[1..] == [] + after;
    } else {
      var rest' := if Reserves(before[0], monitor, alive) then Subtract(rest, Strip(area, before[0])) else rest;
      assert (before + [bar] + after)[1..] == before[1..] + [bar] + after && (before + after)[1..] == before[1..] + after;
      ReducePasses(area, rest', before[1..], bar, after, monitor, alive);
    }
  }

  // ---- Placing bars ----

  /** Top and bottom have the flag for horizontal edges. */
  predicate Horizontal(edge: nat) {
    edge % 2 == 1
  }

  function Extent(r: Rect, wanted: Rect, edge: nat): Rect {
    if edge == LEFT || edge == RIGHT then r.(top := Max(r.top, wanted.top), bottom := Min(r.bottom, wanted.bottom))
    else if edge == TOP || edge == BOTTOM then r.(left := Max(r.left, wanted.left), right := Min(r.right, wanted.right))
    else r
  }

  function Breadth(r: Rect, wanted: Rect, edge: nat): Rect {
    if edge == LEFT then r.(right := r.left + (wanted.right - wanted.left))
    else if edge == TOP then r.(bottom := r.top + (wanted.bottom - wanted.top))
    else if edge == RIGHT then r.(left := r.right - (wanted.right - wanted.left))
    else if edge == BOTTOM then r.(top := r.bottom - (wanted.bottom - wanted.top))
    else r
  }

  /** A rectangle moved inwards past a bar on the same edge. */
  function MovePast(r: Rect, bar: Rect, edge: nat): Rect {
    if edge == LEFT then r.(left := bar.right)
    else if edge == TOP then r.(top := bar.bottom)
    else if edge == RIGHT then r.(right := bar.left)
    else if edge == BOTTOM then r.(bottom := bar.top)
    else r
  }

  /** The bar's place after one turn of the loop, which also notes whether it came to the bar itself. */
  function Give(r: Rect, found: bool, bar: Bar, window: Window, edge: nat, monitor: Monitor): (Rect, bool) {
    if bar.overlap || bar.monitor != Some(monitor) then (r, found)
    else if bar.window == window then (r, true)
    else if !bar.positioned then (r, found)
    else if bar.edge != edge then
      if !Horizontal(edge) && Horizontal(bar.edge) && !Disjoint(bar.rect, r) then
        (if bar.edge == TOP then r.(top := bar.rect.bottom) else r.(bottom := bar.rect.top), found)
      else (r, found)
    else if !found then (MovePast(r, bar.rect, edge), found)
    else (r, found)
  }

  function GiveAll(r: Rect, found: bool, bars: seq<Bar>, window: Window, edge: nat, monitor: Monitor): (Rect, bool) {
    if bars == [] then (r, found)
    else
      var n := |bars| - 1;
      var before := GiveAll(r, found, bars[..n], window, edge, monitor);
      Give(before.0, before.1, bars[n], window, edge, monitor)
  }

  /** The area for bars near a rectangle, and the monitor it belongs to. */
  function AreaFor(d: Desktop, wanted: Rect): (Rect, Monitor) {
    var monitor := d.monitorOf(wanted);
    if monitor == d.primary then (d.defaultArea, monitor)
    else if monitor in d.areas then (d.areas[monitor], monitor)
    else (d.defaultArea, d.primary)
  }

  function PlaceNormal(d: Desktop, bars: seq<Bar>, wanted: Rect, edge: nat, window: Window): Rect {
    var area := AreaFor(d, wanted);
    Breadth(GiveAll(Extent(area.0, wanted, edge), false, bars, window, edge, area.1).0, wanted, edge)
  }

  /** A bar that hides lies over the others at the very edge. */
  function PlaceOverlap(d: Desktop, wanted: Rect, edge: nat): Rect {
    var monitor := d.monitorOf(wanted);
    Breadth(Extent(if monitor in d.areas then d.areas[monitor] else d.screen, wanted, edge), wanted, edge)
  }

  /** Bars of the primary monitor have its reduced area, those of another monitor the whole of it. */
  lemma AreaForIs(d: Desktop, wanted: Rect)
    ensures AreaFor(d, wanted).1 == if d.monitorOf(wanted) in d.areas then d.monitorOf(wanted) else d.primary
    ensures AreaFor(d, wanted).0 == if AreaFor(d, wanted).1 == d.primary then d.defaultArea else d.areas[AreaFor(d, wanted).1]
    ensures AreaFor(d, wanted).0 == AreaOf(d, AreaFor(d, wanted).1)
  {
  }

  /** A bar that hides itself lies at the very edge of its monitor, wherever other bars are, with the size it asked for. */
  lemma OverlapAtEdge(d: Desktop, wanted: Rect, edge: nat)
    requires edge <= BOTTOM
    ensures var r, m := PlaceOverlap(d, wanted, edge), d.monitorOf(wanted);
      var area := if m in d.areas then d.areas[m] else d.screen;
      && Outer(r, edge) == Outer(area, edge) && Size(r, edge) == Size(wanted, edge)
      && (if edge == TOP || edge == BOTTOM then r.left == Max(area.left, wanted.left) && r.right == Min(area.right, wanted.right)
          else r.top == Max(area.top, wanted.top) && r.bottom == Min(area.bottom, wanted.bottom))
  {
  }

  /** Position of the bar of a window, the number of bars if it has none. */
  function Find(bars: seq<Bar>, window: Window): (i: nat)
    ensures i <= |bars| && (i < |bars| ==> bars[i].window == window)
    ensures forall j | 0 <= j < i :: bars[j].window != window
  {
    if bars == [] || bars[0].window == window then 0 else 1 + Find(bars[1..], window)
  }

  const NOWHERE: nat := 0xFFFF_FFFF

  function NewBar(window: Window): Bar {
    Bar(window, false, false, EMPTY, NOWHERE, None)
  }

  function Create(bars: seq<Bar>, window: Window, alive: bool): seq<Bar> {
    if alive && Find(bars, window) == |bars| then bars + [NewBar(window)] else bars
  }

  function Destroy(bars: seq<Bar>, window: Window): seq<Bar> {
    var i := Find(bars, window);
    if i < |bars| then bars[..i] + bars[i + 1..] else bars
  }

  function SetPos(d: Desktop, bars: seq<Bar>, window: Window, edge: nat, wanted: Rect): seq<Bar> {
    var i := Find(bars, window);
    if i == |bars| then bars
    else
      var r := if bars[i].overlap then PlaceOverlap(d, wanted, edge) else PlaceNormal(d, bars, wanted, edge, window);
      bars[i := bars[i].(rect := r, positioned := true, edge := edge, monitor := Some(d.monitorOf(r)))]
  }

  predicate DistinctWindows(bars: seq<Bar>) {
    forall i, j | 0 <= i < j < |bars| :: bars[i].window != bars[j].window
  }

  /** No window has two bars, whatever is called. */
  lemma WindowsStayDistinct(d: Desktop, bars: seq<Bar>, window: Window, alive: bool, edge: nat, wanted: Rect)
    requires DistinctWindows(bars)
    ensures DistinctWindows(Create(bars, window, alive))
    ensures DistinctWindows(Destroy(bars, window))
    ensures DistinctWindows(SetPos(d, bars, window, edge, wanted))
  {
    hide PlaceNormal, PlaceOverlap;
  }

  /** A living window that has no bar gets one behind the others, which is nowhere yet. */
  lemma CreateAddsOne(bars: seq<Bar>, window: Window, alive: bool)
    ensures var bars' := Create(bars, window, alive);
      if alive && forall i | 0 <= i < |bars| :: bars[i].window != window then
        |bars'| == |bars| + 1 && bars'[..|bars|] == bars
        && bars'[|bars|].window == window && !bars'[|bars|].overlap && !bars'[|bars|].positioned && bars'[|bars|].monitor == None
      else bars' == bars
  {
  }

  /** Positioning changes the bar of the window only, which is on the monitor of its place then. */
  lemma SetPosMovesOne(d: Desktop, bars: seq<Bar>, window: Window, edge: nat, wanted: Rect, i: nat)
    requires DistinctWindows(bars) && i < |bars|
    ensures |SetPos(d, bars, window, edge, wanted)| == |bars|
    ensures var b := SetPos(d, bars, window, edge, wanted)[i];
      if bars[i].window != window then b == bars[i]
      else
        && b.positioned && b.edge == edge && b.monitor == Some(d.monitorOf(b.rect))
        && b.window == window && b.overlap == bars[i].overlap
        && b.rect == if b.overlap then PlaceOverlap(d, wanted, edge) else PlaceNormal(d, bars, wanted, edge, window)
  {
    hide PlaceOverlap, PlaceNormal;
  }

  /** The bar of a window is destroyed, and no other. */
  lemma DestroyRemovesOne(bars: seq<Bar>, window: Window, b: Bar)
    requires DistinctWindows(bars)
    ensures b in Destroy(bars, window) <==> b in bars && b.window != window
  {
    var i := Find(bars, window);
    hide Find;
    if b in bars && b.window != window && i < |bars| {
      var k :| 0 <= k < |bars| && bars[k] == b;
      assert if k < i then bars[..i][k] == b else bars[i + 1..][k - i - 1] == b;
    }
  }

  // ---- Runs that position the bars in the order of their registration ----

  /** The first steps of a session: a new bar, or a position for the first bar that has none. */
  datatype Step = Register(window: Window) | Position(wanted: Rect, edge: nat)

  /** The bars, how many have been positioned and what they asked for. */
  datatype Session = Session(bars: seq<Bar>, wanted: seq<Rect>)

  predicate Proper(r: Rect) {
    r.left <= r.right && r.top <= r.bottom
  }

  /** The step can be taken, and the bar wants to be on the monitor and is put there. */
  predicate Possible(d: Desktop, monitor: Monitor, s: Session, e: Step) {
    match e
    case Register(window) => Find(s.bars, window) == |s.bars|
    case Position(wanted, edge) =>
      && |s.wanted| < |s.bars| && edge <= BOTTOM && Proper(wanted)
      && AreaFor(d, wanted) == (AreaOf(d, monitor), monitor)
      && d.monitorOf(PlaceNormal(d, s.bars, wanted, edge, s.bars[|s.wanted|].window)) == monitor
  }

  /** The area of the monitor. */
  function AreaOf(d: Desktop, monitor: Monitor): Rect {
    if monitor != d.primary && monitor in d.areas then d.areas[monitor] else d.defaultArea
  }

  function After(d: Desktop, s: Session, e: Step): Session {
    match e
    case Register(window) => s.(bars := Create(s.bars, window, true))
    case Position(wanted, edge) =>
      if |s.wanted| < |s.bars| then
        Session(SetPos(d, s.bars, s.bars[|s.wanted|].window, edge, wanted), s.wanted + [wanted])
      else s
  }

  ghost predicate IsRun(d: Desktop, monitor: Monitor, run: seq<Session>, steps: seq<Step>) {
    && |run| == |steps| + 1 && run[0] == Session([], [])
    && forall i | 0 <= i < |steps| :: Possible(d, monitor, run[i], steps[i]) && run[i + 1] == After(d, run[i], steps[i])
  }

  /** The side of a rectangle that faces its edge, and the one that faces away. */
  function Outer(r: Rect, edge: nat): int {
    if edge == LEFT then r.left else if edge == TOP then r.top else if edge == RIGHT then r.right else r.bottom
  }

  function Inner(r: Rect, edge: nat): int {
    if edge == LEFT then r.right else if edge == TOP then r.bottom else if edge == RIGHT then r.left else r.top
  }

  /** Size of a rectangle across the edge. */
  function Size(r: Rect, edge: nat): int {
    if Horizontal(edge) then r.bottom - r.top else r.right - r.left
  }

  /** Where the first k bars leave off at an edge. */
  function Start(area: Rect, bars: seq<Bar>, k: nat, edge: nat): int
    requires k <= |bars|
  {
    if k == 0 then Outer(area, edge)
    else if bars[k - 1].edge == edge then Inner(bars[k - 1].rect, edge)
    else Start(area, bars, k - 1, edge)
  }

  /** The sizes that the bars at an edge asked for, together. */
  function Together(bars: seq<Bar>, wanted: seq<Rect>, k: nat, edge: nat): int
    requires k <= |bars| && k <= |wanted|
  {
    if k == 0 then 0
    else Together(bars, wanted, k - 1, edge) + (if bars[k - 1].edge == edge then Size(wanted[k - 1], edge) else 0)
  }

  /** Bar k starts where the bars before it at its edge leave off, and has the size it asked for. */
  predicate Tiles(area: Rect, bars: seq<Bar>, wanted: seq<Rect>, k: nat)
    requires k < |bars| && k < |wanted|
  {
    && Outer(bars[k].rect, bars[k].edge) == Start(area, bars, k, bars[k].edge)
    && Size(bars[k].rect, bars[k].edge) == Size(wanted[k], bars[k].edge)
  }

  /** One of the bars at an edge before bar k ends there. */
  predicate EndsAt(bars: seq<Bar>, k: nat, edge: nat, side: int)
    requires k <= |bars|
  {
    exists j | 0 <= j < k :: bars[j].edge == edge && Inner(bars[j].rect, edge) == side
  }

  /**
    Sideways bar k is as long as it wanted to be, within the area; at the left or right it ends
    earlier only where a bar at the top or bottom ends.
   */
  predicate KeepsExtent(area: Rect, bars: seq<Bar>, wanted: seq<Rect>, k: nat)
    requires k < |bars| && k < |wanted|
  {
    var r, w := bars[k].rect, wanted[k];
    if Horizontal(bars[k].edge) then r.left == Max(area.left, w.left) && r.right == Min(area.right, w.right)
    else
      && r.top >= Max(area.top, w.top) && (r.top == Max(area.top, w.top) || EndsAt(bars, k, TOP, r.top))
      && r.bottom <= Min(area.bottom, w.bottom) && (r.bottom == Min(area.bottom, w.bottom) || EndsAt(bars, k, BOTTOM, r.bottom))
  }

  /** A bar keeps clear of those before it at its edge; at a side also of those at top and bottom. */
  predicate KeepsClear(bars: seq<Bar>, k: nat)
    requires k < |bars|
  {
    forall j | 0 <= j < k && (bars[j].edge == bars[k].edge || (Horizontal(bars[j].edge) && !Horizontal(bars[k].edge))) ::
      Disjoint(bars[j].rect, bars[k].rect)
  }

  predicate Placed(area: Rect, monitor: Monitor, bars: seq<Bar>, wanted: seq<Rect>, k: nat)
    requires k < |bars| && k < |wanted|
  {
    && bars[k].positioned && bars[k].monitor == Some(monitor) && bars[k].edge <= BOTTOM && Proper(wanted[k])
    && Tiles(area, bars, wanted, k) && KeepsExtent(area, bars, wanted, k) && KeepsClear(bars, k)
  }

  predicate Laid(area: Rect, monitor: Monitor, s: Session) {
    && |s.wanted| <= |s.bars| && DistinctWindows(s.bars)
    && (forall k | 0 <= k < |s.bars| :: !s.bars[k].overlap)
    && (forall k | 0 <= k < |s.wanted| :: Placed(area, monitor, s.bars, s.wanted, k))
    && (forall k | |s.wanted| <= k < |s.bars| :: s.bars[k].monitor == None)
  }

  lemma {:induction false} StartOfPrefix(area: Rect, bars: seq<Bar>, bars': seq<Bar>, k: nat, edge: nat)
    requires k <= |bars| && k <= |bars'| && bars[..k] == bars'[..k]
    ensures Start(area, bars, k, edge) == Start(area, bars', k, edge)
  {
    if k > 0 {
      assert bars[k - 1] == bars[..k][k - 1] == bars'[..k][k - 1];
      assert bars[..k - 1] == bars[..k][..k - 1] == bars'[..k][..k - 1];
      StartOfPrefix(area, bars, bars', k - 1, edge);
    }
  }

  lemma EndsInPrefix(bars: seq<Bar>, bars': seq<Bar>, k: nat)
    requires k <= |bars| && k <= |bars'| && bars[..k] == bars'[..k]
    ensures forall edge, side :: EndsAt(bars, k, edge, side) <==> EndsAt(bars', k, edge, side)
  {
    assert forall j | 0 <= j < k :: bars[j] == bars[..k][j] == bars'[..k][j] == bars'[j];
    hide Inner;
  }

  /** What holds of a bar depends on it and those before it. */
  lemma PlacedInPrefix(area: Rect, monitor: Monitor, bars: seq<Bar>, wanted: seq<Rect>, bars': seq<Bar>, wanted': seq<Rect>, k: nat)
    requires k < |bars| && k < |wanted| && k < |bars'| && k < |wanted'|
    requires bars[..k + 1] == bars'[..k + 1] && wanted[k] == wanted'[k] && Placed(area, monitor, bars, wanted, k)
    ensures Placed(area, monitor, bars', wanted', k)
  {
    assert forall j | 0 <= j <= k :: bars'[j] == bars'[..k + 1][j] == bars[j];
    assert bars[..k] == bars[..k + 1][..k] == bars'[..k + 1][..k] == bars'[..k];
    StartOfPrefix(area, bars, bars', k, bars[k].edge);
    EndsInPrefix(bars, bars', k);
    hide Disjoint, Start, EndsAt;
  }

  /** b is at least as far from the edge as a. */
  predicate Further(edge: nat, a: int, b: int) {
    if edge == LEFT || edge == TOP then a <= b else a >= b
  }

  lemma {:induction false} StartBeyond(area: Rect, monitor: Monitor, s: Session, k: nat, edge: nat, j: nat)
    requires Laid(area, monitor, s) && j < k <= |s.wanted| && s.bars[j].edge == edge
    ensures Further(edge, Inner(s.bars[j].rect, edge), Start(area, s.bars, k, edge))
  {
    assert Placed(area, monitor, s.bars, s.wanted, k - 1);
    hide KeepsExtent, KeepsClear, DistinctWindows, Laid;
    if j < k - 1 {
      StartBeyond(area, monitor, s, k - 1, edge, j);
    }
  }

  /** The place of the next bar as far as the loop has come. */
  ghost predicate Giving(area: Rect, s: Session, wanted: Rect, edge: nat, i: nat, r: Rect)
    requires i <= |s.bars|
  {
    GivingSides(area, s, wanted, edge, i, r) && GivingClear(s, edge, i, r)
  }

  ghost predicate GivingClear(s: Session, edge: nat, i: nat, r: Rect)
    requires i <= |s.bars|
  {
    !Horizontal(edge) ==> forall j | 0 <= j < i && Horizontal(s.bars[j].edge) :: Disjoint(s.bars[j].rect, r)
  }

  ghost predicate GivingSides(area: Rect, s: Session, wanted: Rect, edge: nat, i: nat, r: Rect)
    requires i <= |s.bars|
  {
    var r0 := Extent(area, wanted, edge);
    && Outer(r, edge) == Start(area, s.bars, i, edge) && Inner(r, edge) == Inner(area, edge)
    && (Horizontal(edge) ==> r.left == r0.left && r.right == r0.right)
    && (!Horizontal(edge) ==> r0.top <= r.top && (r.top == r0.top || EndsAt(s.bars, i, TOP, r.top)))
    && (!Horizontal(edge) ==> r.bottom <= r0.bottom && (r.bottom == r0.bottom || EndsAt(s.bars, i, BOTTOM, r.bottom)))
  }

  /** Less of a rectangle in either direction. */
  predicate Less(r: Rect, r': Rect) {
    r.left <= r'.left && r'.right <= r.right && r.top <= r'.top && r'.bottom <= r.bottom
  }

  lemma DisjointFromLess(a: Rect, r: Rect, r': Rect)
    requires Disjoint(a, r) && Less(r, r')
    ensures Disjoint(a, r')
  {
  }

  lemma EndsNext(bars: seq<Bar>, i: nat)
    requires i < |bars|
    ensures forall edge, side :: EndsAt(bars, i, edge, side) ==> EndsAt(bars, i + 1, edge, side)
    ensures EndsAt(bars, i + 1, bars[i].edge, Inner(bars[i].rect, bars[i].edge))
  {
    hide Inner;
  }

  lemma GivingStep(area: Rect, monitor: Monitor, s: Session, wanted: Rect, edge: nat, i: nat, r: Rect)
    requires Laid(area, monitor, s) && i < |s.wanted| < |s.bars| && edge <= BOTTOM && Proper(wanted)
    requires Giving(area, s, wanted, edge, i, r)
    ensures var g := Give(r, false, s.bars[i], s.bars[|s.wanted|].window, edge, monitor);
      !g.1 && Less(r, g.0) && Giving(area, s, wanted, edge, i + 1, g.0)
  {
    assert Placed(area, monitor, s.bars, s.wanted, i);
    GiveSides(area, monitor, s, wanted, edge, i, r);
    GiveClears(area, monitor, s, wanted, edge, i, r);
    hide Give, Laid, GivingSides, GivingClear, Less;
  }

  lemma GiveSides(area: Rect, monitor: Monitor, s: Session, wanted: Rect, edge: nat, i: nat, r: Rect)
    requires Laid(area, monitor, s) && i < |s.wanted| < |s.bars| && edge <= BOTTOM && Proper(wanted)
    requires GivingSides(area, s, wanted, edge, i, r)
    ensures var g := Give(r, false, s.bars[i], s.bars[|s.wanted|].window, edge, monitor);
      !g.1 && Less(r, g.0) && GivingSides(area, s, wanted, edge, i + 1, g.0)
  {
    assert Placed(area, monitor, s.bars, s.wanted, i);
    EndsNext(s.bars, i);
    hide Laid, Placed, EndsAt;
  }

  lemma GiveClears(area: Rect, monitor: Monitor, s: Session, wanted: Rect, edge: nat, i: nat, r: Rect)
    requires Laid(area, monitor, s) && i < |s.wanted| < |s.bars| && edge <= BOTTOM && Proper(wanted)
    requires GivingClear(s, edge, i, r)
    requires Less(r, Give(r, false, s.bars[i], s.bars[|s.wanted|].window, edge, monitor).0)
    ensures GivingClear(s, edge, i + 1, Give(r, false, s.bars[i], s.bars[|s.wanted|].window, edge, monitor).0)
  {
    var r' := Give(r, false, s.bars[i], s.bars[|s.wanted|].window, edge, monitor).0;
    assert Placed(area, monitor, s.bars, s.wanted, i);
    hide Laid, Placed;
    if !Horizontal(edge) {
      forall j | 0 <= j < i + 1 && Horizontal(s.bars[j].edge)
        ensures Disjoint(s.bars[j].rect, r')
      {
        if j < i {
          DisjointFromLess(s.bars[j].rect, r, r');
        }
      }
    }
  }

  /** The loop over the bars that have been positioned. */
  lemma {:induction false} GivingAll(area: Rect, monitor: Monitor, s: Session, wanted: Rect, edge: nat, i: nat)
    requires Laid(area, monitor, s) && i <= |s.wanted| < |s.bars| && edge <= BOTTOM && Proper(wanted)
    ensures var g := GiveAll(Extent(area, wanted, edge), false, s.bars[..i], s.bars[|s.wanted|].window, edge, monitor);
      !g.1 && Giving(area, s, wanted, edge, i, g.0)
  {
    hide Laid, Give;
    if i > 0 {
      hide Giving;
      GivingAll(area, monitor, s, wanted, edge, i - 1);
      var r := GiveAll(Extent(area, wanted, edge), false, s.bars[..i - 1], s.bars[|s.wanted|].window, edge, monitor).0;
      assert s.bars[..i][..i - 1] == s.bars[..i - 1];
      GivingStep(area, monitor, s, wanted, edge, i - 1, r);
    }
  }

  /** The loop passes by the bars that have no position. */
  lemma {:induction false} GivingRest(area: Rect, monitor: Monitor, s: Session, wanted: Rect, edge: nat, i: nat)
    requires Laid(area, monitor, s) && |s.wanted| <= i <= |s.bars| && |s.wanted| < |s.bars|
    ensures var window := s.bars[|s.wanted|].window;
      GiveAll(Extent(area, wanted, edge), false, s.bars[..i], window, edge, monitor)
      == GiveAll(Extent(area, wanted, edge), false, s.bars[..|s.wanted|], window, edge, monitor)
    decreases i
  {
    if i > |s.wanted| {
      assert s.bars[..i][..i - 1] == s.bars[..i - 1];
      assert s.bars[i - 1].monitor == None;
      hide Laid;
      GivingRest(area, monitor, s, wanted, edge, i - 1);
    }
  }

  /** The bar that is positioned next, with the place it gets. */
  function Next(d: Desktop, s: Session, wanted: Rect, edge: nat, monitor: Monitor): Bar
    requires |s.wanted| < |s.bars|
  {
    var bar := s.bars[|s.wanted|];
    bar.(rect := PlaceNormal(d, s.bars, wanted, edge, bar.window), positioned := true, edge := edge, monitor := Some(monitor))
  }

  lemma FindNext(bars: seq<Bar>, k: nat)
    requires DistinctWindows(bars) && k < |bars|
    ensures Find(bars, bars[k].window) == k
  {
  }

  lemma PositionStep(d: Desktop, monitor: Monitor, s: Session, wanted: Rect, edge: nat)
    requires Laid(AreaOf(d, monitor), monitor, s) && Possible(d, monitor, s, Position(wanted, edge))
    ensures After(d, s, Position(wanted, edge))
         == Session(s.bars[|s.wanted| := Next(d, s, wanted, edge, monitor)], s.wanted + [wanted])
  {
    FindNext(s.bars, |s.wanted|);
    hide PlaceNormal, Find, AreaFor;
  }

  /** Where the next bar is placed. */
  lemma NextPlace(d: Desktop, monitor: Monitor, s: Session, wanted: Rect, edge: nat) returns (r: Rect)
    requires Laid(AreaOf(d, monitor), monitor, s) && Possible(d, monitor, s, Position(wanted, edge))
    ensures Giving(AreaOf(d, monitor), s, wanted, edge, |s.wanted|, r)
    ensures Next(d, s, wanted, edge, monitor).rect == Breadth(r, wanted, edge)
  {
    var area, k := AreaOf(d, monitor), |s.wanted|;
    hide Laid, Giving, GiveAll;
    GivingAll(area, monitor, s, wanted, edge, k);
    GivingRest(area, monitor, s, wanted, edge, |s.bars|);
    assert s.bars[..|s.bars|] == s.bars;
    r := GiveAll(Extent(area, wanted, edge), false, s.bars[..k], s.bars[k].window, edge, monitor).0;
  }

  lemma NextTiles(area: Rect, s: Session, wanted: Rect, edge: nat, r: Rect, bars': seq<Bar>, wanted': seq<Rect>)
    requires edge <= BOTTOM && |s.wanted| < |s.bars| && Giving(area, s, wanted, edge, |s.wanted|, r)
    requires |bars'| == |s.bars| && bars'[..|s.wanted|] == s.bars[..|s.wanted|]
    requires bars'[|s.wanted|].edge == edge && bars'[|s.wanted|].rect == Breadth(r, wanted, edge)
    requires wanted' == s.wanted + [wanted]
    ensures Tiles(area, bars', wanted', |s.wanted|) && KeepsExtent(area, bars', wanted', |s.wanted|)
  {
    StartOfPrefix(area, s.bars, bars', |s.wanted|, edge);
    EndsInPrefix(s.bars, bars', |s.wanted|);
    hide Disjoint, Start, EndsAt;
  }

  /** The next bar is disjoint from the bars that it has to be. */
  lemma NextIsClear(area: Rect, monitor: Monitor, s: Session, wanted: Rect, edge: nat, r: Rect, j: nat)
    requires Laid(area, monitor, s) && j < |s.wanted| < |s.bars| && edge <= BOTTOM && Proper(wanted)
    requires Giving(area, s, wanted, edge, |s.wanted|, r)
    requires s.bars[j].edge == edge || (Horizontal(s.bars[j].edge) && !Horizontal(edge))
    ensures Disjoint(s.bars[j].rect, Breadth(r, wanted, edge))
  {
    assert Placed(area, monitor, s.bars, s.wanted, j);
    if s.bars[j].edge == edge {
      StartBeyond(area, monitor, s, |s.wanted|, edge, j);
      hide Laid, Start, Placed;
    } else {
      assert Disjoint(s.bars[j].rect, r);
      hide Laid, Start, Tiles, KeepsClear;
    }
  }

  lemma PositionKeepsLaid(d: Desktop, monitor: Monitor, s: Session, wanted: Rect, edge: nat)
    requires Laid(AreaOf(d, monitor), monitor, s) && Possible(d, monitor, s, Position(wanted, edge))
    ensures Laid(AreaOf(d, monitor), monitor, After(d, s, Position(wanted, edge)))
  {
    var area, k := AreaOf(d, monitor), |s.wanted|;
    var r := NextPlace(d, monitor, s, wanted, edge);
    PositionStep(d, monitor, s, wanted, edge);
    var s' := After(d, s, Position(wanted, edge));
    assert s'.bars[..k] == s.bars[..k];
    NextTiles(area, s, wanted, edge, r, s'.bars, s'.wanted);
    forall j | 0 <= j < k && (s.bars[j].edge == edge || (Horizontal(s.bars[j].edge) && !Horizontal(edge)))
      ensures Disjoint(s'.bars[j].rect, s'.bars[k].rect)
    {
      NextIsClear(area, monitor, s, wanted, edge, r, j);
      hide *;
      assert s'.bars[j] == s.bars[j];
    }
    assert KeepsClear(s'.bars, k) by {
      hide Laid, Giving, Disjoint, AreaOf, Tiles, KeepsExtent, After, Possible, Next;
      assert forall j | 0 <= j < k :: s'.bars[j] == s.bars[j];
    }
    forall i | 0 <= i < |s'.wanted|
      ensures Placed(area, monitor, s'.bars, s'.wanted, i)
    {
      if i < k {
        hide Giving, Disjoint, AreaOf, After, Next, Breadth;
        assert s.bars[..i + 1] == s'.bars[..i + 1];
        PlacedInPrefix(area, monitor, s.bars, s.wanted, s'.bars, s'.wanted, i);
      } else {
        hide Laid, Giving, Disjoint, AreaOf, Tiles, KeepsExtent, KeepsClear;
      }
    }
    hide Giving, Disjoint, AreaOf, Tiles, KeepsExtent, KeepsClear, Placed;
  }

  lemma RegisterKeepsLaid(d: Desktop, monitor: Monitor, s: Session, window: Window)
    requires Laid(AreaOf(d, monitor), monitor, s) && Possible(d, monitor, s, Register(window))
    ensures Laid(AreaOf(d, monitor), monitor, After(d, s, Register(window)))
  {
    var area := AreaOf(d, monitor);
    var s' := After(d, s, Register(window));
    assert s'.bars == s.bars + [NewBar(window)];
    forall i | 0 <= i < |s.wanted|
      ensures Placed(area, monitor, s'.bars, s'.wanted, i)
    {
      hide AreaOf;
      assert s.bars[..i + 1] == s'.bars[..i + 1];
      PlacedInPrefix(area, monitor, s.bars, s.wanted, s'.bars, s'.wanted, i);
    }
    hide AreaOf, Placed;
  }

  lemma {:induction false} RunIsLaid(d: Desktop, monitor: Monitor, run: seq<Session>, steps: seq<Step>, n: nat)
    requires IsRun(d, monitor, run, steps) && n <= |steps|
    ensures Laid(AreaOf(d, monitor), monitor, run[n])
  {
    if n > 0 {
      hide Laid, After, Possible, AreaOf;
      RunIsLaid(d, monitor, run, steps, n - 1);
      match steps[n - 1]
      case Register(window) => RegisterKeepsLaid(d, monitor, run[n - 1], window);
      case Position(wanted, edge) => PositionKeepsLaid(d, monitor, run[n - 1], wanted, edge);
    }
  }

  // ---- What holds after every such run ----

  lemma {:induction false} StartIsSum(area: Rect, monitor: Monitor, s: Session, k: nat, edge: nat)
    requires Laid(area, monitor, s) && k <= |s.wanted| && edge <= BOTTOM
    ensures Start(area, s.bars, k, edge)
         == Outer(area, edge) + (if edge == LEFT || edge == TOP then 1 else -1) * Together(s.bars, s.wanted, k, edge)
  {
    if k > 0 {
      assert Placed(area, monitor, s.bars, s.wanted, k - 1);
      StartIsSum(area, monitor, s, k - 1, edge);
      hide Laid, KeepsClear, KeepsExtent;
    }
  }

  /**
    The bars at an edge tile it: each has the size it asked for and starts where the sizes of
    those before it end.
   */
  lemma BarsTileEdges(d: Desktop, monitor: Monitor, run: seq<Session>, steps: seq<Step>, n: nat, k: nat)
    requires IsRun(d, monitor, run, steps) && n <= |steps| && k < |run[n].wanted|
    ensures |run[n].wanted| <= |run[n].bars| && run[n].bars[k].positioned
    ensures var s, area := run[n], AreaOf(d, monitor);
      var edge := s.bars[k].edge;
      && Size(s.bars[k].rect, edge) == Size(s.wanted[k], edge)
      && Outer(s.bars[k].rect, edge)
         == Outer(area, edge) + (if edge == LEFT || edge == TOP then 1 else -1) * Together(s.bars, s.wanted, k, edge)
  {
    hide AreaOf;
    RunIsLaid(d, monitor, run, steps, n);
    assert Placed(AreaOf(d, monitor), monitor, run[n].bars, run[n].wanted, k);
    StartIsSum(AreaOf(d, monitor), monitor, run[n], k, run[n].bars[k].edge);
  }

  /** Sideways each bar is as long as it wanted to be, but for the monitor and the bars before it. */
  lemma BarsKeepLengths(d: Desktop, monitor: Monitor, run: seq<Session>, steps: seq<Step>, n: nat, k: nat)
    requires IsRun(d, monitor, run, steps) && n <= |steps| && k < |run[n].wanted| <= |run[n].bars|
    ensures KeepsExtent(AreaOf(d, monitor), run[n].bars, run[n].wanted, k)
  {
    hide AreaOf;
    RunIsLaid(d, monitor, run, steps, n);
    assert Placed(AreaOf(d, monitor), monitor, run[n].bars, run[n].wanted, k);
  }

  /**
    Bars at the same edge do not overlap, and a bar at the left or right does not overlap the
    bars at the top and bottom that were there before it.
   */
  lemma BarsKeepClear(d: Desktop, monitor: Monitor, run: seq<Session>, steps: seq<Step>, n: nat, j: nat, k: nat)
    requires IsRun(d, monitor, run, steps) && n <= |steps| && j < k < |run[n].wanted| <= |run[n].bars|
    requires run[n].bars[j].edge == run[n].bars[k].edge
      || (Horizontal(run[n].bars[j].edge) && !Horizontal(run[n].bars[k].edge))
    ensures Disjoint(run[n].bars[j].rect, run[n].bars[k].rect)
  {
    hide AreaOf, Disjoint;
    RunIsLaid(d, monitor, run, steps, n);
    assert Placed(AreaOf(d, monitor), monitor, run[n].bars, run[n].wanted, k);
  }

  // ---- Bars that are positioned anew ----

  /** Before the loop comes to the bar itself. */
  lemma {:induction false} PlacedBefore(area: Rect, monitor: Monitor, s: Session, wanted: Rect, edge: nat, k: nat, i: nat)
    requires Laid(area, monitor, s) && i <= k < |s.wanted| && edge <= BOTTOM
    ensures var g := GiveAll(Extent(area, wanted, edge), false, s.bars[..i], s.bars[k].window, edge, monitor);
      !g.1 && AtStart(area, s.bars, wanted, edge, i, g.0)
  {
    if i > 0 {
      PlacedBefore(area, monitor, s, wanted, edge, k, i - 1);
      assert s.bars[..i][..i - 1] == s.bars[..i - 1];
      assert Placed(area, monitor, s.bars, s.wanted, i - 1);
      assert s.bars[i - 1].window != s.bars[k].window;
      hide Laid, KeepsExtent, KeepsClear, Tiles, Disjoint;
    } else {
      hide Laid;
    }
  }

  /** It starts where the first i bars leave off at its edge, and ends where the area does. */
  predicate AtStart(area: Rect, bars: seq<Bar>, wanted: Rect, edge: nat, i: nat, r: Rect)
    requires i <= |bars|
  {
    && Outer(r, edge) == Start(area, bars, i, edge) && Inner(r, edge) == Inner(area, edge)
    && (Horizontal(edge) ==> r.left == Max(area.left, wanted.left) && r.right == Min(area.right, wanted.right))
  }

  /** Behind it, bars at the same edge no longer matter. */
  lemma {:induction false} PlacedBehind(area: Rect, monitor: Monitor, s: Session, wanted: Rect, edge: nat, k: nat, i: nat)
    requires Laid(area, monitor, s) && k < i <= |s.bars| && k < |s.wanted| && edge <= BOTTOM
    ensures var g := GiveAll(Extent(area, wanted, edge), false, s.bars[..i], s.bars[k].window, edge, monitor);
      g.1 && AtStart(area, s.bars, wanted, edge, k, g.0)
    decreases i
  {
    var before := s.bars[..i - 1];
    assert s.bars[..i][..i - 1] == before;
    if i == k + 1 {
      PlacedBefore(area, monitor, s, wanted, edge, k, k);
      assert Placed(area, monitor, s.bars, s.wanted, k);
    } else {
      PlacedBehind(area, monitor, s, wanted, edge, k, i - 1);
      assert s.bars[i - 1].window != s.bars[k].window;
    }
    hide Laid, KeepsExtent, KeepsClear, Tiles, Disjoint, Start;
  }

  /**
    A bar that asks for a place again, at whatever edge, gets it behind those of the bars before
    it that are at that edge, whatever bars there are behind it, and has the size it asks for.
   */
  lemma PlacedAgain(d: Desktop, monitor: Monitor, run: seq<Session>, steps: seq<Step>, n: nat, k: nat, wanted: Rect, edge: nat)
    requires IsRun(d, monitor, run, steps) && n <= |steps| && k < |run[n].wanted| <= |run[n].bars| && edge <= BOTTOM
    requires AreaFor(d, wanted) == (AreaOf(d, monitor), monitor)
    ensures var s, area := run[n], AreaOf(d, monitor);
      var r := PlaceNormal(d, s.bars, wanted, edge, s.bars[k].window);
      && Size(r, edge) == Size(wanted, edge)
      && Outer(r, edge)
         == Outer(area, edge) + (if edge == LEFT || edge == TOP then 1 else -1) * Together(s.bars, s.wanted, k, edge)
      && (Horizontal(edge) ==> r.left == Max(area.left, wanted.left) && r.right == Min(area.right, wanted.right))
  {
    var s, area := run[n], AreaOf(d, monitor);
    RunIsLaid(d, monitor, run, steps, n);
    PlacedBehind(area, monitor, s, wanted, edge, k, |s.bars|);
    assert s.bars[..|s.bars|] == s.bars;
    StartIsSum(area, monitor, s, k, edge);
    hide Laid, IsRun, AreaOf, AreaFor, GiveAll, Start, Extent;
  }
}
