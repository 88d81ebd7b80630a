/** The application bars of litestep/TrayService.cpp, which are objects that the service updates. */
module TrayService {
  import opened Options
  import opened AppBars

  class AppBar {
    const window: Window
    var overlap: bool
    var positioned: bool
    var rect: Rect
    var edge: nat
    var monitor: Option<Monitor>

    constructor (window: Window)
      ensures View() == NewBar(window)
    {
      this.window := window;
      overlap, positioned, rect, edge, monitor := false, false, EMPTY, NOWHERE, None;
    }

    function View(): Bar
      reads this
    {
      Bar(window, overlap, positioned, rect, edge, monitor)
    }
  }

  /** The bar of the window does not lie over the others and is positioned first or anew. */
  predicate Moves(before: seq<Bar>, after: seq<Bar>, window: Window)
    requires |before| == |after|
  {
    var i := Find(before, window);
    i < |before| && !before[i].overlap && (!before[i].positioned || before[i].rect != after[i].rect)
  }

  /** The others are to be notified if and only if some bar that lies over no other is placed first or elsewhere. */
  lemma NotifiedIfMoved(d: Desktop, before: seq<Bar>, window: Window, edge: nat, wanted: Rect)
    ensures var after := SetPos(d, before, window, edge, wanted);
      Moves(before, after, window)
      <==> exists i | 0 <= i < |before| ::
             !before[i].overlap && (before[i].positioned != after[i].positioned || before[i].rect != after[i].rect)
  {
    hide Find, PlaceNormal, PlaceOverlap;
    var after, i := SetPos(d, before, window, edge, wanted), Find(before, window);
    if i < |before| {
      assert after[i].positioned && forall j | 0 <= j < |before| && j != i :: after[j] == before[j];
    }
  }

  /** The values of the bars in a list. */
  ghost function Views(bars: seq<AppBar>): (views: seq<Bar>)
    reads bars
    ensures |views| == |bars| && forall i | 0 <= i < |bars| :: views[i] == bars[i].View()
  {
    seq(|bars|, i requires 0 <= i < |bars| reads bars => bars[i].View())
  }

  class TrayService {
    const desktop: Desktop
    var bars: seq<AppBar>

    ghost predicate Valid()
      reads this, bars
    {
      && (forall i, j | 0 <= i < j < |bars| :: bars[i] != bars[j])
      && DistinctWindows(Views(bars))
    }

    constructor (desktop: Desktop)
      ensures this.desktop == desktop && bars == [] && Valid()
    {
      this.desktop, bars := desktop, [];
    }

    method FindBar(window: Window) returns (i: nat)
      ensures i == Find(Views(bars), window)
    {
      i := 0;
      while i < |bars| && bars[i].window != window
        invariant i <= |bars|
        invariant forall j | 0 <= j < i :: bars[j].window != window
      {
        i := i + 1;
      }
      FindIs(Views(bars), window, i);
    }

    method BarCreate(window: Window, alive: bool) returns (ok: bool)
      requires Valid()
      modifies this
      ensures Valid() && Views(bars) == Create(old(Views(bars)), window, alive)
      ensures ok <==> |bars| == |old(bars)| + 1
      ensures forall bar | bar in bars && bar !in old(bars) :: fresh(bar)
    {
      ok := false;
      var i := FindBar(window);
      if alive && i == |bars| {
        var bar := new AppBar(window);
        bars := bars + [bar];
        assert Views(bars) == old(Views(bars)) + [NewBar(window)];
        ok := true;
      }
    }

    method BarDestroy(window: Window) returns (ok: bool)
      requires Valid()
      modifies this
      ensures Valid() && Views(bars) == Destroy(old(Views(bars)), window)
      ensures ok <==> Find(old(Views(bars)), window) < |old(bars)|
    {
      hide DistinctWindows, Find, SetPos, Create;
      var i := FindBar(window);
      ghost var views := Views(bars);
      WindowsStayDistinct(desktop, views, window, true, 0, EMPTY);
      ok := i < |bars|;
      if ok {
        bars := bars[..i] + bars[i + 1..];
        assert Views(bars) == views[..i] + views[i + 1..];
      }
    }

    method ModifyNormalBar(wanted: Rect, edge: nat, window: Window) returns (r: Rect)
      ensures r == PlaceNormal(desktop, Views(bars), wanted, edge, window)
    {
      var area := AreaFor(desktop, wanted);
      var monitor := area.1;
      r := Extent(area.0, wanted, edge);
      var found := false;
      ghost var views := Views(bars);
      var i := 0;
      while i < |bars|
        invariant 0 <= i <= |bars|
        invariant (r, found) == GiveAll(Extent(area.0, wanted, edge), false, views[..i], window, edge, monitor)
      {
        var p := bars[i];
        ghost var before := (r, found);
        if p.overlap || p.monitor != Some(monitor) {
        } else if p.window == window {
          found := true;
        } else if !p.positioned {
        } else if edge != p.edge {
          if !Horizontal(edge) && Horizontal(p.edge) {
            if !Disjoint(p.rect, r) {
              if p.edge == TOP {
                r := r.(top := p.rect.bottom);
              } else {
                r := r.(bottom := p.rect.top);
              }
            }
          }
        } else if !found {
          r := MovePast(r, p.rect, edge);
        }
        assert (r, found) == Give(before.0, before.1, views[i], window, edge, monitor);
        assert views[..i + 1][..i] == views[..i];
        i := i + 1;
      }
      assert views[..i] == views;
      r := Breadth(r, wanted, edge);
    }

    /** Tells where the bar has been put, if there is one, and whether the others are to be notified. */
    method BarSetPos(window: Window, edge: nat, wanted: Rect) returns (r: Option<Rect>, notify: bool)
      requires Valid()
      modifies bars
      ensures bars == old(bars) && Valid()
      ensures Views(bars) == SetPos(desktop, old(Views(bars)), window, edge, wanted)
      ensures r == (var i := Find(Views(bars), window); if i < |bars| then Some(bars[i].rect) else None)
      ensures notify <==> Moves(old(Views(bars)), Views(bars), window)
    {
      hide Find, PlaceNormal, PlaceOverlap, DistinctWindows;
      ghost var views := Views(bars);
      var i := FindBar(window);
      notify := false;
      if i == |bars| {
        return None, false;
      }
      var p := bars[i];
      var rect;
      if p.overlap {
        rect := PlaceOverlap(desktop, wanted, edge);
      } else {
        rect := ModifyNormalBar(wanted, edge, window);
        notify := !p.positioned || p.rect != rect;
      }
      Put(i, rect, edge);
      FindIs(Views(bars), window, i);
      WindowsStayDistinct(desktop, views, window, true, edge, wanted);
      r := Some(rect);
    }

    method Put(i: nat, rect: Rect, edge: nat)
      requires Valid() && i < |bars|
      modifies bars[i]
      ensures Views(bars) == old(Views(bars))[i := old(bars[i].View()).(
        rect := rect, positioned := true, edge := edge, monitor := Some(desktop.monitorOf(rect)))]
    {
      var p := bars[i];
      p.rect := rect;
      p.positioned := true;
      p.edge := edge;
      p.monitor := Some(desktop.monitorOf(p.rect));
    }

    /** What remains of the area of a monitor. */
    method AdjustWorkArea(area: Rect, monitor: Monitor, alive: Window -> bool) returns (rest: Rect)
      ensures rest == WorkArea(area, Views(bars), monitor, alive)
    {
      rest := area;
      ghost var views := Views(bars);
      var i := 0;
      while i < |bars|
        invariant 0 <= i <= |bars|
        invariant Reduce(area, rest, views[i..], monitor, alive) == WorkArea(area, views, monitor, alive)
      {
        var p := bars[i];
        assert views[i..][0] == p.View() && views[i..][1..] == views[i + 1..];
        if !p.overlap && p.monitor == Some(monitor) && p.positioned && alive(p.window) {
          rest := Subtract(rest, Strip(area, p.View()));
        }
        i := i + 1;
      }
    }
  }

  lemma {:induction false} FindIs(bars: seq<Bar>, window: Window, i: nat)
    requires i <= |bars| && (i < |bars| ==> bars[i].window == window)
    requires forall j | 0 <= j < i :: bars[j].window != window
    ensures Find(bars, window) == i
  {
    if i > 0 {
      FindIs(bars[1..], window, i - 1);
    }
  }
}
