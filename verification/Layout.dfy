/** InitWinLayout and DrawMainWindowBorder of tui/window.c. */
module Layout {
  import opened Words

  const WINDOW_DEVICE_HEIGHT := 6
  const WINDOW_TAB_WIDTH := 20
  const WINDOW_STATUS_HEIGHT := 3
  const DEFAULT_WINDOW_SIZE := 80
  const FULL_WIDTH := 112   // a narrower context takes the whole terminal
  const FULL_HEIGHT := 42
  const MAX_TERMINAL := 26843545  // 80 times that is the largest multiple of 80 that an int holds

  function Wrapped(x: int): UInt32 {
    x % UINT32_SIZE
  }

  datatype Rect = Rect(starty: UInt32, startx: UInt32, height: UInt32, width: UInt32)

  ghost predicate Contains(r: Rect, y: int, x: int) {
    r.starty <= y < r.starty + r.height && r.startx <= x < r.startx + r.width
  }

  ghost predicate NonEmpty(r: Rect) {
    r.height > 0 && r.width > 0
  }

  // Four fifths of the screen, or all of it but the border when that is less than full.
  ghost function Extent(screen: nat, full: nat): UInt32
    requires screen <= MAX_TERMINAL
  {
    var share := screen * DEFAULT_WINDOW_SIZE / 100;
    if share < full then Wrapped(screen - 2) else share
  }

  datatype Windows = Windows(device: Rect, tab: Rect, main: Rect, status: Rect)

  ghost predicate Covered(w: Windows, y: int, x: int) {
    Contains(w.device, y, x) || Contains(w.tab, y, x) || Contains(w.main, y, x) || Contains(w.status, y, x)
  }

  ghost predicate Disjoint(a: Rect, b: Rect) {
    forall y, x :: !(Contains(a, y, x) && Contains(b, y, x))
  }

  // The windows cover exactly the context's rectangle, no two of them the same cell.
  ghost predicate Tiled(height: UInt32, width: UInt32, w: Windows) {
    && (forall y, x :: Contains(Rect(0, 0, height, width), y, x) <==> Covered(w, y, x))
    && Disjoint(w.device, w.tab) && Disjoint(w.device, w.main) && Disjoint(w.device, w.status)
    && Disjoint(w.tab, w.main) && Disjoint(w.tab, w.status) && Disjoint(w.main, w.status)
  }

  ghost predicate AllNonEmpty(w: Windows) {
    NonEmpty(w.device) && NonEmpty(w.tab) && NonEmpty(w.main) && NonEmpty(w.status)
  }

  // The four layouts in a context of that size, with the source's unsigned subtractions.
  ghost predicate LaidOut(height: UInt32, width: UInt32, w: Windows) {
    && w.device == Rect(0, 0, WINDOW_DEVICE_HEIGHT, width)
    && w.tab == Rect(WINDOW_DEVICE_HEIGHT, 0,
                     Wrapped(height - WINDOW_DEVICE_HEIGHT - WINDOW_STATUS_HEIGHT), WINDOW_TAB_WIDTH)
    && w.main == Rect(WINDOW_DEVICE_HEIGHT, WINDOW_TAB_WIDTH, w.tab.height, Wrapped(width - WINDOW_TAB_WIDTH))
    && w.status == Rect(Wrapped(height - WINDOW_STATUS_HEIGHT), 0, WINDOW_STATUS_HEIGHT, width)
  }

  // The same in numbers, for a context that is large enough.
  ghost predicate IsPlaced(height: UInt32, width: UInt32, w: Windows)
    requires height > 9 && width > 20
  {
    && w.device == Rect(0, 0, 6, width) && w.status == Rect(height - 3, 0, 3, width)
    && w.tab == Rect(6, 0, height - 9, 20) && w.main == Rect(6, 20, height - 9, width - 20)
  }

  lemma LargeContextIsTiled(height: UInt32, width: UInt32, w: Windows)
    requires LaidOut(height, width, w)
    requires height > WINDOW_DEVICE_HEIGHT + WINDOW_STATUS_HEIGHT && width > WINDOW_TAB_WIDTH
    ensures Tiled(height, width, w) && AllNonEmpty(w)
  {
    assert w.tab.height == height - WINDOW_DEVICE_HEIGHT - WINDOW_STATUS_HEIGHT;
    assert w.main.width == width - WINDOW_TAB_WIDTH;
    assert w.status.starty == height - WINDOW_STATUS_HEIGHT;
  }

  lemma SmallContextIsNotTiled(height: UInt32, width: UInt32, w: Windows)
    requires LaidOut(height, width, w)
    requires height <= WINDOW_DEVICE_HEIGHT + WINDOW_STATUS_HEIGHT || width <= WINDOW_TAB_WIDTH
    ensures !(Tiled(height, width, w) && AllNonEmpty(w))
  {
    if Tiled(height, width, w) && AllNonEmpty(w) {
      var y, x := w.main.starty + w.main.height - 1, w.main.startx + w.main.width - 1;
      assert Contains(w.main, y, x) && Covered(w, y, x);
    }
  }

  lemma LaidOutIsTiled(height: UInt32, width: UInt32, w: Windows)
    requires LaidOut(height, width, w)
    ensures Tiled(height, width, w) && AllNonEmpty(w) <==>
            height > WINDOW_DEVICE_HEIGHT + WINDOW_STATUS_HEIGHT && width > WINDOW_TAB_WIDTH
  {
    if height > WINDOW_DEVICE_HEIGHT + WINDOW_STATUS_HEIGHT && width > WINDOW_TAB_WIDTH {
      LargeContextIsTiled(height, width, w);
    } else {
      SmallContextIsNotTiled(height, width, w);
    }
  }

  class WindowContext {
    var width: UInt32
    var height: UInt32
    var startx: UInt32
    var starty: UInt32
    var wins: Windows

    constructor ()
    {
      width, height, startx, starty := 0, 0, 0, 0;
      var none := Rect(0, 0, 0, 0);
      wins := Windows(none, none, none, none);
    }

    // The rectangle and the border around it are on the screen.
    ghost predicate OnScreen(cols: int, lines: int)
      reads this
    {
      && 1 <= startx && startx + width + 1 <= cols
      && 1 <= starty && starty + height + 1 <= lines
    }

    // One dimension of lines 55-64: the extent of the context and where it starts.
    static method Size(screen: int, full: int) returns (extent: UInt32, start: UInt32)
      requires 0 <= screen <= MAX_TERMINAL && full >= 42
      ensures extent == Extent(screen, full)
      ensures screen >= 2 ==> extent == if screen * 80 / 100 < full then screen - 2 else screen * 80 / 100
      ensures screen >= 2 ==> -1 <= start - (screen - (start + extent)) <= 0
      ensures 1 <= start && start + extent + 1 <= screen <==> screen >= 2
    {
      extent := screen * DEFAULT_WINDOW_SIZE / 100;
      if extent < full { extent := Wrapped(screen - 2); }
      start := Wrapped(screen - extent) / 2;
    }

    // Lines 66-84.
    method PlaceWindows()
      modifies this`wins
      ensures LaidOut(height, width, wins)
      ensures height > 9 && width > 20 ==> IsPlaced(height, width, wins)
    {
      var device := wins.device.(startx := 0, starty := 0, height := WINDOW_DEVICE_HEIGHT, width := width);
      var tab := wins.tab.(startx := 0, width := WINDOW_TAB_WIDTH);
      var status := wins.status.(startx := 0, height := WINDOW_STATUS_HEIGHT, width := width);
      var main := wins.main;

      tab := tab.(starty := Wrapped(device.starty + device.height));
      tab := tab.(height := Wrapped(height - device.height - status.height));
      main := main.(starty := tab.starty, startx := Wrapped(tab.startx + tab.width), height := tab.height);
      main := main.(width := Wrapped(width - tab.width));
      status := status.(starty := Wrapped(height - status.height));
      wins := Windows(device, tab, main, status);
    }

    // The layout is proper exactly on terminals of at least 23 columns and 12 lines; on smaller
    // ones a window is left empty or the unsigned subtractions wrap around.
    method InitWinLayout(cols: int, lines: int)
      requires 0 <= cols <= MAX_TERMINAL && 0 <= lines <= MAX_TERMINAL
      modifies this
      ensures Tiled(height, width, wins) && AllNonEmpty(wins) && OnScreen(cols, lines) <==> cols >= 23 && lines >= 12
      ensures width == Extent(cols, FULL_WIDTH) && height == Extent(lines, FULL_HEIGHT)
      ensures cols >= 2 ==> -1 <= startx - (cols - (startx + width)) <= 0
      ensures lines >= 2 ==> -1 <= starty - (lines - (starty + height)) <= 0
      ensures LaidOut(height, width, wins)
      ensures cols >= 2 ==> width == if cols * 80 / 100 < 112 then cols - 2 else cols * 80 / 100
      ensures lines >= 2 ==> height == if lines * 80 / 100 < 42 then lines - 2 else lines * 80 / 100
      ensures height > 9 && width > 20 ==> IsPlaced(height, width, wins)
    {
      width, startx := Size(cols, FULL_WIDTH);
      height, starty := Size(lines, FULL_HEIGHT);

      PlaceWindows();
      LaidOutIsTiled(height, width, wins);
    }
  }
}
