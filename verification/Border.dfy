/** DrawMainWindowBorder of tui/window.c on a character screen. */
module Border {
  import Layout

  // The alternate character set of the line-drawing characters.
  const HLINE := 'q'
  const VLINE := 'x'
  const ULCORNER := 'l'
  const LLCORNER := 'm'
  const URCORNER := 'k'
  const LRCORNER := 'j'

  // The context: where it starts on the screen and its size, border not included.
  datatype Area = Area(starty: nat, startx: nat, height: nat, width: nat)

  ghost predicate FitsWithBorder(a: Area, screen: array2<char>) {
    && 1 <= a.starty && a.starty + a.height < screen.Length0
    && 1 <= a.startx && a.startx + a.width < screen.Length1
  }

  ghost predicate OnEdge(a: Area, y: int, x: int) {
    y == a.starty - 1 || y == a.starty + a.height || x == a.startx - 1 || x == a.startx + a.width
  }

  ghost predicate WithinBorder(a: Area, y: int, x: int) {
    a.starty - 1 <= y <= a.starty + a.height && a.startx - 1 <= x <= a.startx + a.width
  }

  // What the border makes of a cell that held c.
  ghost function Framed(a: Area, y: int, x: int, c: char): char {
    if !WithinBorder(a, y, x) then c
    else if !OnEdge(a, y, x) then ' '
    else if y == a.starty - 1 then
      if x == a.startx - 1 then ULCORNER else if x == a.startx + a.width then URCORNER else HLINE
    else if y == a.starty + a.height then
      if x == a.startx - 1 then LLCORNER else if x == a.startx + a.width then LRCORNER else HLINE
    else VLINE
  }

  // mvwhline
  method HorizontalLine(screen: array2<char>, y: nat, x: nat, n: nat)
    requires y < screen.Length0 && x + n <= screen.Length1
    modifies screen
    ensures forall i, j :: 0 <= i < screen.Length0 && 0 <= j < screen.Length1 ==>
              screen[i, j] == if i == y && x <= j < x + n then HLINE else old(screen[i, j])
  {
    for k := 0 to n
      invariant forall i, j :: 0 <= i < screen.Length0 && 0 <= j < screen.Length1 ==>
                  screen[i, j] == if i == y && x <= j < x + k then HLINE else old(screen[i, j])
    {
      screen[y, x + k] := HLINE;
    }
  }

  // mvwvline
  method VerticalLine(screen: array2<char>, y: nat, x: nat, n: nat)
    requires y + n <= screen.Length0 && x < screen.Length1
    modifies screen
    ensures forall i, j :: 0 <= i < screen.Length0 && 0 <= j < screen.Length1 ==>
              screen[i, j] == if j == x && y <= i < y + n then VLINE else old(screen[i, j])
  {
    for k := 0 to n
      invariant forall i, j :: 0 <= i < screen.Length0 && 0 <= j < screen.Length1 ==>
                  screen[i, j] == if j == x && y <= i < y + k then VLINE else old(screen[i, j])
    {
      screen[y + k, x] := VLINE;
    }
  }

  // Lines 102-104: the loops stop short of the bottom row and the right-hand column.
  method Blank(screen: array2<char>, a: Area)
    requires FitsWithBorder(a, screen)
    modifies screen
    ensures forall i, j :: 0 <= i < screen.Length0 && 0 <= j < screen.Length1 ==>
              screen[i, j] == if a.starty - 1 <= i < a.starty + a.height && a.startx - 1 <= j < a.startx + a.width
                              then ' ' else old(screen[i, j])
  {
    for y := a.starty - 1 to a.starty + a.height
      invariant forall i, j :: 0 <= i < screen.Length0 && 0 <= j < screen.Length1 ==>
                  screen[i, j] == if a.starty - 1 <= i < y && a.startx - 1 <= j < a.startx + a.width
                                  then ' ' else old(screen[i, j])
    {
      for x := a.startx - 1 to a.startx + a.width
        invariant forall i, j :: 0 <= i < screen.Length0 && 0 <= j < screen.Length1 ==>
                    screen[i, j] == if (a.starty - 1 <= i < y && a.startx - 1 <= j < a.startx + a.width)
                                       || (i == y && a.startx - 1 <= j < x)
                                    then ' ' else old(screen[i, j])
      {
        screen[y, x] := ' ';
      }
    }
  }

  // The perimeter is drawn, the interior is blank, and nothing outside is touched.
  method DrawMainWindowBorder(screen: array2<char>, a: Area)
    requires FitsWithBorder(a, screen)
    modifies screen
    ensures forall y, x :: 0 <= y < screen.Length0 && 0 <= x < screen.Length1 ==>
              screen[y, x] == Framed(a, y, x, old(screen[y, x]))
    ensures var top, left := a.starty - 1, a.startx - 1;
            var bottom, right := a.starty + a.height, a.startx + a.width;
            && screen[top, left] == 'l' && screen[top, right] == 'k'
            && screen[bottom, left] == 'm' && screen[bottom, right] == 'j'
            && (forall x :: left < x < right ==> screen[top, x] == 'q' && screen[bottom, x] == 'q')
            && (forall y :: top < y < bottom ==> screen[y, left] == 'x' && screen[y, right] == 'x')
            && (forall y, x :: top < y < bottom && left < x < right ==> screen[y, x] == ' ')
            && forall y, x :: 0 <= y < screen.Length0 && 0 <= x < screen.Length1 ==>
                 y < top || y > bottom || x < left || x > right ==> screen[y, x] == old(screen[y, x])
  {
    Blank(screen, a);
    HorizontalLine(screen, a.starty - 1, a.startx - 1, a.width + 2);
    HorizontalLine(screen, a.starty + a.height, a.startx - 1, a.width + 2);
    VerticalLine(screen, a.starty - 1, a.startx - 1, a.height + 2);
    VerticalLine(screen, a.starty - 1, a.startx + a.width, a.height + 2);
    screen[a.starty - 1, a.startx - 1] := ULCORNER;
    screen[a.starty + a.height, a.startx - 1] := LLCORNER;
    screen[a.starty - 1, a.startx + a.width] := URCORNER;
    screen[a.starty + a.height, a.startx + a.width] := LRCORNER;
  }

  // On every terminal of at least 23 columns and 12 lines the border fits: lay out, then draw.
  method LayOutAndDraw(ctx: Layout.WindowContext, screen: array2<char>)
    requires 23 <= screen.Length1 <= Layout.MAX_TERMINAL && 12 <= screen.Length0 <= Layout.MAX_TERMINAL
    modifies ctx, screen
    ensures ctx.OnScreen(screen.Length1, screen.Length0) && Layout.Tiled(ctx.height, ctx.width, ctx.wins)
    ensures forall y, x :: 0 <= y < screen.Length0 && 0 <= x < screen.Length1 ==>
              screen[y, x] == Framed(Area(ctx.starty, ctx.startx, ctx.height, ctx.width), y, x, old(screen[y, x]))
  {
    ctx.InitWinLayout(screen.Length1, screen.Length0);
    DrawMainWindowBorder(screen, Area(ctx.starty, ctx.startx, ctx.height, ctx.width));
  }
}
