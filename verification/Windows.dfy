/** The lines and windows of Libcurses-21/curses.h and the line marks of touchwin.c.

    Only full-screen root windows are modelled: begy, begx and ch_off are 0 and orig is NULL, so
    firstchp and lastchp point at the line's own firstch and lastch. */
module Windows {

  /** __LDATA; of the attribute byte only __STANDOUT is ever set. */
  datatype Cell = Cell(ch: char, standout: bool)

  const BLANK := Cell(' ', false)

  function Blanks(n: nat): (r: seq<Cell>)
    ensures |r| == n
  {
    seq(n, i => BLANK)
  }

  /** The value of a __LINE. */
  datatype LineV = LineV(
    cells: seq<Cell>, dirty: bool, pastEol: bool, force: bool, hash: int, first: int, last: int)

  /** What __touchline does to the marks of a line. */
  function Touched(l: LineV, sx: int, ex: int, force: bool): LineV {
    l.(force := l.force || force,
       dirty := true,
       first := if !l.dirty || l.first > sx then sx else l.first,
       last := if !l.dirty || l.last < ex then ex else l.last)
  }

  /** A line of width w whose change marks are columns of the line in order or, when it is not
      dirty, possibly those that wrefresh leaves, w and 0. */
  predicate WellMarked(l: LineV, w: nat) {
    && |l.cells| == w
    && 0 <= l.first && 0 <= l.last < w
    && (l.first <= l.last || (l.first == w && !l.dirty))
  }

  /** The value of a window: its lines, its cursor and the flags the editing calls look at. */
  datatype WinV = WinV(lines: seq<LineV>, y: int, x: int, scrollOk: bool, standout: bool)

  predicate WellFormed(s: WinV, w: nat) {
    && 0 < |s.lines| && 0 < w
    && 0 <= s.y < |s.lines| && 0 <= s.x < w
    && forall i :: 0 <= i < |s.lines| ==> WellMarked(s.lines[i], w)
  }

  // ----- soundness of the change marks -----

  /** Every cell that differs from `base` lies on a dirty line between its marks. The bottom right
      cell of the screen is exempt, because wrefresh may never paint it. */
  ghost predicate SoundLine(base: seq<Cell>, l: LineV, bottom: bool) {
    && |base| == |l.cells|
    && forall x :: 0 <= x < |base| && base[x] != l.cells[x] && !(bottom && x == |base| - 1) ==>
         l.dirty && l.first <= x <= l.last
  }

  ghost predicate Sound(base: seq<seq<Cell>>, lines: seq<LineV>) {
    && |base| == |lines|
    && forall y :: 0 <= y < |lines| ==> SoundLine(base[y], lines[y], y == |lines| - 1)
  }

  class Line {
    const cells: array<Cell>
    var dirty: bool
    var pastEol: bool
    var force: bool
    var hash: int
    var firstch: int
    var lastch: int

    /** A blank clean line, as newwin sets it up. */
    constructor (n: nat, h: int)
      ensures fresh(cells) && cells.Length == n
      ensures View() == LineV(Blanks(n), false, false, false, h, 0, 0)
    {
      cells := new Cell[n](i => BLANK);
      dirty, pastEol, force, hash, firstch, lastch := false, false, false, h, 0, 0;
      new;
      assert cells[..] == Blanks(n);
    }

    ghost function View(): LineV
      reads this, cells
    {
      LineV(cells[..], dirty, pastEol, force, hash, firstch, lastch)
    }

    method Touch(sx: int, ex: int, forced: bool)
      modifies this
      ensures View() == Touched(old(View()), sx, ex, forced)
    {
      if forced { force := true; }
      if !dirty {
        dirty := true;
        firstch := sx;
        lastch := ex;
      } else {
        if firstch > sx { firstch := sx; }
        if lastch < ex { lastch := ex; }
      }
    }

    method SetCell(x: int, c: Cell)
      requires 0 <= x < cells.Length
      modifies cells
      ensures View() == old(View()).(cells := old(cells[..])[x := c])
    {
      cells[x] := c;
    }
  }

  method NewLines(h: nat, w: nat, blankHash: int) returns (ls: array<Line>)
    requires 0 < h && 0 < w
    ensures fresh(ls) && ls.Length == h
    ensures forall i :: 0 <= i < h ==> fresh(ls[i]) && fresh(ls[i].cells)
    ensures forall i :: 0 <= i < h ==> ls[i].View() == LineV(Blanks(w), false, false, false, blankHash, 0, 0)
    ensures forall i, j :: 0 <= i < j < h ==> ls[i] != ls[j] && ls[i].cells != ls[j].cells
  {
    var first := new Line(w, blankHash);
    ls := new Line[h](_ => first);
    for k := 1 to h
      invariant forall i :: 0 <= i < h ==> fresh(ls[i]) && fresh(ls[i].cells)
      invariant forall i :: 0 <= i < k ==> ls[i].View() == LineV(Blanks(w), false, false, false, blankHash, 0, 0)
      invariant forall i, j :: 0 <= i < j < k ==> ls[i] != ls[j] && ls[i].cells != ls[j].cells
    {
      ls[k] := new Line(w, blankHash);
    }
  }

  class Window {
    const maxy: nat
    const maxx: nat
    const lines: array<Line>
    var cury: int
    var curx: int
    var scrollOk: bool
    var clearOk: bool
    var standout: bool
    var leaveOk: bool

    /** The line objects of the window; line pointers move, the set stays. */
    ghost const pool: set<Line>
    /** Their cell buffers. */
    ghost const buffers: set<array<Cell>>
    /** The values of the lines, top to bottom. */
    ghost var view: seq<LineV>

    /** The line pointers are a permutation of distinct lines, showing `view`. */
    ghost predicate Valid()
      reads this, lines, pool, buffers
    {
      && 0 < maxy == lines.Length == |view| && 0 < maxx
      && (forall i :: 0 <= i < maxy ==> lines[i] in pool && lines[i].cells in buffers && lines[i].View() == view[i])
      && (forall i, j :: 0 <= i < j < maxy ==> lines[i] != lines[j] && lines[i].cells != lines[j].cells)
      && (forall i :: 0 <= i < maxy ==> WellMarked(view[i], maxx))
      && 0 <= cury < maxy && 0 <= curx < maxx
    }

    /** newwin: h blank lines of w columns, cursor at the top left, no flags. */
    constructor (h: nat, w: nat, blankHash: int)
      requires 0 < h && 0 < w
      ensures Valid() && fresh(lines) && fresh(pool) && fresh(buffers)
      ensures maxy == h && maxx == w
      ensures Snap() == WinV(seq(h, i => LineV(Blanks(w), false, false, false, blankHash, 0, 0)), 0, 0, false, false)
      ensures !clearOk && !leaveOk
    {
      var made := NewLines(h, w, blankHash);
      maxy, maxx, lines := h, w, made;
      cury, curx, scrollOk, clearOk, standout, leaveOk := 0, 0, false, false, false, false;
      pool := set i | 0 <= i < h :: made[i];
      buffers := set i | 0 <= i < h :: made[i].cells;
      view := seq(h, i => LineV(Blanks(w), false, false, false, blankHash, 0, 0));
    }

    ghost function Snap(): WinV
      reads this
    {
      WinV(view, cury, curx, scrollOk, standout)
    }

    /** __touchline */
    method TouchLine(y: int, sx: int, ex: int, force: bool)
      requires Valid() && 0 <= y < maxy && 0 <= sx <= ex < maxx
      modifies this`view, lines[y]
      ensures Valid() && view == old(view)[y := Touched(old(view)[y], sx, ex, force)]
    {
      lines[y].Touch(sx, ex, force);
      view := view[y := Touched(view[y], sx, ex, force)];
    }

    method SetCell(y: int, x: int, c: Cell)
      requires Valid() && 0 <= y < maxy && 0 <= x < maxx
      modifies this`view, lines[y].cells
      ensures Valid() && view == old(view)[y := old(view)[y].(cells := old(view)[y].cells[x := c])]
    {
      lines[y].SetCell(x, c);
      view := view[y := view[y].(cells := view[y].cells[x := c])];
    }

    method SetPastEol(y: int, on: bool)
      requires Valid() && 0 <= y < maxy
      modifies this`view, lines[y]
      ensures Valid() && view == old(view)[y := old(view)[y].(pastEol := on)]
    {
      lines[y].pastEol := on;
      view := view[y := view[y].(pastEol := on)];
    }

    method SetDirty(y: int, on: bool)
      requires Valid() && 0 <= y < maxy
      requires on ==> view[y].first <= view[y].last
      modifies this`view, lines[y]
      ensures Valid() && view == old(view)[y := old(view)[y].(dirty := on)]
    {
      lines[y].dirty := on;
      view := view[y := view[y].(dirty := on)];
    }

    method SetHash(y: int, h: int)
      requires Valid() && 0 <= y < maxy
      modifies this`view, lines[y]
      ensures Valid() && view == old(view)[y := old(view)[y].(hash := h)]
    {
      lines[y].hash := h;
      view := view[y := view[y].(hash := h)];
    }

    method ClearForce(y: int)
      requires Valid() && 0 <= y < maxy
      modifies this`view, lines[y]
      ensures Valid() && view == old(view)[y := old(view)[y].(force := false)]
    {
      lines[y].force := false;
      view := view[y := view[y].(force := false)];
    }

    /** wrefresh, refresh.c:178-190, after a line was repainted: the marks are pushed past each other
        and the line is clean. */
    method MarkClean(y: int)
      requires Valid() && 0 <= y < maxy
      modifies this`view, lines[y]
      ensures Valid() && view == old(view)[y := old(view)[y].(first := maxx, last := 0, dirty := false)]
    {
      if lines[y].firstch >= 0 { lines[y].firstch := maxx; }
      if lines[y].lastch < maxx { lines[y].lastch := 0; }
      if lines[y].lastch < lines[y].firstch { lines[y].dirty := false; }
      view := view[y := view[y].(first := maxx, last := 0, dirty := false)];
    }

    /** __touchwin and touchwin */
    method TouchWin(force: bool)
      requires Valid()
      modifies this`view, pool
      ensures Valid() && |view| == |old(view)|
      ensures forall y :: 0 <= y < maxy ==> view[y] == Touched(old(view)[y], 0, maxx - 1, force)
    {
      for y := 0 to maxy
        invariant Valid() && |view| == |old(view)|
        invariant forall i :: 0 <= i < y ==> view[i] == Touched(old(view)[i], 0, maxx - 1, force)
        invariant forall i :: y <= i < maxy ==> view[i] == old(view)[i]
      {
        TouchLine(y, 0, maxx - 1, force);
      }
    }
  }
}
