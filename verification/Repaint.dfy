/** makech of Libcurses-21/refresh.c: repainting the changed part of one line. The window is not
    curscr, and being full-screen it has __ENDLINE, __FULLWIN and __SCROLLWIN set. */
module Repaint {
  import opened Windows
  import opened Clearing
  import opened Terminal
  import opened Screens

  /** The terminal shows curscr, unless it has run wild, and its standout mode is the one recorded
      in curscr's flags. */
  ghost predicate Sync(scr: Screen)
    reads scr, scr.curscr, scr.curscr.lines, scr.curscr.pool, scr.curscr.buffers
  {
    && scr.Valid()
    && (!scr.term.wild ==> scr.term.rows == Rows(scr.curscr.view))
    && scr.term.standout == scr.curscr.standout
    && (scr.curscr.standout ==> scr.caps.stands)
  }

  ghost predicate CursorAt(scr: Screen, y: int, x: int)
    reads scr
  {
    scr.term.row == y && scr.term.col == x
  }

  /** Whether the terminal has run wild: it stays so, it does for the cause given, and otherwise it
      can only by a motion that may write over cells. */
  predicate Wilder(c: Caps, was: bool, cause: bool, now: bool) {
    (was || cause ==> now) && (now ==> was || cause || !c.SafeMoves())
  }

  /** Nothing but row y has changed. */
  predicate OnlyRow(was: seq<seq<Cell>>, now: seq<seq<Cell>>, y: int) {
    |was| == |now| && forall k :: 0 <= k < |now| && k != y ==> now[k] == was[k]
  }

  /** Where refresh.c takes the cursor to be is a place of the screen unless the terminal ran wild. */
  ghost predicate InBounds(scr: Screen)
    reads scr
  {
    0 <= scr.ly && (scr.term.wild || scr.ly < scr.curscr.maxy) && 0 <= scr.lx < scr.curscr.maxx
  }

  /** The cursor is there, or a wrap is pending, unless the terminal ran wild. */
  ghost predicate Agreed(scr: Screen)
    reads scr
  {
    scr.term.wild || Agrees(scr.term, scr.ly, scr.lx, scr.curscr.maxx)
  }

  ghost predicate Tracked(scr: Screen)
    reads scr
  {
    InBounds(scr) && Agreed(scr)
  }

  /** Without SO and SE a cell in standout cannot be shown. */
  predicate Showable(c: Caps, cells: seq<Cell>) {
    c.stands || forall x :: 0 <= x < |cells| ==> !cells[x].standout
  }

  lemma RowsOfUpdate(v: seq<LineV>, y: int, c: seq<Cell>)
    requires 0 <= y < |v|
    ensures Rows(WithCells(v, y, c)) == Rows(v)[y := c]
  {
  }

  lemma MvcurMeans(t: Term, c: Caps, oy: int, ox: int, y: int, x: int, h: nat, w: nat)
    requires WfTerm(t, h, w) && 0 <= y && 0 <= x < w && (t.wild || From(t, oy, ox))
    ensures var r := Mvcur(t, c, oy, ox, y, x);
      && WfTerm(r, h, w) && r.top == t.top && r.bot == t.bot && r.standout == t.standout
      && r.rows == (if y < h then t.rows else Up(t.rows, 0, h - 1, y - h + 1, w))
      && (y < h ==> r.row == y && r.col == x)
      && Wilder(c, t.wild, y >= h, r.wild)
  {
    if y >= h { ScrollWidth(t.rows, 0, h - 1, y - h + 1, w); }
  }

  /** refresh.c:335-338 and the like: leaves standout mode. */
  method EndStandout(scr: Screen)
    requires Sync(scr)
    modifies scr`term, scr.curscr`standout
    ensures Sync(scr) && !scr.curscr.standout
    ensures scr.term == old(scr.term).(standout := false)
  {
    if scr.curscr.standout {
      scr.term := SetStandout(scr.term, false);
      scr.curscr.standout := false;
    }
  }

  /** domvcur from where the cursor is taken to be, and is: leaves standout mode unless it is safe to
      move in it, then moves the cursor. */
  method Domvcur(scr: Screen, y: int, x: int)
    requires Sync(scr) && Agreed(scr) && 0 <= y && 0 <= x < scr.curscr.maxx
    modifies scr`term, scr.curscr`standout
    ensures Sync(scr) && (y < scr.curscr.maxy ==> CursorAt(scr, y, x))
    ensures Wilder(scr.caps, old(scr.term.wild), y >= scr.curscr.maxy, scr.term.wild)
    ensures scr.term.rows == if y < scr.curscr.maxy then old(scr.term.rows)
      else Up(old(scr.term.rows), 0, scr.curscr.maxy - 1, y - scr.curscr.maxy + 1, scr.curscr.maxx)
  {
    if scr.curscr.standout && !scr.caps.ms {
      EndStandout(scr);
    }
    MvcurMeans(scr.term, scr.caps, scr.ly, scr.lx, y, x, scr.curscr.maxy, scr.curscr.maxx);
    scr.term := Mvcur(scr.term, scr.caps, scr.ly, scr.lx, y, x);
  }

  /** refresh.c:356-367: enters or leaves standout mode as the next cell wants it. */
  method WantStandout(scr: Screen, on: bool)
    requires Sync(scr) && (on ==> scr.caps.stands)
    modifies scr`term, scr.curscr`standout
    ensures Sync(scr) && scr.term == old(scr.term).(standout := on)
  {
    if on {
      if !scr.curscr.standout && scr.caps.stands {
        scr.term := SetStandout(scr.term, true);
        scr.curscr.standout := true;
      }
    } else if scr.curscr.standout && scr.caps.stands {
      scr.term := SetStandout(scr.term, false);
      scr.curscr.standout := false;
    }
  }

  /** refresh.c:399-401: stores a cell in curscr and sends its character. */
  method PutCell(scr: Screen, y: int, x: int, cell: Cell)
    requires Sync(scr) && CursorAt(scr, y, x) && 0 <= y < scr.curscr.maxy && 0 <= x < scr.curscr.maxx
    requires scr.term.standout == cell.standout
    modifies scr`term, scr.curscr`view, scr.curscr.lines[y].cells
    ensures Sync(scr) && CursorAt(scr, y, x + 1)
    ensures scr.curscr.view == WithCells(old(scr.curscr.view), y, old(scr.curscr.view)[y].cells[x := cell])
    ensures scr.term.wild == old(scr.term.wild) && OnlyRow(old(scr.term.rows), scr.term.rows, y)
  {
    RowsOfUpdate(scr.curscr.view, y, scr.curscr.view[y].cells[x := cell]);
    scr.curscr.SetCell(y, x, cell);
    scr.term := Put(scr.term, cell.ch);
  }

  /** refresh.c:341-344: blanks the columns of a curscr line up to clsp. */
  method BlankColumns(cur: Window, y: int, x: int, clsp: int)
    requires cur.Valid() && 0 <= y < cur.maxy && 0 <= x < cur.maxx && x - 1 <= clsp < cur.maxx
    modifies cur`view, cur.lines[y].cells
    ensures cur.Valid()
    ensures cur.view == WithCells(old(cur.view), y, Wiped(old(cur.view)[y].cells, x, clsp + 1))
  {
    ghost var v := cur.view;
    ghost var c := v[y].cells;
    WipeNothing(c, x);
    assert WithCells(v, y, c) == v;
    var wx := x;
    while wx <= clsp
      invariant x <= wx <= clsp + 1
      invariant cur.Valid() && cur.view == WithCells(v, y, Wiped(c, x, wx))
    {
      WipeStep(c, x, wx);
      cur.SetCell(y, wx, BLANK);
      wx := wx + 1;
    }
  }

  /** refresh.c:335-345: clears to the end of the line on the terminal and in curscr, whose last
      column that is not blank is clsp. */
  method ClearTail(scr: Screen, y: int, x: int, clsp: int)
    requires Sync(scr) && CursorAt(scr, y, x) && 0 <= y < scr.curscr.maxy && 0 <= x < scr.curscr.maxx
    requires x - 1 <= clsp < scr.curscr.maxx
    requires forall k :: clsp < k < scr.curscr.maxx ==> scr.curscr.view[y].cells[k] == BLANK
    modifies scr`term, scr.curscr`view, scr.curscr`standout, scr.curscr.lines[y].cells
    ensures Sync(scr) && CursorAt(scr, y, x)
    ensures scr.curscr.view
      == WithCells(old(scr.curscr.view), y, Wiped(old(scr.curscr.view)[y].cells, x, scr.curscr.maxx))
    ensures scr.term.wild == old(scr.term.wild) && OnlyRow(old(scr.term.rows), scr.term.rows, y)
  {
    ghost var v := scr.curscr.view;
    ghost var c := v[y].cells;
    EndStandout(scr);
    scr.term := ClearToEol(scr.term);
    BlankColumns(scr.curscr, y, x, clsp);
    assert Wiped(c, x, clsp + 1) == Wiped(c, x, scr.curscr.maxx) == c[..x] + Blanks(scr.curscr.maxx - x);
    RowsOfUpdate(v, y, Wiped(c, x, scr.curscr.maxx));
  }

  // ----- the line under repair -----

  /** What makech works on: line y of the window with cells `want`, to be painted from column first
      to lch over the curscr line `was`; `bottom` says that it is the bottom line. */
  datatype Job = Job(y: int, first: int, lch: int, force: bool, want: seq<Cell>, was: seq<Cell>, bottom: bool)

  /** The corner cell, which is never painted. */
  predicate Corner(j: Job, x: int) {
    j.bottom && x == |j.want| - 1
  }

  /** The curscr line once the columns first..wx-1 are painted. */
  function Painted(j: Job, wx: int): (r: seq<Cell>)
    requires |j.want| == |j.was|
    ensures |r| == |j.was|
  {
    seq(|j.was|, x requires 0 <= x < |j.was| => if j.first <= x < wx && !Corner(j, x) then j.want[x] else j.was[x])
  }

  lemma PaintStep(j: Job, x: int)
    requires |j.want| == |j.was| && 0 <= j.first <= x < |j.was|
    ensures Painted(j, x)[x] == j.was[x]
    ensures !Corner(j, x) ==> Painted(j, x)[x := j.want[x]] == Painted(j, x + 1)
    ensures Corner(j, x) || j.was[x] == j.want[x] ==> Painted(j, x) == Painted(j, x + 1)
  {
  }

  lemma PaintNothing(j: Job)
    requires |j.want| == |j.was|
    ensures Painted(j, j.first) == j.was
  {
  }

  /** makech has painted line j.y up to column wx; v are the curscr lines it started from. */
  ghost predicate Painting(scr: Screen, win: Window, j: Job, wx: int, v: seq<LineV>)
    reads scr, scr.curscr, scr.curscr.lines, scr.curscr.pool, scr.curscr.buffers
    reads win, win.lines, win.pool, win.buffers
  {
    match j
    case Job(y, first, lch, _, want, was, bottom) =>
      && scr.Over(win) && Sync(scr) && InBounds(scr)
      && 0 <= y < win.maxy == |v| && win.view[y].cells == want && v[y].cells == was
      && |want| == |was| == win.maxx && Showable(scr.caps, want)
      && 0 <= first <= wx <= lch + 1 <= win.maxx && bottom == (y == win.maxy - 1)
      && scr.curscr.view == WithCells(v, y, Painted(j, wx))
  }

  /** Where the cursor is when the columns before wx have been sent: the corner is not. */
  function CursorColumn(j: Job, wx: int): int {
    if j.bottom && wx == |j.want| then wx - 1 else wx
  }

  /** refresh.c:370-391: in the corner of a window that may scroll. */
  method StopInCorner(scr: Screen, win: Window)
    requires scr.Over(win) && Sync(scr)
    modifies scr`term, scr`ly, scr`lx, scr.curscr`standout
    ensures scr.Over(win) && Sync(scr) && InBounds(scr) && scr.ly == win.maxy - 1 && scr.lx == win.maxx - 1
    ensures scr.term == old(scr.term).(standout := scr.term.standout)
  {
    if scr.curscr.standout && !scr.caps.ms {
      EndStandout(scr);
    }
    scr.ly := win.maxy - 1;
    scr.lx := win.maxx - 1;
  }

  /** refresh.c:369-404, in the mode the cell wants. Returns true at `return (OK)` in the corner. */
  method SendCell(scr: Screen, win: Window, wx: int, cell: Cell, ghost j: Job, ghost v: seq<LineV>, y: int)
    returns (stop: bool)
    requires Painting(scr, win, j, wx, v) && y == j.y && wx <= j.lch && CursorAt(scr, y, wx)
    requires cell == j.want[wx] && scr.term.standout == cell.standout
    modifies scr`term, scr`ly, scr`lx, scr.curscr`view, scr.curscr`standout, scr.curscr.lines[y].cells
    ensures Painting(scr, win, j, wx + 1, v) && scr.term.wild == old(scr.term.wild)
    ensures OnlyRow(old(scr.term.rows), scr.term.rows, y)
    ensures CursorAt(scr, y, CursorColumn(j, wx + 1)) && (stop <==> Corner(j, wx) && win.scrollOk)
    ensures !stop ==> scr.ly == old(scr.ly) && scr.lx == old(scr.lx)
    ensures stop ==> scr.ly == y && scr.lx == win.maxx - 1
  {
    PaintStep(j, wx);
    if wx + 1 >= win.maxx && y == win.maxy - 1 {
      stop := win.scrollOk;
      if stop {
        StopInCorner(scr, win);
      }
    } else {
      stop := false;
      PutCell(scr, y, wx, cell);
    }
  }

  /** One cell of the inner loop, refresh.c:356-412. */
  method PaintCell(scr: Screen, win: Window, wx: int, ghost j: Job, ghost v: seq<LineV>, y: int) returns (stop: bool)
    requires Painting(scr, win, j, wx, v) && y == j.y && wx <= j.lch && CursorAt(scr, y, wx)
    modifies scr`term, scr`ly, scr`lx, scr.curscr`view, scr.curscr`standout, scr.curscr.buffers
    ensures Painting(scr, win, j, wx + 1, v) && scr.term.wild == old(scr.term.wild)
    ensures OnlyRow(old(scr.term.rows), scr.term.rows, y)
    ensures CursorAt(scr, y, CursorColumn(j, wx + 1)) && (stop <==> Corner(j, wx) && win.scrollOk)
    ensures !stop ==> scr.ly == old(scr.ly) && scr.lx == old(scr.lx)
    ensures stop ==> scr.ly == y && scr.lx == win.maxx - 1
  {
    var cell := win.lines[y].cells[wx];
    assert cell == win.lines[y].cells[..][wx] == j.want[wx];
    WantStandout(scr, cell.standout);
    stop := SendCell(scr, win, wx, cell, j, v, y);
  }

  // ----- clearing to the end of the line -----

  /** refresh.c:274-278: the last column of the window's line that is not blank, or 0. */
  method FindNlsp(win: Window, wy: int) returns (nlsp: int)
    requires win.Valid() && 0 <= wy < win.maxy
    ensures 0 <= nlsp < win.maxx
    ensures forall k :: nlsp < k < win.maxx ==> win.view[wy].cells[k] == BLANK
    ensures win.view[wy].cells[nlsp] == BLANK ==> nlsp == 0
  {
    var l := win.lines[wy];
    assert l.cells[..] == win.view[wy].cells;
    nlsp := win.maxx - 1;
    while l.cells[nlsp] == BLANK && nlsp > 0
      invariant 0 <= nlsp < win.maxx
      invariant forall k :: nlsp < k < win.maxx ==> l.cells[k] == BLANK
    {
      nlsp := nlsp - 1;
    }
    assert forall k :: nlsp < k < win.maxx ==> win.view[wy].cells[k] == l.cells[k];
  }

  /** clsp is the last column from x on that is not blank, or x - 1. */
  predicate IsLastInk(cells: seq<Cell>, x: int, clsp: int) {
    && 0 <= x <= clsp + 1 <= |cells|
    && (forall k :: clsp < k < |cells| ==> cells[k] == BLANK)
    && (clsp >= x ==> cells[clsp] != BLANK)
  }

  lemma LastInkIsOne(cells: seq<Cell>, x: int, a: int, b: int)
    requires IsLastInk(cells, x, a) && IsLastInk(cells, x, b)
    ensures a == b
  {
  }

  /** refresh.c:323-328: the last column from x on of curscr's line that is not blank, or x - 1. */
  method FindClsp(cur: Window, y: int, x: int) returns (clsp: int)
    requires cur.Valid() && 0 <= y < cur.maxy && 0 <= x < cur.maxx
    ensures x - 1 <= clsp < cur.maxx
    ensures IsLastInk(cur.view[y].cells, x, clsp)
  {
    var l := cur.lines[y];
    assert l.cells[..] == cur.view[y].cells;
    clsp := cur.maxx - 1;
    while clsp >= x && l.cells[clsp] == BLANK
      invariant x - 1 <= clsp < cur.maxx
      invariant forall k :: clsp < k < cur.maxx ==> l.cells[k] == BLANK
    {
      clsp := clsp - 1;
    }
    assert forall k :: clsp < k < cur.maxx ==> cur.view[y].cells[k] == l.cells[k];
  }

  /** The test of refresh.c:332-334. The source compares with the unsigned strlen(CE) and
      win->maxx * __LDATASIZE, so a negative difference counts as large and a negative clsp fails. */
  predicate WorthClearing(clsp: int, nlsp: int, ce: nat, w: nat, bottom: bool) {
    ((clsp < nlsp || clsp - nlsp >= ce) && 0 <= clsp < 2 * w) || bottom
  }

  /** From a column x on from where the window's line is blank, clearing pays if curscr has its last
      ink ce columns or more behind nlsp. By the unsigned comparison it also pays to clear what is
      blank on both sides, if the window's line has its last ink just before x; and it always pays on
      the bottom line. */
  lemma ClearingPaysIff(cells: seq<Cell>, x: int, clsp: int, nlsp: int, ce: nat, bottom: bool)
    requires IsLastInk(cells, x, clsp) && 0 <= nlsp <= x < |cells|
    ensures WorthClearing(clsp, nlsp, ce, |cells|, bottom)
      <==> bottom || (clsp >= 0 && (clsp >= nlsp + ce || clsp < nlsp))
    ensures clsp < nlsp <==> clsp == x - 1 && nlsp == x
  {
  }

  /** The curscr line after a clear to the end of the line from column wx on. */
  function PaintedAndCleared(j: Job, wx: int): seq<Cell>
    requires |j.want| == |j.was|
  {
    Wiped(Painted(j, wx), wx, |j.was|)
  }

  /** Clears the rest of the line under repair, which has no ink of curscr behind column clsp. */
  method ClearRest(scr: Screen, win: Window, wx: int, clsp: int, ghost j: Job, ghost v: seq<LineV>, y: int)
    requires Painting(scr, win, j, wx, v) && y == j.y && wx <= j.lch && CursorAt(scr, y, wx)
    requires wx - 1 <= clsp < scr.curscr.maxx
    requires forall k :: clsp < k < scr.curscr.maxx ==> scr.curscr.view[y].cells[k] == BLANK
    modifies scr`term, scr`lx, scr.curscr`view, scr.curscr`standout, scr.curscr.buffers
    ensures scr.Over(win) && Sync(scr) && scr.curscr.view == WithCells(v, y, PaintedAndCleared(j, wx)) && scr.lx == wx
    ensures scr.term.wild == old(scr.term.wild) && OnlyRow(old(scr.term.rows), scr.term.rows, y)
    ensures CursorAt(scr, y, wx)
  {
    scr.lx := wx;
    ClearTail(scr, y, wx, clsp);
  }

  /** refresh.c:323-347: where the rest of the window's line is blank, clears it if that pays. */
  method TryClear(scr: Screen, win: Window, wx: int, nlsp: int, ghost j: Job, ghost v: seq<LineV>, y: int)
    returns (cleared: bool)
    requires Painting(scr, win, j, wx, v) && y == j.y && wx <= j.lch && CursorAt(scr, y, wx)
    modifies scr`term, scr`lx, scr.curscr`view, scr.curscr`standout, scr.curscr.buffers
    ensures CursorAt(scr, y, wx) && (j.bottom ==> cleared)
    ensures forall clsp | IsLastInk(old(scr.curscr.view)[y].cells, wx, clsp) ::
      cleared <==> WorthClearing(clsp, nlsp, scr.caps.ce, win.maxx, j.bottom)
    ensures !cleared ==> Painting(scr, win, j, wx, v) && scr.lx == old(scr.lx)
    ensures cleared ==> scr.Over(win) && Sync(scr) && scr.curscr.view == WithCells(v, y, PaintedAndCleared(j, wx))
    ensures cleared ==> scr.lx == wx
    ensures scr.term.wild == old(scr.term.wild) && OnlyRow(old(scr.term.rows), scr.term.rows, y)
  {
    var clsp := FindClsp(scr.curscr, y, wx);
    forall k | IsLastInk(scr.curscr.view[y].cells, wx, k) ensures k == clsp {
      LastInkIsOne(scr.curscr.view[y].cells, wx, k, clsp);
    }
    cleared := WorthClearing(clsp, nlsp, scr.caps.ce, win.maxx, y == win.maxy - 1);
    if cleared {
      ClearRest(scr, win, wx, clsp, j, v, y);
    }
  }

  // ----- the loops -----

  datatype Outcome = Going | Cleared | CornerReached

  /** The line was cleared from column wx on, where the window's line is blank. */
  ghost predicate ClearedAt(scr: Screen, win: Window, j: Job, wx: int, nlsp: int, v: seq<LineV>)
    reads scr, scr.curscr, scr.curscr.lines, scr.curscr.pool, scr.curscr.buffers
    reads win, win.lines, win.pool, win.buffers
  {
    && scr.Over(win) && Sync(scr) && |j.want| == |j.was| && 0 <= j.y < |v|
    && 0 <= j.first <= wx <= j.lch && nlsp <= wx < |j.want| && j.want[wx] == BLANK && scr.caps.ce > 0
    && scr.curscr.view == WithCells(v, j.y, PaintedAndCleared(j, wx)) && scr.lx == wx
  }

  /** On the bottom line a clear never fails to pay, so `ce` says that there is one. */
  predicate MayClear(j: Job, c: Caps, ce: bool) {
    (ce ==> c.ce > 0) && (j.bottom && c.ce > 0 ==> ce)
  }

  /** One turn of the inner loop, refresh.c:319-412. */
  method SpanStep(scr: Screen, win: Window, wx: int, ce: bool, nlsp: int, ghost j: Job, ghost v: seq<LineV>, y: int)
    returns (ce': bool, outcome: Outcome)
    requires Painting(scr, win, j, wx, v) && y == j.y && wx <= j.lch && CursorAt(scr, y, wx)
    requires MayClear(j, scr.caps, ce)
    modifies scr`term, scr`ly, scr`lx, scr.curscr`view, scr.curscr`standout, scr.curscr.buffers
    ensures scr.term.wild == old(scr.term.wild) && OnlyRow(old(scr.term.rows), scr.term.rows, y)
    ensures outcome == Cleared ==> ClearedAt(scr, win, j, wx, nlsp, v) && scr.ly == old(scr.ly) && CursorAt(scr, y, wx)
    ensures outcome != Cleared ==> Painting(scr, win, j, wx + 1, v) && CursorAt(scr, y, CursorColumn(j, wx + 1))
    ensures outcome != Cleared ==> MayClear(j, scr.caps, ce')
    ensures outcome != Cleared && Corner(j, wx) ==> scr.caps.ce == 0 || wx < nlsp || j.want[wx] != BLANK
    ensures outcome == Going ==> scr.ly == old(scr.ly) && scr.lx == old(scr.lx) && !(Corner(j, wx) && win.scrollOk)
    ensures outcome == CornerReached ==> Corner(j, wx) && win.scrollOk && scr.ly == y && scr.lx == win.maxx - 1
  {
    ce', outcome := ce, Going;
    if ce && wx >= nlsp && win.lines[y].cells[wx] == BLANK {
      assert win.lines[y].cells[..][wx] == j.want[wx];
      var cleared := TryClear(scr, win, wx, nlsp, j, v, y);
      if cleared {
        return ce, Cleared;
      }
      ce' := false;
    }
    assert win.lines[y].cells[..][wx] == j.want[wx];
    var stop := PaintCell(scr, win, wx, j, v, y);
    if stop {
      outcome := CornerReached;
    }
  }

  method Differs(scr: Screen, win: Window, wx: int, ghost j: Job, ghost v: seq<LineV>, y: int) returns (b: bool)
    requires Painting(scr, win, j, wx, v) && y == j.y && wx <= j.lch
    ensures b == (j.was[wx] != j.want[wx])
  {
    PaintStep(j, wx);
    assert win.lines[y].cells[..][wx] == j.want[wx] && scr.curscr.lines[y].cells[..][wx] == j.was[wx];
    b := win.lines[y].cells[wx] != scr.curscr.lines[y].cells[wx];
  }

  /** The condition of the inner loop, refresh.c:318 and 414. */
  method GoesOn(scr: Screen, win: Window, wx: int, lch: int, force: bool, ghost j: Job, ghost v: seq<LineV>, y: int)
    returns (go: bool)
    requires Painting(scr, win, j, wx, v) && y == j.y && lch == j.lch
    ensures go <==> wx <= lch && (force || j.was[wx] != j.want[wx])
  {
    go := wx <= lch;
    if go && !force {
      go := Differs(scr, win, wx, j, v, y);
    }
  }

  /** A column of the line that is to be painted: the line is forced, or the cell differs. */
  predicate ToPaint(force: bool, was: seq<Cell>, want: seq<Cell>, x: int) {
    0 <= x < |was| && x < |want| && (force || was[x] != want[x])
  }

  /** The painting comes to the corner of a window that may not scroll, without clearing the line. */
  predicate Hits(j: Job, ce: nat, scroll: bool) {
    var x := |j.want| - 1;
    && j.bottom && j.first <= x == j.lch && ToPaint(j.force, j.was, j.want, x)
    && (ce == 0 || j.want[x] != BLANK) && !scroll
  }

  /** A turn of the inner loop with its condition. */
  method SpanTurn(scr: Screen, win: Window, wx: int, lch: int, force: bool, ce: bool, nlsp: int,
                  ghost j: Job, ghost v: seq<LineV>, y: int)
    returns (ce': bool, outcome: Outcome, go: bool)
    requires Painting(scr, win, j, wx, v) && y == j.y && wx <= j.lch == lch && CursorAt(scr, y, wx)
    requires force == j.force && ToPaint(force, j.was, j.want, wx) && MayClear(j, scr.caps, ce) && nlsp < |j.want|
    modifies scr`term, scr`ly, scr`lx, scr.curscr`view, scr.curscr`standout, scr.curscr.buffers
    ensures scr.term.wild == old(scr.term.wild) && OnlyRow(old(scr.term.rows), scr.term.rows, y)
    ensures outcome == Cleared ==> ClearedAt(scr, win, j, wx, nlsp, v) && scr.ly == old(scr.ly) && CursorAt(scr, y, wx)
    ensures outcome != Cleared ==> Painting(scr, win, j, wx + 1, v) && CursorAt(scr, y, CursorColumn(j, wx + 1))
    ensures outcome != Cleared ==> MayClear(j, scr.caps, ce')
    ensures outcome == CornerReached ==>
      win.scrollOk && wx == lch && scr.ly == y && scr.lx == win.maxx - 1 && CursorAt(scr, y, win.maxx - 1)
    ensures outcome == Going ==> scr.ly == old(scr.ly) && scr.lx == old(scr.lx)
    ensures outcome == Going && Corner(j, wx) ==> Hits(j, scr.caps.ce, win.scrollOk)
    ensures go ==> outcome == Going && wx + 1 <= lch && ToPaint(force, j.was, j.want, wx + 1)
  {
    ce', outcome := SpanStep(scr, win, wx, ce, nlsp, j, v, y);
    go := false;
    if outcome == Going {
      go := GoesOn(scr, win, wx + 1, lch, force, j, v, y);
    }
  }

  /** The inner loop from column wx0, before column wx or at its end, and what it has made of the screen
      `rows0`. */
  ghost predicate SpanSoFar(scr: Screen, win: Window, j: Job, wx: int, nlsp: int, v: seq<LineV>, outcome: Outcome,
                            wx0: int, rows0: seq<seq<Cell>>, wild0: bool)
    reads scr, scr.curscr, scr.curscr.lines, scr.curscr.pool, scr.curscr.buffers
    reads win, win.lines, win.pool, win.buffers
  {
    match j
    case Job(y, _, lch, _, want, _, bottom) =>
      && scr.ly == y && scr.term.wild == wild0 && OnlyRow(rows0, scr.term.rows, y)
      && (outcome == Cleared ==> ClearedAt(scr, win, j, wx, nlsp, v) && CursorAt(scr, y, wx))
      && (outcome != Cleared ==> Painting(scr, win, j, wx, v) && CursorAt(scr, y, CursorColumn(j, wx)))
      && (outcome == CornerReached ==>
            win.scrollOk && wx == lch + 1 && scr.lx == win.maxx - 1 && CursorAt(scr, y, win.maxx - 1))
      && (outcome == Going ==> wx0 <= wx && scr.lx == wx0)
      && (outcome == Going && bottom && wx == |want| ==> Hits(j, scr.caps.ce, win.scrollOk))
  }

  /** A turn of the inner loop on the way. */
  method SpanOn(scr: Screen, win: Window, wx: int, lch: int, force: bool, ce: bool, nlsp: int,
                ghost j: Job, ghost v: seq<LineV>, y: int, ghost wx0: int, ghost rows0: seq<seq<Cell>>,
                ghost wild0: bool)
    returns (wx': int, ce': bool, outcome: Outcome, go: bool)
    requires SpanSoFar(scr, win, j, wx, nlsp, v, Going, wx0, rows0, wild0) && y == j.y && wx <= j.lch == lch
    requires force == j.force && ToPaint(force, j.was, j.want, wx) && MayClear(j, scr.caps, ce) && nlsp < |j.want|
    modifies scr`term, scr`ly, scr`lx, scr.curscr`view, scr.curscr`standout, scr.curscr.buffers
    ensures SpanSoFar(scr, win, j, wx', nlsp, v, outcome, wx0, rows0, wild0) && wx <= wx'
    ensures outcome == Going ==> wx' == wx + 1 && MayClear(j, scr.caps, ce')
    ensures go ==> outcome == Going && wx' <= lch && ToPaint(force, j.was, j.want, wx')
  {
    ce', outcome, go := SpanTurn(scr, win, wx, lch, force, ce, nlsp, j, v, y);
    wx' := if outcome == Cleared then wx else wx + 1;
  }

  /** The inner loop, refresh.c:316-416: sends cells as long as they differ. */
  method PaintSpan(scr: Screen, win: Window, wx0: int, lch: int, force: bool, ce0: bool, nlsp: int,
                   ghost j: Job, ghost v: seq<LineV>, y: int)
    returns (wx: int, ce: bool, outcome: Outcome)
    requires Painting(scr, win, j, wx0, v) && y == j.y && lch == j.lch && wx0 <= lch && CursorAt(scr, y, wx0)
    requires force == j.force && ToPaint(force, j.was, j.want, wx0) && MayClear(j, scr.caps, ce0) && nlsp < |j.want|
    requires scr.ly == y && scr.lx == wx0
    modifies scr`term, scr`ly, scr`lx, scr.curscr`view, scr.curscr`standout, scr.curscr.buffers
    ensures SpanSoFar(scr, win, j, wx, nlsp, v, outcome, wx0, old(scr.term.rows), old(scr.term.wild))
    ensures outcome == Going ==> wx0 < wx && MayClear(j, scr.caps, ce)
  {
    ghost var rows0, wild0 := scr.term.rows, scr.term.wild;
    wx, ce, outcome := wx0, ce0, Going;
    var go := true;
    while go
      invariant SpanSoFar(scr, win, j, wx, nlsp, v, outcome, wx0, rows0, wild0)
      invariant outcome == Going ==> (go || wx0 < wx) && MayClear(j, scr.caps, ce)
      invariant go ==> outcome == Going && wx <= lch && ToPaint(force, j.was, j.want, wx)
      decreases lch - wx, go
    {
      wx, ce, outcome, go := SpanOn(scr, win, wx, lch, force, ce, nlsp, j, v, y, wx0, rows0, wild0);
    }
  }

  /** refresh.c:295-305: skips the cells that are already right. */
  method SkipEqual(scr: Screen, win: Window, wx0: int, lch: int, ghost j: Job, ghost v: seq<LineV>, y: int)
    returns (wx: int)
    requires Painting(scr, win, j, wx0, v) && y == j.y && lch == j.lch && wx0 <= lch
    ensures Painting(scr, win, j, wx, v) && wx0 <= wx
    ensures wx <= lch ==> j.was[wx] != j.want[wx]
    ensures forall x :: wx0 <= x < wx ==> j.was[x] == j.want[x]
  {
    wx := wx0;
    while wx <= lch
      invariant Painting(scr, win, j, wx, v) && wx0 <= wx
      invariant forall x :: wx0 <= x < wx ==> j.was[x] == j.want[x]
    {
      var d := Differs(scr, win, wx, j, v, y);
      if d { return; }
      PaintStep(j, wx);
      wx := wx + 1;
    }
  }

  /** __mvcur from past the margin of line y, on a terminal that does not wrap: cr_put.c:117-133 sends a
      newline for the wrap that has not been, and on the bottom line that scrolls the screen and counts
      as a line further up. */
  function FromPastMargin(t: Term, c: Caps, y: int, w: nat): Term
    requires |t.rows| > 0
  {
    var t1 := Newline(t, w);
    Mvcur(t1, c, t1.row, 0, if y < |t.rows| - 1 || y == 0 then y else y - 1, w - 1)
  }

  lemma PastMarginMeans(t: Term, c: Caps, y: int, h: nat, w: nat)
    requires WfTerm(t, h, w) && t.row == y
    ensures var r := FromPastMargin(t, c, y, w);
      && WfTerm(r, h, w) && r.top == t.top && r.bot == t.bot && r.standout == t.standout
      && r.rows == (if y < h - 1 then t.rows else Up(t.rows, 0, h - 1, 1, w))
      && (y < h - 1 ==> r.row == y && r.col == w - 1)
      && Wilder(c, t.wild, y == h - 1, r.wild)
  {
    ScrollWidth(t.rows, 0, h - 1, 1, w);
    var t1 := Newline(t, w);
    MvcurMeans(t1, c, t1.row, 0, if y < h - 1 || y == 0 then y else y - 1, w - 1, h, w);
  }

  /** domvcur from past the margin, refresh.c:423. */
  method DomvcurFromPastMargin(scr: Screen, y: int)
    requires Sync(scr) && 0 <= y < scr.curscr.maxy && scr.term.row == y
    modifies scr`term, scr.curscr`standout
    ensures Sync(scr) && (y < scr.curscr.maxy - 1 ==> CursorAt(scr, y, scr.curscr.maxx - 1))
    ensures Wilder(scr.caps, old(scr.term.wild), y == scr.curscr.maxy - 1, scr.term.wild)
    ensures scr.term.rows == if y < scr.curscr.maxy - 1 then old(scr.term.rows)
      else Up(old(scr.term.rows), 0, scr.curscr.maxy - 1, 1, scr.curscr.maxx)
  {
    if scr.curscr.standout && !scr.caps.ms {
      EndStandout(scr);
    }
    PastMarginMeans(scr.term, scr.caps, y, scr.curscr.maxy, scr.curscr.maxx);
    scr.term := FromPastMargin(scr.term, scr.caps, y, scr.curscr.maxx);
  }

  /** refresh.c:417-425: where the cursor is taken to be after a span that ended before column wx. On a
      terminal that does not wrap, a span that ends with the corner scrolls the screen. */
  method AfterSpan(scr: Screen, win: Window, wx: int, ghost j: Job, ghost v: seq<LineV>, y: int)
    requires Painting(scr, win, j, wx, v) && y == j.y == scr.ly && 0 < wx && CursorAt(scr, y, CursorColumn(j, wx))
    modifies scr`term, scr`lx, scr.curscr`standout
    ensures Painting(scr, win, j, wx, v) && Agreed(scr) && scr.ly == y
    ensures Wilder(scr.caps, old(scr.term.wild), wx == |j.want| && j.bottom && !scr.caps.am, scr.term.wild)
    ensures scr.term.rows == if wx == |j.want| && j.bottom && !scr.caps.am
      then Up(old(scr.term.rows), 0, win.maxy - 1, 1, win.maxx) else old(scr.term.rows)
  {
    if wx >= win.maxx && scr.caps.am {
      scr.lx := win.maxx - 1;
    } else if wx >= win.maxx {
      DomvcurFromPastMargin(scr, y);
      scr.lx := win.maxx - 1;
    } else {
      scr.lx := wx;
    }
  }

  /** What makech does to the screen at the corner on a terminal that does not wrap. */
  predicate Wraps(j: Job, c: Caps, scroll: bool) {
    !c.am && Hits(j, c.ce, scroll)
  }

  /** The other rows of the screen are as they were, or one line further up. */
  predicate RowsAfter(was: seq<seq<Cell>>, now: seq<seq<Cell>>, y: int, wraps: bool, w: nat) {
    && |was| == |now|
    && if wraps then
         forall k :: 0 <= k < |now| && k != y - 1 ==> now[k] == if k < |now| - 1 then was[k + 1] else Blanks(w)
       else OnlyRow(was, now, y)
  }

  lemma RowsOnward(was: seq<seq<Cell>>, mid: seq<seq<Cell>>, now: seq<seq<Cell>>, y: int, wraps: bool, w: nat)
    requires OnlyRow(was, mid, y) && RowsAfter(mid, now, y, wraps, w)
    ensures RowsAfter(was, now, y, wraps, w)
  {
  }

  lemma ScrolledRowsAfter(was: seq<seq<Cell>>, mid: seq<seq<Cell>>, w: nat)
    requires |was| > 0 && OnlyRow(was, mid, |was| - 1)
    ensures RowsAfter(was, Up(mid, 0, |mid| - 1, 1, w), |was| - 1, true, w)
  {
  }

  /** The span that begins at a column that differs, refresh.c:308-416. */
  method StartSpan(scr: Screen, win: Window, wx0: int, lch: int, force: bool, ce0: bool, nlsp: int,
                   ghost j: Job, ghost v: seq<LineV>, y: int)
    returns (wx: int, ce: bool, outcome: Outcome)
    requires Painting(scr, win, j, wx0, v) && Agreed(scr) && y == j.y && lch == j.lch && wx0 <= lch
    requires force == j.force && ToPaint(force, j.was, j.want, wx0) && MayClear(j, scr.caps, ce0) && nlsp < |j.want|
    modifies scr`term, scr`ly, scr`lx, scr.curscr`view, scr.curscr`standout, scr.curscr.buffers
    ensures SpanSoFar(scr, win, j, wx, nlsp, v, outcome, wx0, old(scr.term.rows), scr.term.wild)
    ensures outcome == Going ==> wx0 < wx && MayClear(j, scr.caps, ce)
    ensures Wilder(scr.caps, old(scr.term.wild), false, scr.term.wild)
  {
    Domvcur(scr, y, wx0);
    scr.ly := y;
    scr.lx := wx0;
    wx, ce, outcome := PaintSpan(scr, win, wx0, lch, force, ce0, nlsp, j, v, y);
  }

  /** The end of a span, with what it has done to the screen. */
  method EndSpan(scr: Screen, win: Window, wx: int, ghost j: Job, ghost v: seq<LineV>, y: int)
    requires Painting(scr, win, j, wx, v) && y == j.y == scr.ly && 0 < wx && CursorAt(scr, y, CursorColumn(j, wx))
    requires j.bottom && wx == |j.want| ==> Hits(j, scr.caps.ce, win.scrollOk)
    modifies scr`term, scr`lx, scr.curscr`standout
    ensures Painting(scr, win, j, wx, v) && Agreed(scr) && scr.ly == y
    ensures var wraps := wx == |j.want| && Wraps(j, scr.caps, win.scrollOk);
      && Wilder(scr.caps, old(scr.term.wild), wraps, scr.term.wild)
      && RowsAfter(old(scr.term.rows), scr.term.rows, y, wraps, win.maxx)
  {
    AfterSpan(scr, win, wx, j, v, y);
    if wx == |j.want| && Wraps(j, scr.caps, win.scrollOk) {
      ScrolledRowsAfter(old(scr.term.rows), old(scr.term.rows), win.maxx);
    }
  }

  /** One turn of the outer loop that paints a span, refresh.c:308-425. */
  method OneSpan(scr: Screen, win: Window, wx0: int, lch: int, force: bool, ce0: bool, nlsp: int,
                 ghost j: Job, ghost v: seq<LineV>, y: int)
    returns (wx: int, ce: bool, outcome: Outcome)
    requires Painting(scr, win, j, wx0, v) && Agreed(scr) && y == j.y && lch == j.lch && wx0 <= lch
    requires force == j.force && ToPaint(force, j.was, j.want, wx0) && MayClear(j, scr.caps, ce0) && nlsp < |j.want|
    modifies scr`term, scr`ly, scr`lx, scr.curscr`view, scr.curscr`standout, scr.curscr.buffers
    ensures outcome != Cleared ==> Painting(scr, win, j, wx, v)
    ensures outcome == Going ==> wx0 < wx && MayClear(j, scr.caps, ce)
    ensures outcome == CornerReached ==> win.scrollOk && wx == lch + 1
    ensures outcome == Cleared ==> ClearedAt(scr, win, j, wx, nlsp, v)
    ensures scr.ly == y && Agreed(scr)
    ensures var wraps := outcome == Going && wx == |j.want| && Wraps(j, scr.caps, win.scrollOk);
      && RowsAfter(old(scr.term.rows), scr.term.rows, y, wraps, win.maxx)
      && Wilder(scr.caps, old(scr.term.wild), wraps, scr.term.wild)
  {
    wx, ce, outcome := StartSpan(scr, win, wx0, lch, force, ce0, nlsp, j, v, y);
    // the test of refresh.c:417 for no change never holds: the span was not empty
    if outcome == Going {
      ghost var mid := scr.term.rows;
      EndSpan(scr, win, wx, j, v, y);
      RowsOnward(old(scr.term.rows), mid, scr.term.rows, y, wx == |j.want| && Wraps(j, scr.caps, win.scrollOk),
                 win.maxx);
    }
  }

  /** There is one before column wx. */
  predicate PaintsBefore(j: Job, wx: int) {
    exists x :: j.first <= x < wx && ToPaint(j.force, j.was, j.want, x)
  }

  /** A line that was cleared has not come to the corner with a cell to send. */
  lemma ClearedMisses(j: Job, wx: int, nlsp: int, c: Caps, scroll: bool)
    requires 0 <= nlsp <= wx < |j.want| && j.want[wx] == BLANK && c.ce > 0
    requires forall k :: nlsp < k < |j.want| ==> j.want[k] == BLANK
    ensures !Wraps(j, c, scroll)
  {
  }

  /** The outer loop before column wx: what it has made of the screen, the line the cursor is taken to be
      on, and whether the terminal has run wild, from `rows0`, `ly0` and `wild0`. */
  ghost predicate LineSoFar(scr: Screen, win: Window, j: Job, wx: int, v: seq<LineV>, rows0: seq<seq<Cell>>, ly0: int,
                            wild0: bool)
    reads scr, scr.curscr, scr.curscr.lines, scr.curscr.pool, scr.curscr.buffers
    reads win, win.lines, win.pool, win.buffers
  {
    match j
    case Job(y, _, _, _, want, _, _) =>
      var wraps := wx == |want| && Wraps(j, scr.caps, win.scrollOk);
      && Painting(scr, win, j, wx, v) && Agreed(scr)
      && scr.ly == (if PaintsBefore(j, wx) then y else ly0)
      && RowsAfter(rows0, scr.term.rows, y, wraps, win.maxx) && Wilder(scr.caps, wild0, wraps, scr.term.wild)
  }

  /** A turn of the outer loop at a column that differs. */
  method PaintFrom(scr: Screen, win: Window, wx0: int, lch: int, force: bool, ce0: bool, nlsp: int,
                   ghost j: Job, ghost v: seq<LineV>, y: int,
                   ghost rows0: seq<seq<Cell>>, ghost ly0: int, ghost wild0: bool)
    returns (wx: int, ce: bool, outcome: Outcome)
    requires LineSoFar(scr, win, j, wx0, v, rows0, ly0, wild0) && y == j.y && lch == j.lch && wx0 <= lch
    requires force == j.force && ToPaint(force, j.was, j.want, wx0) && MayClear(j, scr.caps, ce0)
    requires 0 <= nlsp < |j.want| && forall k :: nlsp < k < |j.want| ==> j.want[k] == BLANK
    modifies scr`term, scr`ly, scr`lx, scr.curscr`view, scr.curscr`standout, scr.curscr.buffers
    ensures outcome == Going ==> wx0 < wx && MayClear(j, scr.caps, ce)
    ensures outcome == Going ==> LineSoFar(scr, win, j, wx, v, rows0, ly0, wild0)
    ensures outcome == CornerReached ==> Painting(scr, win, j, lch + 1, v)
    ensures outcome == Cleared ==> ClearedAt(scr, win, j, wx, nlsp, v)
    ensures outcome != Going ==>
      !Wraps(j, scr.caps, win.scrollOk) && PaintsBefore(j, lch + 1) && scr.ly == y && Agreed(scr)
    ensures outcome != Going ==>
      OnlyRow(rows0, scr.term.rows, y) && Wilder(scr.caps, wild0, false, scr.term.wild)
  {
    ghost var mid := scr.term.rows;
    wx, ce, outcome := OneSpan(scr, win, wx0, lch, force, ce0, nlsp, j, v, y);
    RowsOnward(rows0, mid, scr.term.rows, y,
               outcome == Going && wx == |j.want| && Wraps(j, scr.caps, win.scrollOk), win.maxx);
    if outcome == Cleared { ClearedMisses(j, wx, nlsp, scr.caps, win.scrollOk); }
    assert ToPaint(force, j.was, j.want, wx0);
  }

  /** Columns that are right are passed over. */
  lemma SkippedSoFar(j: Job, wx0: int, wx: int, c: Caps, scroll: bool)
    requires !j.force && 0 <= j.first <= wx0 <= wx <= j.lch + 1 <= |j.was| == |j.want|
    requires forall x :: wx0 <= x < wx ==> j.was[x] == j.want[x]
    ensures PaintsBefore(j, wx) <==> PaintsBefore(j, wx0)
    ensures wx0 < wx == |j.want| ==> !Wraps(j, c, scroll)
  {
  }

  /** The skipping at the start of a turn of the outer loop. */
  method SkipToNext(scr: Screen, win: Window, wx0: int, lch: int, ghost j: Job, ghost v: seq<LineV>, y: int,
                    ghost rows0: seq<seq<Cell>>, ghost ly0: int, ghost wild0: bool)
    returns (wx: int)
    requires LineSoFar(scr, win, j, wx0, v, rows0, ly0, wild0) && y == j.y && lch == j.lch && wx0 <= lch && !j.force
    ensures LineSoFar(scr, win, j, wx, v, rows0, ly0, wild0) && wx0 <= wx
    ensures wx <= lch ==> ToPaint(j.force, j.was, j.want, wx)
  {
    wx := SkipEqual(scr, win, wx0, lch, j, v, y);
    SkippedSoFar(j, wx0, wx, scr.caps, win.scrollOk);
  }

  /** The outer loop at its end. */
  ghost predicate LineDone(scr: Screen, win: Window, j: Job, wx: int, nlsp: int, v: seq<LineV>,
                           rows0: seq<seq<Cell>>, ly0: int, wild0: bool, outcome: Outcome)
    reads scr, scr.curscr, scr.curscr.lines, scr.curscr.pool, scr.curscr.buffers
    reads win, win.lines, win.pool, win.buffers
  {
    match j
    case Job(y, _, lch, _, _, _, _) =>
      var wraps := Wraps(j, scr.caps, win.scrollOk);
      && (if outcome == Cleared then ClearedAt(scr, win, j, wx, nlsp, v) && scr.ly == y
          else Painting(scr, win, j, lch + 1, v))
      && scr.ly == (if PaintsBefore(j, lch + 1) then y else ly0) && Agreed(scr)
      && RowsAfter(rows0, scr.term.rows, y, wraps, win.maxx) && Wilder(scr.caps, wild0, wraps, scr.term.wild)
  }

  /** One turn of the outer loop. */
  method LineTurn(scr: Screen, win: Window, wx0: int, lch: int, force: bool, ce0: bool, nlsp: int,
                  ghost j: Job, ghost v: seq<LineV>, y: int,
                  ghost rows0: seq<seq<Cell>>, ghost ly0: int, ghost wild0: bool)
    returns (wx: int, ce: bool, outcome: Outcome)
    requires LineSoFar(scr, win, j, wx0, v, rows0, ly0, wild0) && y == j.y && lch == j.lch && wx0 <= lch
    requires force == j.force && MayClear(j, scr.caps, ce0)
    requires 0 <= nlsp < |j.want| && forall k :: nlsp < k < |j.want| ==> j.want[k] == BLANK
    modifies scr`term, scr`ly, scr`lx, scr.curscr`view, scr.curscr`standout, scr.curscr.buffers
    ensures outcome == Going ==> wx0 < wx && MayClear(j, scr.caps, ce)
    ensures outcome == Going ==> LineSoFar(scr, win, j, wx, v, rows0, ly0, wild0)
    ensures outcome != Going ==> LineDone(scr, win, j, wx, nlsp, v, rows0, ly0, wild0, outcome)
  {
    wx, ce, outcome := wx0, ce0, Going;
    if !force {
      wx := SkipToNext(scr, win, wx, lch, j, v, y, rows0, ly0, wild0);
    }
    if wx <= lch {
      wx, ce, outcome := PaintFrom(scr, win, wx, lch, force, ce, nlsp, j, v, y, rows0, ly0, wild0);
    }
  }

  /** The outer loop, refresh.c:294-430. */
  method PaintLine(scr: Screen, win: Window, first: int, lch: int, force: bool, ce0: bool, nlsp: int,
                   ghost j: Job, ghost v: seq<LineV>, y: int)
    returns (wx: int, outcome: Outcome)
    requires Painting(scr, win, j, first, v) && y == j.y && first == j.first && lch == j.lch && force == j.force
    requires Agreed(scr) && (ce0 <==> scr.caps.ce > 0)
    requires 0 <= nlsp < |j.want| && forall k :: nlsp < k < |j.want| ==> j.want[k] == BLANK
    modifies scr`term, scr`ly, scr`lx, scr.curscr`view, scr.curscr`standout, scr.curscr.buffers
    ensures LineDone(scr, win, j, wx, nlsp, v, old(scr.term.rows), old(scr.ly), old(scr.term.wild), outcome)
  {
    ghost var rows0, ly0, wild0 := scr.term.rows, scr.ly, scr.term.wild;
    wx, outcome := first, Going;
    var ce := ce0;
    while wx <= lch
      invariant outcome == Going && MayClear(j, scr.caps, ce)
      invariant LineSoFar(scr, win, j, wx, v, rows0, ly0, wild0)
      decreases lch - wx
    {
      wx, ce, outcome := LineTurn(scr, win, wx, lch, force, ce, nlsp, j, v, y, rows0, ly0, wild0);
      if outcome != Going { return; }
    }
  }

  // ----- makech -----

  /** A curscr line after makech: the columns from first to lch but the corner show the window's
      cells, and any other column shows what it showed or what the window shows. */
  ghost predicate Repainted(was: seq<Cell>, want: seq<Cell>, now: seq<Cell>, first: int, lch: int, bottom: bool) {
    && |was| == |want| == |now|
    && forall x :: 0 <= x < |now| ==>
         && (now[x] == want[x] || (now[x] == was[x] && !(first <= x <= lch && !(bottom && x == |now| - 1))))
  }

  lemma PaintedIsRepainted(j: Job)
    requires |j.want| == |j.was| && j.lch < |j.was|
    ensures Repainted(j.was, j.want, Painted(j, j.lch + 1), j.first, j.lch, j.bottom)
  {
  }

  lemma ClearedIsRepainted(j: Job, wx: int, nlsp: int)
    requires |j.want| == |j.was| && 0 <= nlsp <= wx < |j.was|
    requires forall k :: nlsp < k < |j.want| ==> j.want[k] == BLANK
    requires j.want[wx] == BLANK
    ensures Repainted(j.was, j.want, PaintedAndCleared(j, wx), j.first, j.lch, j.bottom)
  {
  }

  /** makech starts by following the cursor to the next line when the line above is marked as left
      past its end: it is taken to be on the line after ly, whatever line that is. */
  predicate FollowsPastEol(view: seq<LineV>, wy: int)
    requires 0 <= wy <= |view|
  {
    wy > 0 && view[wy - 1].pastEol
  }

  /** Following drives the cursor off the screen. */
  predicate OverrunsBy(view: seq<LineV>, wy: int, ly: int)
    requires 0 <= wy <= |view|
  {
    FollowsPastEol(view, wy) && ly + 1 >= |view|
  }

  /** What the terminal shows after that. */
  function Followed(rows: seq<seq<Cell>>, view: seq<LineV>, wy: int, ly: int, w: nat): seq<seq<Cell>>
    requires 0 <= wy <= |view| == |rows| && |view| > 0
  {
    if OverrunsBy(view, wy, ly) then Up(rows, 0, |rows| - 1, ly + 2 - |rows|, w) else rows
  }

  /** refresh.c:248-252 */
  method FollowPastEol(scr: Screen, win: Window, wy: int)
    requires scr.Over(win) && Sync(scr) && 0 <= wy < win.maxy
    requires Tracked(scr)
    modifies scr`term, scr`ly, scr`lx, scr.curscr`standout
    ensures scr.Over(win) && Sync(scr)
    ensures Tracked(scr)
    ensures Wilder(scr.caps, old(scr.term.wild), OverrunsBy(win.view, wy, old(scr.ly)), scr.term.wild)
    ensures scr.ly == old(scr.ly) + if FollowsPastEol(win.view, wy) then 1 else 0
    ensures scr.term.rows == Followed(old(scr.term.rows), win.view, wy, old(scr.ly), win.maxx)
  {
    if wy > 0 && win.lines[wy - 1].pastEol {
      assert win.lines[wy - 1].View() == win.view[wy - 1];
      Domvcur(scr, scr.ly + 1, 0);
      scr.ly := scr.ly + 1;
      scr.lx := 0;
    } else if wy > 0 {
      assert win.lines[wy - 1].View() == win.view[wy - 1];
    }
  }

  /** refresh.c:285-292: a forced line starts by addressing the cursor. */
  method Readdress(scr: Screen)
    requires Sync(scr) && InBounds(scr)
    modifies scr`term
    ensures Sync(scr) && Tracked(scr) && Wilder(scr.caps, old(scr.term.wild), false, scr.term.wild)
    ensures scr.term.rows == old(scr.term.rows)
  {
    scr.term := Address(scr.term, scr.ly, scr.lx);
  }

  /** The job at line wy of h, with the cells `was` on the screen. */
  function JobOf(l: LineV, wy: int, h: int, was: seq<Cell>): Job {
    Job(wy, l.first, l.last, l.force, l.cells, was, wy == h - 1)
  }

  /** The turn at line wy scrolls a screen of h lines at the corner. */
  predicate WrapsOn(l: LineV, wy: int, h: int, was: seq<Cell>, c: Caps, scroll: bool) {
    Wraps(JobOf(l, wy, h, was), c, scroll)
  }

  /** refresh.c:294-436: paints the line and leaves standout mode. */
  method PaintJob(scr: Screen, win: Window, first: int, lch: int, force: bool, nlsp: int,
                  ghost j: Job, ghost v: seq<LineV>, y: int)
    returns (ghost now: seq<Cell>)
    requires Painting(scr, win, j, first, v) && Agreed(scr) && y == j.y && 0 <= nlsp < |j.want|
    requires first == j.first && lch == j.lch && force == j.force
    requires forall k :: nlsp < k < |j.want| ==> j.want[k] == BLANK
    modifies scr`term, scr`ly, scr`lx, scr.curscr`view, scr.curscr`standout, scr.curscr.buffers
    ensures scr.Over(win) && Sync(scr) && Tracked(scr)
    ensures scr.curscr.view == WithCells(v, y, now) && Repainted(j.was, j.want, now, j.first, j.lch, j.bottom)
    ensures scr.ly == if PaintsBefore(j, lch + 1) then y else old(scr.ly)
    ensures RowsAfter(old(scr.term.rows), scr.term.rows, y, Wraps(j, scr.caps, win.scrollOk), win.maxx)
    ensures Wilder(scr.caps, old(scr.term.wild), Wraps(j, scr.caps, win.scrollOk), scr.term.wild)
  {
    var wx, outcome := PaintLine(scr, win, first, lch, force, scr.caps.ce > 0, nlsp, j, v, y);
    if outcome == Cleared {
      ClearedIsRepainted(j, wx, nlsp);
      return PaintedAndCleared(j, wx);
    }
    LeaveLine(scr, win, outcome == Going, j, v);
    return Painted(j, lch + 1);
  }

  /** refresh.c:432-435, unless the corner was reached. */
  method LeaveLine(scr: Screen, win: Window, normally: bool, ghost j: Job, ghost v: seq<LineV>)
    requires Painting(scr, win, j, j.lch + 1, v) && Agreed(scr)
    modifies scr`term, scr.curscr`standout
    ensures scr.Over(win) && Sync(scr) && Tracked(scr) && scr.curscr.view == WithCells(v, j.y, Painted(j, j.lch + 1))
    ensures scr.term == old(scr.term).(standout := scr.term.standout)
    ensures Repainted(j.was, j.want, Painted(j, j.lch + 1), j.first, j.lch, j.bottom)
  {
    PaintedIsRepainted(j);
    if normally {
      EndStandout(scr);
    }
  }

  /** Something between the marks of a line is to be painted over `was`. */
  predicate Paints(l: LineV, was: seq<Cell>) {
    exists x :: l.first <= x <= l.last && ToPaint(l.force, was, l.cells, x)
  }

  lemma JobPaints(l: LineV, j: Job)
    requires j.first == l.first && j.lch == l.last && j.force == l.force && j.want == l.cells
    ensures PaintsBefore(j, j.lch + 1) <==> Paints(l, j.was)
  {
  }

  /** refresh.c:271-437: repaints a line that has marks. */
  method RepaintMarked(scr: Screen, win: Window, wy: int) returns (ghost now: seq<Cell>)
    requires scr.Over(win) && Sync(scr) && Tracked(scr) && 0 <= wy < win.maxy && Showable(scr.caps, win.view[wy].cells)
    requires win.view[wy].first < win.maxx
    modifies scr`term, scr`ly, scr`lx, scr.curscr`view, scr.curscr`standout, scr.curscr.buffers
    ensures scr.Over(win) && Sync(scr) && Tracked(scr)
    ensures var wraps := WrapsOn(win.view[wy], wy, win.maxy, old(scr.curscr.view)[wy].cells, scr.caps, win.scrollOk);
      && Wilder(scr.caps, old(scr.term.wild), wraps, scr.term.wild)
      && RowsAfter(old(scr.term.rows), scr.term.rows, wy, wraps, win.maxx)
    ensures scr.ly == if Paints(win.view[wy], old(scr.curscr.view)[wy].cells) then wy else old(scr.ly)
    ensures scr.curscr.view == WithCells(old(scr.curscr.view), wy, now)
    ensures Repainted(old(scr.curscr.view)[wy].cells, win.view[wy].cells, now, win.view[wy].first, win.view[wy].last,
                      wy == win.maxy - 1)
  {
    ghost var v := scr.curscr.view;
    ghost var j := JobOf(win.view[wy], wy, win.maxy, v[wy].cells);
    PaintNothing(j);
    assert WithCells(v, wy, j.was) == v;
    var l := win.lines[wy];
    assert l.View() == win.view[wy];
    var nlsp := FindNlsp(win, wy);
    if l.force {
      Readdress(scr);
    }
    now := PaintJob(scr, win, l.firstch, l.lastch, l.force, nlsp, j, v, wy);
    JobPaints(win.view[wy], j);
  }

  lemma NothingMarked(was: seq<Cell>, want: seq<Cell>, lch: int, bottom: bool)
    requires |was| == |want|
    ensures Repainted(was, want, was, |want|, lch, bottom)
  {
  }

  /** refresh.c:253-437: repaints the line if it has marks. */
  method RepaintMarks(scr: Screen, win: Window, wy: int) returns (ghost now: seq<Cell>)
    requires scr.Over(win) && Sync(scr) && Tracked(scr) && 0 <= wy < win.maxy && Showable(scr.caps, win.view[wy].cells)
    modifies scr`term, scr`ly, scr`lx, scr.curscr`view, scr.curscr`standout, scr.curscr.buffers
    ensures scr.Over(win) && Sync(scr) && Tracked(scr)
    ensures var wraps := WrapsOn(win.view[wy], wy, win.maxy, old(scr.curscr.view)[wy].cells, scr.caps, win.scrollOk);
      && Wilder(scr.caps, old(scr.term.wild), wraps, scr.term.wild)
      && RowsAfter(old(scr.term.rows), scr.term.rows, wy, wraps, win.maxx)
    ensures scr.ly == if Paints(win.view[wy], old(scr.curscr.view)[wy].cells) then wy else old(scr.ly)
    ensures scr.curscr.view == WithCells(old(scr.curscr.view), wy, now)
    ensures Repainted(old(scr.curscr.view)[wy].cells, win.view[wy].cells, now, win.view[wy].first, win.view[wy].last,
                      wy == win.maxy - 1)
  {
    ghost var v := scr.curscr.view;
    if win.lines[wy].firstch >= win.maxx {
      assert WithCells(v, wy, v[wy].cells) == v;
      NothingMarked(v[wy].cells, win.view[wy].cells, win.view[wy].last, wy == win.maxy - 1);
      now := v[wy].cells;
    } else {
      now := RepaintMarked(scr, win, wy);
    }
  }

  /** A line with marks is no longer forced. */
  function Unforced(l: LineV, w: nat): LineV {
    l.(force := l.force && l.first >= w)
  }

  /** refresh.c:272. The source clears the flag before its loops, which use a copy of it, and keeps it
      on a line without marks. */
  method Unforce(win: Window, wy: int)
    requires win.Valid() && 0 <= wy < win.maxy
    modifies win`view, win.lines[wy]
    ensures win.Valid() && win.view == old(win.view)[wy := Unforced(old(win.view)[wy], win.maxx)]
  {
    if win.lines[wy].firstch < win.maxx {
      win.ClearForce(wy);
    }
  }

  /** The line on which the cursor is taken to be after makech: the line itself if anything was
      painted, otherwise the line it was on or, past the end of the line above, the one after that. */
  function LineAfter(view: seq<LineV>, wy: int, was: seq<Cell>, ly: int): int
    requires 0 <= wy < |view|
  {
    if Paints(view[wy], was) then wy else if FollowsPastEol(view, wy) then ly + 1 else ly
  }

  /** makech. It makes the terminal run wild exactly when it follows a cursor past the end of a line
      from the bottom line of the screen, or comes to the corner on a terminal that does not wrap. */
  method Makech(scr: Screen, win: Window, wy: int) returns (ghost now: seq<Cell>)
    requires scr.Over(win) && Sync(scr) && Tracked(scr) && 0 <= wy < win.maxy && Showable(scr.caps, win.view[wy].cells)
    modifies scr`term, scr`ly, scr`lx, scr.curscr`view, scr.curscr`standout, scr.curscr.buffers
    modifies win`view, win.lines[wy]
    ensures scr.Over(win) && Sync(scr) && Tracked(scr)
    ensures var was := old(scr.curscr.view)[wy].cells;
      var wraps := WrapsOn(old(win.view)[wy], wy, win.maxy, was, scr.caps, win.scrollOk);
      && Wilder(scr.caps, old(scr.term.wild), OverrunsBy(old(win.view), wy, old(scr.ly)) || wraps, scr.term.wild)
      && RowsAfter(Followed(old(scr.term.rows), old(win.view), wy, old(scr.ly), win.maxx), scr.term.rows, wy, wraps,
                   win.maxx)
    ensures scr.ly == LineAfter(old(win.view), wy, old(scr.curscr.view)[wy].cells, old(scr.ly))
    ensures win.view == old(win.view)[wy := Unforced(old(win.view)[wy], win.maxx)]
    ensures scr.curscr.view == WithCells(old(scr.curscr.view), wy, now)
    ensures Repainted(old(scr.curscr.view)[wy].cells, win.view[wy].cells, now, win.view[wy].first, win.view[wy].last,
                      wy == win.maxy - 1)
  {
    FollowPastEol(scr, win, wy);
    now := RepaintMarks(scr, win, wy);
    Unforce(win, wy);
  }
}
