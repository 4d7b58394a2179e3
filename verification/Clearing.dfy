/** clrtoeol.c, clrtobot.c, erase.c, insch.c and delch.c of Libcurses-21. */
module Clearing {
  import opened Windows

  /** The first and the last column in [x, e) that is not a plain blank, or -1. */
  function FirstInk(c: seq<Cell>, x: int, e: int): (r: int)
    requires 0 <= x && e <= |c|
    ensures r == -1 ==> forall k :: x <= k < e ==> c[k] == BLANK
    ensures r != -1 ==> x <= r < e && c[r] != BLANK && forall k :: x <= k < r ==> c[k] == BLANK
    decreases e
  {
    if e <= x then -1
    else
      var r := FirstInk(c, x, e - 1);
      if r != -1 then r else if c[e - 1] != BLANK then e - 1 else -1
  }

  function LastInk(c: seq<Cell>, x: int, e: int): (r: int)
    requires 0 <= x && e <= |c|
    ensures r == -1 ==> forall k :: x <= k < e ==> c[k] == BLANK
    ensures r != -1 ==> x <= r < e && c[r] != BLANK && forall k :: r < k < e ==> c[k] == BLANK
    decreases e
  {
    if e <= x then -1 else if c[e - 1] != BLANK then e - 1 else LastInk(c, x, e - 1)
  }

  /** `c` with the columns in [x, e) blank. */
  function Wiped(c: seq<Cell>, x: int, e: int): (r: seq<Cell>)
    ensures |r| == |c|
  {
    seq(|c|, k requires 0 <= k < |c| => if x <= k < e then BLANK else c[k])
  }

  lemma WipeStep(c: seq<Cell>, x: int, e: int)
    requires 0 <= x <= e < |c|
    ensures Wiped(c, x, e)[e := BLANK] == Wiped(c, x, e + 1)
    ensures c[e] == BLANK ==> Wiped(c, x, e) == Wiped(c, x, e + 1)
    ensures Wiped(c, x, e)[e] == c[e]
  {
  }

  lemma WipeNothing(c: seq<Cell>, x: int)
    ensures Wiped(c, x, x) == c
  {
  }

  function WithCells(v: seq<LineV>, y: int, c: seq<Cell>): seq<LineV>
    requires 0 <= y < |v|
  {
    v[y := v[y].(cells := c)]
  }

  /** Clears columns x.. of line y and reports the outermost columns that changed, as the loops of
      clrtoeol.c:83-90, clrtobot.c:79-88 and erase.c:76-86 do. */
  method Wipe(win: Window, y: int, x: int) returns (minx: int, maxx: int)
    requires win.Valid() && 0 <= y < win.maxy && 0 <= x < win.maxx
    modifies win`view, win.lines[y].cells
    ensures win.Valid()
    ensures win.view == WithCells(old(win.view), y, Wiped(old(win.view)[y].cells, x, win.maxx))
    ensures minx == FirstInk(old(win.view)[y].cells, x, win.maxx)
    ensures maxx == LastInk(old(win.view)[y].cells, x, win.maxx)
  {
    minx, maxx := -1, -1;
    ghost var v := win.view;
    ghost var c := v[y].cells;
    WipeNothing(c, x);
    assert WithCells(v, y, c) == v;
    for sp := x to win.maxx
      invariant win.Valid()
      invariant win.view == WithCells(v, y, Wiped(c, x, sp))
      invariant minx == FirstInk(c, x, sp)
      invariant maxx == LastInk(c, x, sp)
    {
      WipeStep(c, x, sp);
      assert win.lines[y].cells[..] == win.view[y].cells;
      if win.lines[y].cells[sp] != BLANK {
        maxx := sp;
        if minx == -1 { minx := sp; }
        win.SetCell(y, sp, BLANK);
      }
    }
  }

  /** The line after `Wipe` from column x and a touch of the columns that changed. */
  function WipedLine(l: LineV, x: int): LineV
    requires 0 <= x <= |l.cells|
  {
    var w := |l.cells|;
    var l1 := l.(cells := Wiped(l.cells, x, w));
    if FirstInk(l.cells, x, w) == -1 then l1
    else Touched(l1, FirstInk(l.cells, x, w), LastInk(l.cells, x, w), false)
  }

  /** One turn of the loops of clrtobot.c and erase.c. */
  method WipeAndTouch(win: Window, y: int, x: int)
    requires win.Valid() && 0 <= y < win.maxy && 0 <= x < win.maxx
    modifies win`view, win.lines[y], win.lines[y].cells
    ensures win.Valid() && win.view == old(win.view)[y := WipedLine(old(win.view)[y], x)]
  {
    var minx, maxx := Wipe(win, y, x);
    if minx != -1 {
      win.TouchLine(y, minx, maxx, false);
    }
  }

  /** wclrtoeol: clears from the cursor, or from the start of the next line when the cursor is past
      the end of its line; past the end of the bottom line it does nothing. */
  function ClearedToEol(s: WinV, w: nat): WinV
    requires WellFormed(s, w)
  {
    var past := s.lines[s.y].pastEol;
    var y, x := if past then s.y + 1 else s.y, if past then 0 else s.x;
    if y == |s.lines| then s
    else s.(lines := s.lines[y := Touched(s.lines[y].(cells := Wiped(s.lines[y].cells, x, w)), x, w - 1, false)])
  }

  method Wclrtoeol(win: Window)
    requires win.Valid()
    modifies win`view, win.pool, win.buffers
    ensures win.Valid() && win.Snap() == ClearedToEol(old(win.Snap()), win.maxx)
  {
    var y, x := win.cury, win.curx;
    if win.lines[y].pastEol {
      if y < win.maxy - 1 {
        y := y + 1;
        x := 0;
      } else {
        return;
      }
    }
    var _, _ := Wipe(win, y, x);
    win.TouchLine(y, x, win.maxx - 1, false);
  }

  /** wclrtobot: clears from the cursor to the end of the window. */
  function ClearedToBot(s: WinV, w: nat): WinV
    requires WellFormed(s, w)
  {
    var past := s.lines[s.y].pastEol;
    var y, x := if past then s.y + 1 else s.y, if past then 0 else s.x;
    s.(lines := seq(|s.lines|, i requires 0 <= i < |s.lines| =>
      if i < y then s.lines[i] else WipedLine(s.lines[i], if i == y then x else 0)))
  }

  method Wclrtobot(win: Window)
    requires win.Valid()
    modifies win`view, win.pool, win.buffers
    ensures win.Valid() && win.Snap() == ClearedToBot(old(win.Snap()), win.maxx)
  {
    var starty, startx := win.cury, win.curx;
    if win.lines[win.cury].pastEol {
      starty := win.cury + 1;
      startx := 0;
    }
    ghost var v, x0 := win.view, startx;
    for y := starty to win.maxy
      invariant win.Valid() && startx == if y == starty then x0 else 0
      invariant |win.view| == |v|
      invariant forall i :: 0 <= i < starty || y <= i < |v| ==> win.view[i] == v[i]
      invariant forall i :: starty <= i < y ==> win.view[i] == WipedLine(v[i], if i == starty then x0 else 0)
    {
      WipeAndTouch(win, y, startx);
      startx := 0;
    }
    assert win.view == ClearedToBot(old(win.Snap()), win.maxx).lines;
  }

  /** werase: clears every line. */
  function Erased(v: seq<LineV>): (r: seq<LineV>)
    ensures |r| == |v|
  {
    seq(|v|, i requires 0 <= i < |v| => WipedLine(v[i], 0))
  }

  method Werase(win: Window)
    requires win.Valid()
    modifies win`view, win.pool, win.buffers
    ensures win.Valid() && win.view == Erased(old(win.view))
  {
    ghost var v := win.view;
    for y := 0 to win.maxy
      invariant win.Valid() && |win.view| == |v|
      invariant forall i :: y <= i < |v| ==> win.view[i] == v[i]
      invariant forall i :: 0 <= i < y ==> win.view[i] == WipedLine(v[i], 0)
    {
      WipeAndTouch(win, y, 0);
    }
    assert win.view == Erased(v);
  }

  // ----- insch.c and delch.c -----

  /** `c` with the columns right of i moved right by one; column i is left as it was. */
  function PushedRight(c: seq<Cell>, i: int): (r: seq<Cell>)
    requires 0 <= i
    ensures |r| == |c|
  {
    seq(|c|, k requires 0 <= k < |c| => if k > i then c[k - 1] else c[k])
  }

  /** `c` with the columns from x up to i replaced by their right neighbours. */
  function PulledLeft(c: seq<Cell>, x: int, i: int): (r: seq<Cell>)
    requires 0 <= x && i < |c|
    ensures |r| == |c|
  {
    seq(|c|, k requires 0 <= k < |c| => if x <= k < i then c[k + 1] else c[k])
  }

  lemma PushStep(c: seq<Cell>, i: int)
    requires 0 < i < |c|
    ensures PushedRight(c, i)[i := PushedRight(c, i)[i - 1]] == PushedRight(c, i - 1)
    ensures PushedRight(c, |c| - 1) == c
  {
  }

  lemma PushDone(c: seq<Cell>, x: int, cell: Cell)
    requires 0 <= x < |c|
    ensures PushedRight(c, x)[x := cell] == c[..x] + [cell] + c[x..|c| - 1]
  {
  }

  lemma PullStep(c: seq<Cell>, x: int, i: int)
    requires 0 <= x <= i < |c| - 1
    ensures PulledLeft(c, x, i)[i := PulledLeft(c, x, i)[i + 1]] == PulledLeft(c, x, i + 1)
  {
  }

  lemma PullNothing(c: seq<Cell>, x: int)
    requires 0 <= x < |c|
    ensures PulledLeft(c, x, x) == c
  {
  }

  /** winsch up to its corner check: the cursor's column gets the plain character, the rest of the
      line moves right, the last column drops off. */
  function InsertedCh(s: WinV, c: char, w: nat): WinV
    requires WellFormed(s, w)
  {
    var l := s.lines[s.y];
    var pushed := l.cells[..s.x] + [Cell(c, false)] + l.cells[s.x..w - 1];
    s.(lines := s.lines[s.y := Touched(l.(cells := pushed), s.x, w - 1, false)])
  }

  /** wdelch: the cursor's column drops out, the rest moves left, the last column becomes blank. */
  function DeletedCh(s: WinV, w: nat): WinV
    requires WellFormed(s, w)
  {
    var l := s.lines[s.y];
    s.(lines := s.lines[s.y := Touched(l.(cells := l.cells[..s.x] + l.cells[s.x + 1..] + [BLANK]), s.x, w - 1, false)])
  }

  /** The loop of winsch. */
  method PushRight(win: Window)
    requires win.Valid()
    modifies win`view, win.pool, win.buffers
    ensures win.Valid()
    ensures win.view == WithCells(old(win.view), win.cury, PushedRight(old(win.view)[win.cury].cells, win.curx))
  {
    ghost var v, y := win.view, win.cury;
    ghost var cs := v[y].cells;
    var temp1 := win.maxx - 1;
    assert PushedRight(cs, win.maxx - 1) == cs && WithCells(v, y, cs) == v;
    while temp1 > win.curx
      invariant win.Valid() && win.curx <= temp1 < win.maxx
      invariant win.view == WithCells(v, y, PushedRight(cs, temp1))
    {
      PushStep(cs, temp1);
      assert win.lines[win.cury].cells[..] == win.view[y].cells;
      win.SetCell(win.cury, temp1, win.lines[win.cury].cells[temp1 - 1]);
      temp1 := temp1 - 1;
    }
  }

  /** The corner check of insch.c:84-86. */
  method CornerFilled(win: Window) returns (corner: bool)
    requires win.Valid()
    ensures corner <==> win.cury == win.maxy - 1 && win.view[win.maxy - 1].cells[win.maxx - 1] != BLANK
  {
    var l := win.lines[win.maxy - 1];
    assert l.cells[..] == win.view[win.maxy - 1].cells;
    corner := win.cury == win.maxy - 1 && l.cells[win.maxx - 1] != BLANK;
  }

  /** Puts the character into the gap and touches the rest of the line, insch.c:81-83. */
  method FillGap(win: Window, c: char)
    requires win.Valid()
    modifies win`view, win.pool, win.buffers
    ensures win.Valid()
    ensures win.view == old(win.view)[win.cury := Touched(
      old(win.view)[win.cury].(cells := old(win.view)[win.cury].cells[win.curx := Cell(c, false)]),
      win.curx, win.maxx - 1, false)]
  {
    win.SetCell(win.cury, win.curx, Cell(c, false));
    win.TouchLine(win.cury, win.curx, win.maxx - 1, false);
  }

  /** Returns whether the corner check would now refresh and scroll, or fail. */
  method Winsch(win: Window, c: char) returns (corner: bool)
    requires win.Valid()
    modifies win`view, win.pool, win.buffers
    ensures win.Valid() && win.Snap() == InsertedCh(old(win.Snap()), c, win.maxx)
    ensures corner <==> win.cury == win.maxy - 1 && win.view[win.maxy - 1].cells[win.maxx - 1] != BLANK
  {
    ghost var cs := win.view[win.cury].cells;
    PushDone(cs, win.curx, Cell(c, false));
    PushRight(win);
    FillGap(win, c);
    corner := CornerFilled(win);
  }

  method Wdelch(win: Window)
    requires win.Valid()
    modifies win`view, win.pool, win.buffers
    ensures win.Valid() && win.Snap() == DeletedCh(old(win.Snap()), win.maxx)
  {
    ghost var v, y := win.view, win.cury;
    ghost var cs := v[y].cells;
    var temp1 := win.curx;
    PullNothing(cs, temp1);
    assert WithCells(v, y, cs) == v;
    while temp1 < win.maxx - 1
      invariant win.Valid() && win.curx <= temp1 < win.maxx
      invariant win.view == WithCells(v, y, PulledLeft(cs, win.curx, temp1))
    {
      PullStep(cs, win.curx, temp1);
      assert win.lines[win.cury].cells[..] == win.view[y].cells;
      win.SetCell(win.cury, temp1, win.lines[win.cury].cells[temp1 + 1]);
      temp1 := temp1 + 1;
    }
    win.SetCell(win.cury, temp1, BLANK);
    win.TouchLine(win.cury, win.curx, win.maxx - 1, false);
    assert PulledLeft(cs, win.curx, win.maxx - 1)[win.maxx - 1 := BLANK]
        == cs[..win.curx] + cs[win.curx + 1..] + [BLANK];
  }
}
