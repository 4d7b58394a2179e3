/** The editing calls of Libcurses-21 on a full-screen root window: what each does to the lines and
    the cursor, and that each keeps the change marks sound. */
module Editing {
  import opened Windows

  // ----- moving line pointers: deleteln.c and insertln.c -----

  /** A line after the shifting loops of wdeleteln and winsertln moved it. */
  function Moved(l: LineV, w: int): LineV {
    Touched(l.(pastEol := false), 0, w - 1, false)
  }

  /** The line that was taken out, blanked and touched. */
  function Blanked(l: LineV, w: nat, pastEol: bool): LineV {
    Touched(l.(cells := Blanks(w), pastEol := pastEol), 0, w - 1, false)
  }

  /** The lines after wdeleteln at line y: those below y moved up, the line of y blanked at the
      bottom. On the bottom line no flag is cleared. */
  function Deleted(v: seq<LineV>, y: int, w: nat): (r: seq<LineV>)
    requires 0 <= y < |v| && 0 < w
    ensures |r| == |v|
  {
    seq(|v|, i requires 0 <= i < |v| =>
      if i < y then v[i]
      else if i < |v| - 1 then Moved(v[i + 1], w)
      else Blanked(v[y], w, y == |v| - 1 && v[y].pastEol))
  }

  /** The lines after winsertln at line y: those from y on moved down, the bottom line blanked at y. */
  function Inserted(v: seq<LineV>, y: int, w: nat): (r: seq<LineV>)
    requires 0 <= y < |v| && 0 < w
    ensures |r| == |v|
  {
    seq(|v|, i requires 0 <= i < |v| =>
      if i < y then v[i]
      else if i > y then Moved(v[i - 1], w)
      else Blanked(v[|v| - 1], w, y == |v| - 1 && v[y].pastEol))
  }

  lemma MovedWell(l: LineV, w: nat, pastEol: bool)
    requires WellMarked(l, w) && 0 < w
    ensures WellMarked(Moved(l, w), w) && WellMarked(Blanked(l, w, pastEol), w)
  {
  }

  lemma DeletedWell(v: seq<LineV>, y: int, w: nat)
    requires 0 <= y < |v| && 0 < w && forall i :: 0 <= i < |v| ==> WellMarked(v[i], w)
    ensures forall i :: 0 <= i < |v| ==> WellMarked(Deleted(v, y, w)[i], w)
  {
    MovedWell(v[y], w, y == |v| - 1 && v[y].pastEol);
    forall i | 0 <= i < |v| ensures WellMarked(Deleted(v, y, w)[i], w) {
      if i + 1 < |v| { MovedWell(v[i + 1], w, false); }
    }
  }

  lemma InsertedWell(v: seq<LineV>, y: int, w: nat)
    requires 0 <= y < |v| && 0 < w && forall i :: 0 <= i < |v| ==> WellMarked(v[i], w)
    ensures forall i :: 0 <= i < |v| ==> WellMarked(Inserted(v, y, w)[i], w)
  {
    MovedWell(v[|v| - 1], w, y == |v| - 1 && v[y].pastEol);
    forall i | 0 <= i < |v| ensures WellMarked(Inserted(v, y, w)[i], w) {
      if i > y { MovedWell(v[i - 1], w, false); }
    }
  }

  /** Where wdeleteln at line y takes the line of place i from. */
  function DeletePerm(n: nat, y: int): (p: seq<int>)
    requires 0 <= y < n
    ensures |p| == n && forall i :: 0 <= i < n ==> 0 <= p[i] < n
    ensures forall i, j :: 0 <= i < j < n ==> p[i] != p[j]
  {
    seq(n, i => if i < y then i else if i < n - 1 then i + 1 else y)
  }

  /** Where winsertln at line y takes the line of place i from. */
  function InsertPerm(n: nat, y: int): (p: seq<int>)
    requires 0 <= y < n
    ensures |p| == n && forall i :: 0 <= i < n ==> 0 <= p[i] < n
    ensures forall i, j :: 0 <= i < j < n ==> p[i] != p[j]
  {
    seq(n, i => if i < y then i else if i > y then i - 1 else n - 1)
  }

  /** The lines `obs` are distinct lines of the window. */
  ghost predicate AreLines(obs: seq<Line>, win: Window) {
    && |obs| == win.maxy
    && (forall i :: 0 <= i < |obs| ==> obs[i] in win.pool)
    && (forall i :: 0 <= i < |obs| ==> obs[i].cells in win.buffers && obs[i].cells.Length == win.maxx)
    && (forall i, j :: 0 <= i < j < |obs| ==> obs[i] != obs[j] && obs[i].cells != obs[j].cells)
  }

  /** One turn of a shifting loop: the line of place `from` takes place `to` and is touched. */
  method Shift(win: Window, from: int, to: int)
    requires 0 <= from < win.lines.Length && 0 <= to < win.lines.Length && win.lines[from] != win.lines[to]
    modifies win.lines, win.lines[from], win.lines[to]
    ensures win.lines[..] == old(win.lines[..])[to := old(win.lines[from])]
    ensures old(win.lines[to]).View() == old(win.lines[to].View()).(pastEol := false)
    ensures old(win.lines[from]).View() == Moved(old(win.lines[from].View()), win.maxx)
  {
    win.lines[to].pastEol := false;
    win.lines[from].pastEol := false;
    win.lines[to] := win.lines[from];
    win.lines[to].Touch(0, win.maxx - 1, false);
  }

  /** What the loop of wdeleteln has done to the line first at place i, when it stands at y. */
  function ShiftedUp(l: LineV, i: int, start: int, y: int, w: int): LineV {
    if start < i <= y then Moved(l, w) else if i == start < y then l.(pastEol := false) else l
  }

  /** The shifting loop of wdeleteln: line pointers move up by one from the cursor line on. */
  method ShiftUp(win: Window) returns (temp: Line)
    requires win.Valid()
    modifies win.lines, win.pool
    ensures temp == old(win.lines[win.cury])
    ensures forall i :: 0 <= i < win.maxy ==>
      win.lines[i] == old(win.lines[if win.cury <= i < win.maxy - 1 then i + 1 else i])
    ensures forall i :: 0 <= i < win.maxy ==>
      old(win.lines[i]).View() == ShiftedUp(win.view[i], i, win.cury, win.maxy - 1, win.maxx)
  {
    ghost var obs := win.lines[..];
    assert AreLines(obs, win);
    var y := win.cury;
    temp := win.lines[y];
    while y < win.maxy - 1
      invariant win.cury <= y <= win.maxy - 1
      invariant forall i {:trigger win.lines[i]} :: win.cury <= i < y ==> win.lines[i] == obs[i + 1]
      invariant forall i {:trigger win.lines[i]} :: 0 <= i < win.maxy && !(win.cury <= i < y) ==>
        win.lines[i] == obs[i]
      invariant forall i :: 0 <= i < win.maxy ==> obs[i].View() == ShiftedUp(win.view[i], i, win.cury, y, win.maxx)
    {
      assert win.lines[y] == obs[y] && win.lines[y + 1] == obs[y + 1];
      Shift(win, y + 1, y);
      y := y + 1;
    }
  }

  /** What the loop of winsertln has done to the line first at place i, when it stands at y. */
  function ShiftedDown(l: LineV, i: int, end: int, y: int, w: int): LineV {
    if y <= i < end then Moved(l, w) else if y < i == end then l.(pastEol := false) else l
  }

  /** The shifting loop of winsertln: line pointers move down by one from the cursor line on. */
  method ShiftDown(win: Window) returns (temp: Line)
    requires win.Valid()
    modifies win.lines, win.pool
    ensures temp == old(win.lines[win.maxy - 1])
    ensures forall i :: 0 <= i < win.maxy ==>
      win.lines[i] == old(win.lines[if win.cury < i then i - 1 else i])
    ensures forall i :: 0 <= i < win.maxy ==>
      old(win.lines[i]).View() == ShiftedDown(win.view[i], i, win.maxy - 1, win.cury, win.maxx)
  {
    ghost var obs := win.lines[..];
    assert AreLines(obs, win);
    temp := win.lines[win.maxy - 1];
    var y := win.maxy - 1;
    while y > win.cury
      invariant win.cury <= y <= win.maxy - 1
      invariant forall i {:trigger win.lines[i]} :: 0 <= i <= y ==> win.lines[i] == obs[i]
      invariant forall i {:trigger win.lines[i]} :: y < i < win.maxy ==> win.lines[i] == obs[i - 1]
      invariant forall i :: 0 <= i < win.maxy ==>
        obs[i].View() == ShiftedDown(win.view[i], i, win.maxy - 1, y, win.maxx)
    {
      assert win.lines[y] == obs[y] && win.lines[y - 1] == obs[y - 1];
      Shift(win, y - 1, y);
      y := y - 1;
    }
  }

  /** Blanks the text of the line that was taken out and touches it. */
  method BlankLine(l: Line, n: int)
    requires 0 < n == l.cells.Length
    modifies l, l.cells
    ensures l.View() == Touched(old(l.View()).(cells := Blanks(n)), 0, n - 1, false)
  {
    for i := 0 to n
      invariant forall k :: 0 <= k < i ==> l.cells[k] == BLANK
      invariant l.View() == old(l.View()).(cells := l.cells[..])
    {
      l.cells[i] := BLANK;
    }
    assert l.cells[..] == Blanks(n);
    l.Touch(0, n - 1, false);
  }

  /** Puts the line that was taken out back at place y, blanked. */
  method PlaceBlank(win: Window, y: int, temp: Line, ghost obs: seq<Line>, ghost k: int)
    requires AreLines(obs, win) && 0 <= k < |obs| && temp == obs[k]
    requires 0 <= y < win.lines.Length && 0 < win.maxx
    modifies win.lines, temp, temp.cells
    ensures win.lines[..] == old(win.lines[..])[y := temp]
    ensures temp.View() == Touched(old(temp.View()).(cells := Blanks(win.maxx)), 0, win.maxx - 1, false)
    ensures forall i :: 0 <= i < |obs| && i != k ==> obs[i].View() == old(obs[i].View())
  {
    win.lines[y] := temp;
    BlankLine(temp, win.maxx);
  }

  /** The window is valid again once its pointers are the lines `obs` permuted by `p`. */
  ghost method Restore(win: Window, obs: seq<Line>, p: seq<int>, values: seq<LineV>)
    requires AreLines(obs, win) && win.lines.Length == win.maxy == |values| == |p| && 0 < win.maxx && 0 < win.maxy
    requires 0 <= win.cury < win.maxy && 0 <= win.curx < win.maxx
    requires forall i :: 0 <= i < |p| ==> 0 <= p[i] < |obs| && win.lines[i] == obs[p[i]]
    requires forall i, j :: 0 <= i < j < |p| ==> p[i] != p[j]
    requires forall i :: 0 <= i < |p| ==> obs[p[i]].View() == values[i]
    requires forall i :: 0 <= i < |p| ==> WellMarked(values[i], win.maxx)
    modifies win`view
    ensures win.Valid() && win.view == values
  {
    win.view := values;
  }

  /** wdeleteln (there are no subwindows, so __id_subwins has nothing to do). */
  method Wdeleteln(win: Window)
    requires win.Valid()
    modifies win`view, win.lines, win.pool, win.buffers
    ensures win.Valid() && win.view == Deleted(old(win.view), win.cury, win.maxx)
    ensures forall i :: 0 <= i < win.maxy ==> win.lines[i] == old(win.lines[..])[DeletePerm(win.maxy, win.cury)[i]]
  {
    ghost var v, obs, y := win.view, win.lines[..], win.cury;
    assert AreLines(obs, win);
    var temp := ShiftUp(win);
    PlaceBlank(win, win.maxy - 1, temp, obs, y);
    DeletedWell(v, y, win.maxx);
    assert temp.View() == Blanked(v[y], win.maxx, y == |v| - 1 && v[y].pastEol);
    Restore(win, obs, DeletePerm(win.maxy, y), Deleted(v, y, win.maxx));
  }

  /** winsertln */
  method Winsertln(win: Window)
    requires win.Valid()
    modifies win`view, win.lines, win.pool, win.buffers
    ensures win.Valid() && win.view == Inserted(old(win.view), win.cury, win.maxx)
    ensures forall i :: 0 <= i < win.maxy ==> win.lines[i] == old(win.lines[..])[InsertPerm(win.maxy, win.cury)[i]]
  {
    ghost var v, obs, y := win.view, win.lines[..], win.cury;
    assert AreLines(obs, win);
    var temp := ShiftDown(win);
    PlaceBlank(win, win.cury, temp, obs, win.maxy - 1);
    ghost var p, values := InsertPerm(win.maxy, y), Inserted(v, y, win.maxx);
    InsertedWell(v, y, win.maxx);
    assert temp.View() == Blanked(v[|v| - 1], win.maxx, y == |v| - 1 && v[y].pastEol);
    forall i | 0 <= i < win.maxy ensures win.lines[i] == obs[p[i]] && obs[p[i]].View() == values[i] {
      if i == y { assert p[i] == win.maxy - 1; } else { assert p[i] == if i < y then i else i - 1; }
    }
    Restore(win, obs, p, values);
  }

  // ----- move.c and scroll.c -----

  predicate InWindow(s: WinV, y: int, x: int, w: nat) {
    0 <= y < |s.lines| && 0 <= x < w
  }

  /** wmove: a position outside the window is refused and nothing changes. */
  function MovedTo(s: WinV, y: int, x: int, w: nat): WinV
    requires 0 <= s.y < |s.lines|
  {
    if !InWindow(s, y, x, w) then s
    else
      var l1 := s.lines[s.y := s.lines[s.y].(pastEol := false)];
      s.(lines := l1[y := l1[y].(pastEol := false)], y := y, x := x)
  }

  method Wmove(win: Window, y: int, x: int) returns (ok: bool)
    requires win.Valid()
    modifies win`view, win`cury, win`curx, win.pool
    ensures win.Valid() && win.Snap() == MovedTo(old(win.Snap()), y, x, win.maxx)
    ensures ok == InWindow(win.Snap(), y, x, win.maxx)
  {
    if x < 0 || y < 0 { return false; }
    if x >= win.maxx || y >= win.maxy { return false; }
    win.curx := x;
    win.SetPastEol(win.cury, false);
    win.cury := y;
    win.SetPastEol(y, false);
    return true;
  }

  /** scroll: the top line goes, a blank line appears at the bottom, the cursor stays. */
  function Scrolled(s: WinV, w: nat): WinV
    requires WellFormed(s, w)
  {
    if !s.scrollOk then s
    else
      var s1 := MovedTo(s, 0, 0, w);
      MovedTo(s1.(lines := Deleted(s1.lines, 0, w)), s.y, s.x, w)
  }

  method Scroll(win: Window) returns (ok: bool)
    requires win.Valid()
    modifies win`view, win`cury, win`curx, win.lines, win.pool, win.buffers
    ensures win.Valid() && win.Snap() == Scrolled(old(win.Snap()), win.maxx)
    ensures ok == win.scrollOk
  {
    if !win.scrollOk { return false; }
    var oy, ox := win.cury, win.curx;
    var _ := Wmove(win, 0, 0);
    Wdeleteln(win);
    var _ := Wmove(win, oy, ox);
    return true;
  }
}
