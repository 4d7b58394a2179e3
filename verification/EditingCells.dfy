/** What the editing calls of Libcurses-21 do, cell by cell: which cells come to hold what, where the
    cursor goes, and which columns are marked. */
module EditingCells {
  import opened Windows
  import opened Editing
  import opened Clearing
  import opened Typing

  const PLAIN_BLANK: Cell := Cell(' ', false)

  predicate InScreen(s: WinV, i: int, j: int, w: nat) {
    0 <= i < |s.lines| && 0 <= j < w
  }

  function At(s: WinV, i: int, j: int): Cell
    requires 0 <= i < |s.lines| && 0 <= j < |s.lines[i].cells|
  {
    s.lines[i].cells[j]
  }

  /** All but the lines is as before, and no line has changed its size. */
  predicate OnlyLines(s: WinV, r: WinV, w: nat) {
    && |r.lines| == |s.lines| && r.y == s.y && r.x == s.x && r.scrollOk == s.scrollOk && r.standout == s.standout
    && forall i :: 0 <= i < |r.lines| ==> |r.lines[i].cells| == w
  }

  // ----- marks -----

  /** `r` is marked over the columns from a to b and those that were marked in `l`, no others. */
  predicate MarkedOver(l: LineV, r: LineV, a: int, b: int) {
    && r.dirty
    && r.first == (if l.dirty && l.first < a then l.first else a)
    && r.last == (if l.dirty && l.last > b then l.last else b)
    && r.hash == l.hash && r.force == l.force
  }

  /** Touching gives the smallest range over the old marks and the new columns. */
  lemma TouchedIsSmallest(l: LineV, sx: int, ex: int, force: bool, a: int, b: int)
    requires sx <= ex && (l.dirty ==> l.first <= l.last)
    ensures var r := Touched(l, sx, ex, force);
      && r.dirty && r.first <= sx && ex <= r.last && (l.dirty ==> r.first <= l.first && l.last <= r.last)
      && (a <= sx && ex <= b && (l.dirty ==> a <= l.first && l.last <= b) ==> a <= r.first && r.last <= b)
      && r.cells == l.cells && r.pastEol == l.pastEol && r.hash == l.hash && (r.force <==> l.force || force)
  {
  }

  /** So does writing a character. */
  lemma MarkedIsSmallest(l: LineV, x: int, a: int, b: int)
    requires l.dirty ==> l.first <= l.last
    ensures var r := Marked(l, x);
      && r.dirty && r.first <= x <= r.last && (l.dirty ==> r.first <= l.first && l.last <= r.last)
      && (a <= x <= b && (l.dirty ==> a <= l.first && l.last <= b) ==> a <= r.first && r.last <= b)
      && r.cells == l.cells && r.pastEol == l.pastEol && r.hash == l.hash && r.force == l.force
  {
  }

  // ----- clrtoeol.c, clrtobot.c and erase.c -----

  /** Clearing to the end of the line leaves the columns in front of the cursor and blanks the others,
      or the whole next line if the line is left past its end; at the bottom it then does nothing. */
  lemma ClearedToEolCells(s: WinV, w: nat)
    requires WellFormed(s, w)
    ensures OnlyLines(s, ClearedToEol(s, w), w)
    ensures !s.lines[s.y].pastEol ==>
      forall i, j :: InScreen(s, i, j, w) ==>
        At(ClearedToEol(s, w), i, j) == if i == s.y && s.x <= j then PLAIN_BLANK else At(s, i, j)
    ensures s.lines[s.y].pastEol && s.y + 1 < |s.lines| ==>
      forall i, j :: InScreen(s, i, j, w) ==>
        At(ClearedToEol(s, w), i, j) == if i == s.y + 1 then PLAIN_BLANK else At(s, i, j)
    ensures s.lines[s.y].pastEol && s.y + 1 == |s.lines| ==> ClearedToEol(s, w) == s
  {
  }

  /** Marked are the columns cleared, whatever they held; the other lines are as before. */
  lemma ClearedToEolMarks(s: WinV, w: nat, i: int)
    requires WellFormed(s, w) && 0 <= i < |s.lines|
    ensures var past, r := s.lines[s.y].pastEol, ClearedToEol(s, w).lines;
      if i == (if past then s.y + 1 else s.y) then
        MarkedOver(s.lines[i], r[i], if past then 0 else s.x, w - 1) && r[i].pastEol == s.lines[i].pastEol
      else r[i] == s.lines[i]
  {
  }

  /** The first and the last column in which the cells differ. */
  predicate AreOutermost(c: seq<Cell>, d: seq<Cell>, a: int, b: int) {
    && |c| == |d| && 0 <= a <= b < |c| && c[a] != d[a] && c[b] != d[b]
    && forall j :: 0 <= j < |c| && c[j] != d[j] ==> a <= j <= b
  }

  /** A line is wiped from column x on. It is marked from the first to the last column whose cell
      changes, and stays as it is if there is none. */
  lemma WipedLineMeans(l: LineV, x: int, w: nat)
    requires WellMarked(l, w) && 0 <= x < w
    ensures var r := WipedLine(l, x);
      && |r.cells| == w && (forall j :: 0 <= j < w ==> r.cells[j] == if x <= j then PLAIN_BLANK else l.cells[j])
      && r.pastEol == l.pastEol && r.hash == l.hash && r.force == l.force
    ensures (forall j :: 0 <= j < w ==> l.cells[j] == WipedLine(l, x).cells[j]) ==> WipedLine(l, x) == l
    ensures forall a, b :: AreOutermost(l.cells, WipedLine(l, x).cells, a, b) ==> MarkedOver(l, WipedLine(l, x), a, b)
  {
    if FirstInk(l.cells, x, w) == -1 { assert WipedLine(l, x).cells == l.cells; }
  }

  /** Clearing to the bottom wipes the line of the cursor from its column on, and all lines below. */
  lemma ClearedToBotMeans(s: WinV, w: nat, i: int)
    requires WellFormed(s, w) && 0 <= i < |s.lines|
    ensures OnlyLines(s, ClearedToBot(s, w), w)
    ensures var past, r := s.lines[s.y].pastEol, ClearedToBot(s, w).lines;
      && (i < s.y || (i == s.y && past) ==> r[i] == s.lines[i])
      && (i == s.y && !past ==> r[i] == WipedLine(s.lines[i], s.x))
      && (i > s.y ==> r[i] == WipedLine(s.lines[i], 0))
  {
  }

  lemma ClearedToBotCells(s: WinV, w: nat, i: int, j: int)
    requires WellFormed(s, w) && InScreen(s, i, j, w)
    ensures OnlyLines(s, ClearedToBot(s, w), w)
    ensures At(ClearedToBot(s, w), i, j)
            == if s.y < i || (s.y == i && s.x <= j && !s.lines[s.y].pastEol) then PLAIN_BLANK else At(s, i, j)
  {
    ClearedToBotMeans(s, w, i);
    WipedLineMeans(s.lines[i], if i == s.y then s.x else 0, w);
  }

  /** Erasing blanks every cell. */
  lemma ErasedCells(v: seq<LineV>, w: nat, i: int)
    requires 0 <= i < |v| && 0 < w && WellMarked(v[i], w)
    ensures Erased(v)[i] == WipedLine(v[i], 0)
    ensures |Erased(v)[i].cells| == w && forall j :: 0 <= j < w ==> Erased(v)[i].cells[j] == PLAIN_BLANK
  {
    WipedLineMeans(v[i], 0, w);
  }

  // ----- insch.c and delch.c -----

  /** The character comes in at the cursor, those from there on move right by one, the last drops off. */
  lemma InsertedChCells(s: WinV, c: char, w: nat, i: int)
    requires WellFormed(s, w) && 0 <= i < |s.lines|
    ensures OnlyLines(s, InsertedCh(s, c, w), w)
    ensures var l, r := s.lines[i], InsertedCh(s, c, w).lines[i];
      && (i != s.y ==> r == l)
      && (i == s.y ==>
        && r.cells[s.x] == Cell(c, false)
        && (forall j :: 0 <= j < s.x ==> r.cells[j] == l.cells[j])
        && (forall j :: s.x < j < w ==> r.cells[j] == l.cells[j - 1])
        && MarkedOver(l, r, s.x, w - 1) && r.pastEol == l.pastEol)
  {
  }

  /** The character at the cursor drops out, those behind it move left, and a blank comes in. */
  lemma DeletedChCells(s: WinV, w: nat, i: int)
    requires WellFormed(s, w) && 0 <= i < |s.lines|
    ensures OnlyLines(s, DeletedCh(s, w), w)
    ensures var l, r := s.lines[i], DeletedCh(s, w).lines[i];
      && (i != s.y ==> r == l)
      && (i == s.y ==>
        && (forall j :: 0 <= j < s.x ==> r.cells[j] == l.cells[j])
        && (forall j :: s.x <= j < w - 1 ==> r.cells[j] == l.cells[j + 1])
        && r.cells[w - 1] == PLAIN_BLANK
        && MarkedOver(l, r, s.x, w - 1) && r.pastEol == l.pastEol)
  {
  }

  // ----- deleteln.c, insertln.c, move.c and scroll.c -----

  /** Marked over its full width. */
  predicate FullyMarked(l: LineV, w: nat) {
    l.dirty && l.first == 0 && l.last == w - 1
  }

  /** A line holds what `l` held, is marked over its full width and no longer left past its end. */
  predicate IsMoved(l: LineV, r: LineV, w: nat) {
    r.cells == l.cells && FullyMarked(r, w) && !r.pastEol && r.force == l.force && r.hash == l.hash
  }

  /** A line is blank and marked over its full width. */
  predicate IsBlanked(r: LineV, w: nat) {
    |r.cells| == w && (forall j :: 0 <= j < w ==> r.cells[j] == PLAIN_BLANK) && FullyMarked(r, w)
  }

  lemma MovedIsMoved(l: LineV, w: nat, pastEol: bool)
    requires WellMarked(l, w) && 0 < w
    ensures IsMoved(l, Moved(l, w), w) && IsBlanked(Blanked(l, w, pastEol), w)
  {
  }

  /** The lines below the cursor move up by one, and the line of the cursor comes in blank at the bottom. */
  lemma DeletedCells(v: seq<LineV>, y: int, w: nat, i: int)
    requires 0 <= y < |v| && 0 <= i < |v| && 0 < w && forall k :: 0 <= k < |v| ==> WellMarked(v[k], w)
    ensures i < y ==> Deleted(v, y, w)[i] == v[i]
    ensures y <= i < |v| - 1 ==> IsMoved(v[i + 1], Deleted(v, y, w)[i], w)
    ensures i == |v| - 1 ==>
      var r := Deleted(v, y, w)[i];
      && IsBlanked(r, w) && r.force == v[y].force && r.hash == v[y].hash
      && (r.pastEol <==> y == |v| - 1 && v[y].pastEol)
  {
    MovedIsMoved(v[y], w, y == |v| - 1 && v[y].pastEol);
    if i < |v| - 1 { MovedIsMoved(v[i + 1], w, false); }
  }

  /** The lines from the cursor on move down by one, and the bottom line comes in blank at the cursor. */
  lemma InsertedCells(v: seq<LineV>, y: int, w: nat, i: int)
    requires 0 <= y < |v| && 0 <= i < |v| && 0 < w && forall k :: 0 <= k < |v| ==> WellMarked(v[k], w)
    ensures i < y ==> Inserted(v, y, w)[i] == v[i]
    ensures y < i ==> IsMoved(v[i - 1], Inserted(v, y, w)[i], w)
    ensures i == y ==>
      var r, last := Inserted(v, y, w)[i], v[|v| - 1];
      && IsBlanked(r, w) && r.force == last.force && r.hash == last.hash
      && (r.pastEol <==> y == |v| - 1 && v[y].pastEol)
  {
    MovedIsMoved(v[|v| - 1], w, y == |v| - 1 && v[y].pastEol);
    if i > 0 { MovedIsMoved(v[i - 1], w, false); }
  }

  /** A move inside the window sets the cursor and takes the flag off the lines it leaves and enters; a
      move outside changes nothing. */
  lemma MovedToMeans(s: WinV, y: int, x: int, w: nat, i: int)
    requires WellFormed(s, w) && 0 <= i < |s.lines|
    ensures 0 <= y < |s.lines| && 0 <= x < w ==>
      var r := MovedTo(s, y, x, w);
      && r == WinV(r.lines, y, x, s.scrollOk, s.standout) && |r.lines| == |s.lines|
      && r.lines[i] == s.lines[i].(pastEol := s.lines[i].pastEol && i != y && i != s.y)
    ensures !(0 <= y < |s.lines| && 0 <= x < w) ==> MovedTo(s, y, x, w) == s
  {
  }

  /** Scrolling moves all lines up by one, and leaves the cursor where it is. */
  lemma ScrolledCells(s: WinV, w: nat, i: int)
    requires WellFormed(s, w) && 0 <= i < |s.lines| && s.scrollOk
    ensures var r := Scrolled(s, w);
      && r == s.(lines := r.lines) && |r.lines| == |s.lines| && !r.lines[s.y].pastEol
      && (i + 1 < |s.lines| ==> IsMoved(s.lines[i + 1], r.lines[i], w))
      && (i + 1 == |s.lines| ==> IsBlanked(r.lines[i], w))
  {
    ScrolledWell(s, w);
    var s1 := MovedTo(s, 0, 0, w);
    DeletedCells(s1.lines, 0, w, i);
  }
}
