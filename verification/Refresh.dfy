/** wrefresh of Libcurses-21/refresh.c for a full-screen root window other than curscr, on a terminal
    with cursor addressing. */
module Refresh {
  import opened Basics
  import opened Windows
  import opened Clearing
  import opened Terminal
  import opened Screens
  import opened Repaint
  import opened QuickChange

  /** The lines with their hashes brought up to date: those of the dirty ones. */
  function Rehashed(f: seq<Cell> -> int, v: seq<LineV>): (r: seq<LineV>)
    ensures |r| == |v|
  {
    seq(|v|, k requires 0 <= k < |v| => if v[k].dirty then v[k].(hash := f(v[k].cells)) else v[k])
  }

  /** refresh.c:90-96: rehashes the dirty lines. */
  method Rehash(scr: Screen, win: Window)
    requires scr.Over(win)
    modifies win`view, win.pool
    ensures scr.Over(win) && win.view == Rehashed(scr.hashOf, old(win.view))
    ensures forall k :: 0 <= k < win.maxy && win.view[k].dirty ==> win.view[k].hash == scr.hashOf(win.view[k].cells)
  {
    ghost var v := win.view;
    for wy := 0 to win.maxy
      invariant scr.Over(win) && |win.view| == |v|
      invariant forall k :: 0 <= k < wy ==> win.view[k] == Rehashed(scr.hashOf, v)[k]
      invariant forall k :: wy <= k < win.maxy ==> win.view[k] == v[k]
    {
      var l := win.lines[wy];
      assert l.View() == win.view[wy];
      if l.dirty {
        win.SetHash(wy, scr.hashOf(l.cells[..]));
      }
    }
  }

  function BlankRows(h: nat, w: nat): seq<seq<Cell>> {
    seq(h, i => Blanks(w))
  }

  /** Clears the terminal and erases curscr, refresh.c:100-107. */
  method BlankScreen(scr: Screen)
    requires Sync(scr)
    modifies scr`term, scr.curscr`view, scr.curscr.pool, scr.curscr.buffers
    ensures Sync(scr) && scr.term.wild == old(scr.term.wild) && CursorAt(scr, 0, 0)
    ensures scr.curscr.view == Erased(old(scr.curscr.view))
    ensures scr.term.rows == Rows(scr.curscr.view) == BlankRows(scr.curscr.maxy, scr.curscr.maxx)
  {
    scr.term := Clear(scr.term, scr.curscr.maxx);
    ErasedRows(scr.curscr.view, scr.curscr.maxx);
    Werase(scr.curscr);
  }

  /** The same beside a window, which is left alone. */
  method BlankBeside(scr: Screen, win: Window)
    requires scr.Over(win) && Sync(scr)
    modifies scr`term, scr.curscr`view, scr.curscr.pool, scr.curscr.buffers
    ensures scr.Over(win) && Sync(scr) && scr.term.wild == old(scr.term.wild) && CursorAt(scr, 0, 0)
    ensures scr.curscr.view == Erased(old(scr.curscr.view))
    ensures scr.term.rows == Rows(scr.curscr.view) == BlankRows(win.maxy, win.maxx)
  {
    BlankScreen(scr);
  }

  /** Every line has been touched over its full width. */
  ghost predicate AllTouched(was: seq<LineV>, v: seq<LineV>, w: nat)
    requires 0 < w
  {
    |was| == |v| && forall k :: 0 <= k < |v| ==> v[k] == Touched(was[k], 0, w - 1, false)
  }

  /** refresh.c:100-108: terminal and curscr start over from a blank screen. */
  method Restart(scr: Screen, win: Window)
    requires scr.Over(win) && Sync(scr)
    modifies scr`term, scr`ly, scr`lx, scr`cury, scr`curx, scr.curscr`clearOk, scr.curscr`view
    modifies scr.curscr.pool, scr.curscr.buffers
    ensures scr.Over(win) && Sync(scr) && !scr.curscr.clearOk && scr.term.wild == old(scr.term.wild)
    ensures scr.ly == scr.lx == scr.cury == scr.curx == 0 && CursorAt(scr, 0, 0)
    ensures scr.curscr.view == Erased(old(scr.curscr.view))
    ensures scr.term.rows == Rows(scr.curscr.view) == BlankRows(win.maxy, win.maxx)
  {
    BlankBeside(scr, win);
    ForgetCursor(scr, win);
  }

  method ForgetCursor(scr: Screen, win: Window)
    requires scr.Over(win) && Sync(scr) && CursorAt(scr, 0, 0)
    modifies scr`ly, scr`lx, scr`cury, scr`curx, scr.curscr`clearOk
    ensures scr.Over(win) && Sync(scr) && !scr.curscr.clearOk
    ensures scr.ly == scr.lx == scr.cury == scr.curx == 0 && CursorAt(scr, 0, 0)
  {
    scr.ly, scr.lx := 0, 0;
    scr.curscr.clearOk := false;
    scr.cury, scr.curx := 0, 0;
  }

  method TouchBeside(scr: Screen, win: Window)
    requires scr.Over(win) && Sync(scr)
    modifies win`view, win.pool
    ensures scr.Over(win) && Sync(scr) && AllTouched(old(win.view), win.view, win.maxx)
  {
    win.TouchWin(false);
  }

  /** refresh.c:99-110: the same, and every line of the window is to be repainted. */
  method StartOver(scr: Screen, win: Window)
    requires scr.Over(win) && Sync(scr)
    modifies scr`term, scr`ly, scr`lx, scr`cury, scr`curx, scr.curscr`clearOk, scr.curscr`view
    modifies scr.curscr.pool, scr.curscr.buffers, win`view, win.pool
    ensures scr.Over(win) && Sync(scr) && !scr.curscr.clearOk
    ensures scr.ly == scr.lx == scr.cury == scr.curx == 0 && CursorAt(scr, 0, 0)
    ensures scr.curscr.view == Erased(old(scr.curscr.view))
    ensures scr.term.rows == Rows(scr.curscr.view) == BlankRows(win.maxy, win.maxx)
    ensures AllTouched(old(win.view), win.view, win.maxx) && scr.term.wild == old(scr.term.wild)
  {
    Restart(scr, win);
    TouchBeside(scr, win);
  }

  /** Such lines are soundly marked whatever the screen shows. */
  lemma TouchedSound(base: seq<seq<Cell>>, was: seq<LineV>, v: seq<LineV>, w: nat)
    requires |base| == |was| && 0 < w && AllTouched(was, v, w)
    requires forall k :: 0 <= k < |v| ==> |base[k]| == w && WellMarked(was[k], w)
    ensures Sound(base, v) && SameText(was, v)
  {
  }

  /** refresh.c:98-112: when a clear is asked for, starts over from a blank screen. */
  method ClearFirst(scr: Screen, win: Window) returns (cleared: bool)
    requires scr.Over(win) && Sync(scr) && Tracked(scr) && scr.Parked() && Sound(Rows(scr.curscr.view), win.view)
    requires scr.ly == scr.cury && scr.lx == scr.curx
    modifies scr`term, scr`ly, scr`lx, scr`cury, scr`curx, scr.curscr`clearOk, scr.curscr`view
    modifies scr.curscr.pool, scr.curscr.buffers, win`clearOk, win`view, win.pool
    ensures scr.Over(win) && Sync(scr) && Tracked(scr) && scr.Parked() && Sound(Rows(scr.curscr.view), win.view)
    ensures scr.ly == scr.cury && scr.lx == scr.curx == if cleared then 0 else old(scr.lx)
    ensures SameText(old(win.view), win.view) && cleared == old(win.clearOk || scr.curscr.clearOk)
    ensures scr.curscr.view == if cleared then Erased(old(scr.curscr.view)) else old(scr.curscr.view)
    ensures !cleared ==> win.view == old(win.view) && scr.ly == old(scr.ly)
    ensures cleared ==> AllTouched(old(win.view), win.view, win.maxx) && scr.ly == 0
    ensures cleared ==> Rows(scr.curscr.view) == BlankRows(win.maxy, win.maxx)
    ensures scr.term.wild == old(scr.term.wild) && !win.clearOk && !scr.curscr.clearOk
  {
    cleared := win.clearOk || scr.curscr.clearOk;
    if cleared {
      ghost var v := win.view;
      StartOver(scr, win);
      TouchedSound(Rows(scr.curscr.view), v, win.view, win.maxx);
      win.clearOk := false;
    } else {
      SameTextReflexive(win.view);
    }
  }

  lemma ErasedRows(v: seq<LineV>, w: nat)
    requires forall k :: 0 <= k < |v| ==> |v[k].cells| == w
    ensures Rows(Erased(v)) == BlankRows(|v|, w)
  {
    forall k | 0 <= k < |v| ensures Rows(Erased(v))[k] == Blanks(w) {
      assert Wiped(v[k].cells, 0, w) == Blanks(w);
    }
  }

  // ----- the main loop -----

  /** A curscr line shows the window's line but for the corner of the screen. */
  predicate ShowsLine(c: seq<Cell>, w: seq<Cell>, bottom: bool) {
    && |c| == |w|
    && forall x :: 0 <= x < |c| && !(bottom && x == |c| - 1) ==> c[x] == w[x]
  }

  /** curscr shows the window. */
  ghost predicate Shows(cv: seq<LineV>, wv: seq<LineV>) {
    |cv| == |wv| && forall k :: 0 <= k < |wv| ==> ShowsLine(cv[k].cells, wv[k].cells, k == |wv| - 1)
  }

  /** How many of the first n lines are marked as left past their end. */
  function PastEols(v: seq<LineV>, n: int): (r: nat)
    requires n <= |v|
  {
    if n <= 0 then 0 else PastEols(v, n - 1) + if v[n - 1].pastEol then 1 else 0
  }

  /** Following cursors past line ends can drive the cursor's line from ly off the screen. */
  predicate MayOverrun(ly: int, v: seq<LineV>) {
    ly + PastEols(v, |v| - 1) >= |v|
  }

  lemma RepaintShows(was: seq<Cell>, l: LineV, now: seq<Cell>, bottom: bool)
    requires SoundLine(was, l, bottom) && Repainted(was, l.cells, now, l.first, l.last, bottom)
    ensures ShowsLine(now, l.cells, bottom)
  {
  }

  /** What a turn of the main loop leaves of a line of the window: a line it has looked at is clean, its
      marks are pushed past each other, and it is no longer forced, unless it had no marks. */
  function DoneLine(l: LineV): LineV {
    var w := |l.cells|;
    if Visited(l) then Unforced(l, w).(first := w, last := 0, dirty := false) else l
  }

  /** One turn of the main loop changes line wy only; curscr then shows the window there. */
  ghost predicate LineRefreshed(cv: seq<LineV>, wv: seq<LineV>, cv': seq<LineV>, wv': seq<LineV>, wy: int) {
    && |cv| == |wv| == |cv'| == |wv'| && 0 <= wy < |wv|
    && (forall k :: 0 <= k < |wv| && k != wy ==> wv'[k] == wv[k] && cv'[k] == cv[k])
    && wv'[wy] == DoneLine(wv[wy]) && cv'[wy].hash == wv[wy].hash
    && ShowsLine(cv'[wy].cells, wv'[wy].cells, wy == |wv| - 1)
  }

  /** refresh.c:173: curscr's line gets the window line's hash. */
  method CopyHash(scr: Screen, win: Window, wy: int)
    requires scr.Over(win) && Sync(scr) && 0 <= wy < win.maxy
    modifies scr.curscr`view, scr.curscr.lines[wy]
    ensures scr.Over(win) && Sync(scr)
    ensures scr.curscr.view == old(scr.curscr.view)[wy := old(scr.curscr.view)[wy].(hash := win.view[wy].hash)]
  {
    ghost var cv := scr.curscr.view;
    assert win.lines[wy].View() == win.view[wy];
    scr.curscr.SetHash(wy, win.lines[wy].hash);
    assert Rows(scr.curscr.view) == Rows(cv);
  }

  /** The main loop looks at a line. */
  predicate Visited(l: LineV) {
    l.dirty || l.force
  }

  /** Its turn at line wy drives the cursor off the screen. */
  predicate OverrunsIn(wv: seq<LineV>, wy: int, ly: int)
    requires 0 <= wy < |wv|
  {
    Visited(wv[wy]) && OverrunsBy(wv, wy, ly)
  }

  /** Its turn at line wy scrolls the screen at the corner, on a terminal that does not wrap. */
  predicate WrapsIn(wv: seq<LineV>, wy: int, was: seq<Cell>, c: Caps, scroll: bool)
    requires 0 <= wy < |wv|
  {
    Visited(wv[wy]) && WrapsOn(wv[wy], wy, |wv|, was, c, scroll)
  }

  function FollowedIn(rows: seq<seq<Cell>>, wv: seq<LineV>, wy: int, ly: int, w: nat): seq<seq<Cell>>
    requires 0 <= wy < |wv| == |rows|
  {
    if Visited(wv[wy]) then Followed(rows, wv, wy, ly, w) else rows
  }

  /** The line on which the cursor is taken to be after the turn. */
  function LineAfterTurn(wv: seq<LineV>, wy: int, was: seq<Cell>, ly: int): int
    requires 0 <= wy < |wv|
  {
    if Visited(wv[wy]) then LineAfter(wv, wy, was, ly) else ly
  }

  /** refresh.c:175-190: repaints a dirty line and marks it clean. */
  method RepaintDirty(scr: Screen, win: Window, wy: int)
    requires scr.Over(win) && Sync(scr) && Tracked(scr) && 0 <= wy < win.maxy && Showable(scr.caps, win.view[wy].cells)
    requires Visited(win.view[wy]) && scr.curscr.view[wy].hash == win.view[wy].hash
    requires SoundLine(scr.curscr.view[wy].cells, win.view[wy], wy == win.maxy - 1)
    modifies scr`term, scr`ly, scr`lx, scr.curscr`view, scr.curscr`standout, scr.curscr.buffers
    modifies win`view, win.lines[wy]
    ensures scr.Over(win) && Sync(scr) && Tracked(scr)
    ensures var wraps := old(WrapsOn(win.view[wy], wy, win.maxy, scr.curscr.view[wy].cells, scr.caps, win.scrollOk));
      && Wilder(scr.caps, old(scr.term.wild), old(OverrunsBy(win.view, wy, scr.ly)) || wraps, scr.term.wild)
      && RowsAfter(old(Followed(scr.term.rows, win.view, wy, scr.ly, win.maxx)), scr.term.rows, wy, wraps, win.maxx)
    ensures scr.ly == old(LineAfter(win.view, wy, scr.curscr.view[wy].cells, scr.ly))
    ensures LineRefreshed(old(scr.curscr.view), old(win.view), scr.curscr.view, win.view, wy)
  {
    ghost var was, lv := scr.curscr.view[wy].cells, win.view[wy];
    ghost var now := Makech(scr, win, wy);
    RepaintShows(was, lv, now, wy == win.maxy - 1);
    win.MarkClean(wy);
  }

  /** One turn of the loop of refresh.c:167-198. */
  method RefreshLine(scr: Screen, win: Window, wy: int)
    requires scr.Over(win) && Sync(scr) && Tracked(scr) && 0 <= wy < win.maxy && Showable(scr.caps, win.view[wy].cells)
    requires SoundLine(scr.curscr.view[wy].cells, win.view[wy], wy == win.maxy - 1)
    modifies scr`term, scr`ly, scr`lx, scr.curscr`view, scr.curscr`standout, scr.curscr.pool, scr.curscr.buffers
    modifies win`view, win.lines[wy]
    ensures scr.Over(win) && Sync(scr) && Tracked(scr)
    ensures var wraps := old(WrapsIn(win.view, wy, scr.curscr.view[wy].cells, scr.caps, win.scrollOk));
      && Wilder(scr.caps, old(scr.term.wild), old(OverrunsIn(win.view, wy, scr.ly)) || wraps, scr.term.wild)
      && RowsAfter(old(FollowedIn(scr.term.rows, win.view, wy, scr.ly, win.maxx)), scr.term.rows, wy, wraps, win.maxx)
    ensures scr.ly == old(LineAfterTurn(win.view, wy, scr.curscr.view[wy].cells, scr.ly))
    ensures LineRefreshed(old(scr.curscr.view), old(win.view), scr.curscr.view, win.view, wy)
  {
    CopyHash(scr, win, wy);
    var l := win.lines[wy];
    assert l.View() == win.view[wy];
    if l.dirty || l.force {
      RepaintDirty(scr, win, wy);
    }
  }

  ghost predicate AllShowable(c: Caps, v: seq<LineV>) {
    forall k :: 0 <= k < |v| ==> Showable(c, v[k].cells)
  }

  /** The main loop before its turn wy: the lines above show the window and are done, the lines from wy on
      are as they were. */
  ghost predicate RefreshedTo(cv0: seq<LineV>, wv0: seq<LineV>, cv: seq<LineV>, wv: seq<LineV>, wy: int) {
    && |cv0| == |wv0| == |cv| == |wv|
    && (forall k :: 0 <= k < wy && k < |wv| ==>
          ShowsLine(cv[k].cells, wv[k].cells, k == |wv| - 1) && wv[k] == DoneLine(wv0[k]) && cv[k].hash == wv0[k].hash)
    && (forall k :: wy <= k < |wv| && 0 <= k ==> cv[k] == cv0[k] && wv[k] == wv0[k])
  }

  /** The lines of the window are done, and those of curscr have their hashes. */
  ghost predicate LinesDone(wv0: seq<LineV>, cv: seq<LineV>, wv: seq<LineV>) {
    && |wv0| == |cv| == |wv|
    && forall k :: 0 <= k < |wv| ==> wv[k] == DoneLine(wv0[k]) && cv[k].hash == wv0[k].hash
  }

  lemma DoneIsClean(wv0: seq<LineV>, cv: seq<LineV>, wv: seq<LineV>)
    requires LinesDone(wv0, cv, wv)
    ensures SameText(wv0, wv) && forall k :: 0 <= k < |wv| ==> !wv[k].dirty && cv[k].hash == wv[k].hash
  {
  }

  lemma AllRefreshed(cv0: seq<LineV>, wv0: seq<LineV>, cv: seq<LineV>, wv: seq<LineV>)
    requires RefreshedTo(cv0, wv0, cv, wv, |wv|)
    ensures LinesDone(wv0, cv, wv) && Shows(cv, wv)
  {
  }

  lemma RefreshedStep(cv0: seq<LineV>, wv0: seq<LineV>, cv: seq<LineV>, wv: seq<LineV>, cv': seq<LineV>,
      wv': seq<LineV>, wy: int)
    requires RefreshedTo(cv0, wv0, cv, wv, wy) && LineRefreshed(cv, wv, cv', wv', wy)
    ensures RefreshedTo(cv0, wv0, cv', wv', wy + 1)
    ensures FollowsPastEol(wv', wy) == FollowsPastEol(wv0, wy)
  {
  }

  /** What the next line needs: it is as it was at the start, so its marks are sound. */
  lemma NextIsSound(c: Caps, cv0: seq<LineV>, wv0: seq<LineV>, cv: seq<LineV>, wv: seq<LineV>, wy: int)
    requires RefreshedTo(cv0, wv0, cv, wv, wy) && 0 <= wy < |wv|
    requires Sound(Rows(cv0), wv0) && AllShowable(c, wv0)
    ensures SoundLine(cv[wy].cells, wv[wy], wy == |wv| - 1) && Showable(c, wv[wy].cells)
  {
    assert SoundLine(Rows(cv0)[wy], wv0[wy], wy == |wv0| - 1);
  }

  // ----- where the cursor is taken to be -----

  /** What there is before the main loop: the lines of the window, what curscr shows, the line on which
      the cursor is taken to be, and whether the window may scroll. */
  datatype Before = Before(wv: seq<LineV>, base: seq<seq<Cell>>, ly: int, scroll: bool)
  {
    ghost predicate Valid() {
      |wv| == |base| > 0
    }

    /** The cursor's line when the loop comes to line wy. */
    function LineAt(wy: nat): int
      requires |wv| == |base| && wy <= |wv|
    {
      if wy == 0 then ly else LineAfterTurn(wv, wy - 1, base[wy - 1], LineAt(wy - 1))
    }

    /** The turn at line wy drives the cursor off the screen. */
    predicate OverrunAt(wy: nat)
      requires |wv| == |base| && wy < |wv|
    {
      OverrunsIn(wv, wy, LineAt(wy))
    }

    /** One of the turns before line wy does. */
    predicate OverrunBefore(wy: nat)
      requires |wv| == |base| && wy <= |wv|
    {
      exists k: nat :: k < wy && OverrunAt(k)
    }

    predicate Overruns()
      requires |wv| == |base|
    {
      OverrunBefore(|wv|)
    }

    /** The terminal is lost before line wy. */
    predicate LostBefore(c: Caps, wy: nat)
      requires |wv| == |base| > 0 && wy <= |wv|
    {
      OverrunBefore(wy) || (wy == |wv| && Wraps(c))
    }

    /** The turn at the bottom line scrolls the screen at the corner. */
    predicate Wraps(c: Caps)
      requires |wv| == |base| > 0
    {
      WrapsIn(wv, |wv| - 1, base[|wv| - 1], c, scroll)
    }

    /** Only the turn at line a does. */
    predicate OverrunsOnlyAt(a: nat)
      requires |wv| == |base|
    {
      a < |wv| && OverrunAt(a) && forall k: nat :: k < |wv| && k != a ==> !OverrunAt(k)
    }

    /** By how many lines the screen then scrolls. */
    function Lost(a: nat): int
      requires |wv| == |base| && a < |wv|
    {
      LineAt(a) + 2 - |wv|
    }
  }

  lemma OverrunStep(b: Before, wy: nat)
    requires b.Valid() && wy < |b.wv|
    ensures b.OverrunBefore(wy + 1) <==> b.OverrunBefore(wy) || b.OverrunAt(wy)
  {
    if b.OverrunBefore(wy + 1) {
      var k: nat :| k < wy + 1 && b.OverrunAt(k);
      assert k == wy || k < wy;
    }
    if b.OverrunBefore(wy) {
      var k: nat :| k < wy && b.OverrunAt(k);
      assert k < wy + 1;
    }
  }

  /** Past the end of lines the cursor is taken to go down; this bounds how far. */
  lemma {:induction false} LineBound(b: Before, wy: nat)
    requires b.Valid() && wy <= |b.wv|
    ensures b.LineAt(wy) <= wy - 1 || b.LineAt(wy) <= b.ly + PastEols(b.wv, wy - 1)
  {
    if wy > 0 {
      LineBound(b, wy - 1);
      FewerPastEols(b.wv, wy - 2, wy - 1);
    }
  }

  lemma {:induction false} FewerPastEols(v: seq<LineV>, m: int, n: int)
    requires m <= n <= |v|
    ensures PastEols(v, m) <= PastEols(v, n)
    decreases n - m
  {
    if m < n { FewerPastEols(v, m, n - 1); }
  }

  /** It takes the cursor off the screen only if enough lines are marked as left past their end. */
  lemma OverrunTakesPastEols(b: Before)
    requires b.Valid() && b.Overruns()
    ensures MayOverrun(b.ly, b.wv)
  {
    var k: nat :| k < |b.wv| && b.OverrunAt(k);
    LineBound(b, k);
    assert PastEols(b.wv, k) == PastEols(b.wv, k - 1) + 1;
    FewerPastEols(b.wv, k, |b.wv| - 1);
  }

  // ----- what the terminal shows after it -----

  /** After an overrun at line a the terminal shows above it the lines of curscr moved up. */
  predicate ScrolledAbove(rows: seq<seq<Cell>>, cv: seq<LineV>, b: Before, a: nat, w: nat)
    requires |rows| == |cv| == |b.wv| == |b.base| && a < |rows|
  {
    forall k :: 0 <= k < a ==> rows[k] == ShownAfter(cv, b, a, w, k)
  }

  function ShownAfter(cv: seq<LineV>, b: Before, a: nat, w: nat, k: nat): seq<Cell>
    requires |cv| == |b.wv| == |b.base| && k < a < |cv|
  {
    var from := k + b.Lost(a);
    if 0 <= from < a then cv[from].cells else if a <= from < |cv| then b.base[from] else Blanks(w)
  }

  /** After the screen has been scrolled at the corner it shows the lines of curscr one line further up;
      what becomes of the bottom line, which was being painted, is left open. */
  predicate ScrolledOnce(rows: seq<seq<Cell>>, cv: seq<LineV>, w: nat)
    requires |rows| == |cv|
  {
    forall k :: 0 <= k < |rows| && k != |rows| - 2 ==> rows[k] == if k < |rows| - 1 then cv[k + 1].cells else Blanks(w)
  }

  lemma ScrolledNow(before: seq<seq<Cell>>, rows: seq<seq<Cell>>, cv: seq<LineV>, cv': seq<LineV>, b: Before, a: nat,
                    w: nat)
    requires b.Valid() && |cv| == |cv'| == |b.wv| && a < |b.wv| && b.OverrunAt(a) && before == Rows(cv)
    requires OnlyRow(FollowedIn(before, b.wv, a, b.LineAt(a), w), rows, a)
    requires forall k :: 0 <= k < a ==> cv'[k].cells == cv[k].cells
    requires forall k :: a <= k < |cv| ==> cv[k].cells == b.base[k]
    ensures ScrolledAbove(rows, cv', b, a, w)
  {
  }

  lemma ScrolledStill(before: seq<seq<Cell>>, rows: seq<seq<Cell>>, cv: seq<LineV>, cv': seq<LineV>, b: Before, a: nat,
                      w: nat, wy: nat)
    requires b.Valid() && |before| == |cv| == |cv'| == |b.wv| && a < wy < |b.wv| && !b.OverrunAt(wy)
    requires OnlyRow(FollowedIn(before, b.wv, wy, b.LineAt(wy), w), rows, wy) && ScrolledAbove(before, cv, b, a, w)
    requires forall k :: 0 <= k < a ==> cv'[k].cells == cv[k].cells
    ensures ScrolledAbove(rows, cv', b, a, w)
  {
    forall k | 0 <= k < a ensures rows[k] == ShownAfter(cv', b, a, w, k) {
      assert rows[k] == before[k] == ShownAfter(cv, b, a, w, k);
    }
  }

  // ----- the loop -----

  /** The terminal's rows, the lines of curscr, whether the terminal has run wild, and the line on
      which the cursor is taken to be. */
  datatype Moment = Moment(rows: seq<seq<Cell>>, cv: seq<LineV>, wild: bool, ly: int)

  ghost function MomentOf(scr: Screen): Moment
    reads scr, scr.curscr
  {
    Moment(scr.term.rows, scr.curscr.view, scr.term.wild, scr.ly)
  }

  /** What the main loop keeps, before its turn at line wy: the terminal runs wild if and only if a turn
      has driven the cursor off the screen. */
  ghost predicate Keeps(c: Caps, b: Before, wild0: bool, wy: nat, a: nat, m: Moment, w: nat)
    requires b.Valid() && wy <= |b.wv|
  {
    && |m.rows| == |m.cv| == |b.wv|
    && m.ly == b.LineAt(wy)
    && Wilder(c, wild0, b.LostBefore(c, wy), m.wild)
    && (!wild0 && c.SafeMoves() && !b.Wraps(c) && b.OverrunsOnlyAt(a) && a < wy ==>
          ScrolledAbove(m.rows, m.cv, b, a, w))
    && (!wild0 && c.SafeMoves() && b.Wraps(c) && !b.Overruns() && wy == |b.wv| ==> ScrolledOnce(m.rows, m.cv, w))
  }

  /** What a turn does to the terminal. */
  ghost predicate Turned(c: Caps, b: Before, wy: nat, m: Moment, m': Moment, w: nat)
    requires b.Valid() && wy < |b.wv| == |m.rows|
  {
    && m'.ly == LineAfterTurn(b.wv, wy, b.base[wy], m.ly)
    && Wilder(c, m.wild, OverrunsIn(b.wv, wy, m.ly) || WrapsIn(b.wv, wy, b.base[wy], c, b.scroll), m'.wild)
    && RowsAfter(FollowedIn(m.rows, b.wv, wy, m.ly, w), m'.rows, wy, WrapsIn(b.wv, wy, b.base[wy], c, b.scroll), w)
  }

  lemma TurnIsAsBefore(cv0: seq<LineV>, b: Before, m: Moment, wv: seq<LineV>, wy: nat, w: nat)
    requires b.Valid() && b.base == Rows(cv0) && RefreshedTo(cv0, b.wv, m.cv, wv, wy) && wy < |b.wv| == |m.rows|
    ensures OverrunsIn(wv, wy, m.ly) == OverrunsIn(b.wv, wy, m.ly)
    ensures FollowedIn(m.rows, wv, wy, m.ly, w) == FollowedIn(m.rows, b.wv, wy, m.ly, w)
    ensures LineAfterTurn(wv, wy, m.cv[wy].cells, m.ly) == LineAfterTurn(b.wv, wy, b.base[wy], m.ly)
    ensures forall c, scroll :: WrapsIn(wv, wy, m.cv[wy].cells, c, scroll) == WrapsIn(b.wv, wy, b.base[wy], c, scroll)
  {
    assert FollowsPastEol(wv, wy) == FollowsPastEol(b.wv, wy);
  }

  lemma TurnKeeps(c: Caps, b: Before, wild0: bool, wy: nat, a: nat, m: Moment, m': Moment, w: nat,
                  cv0: seq<LineV>, wv: seq<LineV>, wv': seq<LineV>)
    requires b.Valid() && b.base == Rows(cv0) && wy < |b.wv| && Keeps(c, b, wild0, wy, a, m, w)
    requires !m.wild ==> m.rows == Rows(m.cv)
    requires Turned(c, b, wy, m, m', w) && |m'.rows| == |m'.cv|
    requires RefreshedTo(cv0, b.wv, m.cv, wv, wy) && LineRefreshed(m.cv, wv, m'.cv, wv', wy)
    ensures Keeps(c, b, wild0, wy + 1, a, m', w)
  {
    OverrunStep(b, wy);
    if !wild0 && c.SafeMoves() && !b.Wraps(c) && b.OverrunsOnlyAt(a) {
      assert !WrapsIn(b.wv, wy, b.base[wy], c, b.scroll);
      if a == wy {
        assert !b.OverrunBefore(a);
        ScrolledNow(m.rows, m'.rows, m.cv, m'.cv, b, a, w);
      } else if a < wy {
        ScrolledStill(m.rows, m'.rows, m.cv, m'.cv, b, a, w, wy);
      }
    }
    if !wild0 && c.SafeMoves() && b.Wraps(c) && !b.Overruns() && wy + 1 == |b.wv| {
      assert !b.OverrunBefore(wy) && !b.OverrunAt(wy);
      WrappedNow(m.rows, m'.rows, m.cv, m'.cv, w);
    }
  }

  lemma WrappedNow(before: seq<seq<Cell>>, rows: seq<seq<Cell>>, cv: seq<LineV>, cv': seq<LineV>, w: nat)
    requires |cv| == |cv'| == |before| > 0 && before == Rows(cv) && RowsAfter(before, rows, |cv| - 1, true, w)
    requires forall k :: 0 <= k < |cv| - 1 ==> cv'[k] == cv[k]
    ensures ScrolledOnce(rows, cv', w)
  {
  }

  /** The main loop before its turn at line wy. */
  ghost predicate Looping(scr: Screen, win: Window, b: Before, wild0: bool, a: nat, cv0: seq<LineV>, wy: int)
    reads scr, scr.curscr, scr.curscr.lines, scr.curscr.pool, scr.curscr.buffers
    reads win, win.lines, win.pool, win.buffers
  {
    && scr.Over(win) && Sync(scr) && Tracked(scr)
    && b.Valid() && win.maxy == |b.wv| && b.base == Rows(cv0) && 0 <= wy <= win.maxy && b.scroll == win.scrollOk
    && Sound(b.base, b.wv) && AllShowable(scr.caps, b.wv)
    && RefreshedTo(cv0, b.wv, scr.curscr.view, win.view, wy)
    && Keeps(scr.caps, b, wild0, wy, a, MomentOf(scr), win.maxx)
  }

  /** One turn of the main loop with its bookkeeping. */
  method RefreshTurn(scr: Screen, win: Window, wy: int, ghost b: Before, ghost wild0: bool, ghost a: nat,
                     ghost cv0: seq<LineV>)
    requires Looping(scr, win, b, wild0, a, cv0, wy) && wy < win.maxy
    modifies scr`term, scr`ly, scr`lx, scr.curscr`view, scr.curscr`standout, scr.curscr.pool, scr.curscr.buffers
    modifies win`view, win.lines[wy]
    ensures Looping(scr, win, b, wild0, a, cv0, wy + 1)
  {
    ghost var m, wv := MomentOf(scr), win.view;
    RefreshTurned(scr, win, wy, b, cv0);
    RefreshedStep(cv0, b.wv, m.cv, wv, scr.curscr.view, win.view, wy);
    TurnKeeps(scr.caps, b, wild0, wy, a, m, MomentOf(scr), win.maxx, cv0, wv, win.view);
  }

  /** A turn, in terms of what there was before the loop. */
  method RefreshTurned(scr: Screen, win: Window, wy: int, ghost b: Before, ghost cv0: seq<LineV>)
    requires scr.Over(win) && Sync(scr) && Tracked(scr) && b.Valid() && b.base == Rows(cv0) && b.scroll == win.scrollOk
    requires Sound(b.base, b.wv) && AllShowable(scr.caps, b.wv) && 0 <= wy < win.maxy == |b.wv|
    requires RefreshedTo(cv0, b.wv, scr.curscr.view, win.view, wy)
    modifies scr`term, scr`ly, scr`lx, scr.curscr`view, scr.curscr`standout, scr.curscr.pool, scr.curscr.buffers
    modifies win`view, win.lines[wy]
    ensures scr.Over(win) && Sync(scr) && Tracked(scr)
    ensures Turned(scr.caps, b, wy, old(MomentOf(scr)), MomentOf(scr), win.maxx)
    ensures LineRefreshed(old(scr.curscr.view), old(win.view), scr.curscr.view, win.view, wy)
  {
    ghost var m, wv := MomentOf(scr), win.view;
    NextIsSound(scr.caps, cv0, b.wv, m.cv, wv, wy);
    TurnIsAsBefore(cv0, b, m, wv, wy, win.maxx);
    RefreshLine(scr, win, wy);
  }

  /** The main loop of wrefresh, refresh.c:167-198. */
  method RefreshLoop(scr: Screen, win: Window, ghost b: Before, ghost wild0: bool, ghost a: nat,
                     ghost cv0: seq<LineV>)
    requires Looping(scr, win, b, wild0, a, cv0, 0)
    modifies scr`term, scr`ly, scr`lx, scr.curscr`view, scr.curscr`standout, scr.curscr.pool, scr.curscr.buffers
    modifies win`view, win.pool
    ensures Looping(scr, win, b, wild0, a, cv0, win.maxy)
  {
    for wy := 0 to win.maxy
      invariant Looping(scr, win, b, wild0, a, cv0, wy)
    {
      RefreshTurn(scr, win, wy, b, wild0, a, cv0);
    }
  }

  /** What becomes of the terminal: it runs wild if and only if some turn of the main loop drives the
      cursor off the screen or scrolls it at the corner, and if one turn does the former, the lines above
      are seen to have moved up. */
  ghost predicate Ran(c: Caps, b: Before, wild0: bool, wild: bool, rows: seq<seq<Cell>>, cv: seq<LineV>, w: nat)
    requires b.Valid()
  {
    && |rows| == |cv| == |b.wv|
    && Wilder(c, wild0, b.Overruns() || b.Wraps(c), wild)
    && (!wild0 && c.SafeMoves() && b.Wraps(c) && !b.Overruns() ==> ScrolledOnce(rows, cv, w))
    && forall a: nat :: !wild0 && c.SafeMoves() && !b.Wraps(c) && b.OverrunsOnlyAt(a) ==>
         ScrolledAbove(rows, cv, b, a, w)
  }

  lemma OnlyOne(b: Before, a: nat, k: nat)
    requires b.Valid() && b.OverrunsOnlyAt(a) && b.OverrunsOnlyAt(k)
    ensures a == k
  {
  }

  lemma HasRun(c: Caps, b: Before, wild0: bool, a: nat, m: Moment, w: nat)
    requires b.Valid() && Keeps(c, b, wild0, |b.wv|, a, m, w)
    requires (exists k: nat :: b.OverrunsOnlyAt(k)) ==> b.OverrunsOnlyAt(a)
    ensures Ran(c, b, wild0, m.wild, m.rows, m.cv, w)
  {
    forall k: nat | b.OverrunsOnlyAt(k) ensures k == a {
      OnlyOne(b, a, k);
    }
  }

  /** The loop with its bookkeeping set up. */
  method RunLoop(scr: Screen, win: Window)
    requires scr.Over(win) && Sync(scr) && Tracked(scr) && AllShowable(scr.caps, win.view)
    requires Sound(Rows(scr.curscr.view), win.view)
    modifies scr`term, scr`ly, scr`lx, scr.curscr`view, scr.curscr`standout, scr.curscr.pool, scr.curscr.buffers
    modifies win`view, win.pool
    ensures scr.Over(win) && Sync(scr) && Tracked(scr)
    ensures Ran(scr.caps, old(Before(win.view, Rows(scr.curscr.view), scr.ly, win.scrollOk)), old(scr.term.wild),
                scr.term.wild, scr.term.rows, scr.curscr.view, win.maxx)
    ensures LinesDone(old(win.view), scr.curscr.view, win.view) && Shows(scr.curscr.view, win.view)
  {
    ghost var cv0, wv0, wild0 := scr.curscr.view, win.view, scr.term.wild;
    ghost var b := Before(wv0, Rows(cv0), scr.ly, win.scrollOk);
    ghost var a: nat := 0;
    if k: nat :| b.OverrunsOnlyAt(k) { a := k; }
    RefreshLoop(scr, win, b, wild0, a, cv0);
    AllRefreshed(cv0, wv0, scr.curscr.view, win.view);
    HasRun(scr.caps, b, wild0, a, MomentOf(scr), win.maxx);
  }

  /** The loop shows the whole window on curscr. */
  method RefreshLines(scr: Screen, win: Window)
    requires scr.Over(win) && Sync(scr) && Tracked(scr) && AllShowable(scr.caps, win.view)
    requires Sound(Rows(scr.curscr.view), win.view)
    modifies scr`term, scr`ly, scr`lx, scr.curscr`view, scr.curscr`standout, scr.curscr.pool, scr.curscr.buffers
    modifies win`view, win.pool
    ensures scr.Over(win) && Sync(scr) && Tracked(scr)
    ensures ToClear(scr, win) == old(ToClear(scr, win))
    ensures Ran(scr.caps, old(Before(win.view, Rows(scr.curscr.view), scr.ly, win.scrollOk)), old(scr.term.wild),
                scr.term.wild, scr.term.rows, scr.curscr.view, win.maxx)
    ensures LinesDone(old(win.view), scr.curscr.view, win.view) && Shows(scr.curscr.view, win.view)
  {
    RunLoop(scr, win);
  }

  /** refresh.c:204-216, with __LEAVEOK: the window takes over where the repainting left the cursor. */
  method KeepCursor(scr: Screen, win: Window)
    requires scr.Over(win) && Sync(scr) && Tracked(scr)
    modifies scr`cury, scr`curx, win`cury, win`curx
    ensures scr.Over(win) && Sync(scr) && scr.Parked()
    ensures !scr.term.wild ==> scr.cury == win.cury && scr.curx == win.curx
  {
    scr.cury, scr.curx := scr.ly, scr.lx;
    if scr.ly < win.maxy && scr.lx < win.maxx {
      win.cury, win.curx := scr.ly, scr.lx;
    } else {
      win.cury, win.curx := 0, 0;
    }
  }

  /** refresh.c:217-223: the cursor goes where the window wants it. */
  method ReturnCursor(scr: Screen, win: Window)
    requires scr.Over(win) && Sync(scr) && Agreed(scr)
    modifies scr`term, scr`cury, scr`curx, scr.curscr`standout
    ensures scr.Over(win) && Sync(scr) && scr.Parked() && scr.term.rows == old(scr.term.rows)
    ensures Wilder(scr.caps, old(scr.term.wild), false, scr.term.wild)
    ensures scr.cury == win.cury && scr.curx == win.curx && CursorAt(scr, win.cury, win.curx)
  {
    Domvcur(scr, win.cury, win.curx);
    scr.cury, scr.curx := win.cury, win.curx;
  }

  /** refresh.c:204-224 */
  method PlaceCursor(scr: Screen, win: Window)
    requires scr.Over(win) && Sync(scr)
    requires Tracked(scr)
    modifies scr`term, scr`ly, scr`lx, scr`cury, scr`curx, scr.curscr`standout, win`cury, win`curx
    ensures scr.Over(win) && Sync(scr) && scr.Parked() && scr.term.rows == old(scr.term.rows)
    ensures Wilder(scr.caps, old(scr.term.wild), false, scr.term.wild)
    ensures !scr.term.wild ==> scr.cury == win.cury && scr.curx == win.curx
    ensures !win.leaveOk ==>
      win.cury == old(win.cury) && win.curx == old(win.curx) && CursorAt(scr, win.cury, win.curx)
  {
    if win.leaveOk {
      KeepCursor(scr, win);
    } else {
      ReturnCursor(scr, win);
    }
  }

  // ----- quickch in place -----

  /** How many of the first n lines the main loop would look at. */
  function DirtyLines(v: seq<LineV>, n: nat): nat
    requires n <= |v|
  {
    if n == 0 then 0 else DirtyLines(v, n - 1) + if Visited(v[n - 1]) then 1 else 0
  }

  method CountDirty(win: Window) returns (dnum: int)
    requires win.Valid()
    ensures dnum == DirtyLines(win.view, win.maxy)
  {
    dnum := 0;
    for wy := 0 to win.maxy
      invariant dnum == DirtyLines(win.view, wy)
    {
      assert win.lines[wy].View() == win.view[wy];
      if win.lines[wy].dirty || win.lines[wy].force { dnum := dnum + 1; }
    }
  }

  /** quickch keeps the marks sound. */
  lemma QuickchSound(cv0: seq<LineV>, wv0: seq<LineV>, cv: seq<LineV>, wv: seq<LineV>, w: nat)
    requires Sound(Rows(cv0), wv0) && SameText(wv0, wv) && |cv| == |wv|
    requires forall k :: 0 <= k < |wv| ==> |wv[k].cells| == w && |cv[k].cells| == w
    requires Shifted(cv, wv, w) || (cv == cv0 && OnlyCleaned(cv, wv0, wv))
    ensures Sound(Rows(cv), wv)
  {
    forall k | 0 <= k < |wv| ensures SoundLine(cv[k].cells, wv[k], k == |wv| - 1) {
      assert SoundLine(Rows(cv0)[k], wv0[k], k == |wv0| - 1);
    }
  }

  // ----- wrefresh -----

  /** The terminal has run wild, if it has, by the scroll that followed the shift of quickch. */
  predicate WildByQuickch(c: Caps, shift: Option<Shift>, curx: int, h: nat, w: nat, was: bool, now: bool) {
    now == (was || (shift.Some? && ShiftUndetermined(c, shift.value, curx, h, w)))
  }

  /** What quickch makes of the rows of curscr. */
  ghost predicate MovedBy(shift: Option<Shift>, base: seq<seq<Cell>>, rows: seq<seq<Cell>>, w: nat) {
    if shift.None? then rows == base
    else shift.value.Valid(|base|) && rows == ScrolledRows(base, shift.value, w)
  }

  /** refresh.c:125-135: quickch is called if more than a quarter of the lines are dirty. */
  predicate QuickchRuns(c: Caps, v: seq<LineV>) {
    c.CanScroll() && DirtyLines(v, |v|) > |v| / 4
  }

  /** What quickch has found: nothing if it was not called, the shift that the lines ask for, or that there
      is nothing to shift. */
  ghost predicate Chosen(c: Caps, cv: seq<LineV>, wv: seq<LineV>, shift: Option<Shift>) {
    if !QuickchRuns(c, wv) then shift.None?
    else if shift.Some? then IsShiftFor(cv, wv, shift.value)
    else NothingToShift(cv, wv)
  }

  /** The count is the number of lines that are dirty or forced. */
  lemma {:induction false} DirtyLinesCounts(v: seq<LineV>, n: nat)
    requires n <= |v|
    ensures DirtyLines(v, n) == |set k | 0 <= k < n && (v[k].dirty || v[k].force)|
  {
    if n > 0 {
      DirtyLinesCounts(v, n - 1);
      var before := set k | 0 <= k < n - 1 && (v[k].dirty || v[k].force);
      var now := set k | 0 <= k < n && (v[k].dirty || v[k].force);
      assert now == if Visited(v[n - 1]) then before + {n - 1} else before;
    }
  }

  /** quickch is called on a terminal that can scroll a region both ways, or insert and delete lines, if more
      than a quarter of the lines are dirty or forced. */
  lemma QuickchRunsIff(c: Caps, v: seq<LineV>)
    ensures QuickchRuns(c, v) <==>
      && ((c.cs && c.ho && (c.SF || c.sf) && (c.SR || c.sr)) || ((c.AL || c.al) && (c.DL || c.dl)))
      && |set k | 0 <= k < |v| && (v[k].dirty || v[k].force)| > |v| / 4
  {
    DirtyLinesCounts(v, |v|);
  }

  method MaybeQuickch(scr: Screen, win: Window) returns (ghost shift: Option<Shift>)
    requires scr.Over(win) && scr.Parked() && Sync(scr) && Sound(Rows(scr.curscr.view), win.view)
    modifies scr`term, scr.curscr`view, scr.curscr.lines, scr.curscr.pool, scr.curscr.buffers, win`view, win.pool
    ensures scr.Over(win) && scr.Parked() && Sync(scr) && Sound(Rows(scr.curscr.view), win.view)
    ensures SameText(old(win.view), win.view)
    ensures WildByQuickch(scr.caps, shift, scr.curx, win.maxy, win.maxx, old(scr.term.wild), scr.term.wild)
    ensures MovedBy(shift, Rows(old(scr.curscr.view)), Rows(scr.curscr.view), win.maxx)
    ensures Chosen(scr.caps, old(scr.curscr.view), old(win.view), shift)
    ensures !QuickchRuns(scr.caps, old(win.view)) ==>
      win.view == old(win.view) && scr.curscr.view == old(scr.curscr.view) && scr.term == old(scr.term)
  {
    SameTextReflexive(win.view);
    var dnum := CountDirty(win);
    shift := None;
    if scr.caps.CanScroll() && dnum > win.maxy / 4 {
      shift := RunQuickch(scr, win);
    }
  }

  method RunQuickch(scr: Screen, win: Window) returns (ghost shift: Option<Shift>)
    requires scr.Over(win) && scr.Parked() && Sync(scr) && Sound(Rows(scr.curscr.view), win.view)
    requires scr.caps.CanScroll()
    modifies scr`term, scr.curscr`view, scr.curscr.lines, scr.curscr.pool, scr.curscr.buffers, win`view, win.pool
    ensures scr.Over(win) && scr.Parked() && Sync(scr) && Sound(Rows(scr.curscr.view), win.view)
    ensures SameText(old(win.view), win.view)
    ensures WildByQuickch(scr.caps, shift, scr.curx, win.maxy, win.maxx, old(scr.term.wild), scr.term.wild)
    ensures MovedBy(shift, Rows(old(scr.curscr.view)), Rows(scr.curscr.view), win.maxx)
    ensures if shift.Some? then IsShiftFor(old(scr.curscr.view), old(win.view), shift.value)
            else NothingToShift(old(scr.curscr.view), old(win.view))
  {
    ghost var cv0, wv0 := scr.curscr.view, win.view;
    var shifted, s := Quickch(scr, win);
    QuickchSound(cv0, wv0, scr.curscr.view, win.view, win.maxx);
    shift := if shifted then Some(s) else None;
  }

  /** The terminal shows the window but for the corner of the screen. */
  ghost predicate TerminalShows(t: Term, wv: seq<LineV>) {
    && |t.rows| == |wv|
    && forall k :: 0 <= k < |wv| ==> ShowsLine(t.rows[k], wv[k].cells, k == |wv| - 1)
  }

  lemma RehashKeeps(base: seq<seq<Cell>>, was: seq<LineV>, f: seq<Cell> -> int)
    requires Sound(base, was)
    ensures Sound(base, Rehashed(f, was)) && SameText(was, Rehashed(f, was))
  {
    forall k | 0 <= k < |was| ensures SoundLine(base[k], Rehashed(f, was)[k], k == |was| - 1) {
      assert SoundLine(base[k], was[k], k == |was| - 1);
    }
  }

  lemma SameTextTrans(u: seq<LineV>, v: seq<LineV>, w: seq<LineV>, c: Caps)
    requires SameText(u, v) && SameText(v, w)
    ensures SameText(u, w) && (AllShowable(c, u) ==> AllShowable(c, w))
  {
  }

  lemma ShownIsSound(cv: seq<LineV>, wv: seq<LineV>)
    requires Shows(cv, wv)
    ensures Sound(Rows(cv), wv)
  {
    forall k | 0 <= k < |wv| ensures SoundLine(Rows(cv)[k], wv[k], k == |wv| - 1) {
      assert ShowsLine(cv[k].cells, wv[k].cells, k == |wv| - 1);
    }
  }

  /** What holds between two calls of the library: curscr is the terminal's screen, and the window's
      marks are sound against it. */
  ghost predicate Ready(scr: Screen, win: Window)
    reads scr, scr.curscr, scr.curscr.lines, scr.curscr.pool, scr.curscr.buffers
    reads win, win.lines, win.pool, win.buffers
  {
    && scr.Over(win) && Sync(scr)
    && Sound(Rows(scr.curscr.view), win.view) && AllShowable(scr.caps, win.view)
    && scr.Parked()
  }

  /** What the main loop starts with if quickch is not called. */
  function Cleared(b: Before, cleared: bool, w: nat): Before
    requires 0 < w
  {
    if cleared then
      Before(seq(|b.wv|, k requires 0 <= k < |b.wv| => Touched(b.wv[k], 0, w - 1, false)), BlankRows(|b.wv|, w), 0,
             b.scroll)
    else b
  }

  ghost function LoopStart(scr: Screen, win: Window): Before
    requires 0 < win.maxx
    reads scr, scr.curscr, win
  {
    Cleared(Before(Rehashed(scr.hashOf, win.view), Rows(scr.curscr.view), scr.cury, win.scrollOk),
            win.clearOk || scr.curscr.clearOk, win.maxx)
  }

  /** A clear has been asked for. */
  ghost predicate ToClear(scr: Screen, win: Window)
    reads scr.curscr`clearOk, win`clearOk
  {
    win.clearOk || scr.curscr.clearOk
  }

  ghost function ClearsOf(scr: Screen, win: Window): (bool, bool)
    reads scr.curscr`clearOk, win`clearOk
  {
    (win.clearOk, scr.curscr.clearOk)
  }

  /** The lines of curscr that quickch compares the window with. */
  ghost function ScreenLines(scr: Screen, win: Window): seq<LineV>
    reads scr, scr.curscr, win
  {
    if win.clearOk || scr.curscr.clearOk then Erased(scr.curscr.view) else scr.curscr.view
  }

  /** The column where the cursor is taken to be then. */
  ghost function StartColumn(scr: Screen, win: Window): int
    reads scr, scr.curscr, win
  {
    if win.clearOk || scr.curscr.clearOk then 0 else scr.curx
  }

  /** The loop starts with this. */
  ghost predicate StartsAs(s: Before, v: seq<LineV>, base: seq<seq<Cell>>, ly: int) {
    s.wv == v && s.base == base && s.ly == ly
  }

  /** What it starts with once the lines have been rehashed and cleared. */
  lemma IsStart(b: Before, cleared: bool, w: nat, b2: Before)
    requires 0 < w && |b.wv| == |b.base| && |b2.wv| == |b2.base|
    requires !cleared ==> b2 == b
    requires cleared ==> AllTouched(b.wv, b2.wv, w) && b2.base == BlankRows(|b.wv|, w) && b2.ly == 0
    ensures StartsAs(Cleared(b, cleared, w), b2.wv, b2.base, b2.ly)
  {
    if cleared { assert Cleared(b, cleared, w).wv == b2.wv; }
  }

  /** refresh.c:84-96: the cursor is where the last call left it, and the dirty lines get their hashes. */
  method Enter(scr: Screen, win: Window)
    requires Ready(scr, win)
    modifies scr`ly, scr`lx, win`view, win.pool
    ensures scr.Over(win) && Sync(scr) && Tracked(scr) && scr.Parked() && Sound(Rows(scr.curscr.view), win.view)
    ensures win.view == Rehashed(scr.hashOf, old(win.view)) && SameText(old(win.view), win.view)
    ensures scr.ly == scr.cury && scr.lx == scr.curx
  {
    scr.ly, scr.lx := scr.cury, scr.curx;
    RehashKeeps(Rows(scr.curscr.view), win.view, scr.hashOf);
    Rehash(scr, win);
  }

  /** refresh.c:84-112: up to the call of quickch. */
  method Begin(scr: Screen, win: Window)
    requires Ready(scr, win)
    modifies scr`term, scr`ly, scr`lx, scr`cury, scr`curx, scr.curscr`clearOk, scr.curscr`view
    modifies scr.curscr.pool, scr.curscr.buffers, win`clearOk, win`view, win.pool
    ensures scr.Over(win) && Sync(scr) && Tracked(scr) && scr.Parked() && Sound(Rows(scr.curscr.view), win.view)
    ensures SameText(old(win.view), win.view) && scr.term.wild == old(scr.term.wild) && !ToClear(scr, win)
    ensures StartsAs(old(LoopStart(scr, win)), win.view, Rows(scr.curscr.view), scr.ly)
    ensures scr.curscr.view == old(ScreenLines(scr, win))
    ensures scr.ly == scr.cury && scr.lx == scr.curx == old(StartColumn(scr, win))
  {
    ghost var v0 := win.view;
    Enter(scr, win);
    ghost var b1 := Before(win.view, Rows(scr.curscr.view), scr.cury, win.scrollOk);
    var cleared := ClearFirst(scr, win);
    IsStart(b1, cleared, win.maxx, Before(win.view, Rows(scr.curscr.view), scr.ly, win.scrollOk));
    SameTextTrans(v0, b1.wv, win.view, scr.caps);
  }

  /** The call of quickch, in lines that the loop would otherwise start with. */
  method QuickchFrom(scr: Screen, win: Window, ghost s: Before) returns (ghost shift: Option<Shift>)
    requires scr.Over(win) && Sync(scr) && Tracked(scr) && scr.Parked() && Sound(Rows(scr.curscr.view), win.view)
    requires scr.ly == scr.cury && scr.lx == scr.curx
    requires StartsAs(s, win.view, Rows(scr.curscr.view), scr.ly)
    modifies scr`term, scr.curscr`view, scr.curscr.lines, scr.curscr.pool, scr.curscr.buffers, win`view, win.pool
    ensures scr.Over(win) && Sync(scr) && Tracked(scr) && Sound(Rows(scr.curscr.view), win.view)
    ensures SameText(old(win.view), win.view)
    ensures WildByQuickch(scr.caps, shift, scr.curx, win.maxy, win.maxx, old(scr.term.wild), scr.term.wild)
    ensures MovedBy(shift, s.base, Rows(scr.curscr.view), win.maxx)
    ensures Chosen(scr.caps, old(scr.curscr.view), s.wv, shift)
    ensures !QuickchRuns(scr.caps, s.wv) ==> StartsAs(s, win.view, Rows(scr.curscr.view), scr.ly)
  {
    shift := MaybeQuickch(scr, win);
  }

  /** The first half of wrefresh, refresh.c:84-136. */
  method Prepare(scr: Screen, win: Window, ghost s: Before, ghost column: int) returns (ghost shift: Option<Shift>)
    requires Ready(scr, win) && s == LoopStart(scr, win) && column == StartColumn(scr, win)
    modifies scr`term, scr`ly, scr`lx, scr`cury, scr`curx, scr.curscr`clearOk, scr.curscr`view, scr.curscr.lines
    modifies scr.curscr.pool, scr.curscr.buffers, win`clearOk, win`view, win.pool
    ensures scr.Over(win) && Sync(scr) && Tracked(scr) && Sound(Rows(scr.curscr.view), win.view)
    ensures SameText(old(win.view), win.view) && AllShowable(scr.caps, win.view)
    ensures !ToClear(scr, win)
    ensures WildByQuickch(scr.caps, shift, column, win.maxy, win.maxx, old(scr.term.wild),
                          scr.term.wild)
    ensures MovedBy(shift, s.base, Rows(scr.curscr.view), win.maxx)
    ensures Chosen(scr.caps, old(ScreenLines(scr, win)), s.wv, shift)
    ensures !QuickchRuns(scr.caps, s.wv) ==> StartsAs(s, win.view, Rows(scr.curscr.view), scr.ly)
  {
    ghost var v0 := win.view;
    Begin(scr, win);
    ghost var v1, clears := win.view, ClearsOf(scr, win);
    shift := QuickchFrom(scr, win, s);
    assert ClearsOf(scr, win) == clears;
    SameTextTrans(v0, v1, win.view, scr.caps);
  }

  /** The cursor is where the window has it, and with __LEAVEOK off that is where it was wanted. */
  ghost predicate CursorIsPlaced(scr: Screen, win: Window, y: int, x: int)
    reads scr, win
  {
    && (!scr.term.wild ==> scr.cury == win.cury && scr.curx == win.curx)
    && (!win.leaveOk ==> win.cury == y && win.curx == x && CursorAt(scr, win.cury, win.curx))
  }

  lemma DoneKeeps(c: Caps, wv0: seq<LineV>, cv: seq<LineV>, wv: seq<LineV>)
    requires LinesDone(wv0, cv, wv) && Shows(cv, wv) && AllShowable(c, wv0)
    ensures Sound(Rows(cv), wv) && AllShowable(c, wv)
  {
    ShownIsSound(cv, wv);
  }

  /** The second half of wrefresh, refresh.c:167-225. */
  method Finish(scr: Screen, win: Window)
    requires scr.Over(win) && Sync(scr) && Tracked(scr) && Sound(Rows(scr.curscr.view), win.view)
    requires AllShowable(scr.caps, win.view)
    modifies scr`term, scr`ly, scr`lx, scr`cury, scr`curx, scr.curscr`standout, scr.curscr`view
    modifies scr.curscr.pool, scr.curscr.buffers, win`cury, win`curx, win`view, win.pool
    ensures Ready(scr, win) && ToClear(scr, win) == old(ToClear(scr, win))
    ensures LinesDone(old(win.view), scr.curscr.view, win.view) && Shows(scr.curscr.view, win.view)
    ensures Ran(scr.caps, old(Before(win.view, Rows(scr.curscr.view), scr.ly, win.scrollOk)), old(scr.term.wild),
                scr.term.wild, scr.term.rows, scr.curscr.view, win.maxx)
    ensures CursorIsPlaced(scr, win, old(win.cury), old(win.curx))
  {
    ghost var v1 := win.view;
    RefreshLines(scr, win);
    DoneKeeps(scr.caps, v1, scr.curscr.view, win.view);
    ghost var clears := ClearsOf(scr, win);
    PlaceCursor(scr, win);
    assert ClearsOf(scr, win) == clears;
  }

  lemma SameTextReflexive(v: seq<LineV>)
    ensures SameText(v, v)
  {
  }

  lemma TerminalFollows(t: Term, cv: seq<LineV>, wv: seq<LineV>)
    requires t.rows == Rows(cv) && Shows(cv, wv)
    ensures TerminalShows(t, wv)
  {
  }

  /** What a refresh comes to, for the lines `cv` of curscr and `wv` of the window: `s` and `column` are
      what the main loop starts with if quickch is not called, `was` and `v0` whether the terminal had run
      wild and the lines of the window, `b` and `wild0` what the loop did start with. */
  ghost predicate Refreshed(c: Caps, t: Term, cv: seq<LineV>, wv: seq<LineV>, w: nat, s: Before, column: int,
                            was: bool, v0: seq<LineV>, b: Before, wild0: bool, shift: Option<Shift>)
    requires s.Valid() && b.Valid()
  {
    && MovedBy(shift, s.base, b.base, w) && WildByQuickch(c, shift, column, |wv|, w, was, wild0)
    && (!QuickchRuns(c, s.wv) ==> b == s && wild0 == was)
    && SameText(v0, b.wv) && LinesDone(b.wv, cv, wv) && Shows(cv, wv)
    && Ran(c, b, wild0, t.wild, t.rows, cv, w)
  }

  lemma RefreshedMeans(c: Caps, t: Term, cv: seq<LineV>, wv: seq<LineV>, w: nat, s: Before, column: int,
                       was: bool, v0: seq<LineV>, b: Before, wild0: bool, shift: Option<Shift>)
    requires s.Valid() && b.Valid() && Refreshed(c, t, cv, wv, w, s, column, was, v0, b, wild0, shift)
    requires !t.wild ==> t.rows == Rows(cv)
    ensures SameText(v0, wv) && (!t.wild ==> TerminalShows(t, wv)) && forall k :: 0 <= k < |wv| ==> !wv[k].dirty
    ensures !QuickchRuns(c, s.wv) ==> Ran(c, s, was, t.wild, t.rows, cv, w)
  {
    DoneIsClean(b.wv, cv, wv);
    SameTextTrans(v0, b.wv, wv, c);
    if !t.wild { TerminalFollows(t, cv, wv); }
  }

  /** The second half, and what it means after what the first half has left. */
  method FinishFrom(scr: Screen, win: Window, ghost s: Before, ghost column: int, ghost was: bool,
                    ghost v0: seq<LineV>, ghost shift: Option<Shift>)
      returns (ghost b: Before)
    requires scr.Over(win) && Sync(scr) && Tracked(scr) && Sound(Rows(scr.curscr.view), win.view)
    requires AllShowable(scr.caps, win.view) && s.Valid() && s.scroll == win.scrollOk
    requires SameText(v0, win.view) && |s.wv| == win.maxy
    requires WildByQuickch(scr.caps, shift, column, win.maxy, win.maxx, was, scr.term.wild)
    requires MovedBy(shift, s.base, Rows(scr.curscr.view), win.maxx)
    requires shift.Some? ==> QuickchRuns(scr.caps, s.wv)
    requires !QuickchRuns(scr.caps, s.wv) ==> StartsAs(s, win.view, Rows(scr.curscr.view), scr.ly)
    modifies scr`term, scr`ly, scr`lx, scr`cury, scr`curx, scr.curscr`standout, scr.curscr`view
    modifies scr.curscr.pool, scr.curscr.buffers, win`cury, win`curx, win`view, win.pool
    ensures Ready(scr, win) && b.Valid() && ToClear(scr, win) == old(ToClear(scr, win))
    ensures Refreshed(scr.caps, scr.term, scr.curscr.view, win.view, win.maxx, s, column, was, v0, b,
                      old(scr.term.wild), shift)
    ensures b.scroll == win.scrollOk && |win.view| == win.maxy
    ensures CursorIsPlaced(scr, win, old(win.cury), old(win.curx))
  {
    b := Before(win.view, Rows(scr.curscr.view), scr.ly, win.scrollOk);
    assert !QuickchRuns(scr.caps, s.wv) ==> b == s;
    Finish(scr, win);
  }

  /** wrefresh, with what the main loop starts with if quickch is not called. */
  method RefreshFrom(scr: Screen, win: Window, ghost s: Before, ghost column: int)
      returns (ghost b: Before, ghost wild0: bool, ghost shift: Option<Shift>)
    requires Ready(scr, win) && s == LoopStart(scr, win) && column == StartColumn(scr, win)
    requires s.Valid() && s.scroll == win.scrollOk
    modifies scr`term, scr`ly, scr`lx, scr`cury, scr`curx, scr.curscr`clearOk, scr.curscr`standout, scr.curscr`view
    modifies scr.curscr.lines, scr.curscr.pool, scr.curscr.buffers
    modifies win`clearOk, win`cury, win`curx, win`view, win.pool
    ensures Ready(scr, win) && b.Valid() && !ToClear(scr, win)
    ensures Refreshed(scr.caps, scr.term, scr.curscr.view, win.view, win.maxx, s, column, old(scr.term.wild),
                      old(win.view), b, wild0, shift)
    ensures Chosen(scr.caps, old(ScreenLines(scr, win)), s.wv, shift)
    ensures b.scroll == win.scrollOk && |win.view| == win.maxy
    ensures CursorIsPlaced(scr, win, old(win.cury), old(win.curx))
  {
    ghost var v0, was := win.view, scr.term.wild;
    shift := Prepare(scr, win, s, column);
    wild0 := scr.term.wild;
    b := FinishFrom(scr, win, s, column, was, v0, shift);
  }

  /** wrefresh. curscr and, unless it has run wild, the terminal show the window afterwards, all but
      the corner, and no line is left dirty. `shift` is what quickch has moved: the shift that the lines
      ask for, or nothing if they ask for none or too few of them are dirty; the terminal has run wild by
      that, `wild0`, if and only if it could not follow.
      `b` is what the main loop then started with: the terminal runs wild in it if and only if some turn
      follows a cursor past the end of a line from the bottom line or comes to the corner on a terminal
      that does not wrap. If quickch is not called, `b` is known before the call. */
  method Wrefresh(scr: Screen, win: Window) returns (ghost b: Before, ghost wild0: bool, ghost shift: Option<Shift>)
    requires Ready(scr, win)
    modifies scr`term, scr`ly, scr`lx, scr`cury, scr`curx, scr.curscr`clearOk, scr.curscr`standout, scr.curscr`view
    modifies scr.curscr.lines, scr.curscr.pool, scr.curscr.buffers
    modifies win`clearOk, win`cury, win`curx, win`view, win.pool
    ensures Ready(scr, win)
    ensures SameText(old(win.view), win.view) && Shows(scr.curscr.view, win.view)
    ensures !scr.term.wild ==> TerminalShows(scr.term, win.view)
    ensures (forall k :: 0 <= k < win.maxy ==> !win.view[k].dirty) && !win.clearOk && !scr.curscr.clearOk
    ensures LinesDone(b.wv, scr.curscr.view, win.view)
    ensures Chosen(scr.caps, old(ScreenLines(scr, win)), old(LoopStart(scr, win)).wv, shift)
    ensures WildByQuickch(scr.caps, shift, old(StartColumn(scr, win)), win.maxy, win.maxx, old(scr.term.wild), wild0)
    ensures b.Valid() && SameText(old(win.view), b.wv) && b.scroll == win.scrollOk
    ensures MovedBy(shift, old(LoopStart(scr, win)).base, b.base, win.maxx)
    ensures Ran(scr.caps, b, wild0, scr.term.wild, scr.term.rows, scr.curscr.view, win.maxx)
    ensures !QuickchRuns(scr.caps, old(LoopStart(scr, win)).wv) ==>
      Ran(scr.caps, old(LoopStart(scr, win)), old(scr.term.wild), scr.term.wild, scr.term.rows, scr.curscr.view,
          win.maxx)
    ensures !scr.term.wild ==> scr.cury == win.cury && scr.curx == win.curx
    ensures !win.leaveOk ==>
      win.cury == old(win.cury) && win.curx == old(win.curx) && CursorAt(scr, win.cury, win.curx)
  {
    ghost var s, column, was, v0 := LoopStart(scr, win), StartColumn(scr, win), scr.term.wild, win.view;
    b, wild0, shift := RefreshFrom(scr, win, s, column);
    RefreshedMeans(scr.caps, scr.term, scr.curscr.view, win.view, win.maxx, s, column, was, v0, b, wild0, shift);
  }
}
