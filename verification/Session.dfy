/** Whole runs of the library: any sequence of editing calls and refreshes. */
module Session {
  import opened Windows
  import opened Editing
  import opened Clearing
  import opened Typing
  import opened Terminal
  import opened Screens
  import opened Repaint
  import opened QuickChange
  import opened Refresh
  import opened EditingSound

  /** The calls a program can make on its window. */
  datatype Call =
    | AddBytes(bytes: string)
    | ClrToEol | ClrToBot | Erase | Clear
    | InsCh(ch: char) | DelCh
    | DeleteLn | InsertLn
    | Move(y: int, x: int) | Scroll
    | Standout(on: bool) | ScrollOk(on: bool) | LeaveOk(on: bool)
    | TouchWin
    | Refresh

  /** The window as the editing calls keep it: sound against the screen. */
  ghost predicate Kept(scr: Screen, win: Window, base: seq<seq<Cell>>)
    reads scr, scr.curscr, scr.curscr.lines, scr.curscr.pool, scr.curscr.buffers
    reads win, win.lines, win.pool, win.buffers
  {
    && scr.Over(win) && Sync(scr) && Rows(scr.curscr.view) == base
    && Good(scr.caps, base, win.Snap(), win.maxx)
    && scr.Parked()
  }

  lemma ReadyIsKept(scr: Screen, win: Window)
    requires Ready(scr, win) && (win.standout ==> scr.caps.stands)
    ensures Kept(scr, win, Rows(scr.curscr.view))
  {
    var base := Rows(scr.curscr.view);
    forall k | 0 <= k < |win.view| ensures GoodLine(scr.caps, base[k], win.view[k], k == |win.view| - 1) {
      assert SoundLine(base[k], win.view[k], k == |win.view| - 1) && Showable(scr.caps, win.view[k].cells);
    }
  }

  lemma KeptIsReady(scr: Screen, win: Window)
    requires Kept(scr, win, Rows(scr.curscr.view))
    ensures Ready(scr, win) && (win.standout ==> scr.caps.stands)
  {
    var base := Rows(scr.curscr.view);
    forall k | 0 <= k < |win.view|
      ensures SoundLine(base[k], win.view[k], k == |win.view| - 1) && Showable(scr.caps, win.view[k].cells)
    {
      assert GoodLine(scr.caps, base[k], win.view[k], k == |win.view| - 1);
    }
  }

  /** An editing call that turns a window value into another good one keeps the window. */
  lemma KeptAfter(scr: Screen, win: Window, base: seq<seq<Cell>>, s: WinV)
    requires scr.Over(win) && Sync(scr) && Rows(scr.curscr.view) == base && win.Snap() == s
    requires Good(scr.caps, base, s, win.maxx)
    requires scr.Parked()
    ensures Kept(scr, win, base)
  {
  }

  /** The value of the window after an editing call; refreshing and the flags are not editing. */
  function Edited(s: WinV, call: Call, nonl: bool, stands: bool, w: nat): WinV
    requires WellFormed(s, w)
  {
    match call
    case AddBytes(bytes) => Added(s, bytes, false, nonl, w).s
    case ClrToEol => ClearedToEol(s, w)
    case ClrToBot => ClearedToBot(s, w)
    case Erase => s.(lines := Erased(s.lines))
    case Clear => s.(lines := Erased(s.lines))
    case InsCh(ch) => InsertedCh(s, ch, w)
    case DelCh => DeletedCh(s, w)
    case DeleteLn => s.(lines := Deleted(s.lines, s.y, w))
    case InsertLn => s.(lines := Inserted(s.lines, s.y, w))
    case Move(y, x) => MovedTo(s, y, x, w)
    case Scroll => Scrolled(s, w)
    case Standout(on) => s.(standout := if on then s.standout || stands else false)
    case ScrollOk(on) => s.(scrollOk := on)
    case LeaveOk(_) => s
    case TouchWin => s.(lines := seq(|s.lines|, k requires 0 <= k < |s.lines| => Touched(s.lines[k], 0, w - 1, true)))
    case Refresh => s
  }

  /** Each editing call keeps a good window good. */
  lemma EditedGood(c: Caps, base: seq<seq<Cell>>, s: WinV, call: Call, nonl: bool, w: nat)
    requires Good(c, base, s, w)
    ensures Good(c, base, Edited(s, call, nonl, c.stands, w), w)
  {
    match call
    case AddBytes(bytes) => AddedGood(c, base, s, bytes, false, nonl, w);
    case ClrToEol => ClearedToEolGood(c, base, s, w);
    case ClrToBot => ClearedToBotGood(c, base, s, w);
    case Erase => ErasedGood(c, base, s, w);
    case Clear => ErasedGood(c, base, s, w);
    case InsCh(ch) => InsertedChGood(c, base, s, ch, w);
    case DelCh => DeletedChGood(c, base, s, w);
    case DeleteLn => DeletedGood(c, base, s, w);
    case InsertLn => InsertedGood(c, base, s, w);
    case Move(y, x) => MovedGood(c, base, s, y, x, w);
    case Scroll => ScrolledGood(c, base, s, w);
    case TouchWin => TouchedGood(c, base, s, Edited(s, call, nonl, c.stands, w).lines, true, w);
    case _ =>
  }

  /** wstandout and wstandend: only a terminal with SO and SE can stand out. */
  method SetStandoutFlag(win: Window, on: bool, stands: bool)
    requires win.Valid()
    modifies win`standout
    ensures win.Valid() && win.Snap() == old(win.Snap()).(standout := if on then old(win.standout) || stands else false)
  {
    if on {
      if stands { win.standout := true; }
    } else {
      win.standout := false;
    }
  }

  /** One editing call. */
  method Edit(win: Window, call: Call, nonl: bool, stands: bool)
    requires win.Valid() && !call.Refresh?
    modifies win, win.lines, win.pool, win.buffers
    ensures win.Valid() && win.Snap() == Edited(old(win.Snap()), call, nonl, stands, win.maxx)
    ensures !call.LeaveOk? ==> win.leaveOk == old(win.leaveOk)
    ensures !call.Clear? ==> win.clearOk == old(win.clearOk)
  {
    if call.AddBytes? || call.ClrToEol? || call.ClrToBot? || call.Erase? || call.Clear? || call.InsCh? || call.DelCh? {
      EditText(win, call, nonl, stands);
    } else if call.DeleteLn? || call.InsertLn? || call.Move? || call.Scroll? {
      EditLines(win, call, nonl, stands);
    } else {
      EditFlags(win, call, nonl, stands);
    }
  }

  /** Calls that write or clear cells. */
  method EditText(win: Window, call: Call, nonl: bool, stands: bool)
    requires win.Valid()
    requires call.AddBytes? || call.ClrToEol? || call.ClrToBot? || call.Erase? || call.Clear? || call.InsCh?
      || call.DelCh?
    modifies win, win.lines, win.pool, win.buffers
    ensures win.Valid() && win.Snap() == Edited(old(win.Snap()), call, nonl, stands, win.maxx)
    ensures win.leaveOk == old(win.leaveOk) && (!call.Clear? ==> win.clearOk == old(win.clearOk))
  {
    match call
    case AddBytes(bytes) => var _ := Waddbytes(win, bytes, false, nonl);
    case ClrToEol => Wclrtoeol(win);
    case ClrToBot => Wclrtobot(win);
    case Erase => Werase(win);
    case Clear => Werase(win); win.clearOk := true;
    case InsCh(ch) => var _ := Winsch(win, ch);
    case DelCh => Wdelch(win);
  }

  /** Calls that move lines or the cursor. */
  method EditLines(win: Window, call: Call, nonl: bool, stands: bool)
    requires win.Valid() && (call.DeleteLn? || call.InsertLn? || call.Move? || call.Scroll?)
    modifies win, win.lines, win.pool, win.buffers
    ensures win.Valid() && win.Snap() == Edited(old(win.Snap()), call, nonl, stands, win.maxx)
    ensures win.leaveOk == old(win.leaveOk) && win.clearOk == old(win.clearOk)
  {
    match call
    case DeleteLn => Wdeleteln(win);
    case InsertLn => Winsertln(win);
    case Move(y, x) => var _ := Wmove(win, y, x);
    case Scroll => var _ := Editing.Scroll(win);
  }

  /** Calls that set flags or marks. */
  method EditFlags(win: Window, call: Call, nonl: bool, stands: bool)
    requires win.Valid() && (call.Standout? || call.ScrollOk? || call.LeaveOk? || call.TouchWin?)
    modifies win, win.lines, win.pool, win.buffers
    ensures win.Valid() && win.Snap() == Edited(old(win.Snap()), call, nonl, stands, win.maxx)
    ensures !call.LeaveOk? ==> win.leaveOk == old(win.leaveOk)
    ensures !call.Clear? ==> win.clearOk == old(win.clearOk)
  {
    match call
    case Standout(on) => SetStandoutFlag(win, on, stands);
    case ScrollOk(on) => win.scrollOk := on;
    case LeaveOk(on) => win.leaveOk := on;
    case TouchWin =>
      ghost var s := win.Snap();
      win.TouchWin(true);
      assert win.view == Edited(s, call, nonl, stands, win.maxx).lines;
  }

  method EditKept(scr: Screen, win: Window, call: Call, nonl: bool)
    requires Kept(scr, win, Rows(scr.curscr.view)) && !call.Refresh?
    modifies win, win.lines, win.pool, win.buffers
    ensures Kept(scr, win, Rows(scr.curscr.view)) && scr.term == old(scr.term)
    ensures win.Snap() == Edited(old(win.Snap()), call, nonl, scr.caps.stands, win.maxx)
    ensures !call.LeaveOk? ==> win.leaveOk == old(win.leaveOk)
    ensures !call.Clear? ==> win.clearOk == old(win.clearOk)
  {
    EditedGood(scr.caps, Rows(scr.curscr.view), win.Snap(), call, nonl, win.maxx);
    ghost var s := Edited(win.Snap(), call, nonl, scr.caps.stands, win.maxx);
    Edit(win, call, nonl, scr.caps.stands);
    KeptAfter(scr, win, Rows(scr.curscr.view), s);
  }

  ghost function FlagsOf(win: Window): (bool, bool)
    reads win`leaveOk, win`standout
  {
    (win.leaveOk, win.standout)
  }

  /** wrefresh, and the flags it leaves alone. */
  method RefreshReady(scr: Screen, win: Window)
    requires Ready(scr, win)
    modifies scr, scr.curscr, scr.curscr.lines, scr.curscr.pool, scr.curscr.buffers, win, win.pool
    ensures Ready(scr, win) && win.leaveOk == old(win.leaveOk) && win.standout == old(win.standout)
    ensures SameText(old(win.view), win.view) && Shows(scr.curscr.view, win.view)
    ensures (forall k :: 0 <= k < win.maxy ==> !win.view[k].dirty) && !win.clearOk && !scr.curscr.clearOk
    ensures !scr.term.wild ==> TerminalShows(scr.term, win.view) && scr.cury == win.cury
    ensures !QuickchRuns(scr.caps, old(LoopStart(scr, win)).wv) ==>
      Ran(scr.caps, old(LoopStart(scr, win)), old(scr.term.wild), scr.term.wild, scr.term.rows, scr.curscr.view,
          win.maxx)
    ensures !win.leaveOk ==> win.cury == old(win.cury) && win.curx == old(win.curx)
  {
    ghost var was := FlagsOf(win);
    var _, _, _ := Wrefresh(scr, win);
    assert FlagsOf(win) == was;
  }

  /** wrefresh, in a window that only stands out if the terminal can. */
  method RefreshKept(scr: Screen, win: Window)
    requires Kept(scr, win, Rows(scr.curscr.view))
    modifies scr, scr.curscr, scr.curscr.lines, scr.curscr.pool, scr.curscr.buffers, win, win.pool
    ensures Kept(scr, win, Rows(scr.curscr.view))
    ensures SameText(old(win.view), win.view) && Shows(scr.curscr.view, win.view)
    ensures (forall k :: 0 <= k < win.maxy ==> !win.view[k].dirty) && !win.clearOk && !scr.curscr.clearOk
    ensures !scr.term.wild ==> TerminalShows(scr.term, win.view) && scr.cury == win.cury
    ensures !QuickchRuns(scr.caps, old(LoopStart(scr, win)).wv) ==>
      Ran(scr.caps, old(LoopStart(scr, win)), old(scr.term.wild), scr.term.wild, scr.term.rows, scr.curscr.view,
          win.maxx)
    ensures !win.leaveOk ==> win.cury == old(win.cury) && win.curx == old(win.curx)
    ensures win.leaveOk == old(win.leaveOk) && win.standout == old(win.standout)
  {
    KeptIsReady(scr, win);
    RefreshReady(scr, win);
    ReadyIsKept(scr, win);
  }

  /** Any run of calls on a window keeps curscr and the window consistent, and a run that ends in a
      refresh leaves the window on curscr and, unless it has run wild, on the terminal. */
  method Run(scr: Screen, win: Window, script: seq<Call>, nonl: bool)
    requires Kept(scr, win, Rows(scr.curscr.view))
    modifies scr, scr.curscr, scr.curscr.lines, scr.curscr.pool, scr.curscr.buffers
    modifies win, win.lines, win.pool, win.buffers
    ensures Kept(scr, win, Rows(scr.curscr.view))
    ensures script != [] && script[|script| - 1].Refresh? ==> Shows(scr.curscr.view, win.view)
    ensures script != [] && script[|script| - 1].Refresh? && !scr.term.wild ==> TerminalShows(scr.term, win.view)
  {
    for i := 0 to |script|
      invariant Kept(scr, win, Rows(scr.curscr.view))
      invariant i > 0 && script[i - 1].Refresh? ==> Shows(scr.curscr.view, win.view)
      invariant i > 0 && script[i - 1].Refresh? && !scr.term.wild ==> TerminalShows(scr.term, win.view)
    {
      if script[i].Refresh? {
        RefreshKept(scr, win);
      } else {
        EditKept(scr, win, script[i], nonl);
      }
    }
  }

  /** A new screen and a new window start a run. */
  method Start(h: nat, w: nat, caps: Caps, hash: seq<Cell> -> int) returns (scr: Screen, win: Window)
    requires 0 < h && 0 < w
    ensures Kept(scr, win, Rows(scr.curscr.view)) && !scr.term.wild
    ensures fresh(scr) && fresh(scr.curscr) && fresh(scr.curscr.lines) && fresh(scr.curscr.pool)
      && fresh(scr.curscr.buffers)
    ensures fresh(win) && fresh(win.lines) && fresh(win.pool) && fresh(win.buffers)
    ensures win.maxy == h && win.maxx == w && scr.cury == 0 && scr.caps == caps && !win.leaveOk
    ensures !win.clearOk && !scr.curscr.clearOk
    ensures win.Snap() == WinV(seq(h, i => LineV(Blanks(w), false, false, false, hash(Blanks(w)), 0, 0)), 0, 0,
      false, false)
  {
    scr := new Screen(h, w, caps, hash);
    win := new Window(h, w, hash(Blanks(w)));
    forall k | 0 <= k < h
      ensures GoodLine(caps, Rows(scr.curscr.view)[k], win.view[k], k == h - 1)
    {
      assert Rows(scr.curscr.view)[k] == scr.term.rows[k];
      assert scr.term.rows[k] == Blanks(w);
    }
    assert Good(caps, Rows(scr.curscr.view), win.Snap(), w);
  }

  /** A scroll of the whole screen that nobody asked for goes unseen exactly when the screen is
      blank. This is what becomes of the terminal when makech runs past the bottom line. */
  lemma UnseenIffBlank(rows: seq<seq<Cell>>, n: nat, w: nat)
    requires 0 < n && 0 < |rows|
    ensures Up(rows, 0, |rows| - 1, n, w) == rows <==> forall i :: 0 <= i < |rows| ==> rows[i] == Blanks(w)
  {
    if Up(rows, 0, |rows| - 1, n, w) == rows {
      forall i | 0 <= i < |rows| ensures rows[i] == Blanks(w) {
        BlankFromBelow(rows, n, w, i);
      }
    }
  }

  lemma {:induction false} BlankFromBelow(rows: seq<seq<Cell>>, n: nat, w: nat, i: int)
    requires 0 < n && Up(rows, 0, |rows| - 1, n, w) == rows && 0 <= i < |rows|
    ensures rows[i] == Blanks(w)
    decreases |rows| - i
  {
    assert rows[i] == Up(rows, 0, |rows| - 1, n, w)[i] == if i + n < |rows| then rows[i + n] else Blanks(w);
    if i + n < |rows| { BlankFromBelow(rows, n, w, i + n); }
  }

  // ----- a run that loses the screen -----

  /** A newline behind a full line: the line below is wiped, and nothing else changes. */
  lemma NewlineBelow(u: Typist, nonl: bool, w: nat)
    requires Steady(u, w) && u.ok && u.x == w - 1 && u.y + 1 < |u.s.lines| && u.s.lines[u.y].pastEol
    ensures var r := Synced(TypeOne(u, '\n', false, nonl, w)).s;
      && |r.lines| == |u.s.lines| && r.y == u.y + 1 && r.x == 0 && r.standout == u.s.standout
      && (forall k :: 0 <= k < |u.s.lines| && k != u.y + 1 ==> r.lines[k] == u.s.lines[k])
      && r.lines[u.y + 1].cells == Wiped(u.s.lines[u.y + 1].cells, 0, w)
      && r.lines[u.y + 1].pastEol == u.s.lines[u.y + 1].pastEol && r.lines[u.y + 1].force == u.s.lines[u.y + 1].force
  {
  }

  /** Line `y` holds the text and is left past its end, the line below is wiped, the others are as before. */
  predicate FilledAndLeft(s: WinV, r: WinV, y: nat, x: nat, text: string, w: nat)
    requires y + 1 < |s.lines| && |s.lines[y].cells| == |s.lines[y + 1].cells| == w >= x + |text|
  {
    && |r.lines| == |s.lines|
    && r.lines[y].cells == Overtyped(s.lines[y].cells, x, text, s.standout)
    && r.lines[y].pastEol && r.lines[y].force == s.lines[y].force
    && r.lines[y + 1].cells == Wiped(s.lines[y + 1].cells, 0, w)
    && r.lines[y + 1].pastEol == s.lines[y + 1].pastEol && r.lines[y + 1].force == s.lines[y + 1].force
    && forall k :: 0 <= k < |s.lines| && k != y && k != y + 1 ==> r.lines[k] == s.lines[k]
  }

  lemma AfterFullLine(t: Typist, u: Typist, text: string, nonl: bool, w: nat)
    requires Steady(t, w) && text != [] && t.x + |text| == w && t.y + 1 < |t.s.lines| && Typed(t, u, text, false, w)
    requires Steady(u, w)
    ensures var r := Synced(TypeOne(u, '\n', false, nonl, w)).s;
      && FilledAndLeft(t.s, r, t.y, t.x, text, w) && r.y == t.y + 1 && r.x == 0 && r.standout == t.s.standout
  {
    NewlineBelow(u, nonl, w);
  }

  /** A line filled up with text, and a newline: the cursor goes to the next line, but the full line stays
      marked as left past its end. */
  lemma FullLineStaysMarked(s: WinV, text: string, nonl: bool, w: nat)
    requires WellFormed(s, w) && PlainText(text) && text != [] && s.x + |text| == w && s.y + 1 < |s.lines|
    requires !s.lines[s.y].pastEol
    ensures var r := Added(s, text + "\n", false, nonl, w).s;
      && FilledAndLeft(s, r, s.y, s.x, text, w) && r.y == s.y + 1 && r.x == 0 && r.standout == s.standout
  {
    var t := Typist(s, s.y, s.x, true);
    var bytes := text + "\n";
    assert bytes[..|text|] == text && bytes[..|text| + 1] == bytes;
    TextIsTyped(t, text, false, nonl, w);
    AddByte(t, bytes, |text|, false, nonl, w);
    AfterFullLine(t, TypeAll(t, text, false, nonl, w), text, nonl, w);
  }

  /** A terminal of which only the steps to the right, standout mode and the margins matter. */
  const SMALL: Caps :=
    Caps(false, false, false, false, false, false, false, false, false, false, 0, true, true, true, true)

  /** A 2 by 5 screen, and a window whose first line has been filled and left. */
  ghost predicate Filled(scr: Screen, win: Window)
    reads scr, scr.curscr, scr.curscr.lines, scr.curscr.pool, scr.curscr.buffers
    reads win, win.lines, win.pool, win.buffers
  {
    && Kept(scr, win, Rows(scr.curscr.view)) && !scr.term.wild && scr.caps == SMALL
    && win.maxy == 2 && win.maxx == 5 && win.cury == 1 && win.curx == 0 && !win.leaveOk && !win.standout
    && !win.clearOk && !scr.curscr.clearOk && win.view[0].pastEol && !win.view[1].pastEol
    && win.view[0].cells[0] == Cell('a', false) && win.view[1].cells[0] == BLANK
  }

  lemma FilledLine(s: WinV)
    requires WellFormed(s, 5) && |s.lines| == 2 && s.y == s.x == 0 && !s.standout && !s.lines[0].pastEol
    ensures var r := Added(s, "abcde\n", false, false, 5).s;
      && |r.lines| == 2 && r.y == 1 && r.x == 0 && !r.standout && r.lines[0].pastEol
      && r.lines[0].cells[0] == Cell('a', false) && r.lines[1].cells[0] == BLANK
      && r.lines[1].pastEol == s.lines[1].pastEol && r.lines[0].force == s.lines[0].force
  {
    FullLineStaysMarked(s, "abcde", false, 5);
    assert "abcde" + "\n" == "abcde\n";
    assert Overtyped(s.lines[0].cells, 0, "abcde", false)[0] == Cell('a', false);
    assert Wiped(s.lines[1].cells, 0, 5)[0] == BLANK;
  }

  method TypeFullLine() returns (scr: Screen, win: Window)
    ensures Filled(scr, win) && scr.cury == 0 && !win.view[0].force
    ensures fresh(scr) && fresh(scr.curscr) && fresh(scr.curscr.lines) && fresh(scr.curscr.pool)
      && fresh(scr.curscr.buffers)
    ensures fresh(win) && fresh(win.lines) && fresh(win.pool) && fresh(win.buffers)
  {
    scr, win := Start(2, 5, SMALL, c => 0);
    FilledLine(win.Snap());
    EditKept(scr, win, AddBytes("abcde\n"), false);
  }

  lemma OnePastEol(v: seq<LineV>)
    requires |v| == 2
    ensures !MayOverrun(0, v)
  {
    assert PastEols(v, 1) == PastEols(v, 0) + if v[0].pastEol then 1 else 0;
  }

  /** That window refreshed: the cursor is on the bottom line. */
  method RefreshFullLine(scr: Screen, win: Window)
    requires Filled(scr, win) && scr.cury == 0
    modifies scr, scr.curscr, scr.curscr.lines, scr.curscr.pool, scr.curscr.buffers, win, win.pool
    ensures Filled(scr, win) && scr.cury == 1 && !win.view[0].dirty && Shows(scr.curscr.view, win.view)
    ensures win.view[0].force ==> old(win.view)[0].force
  {
    ghost var b := LoopStart(scr, win);
    OnePastEol(b.wv);
    RefreshKept(scr, win);
    if b.Overruns() { OverrunTakesPastEols(b); }
  }

  /** Another character on the second line, the only one that is then dirty. */
  method TypeBelow(scr: Screen, win: Window)
    requires Filled(scr, win) && scr.cury == 1 && !Visited(win.view[0]) && Shows(scr.curscr.view, win.view)
    modifies win, win.lines, win.pool, win.buffers
    ensures Kept(scr, win, Rows(scr.curscr.view)) && !win.clearOk && scr.curscr.view[1].cells[0] == BLANK
    ensures win.view[0] == old(win.view)[0] && win.view[1].dirty
  {
    ghost var s := win.Snap();
    var t := Typist(s, 1, 0, true);
    TextIsTyped(t, "x", false, false, 5);
    EditKept(scr, win, AddBytes("x"), false);
    var base := Rows(scr.curscr.view);
    assert ShowsLine(scr.curscr.view[1].cells, s.lines[1].cells, true);
    assert GoodLine(scr.caps, base[1], win.view[1], true);
    assert win.view[1].cells[0] == Cell('x', false);
    assert base[1][0] == BLANK;
  }

  /** With the cursor on the bottom line and only that line dirty, the turn at that line is the one that
      drives the cursor off the screen. */
  lemma OverrunsAtOne(b: Before)
    requires b.Valid() && |b.wv| == 2 && b.ly == 1 && !Visited(b.wv[0]) && Visited(b.wv[1]) && b.wv[0].pastEol
    ensures b.OverrunsOnlyAt(1) && b.Overruns() && b.Lost(1) == 1
  {
    assert b.LineAt(0) == 1 && b.LineAt(1) == 1;
    assert b.OverrunAt(1);
  }

  /** What the terminal then shows of the first line is not what curscr has. */
  lemma FirstLineIsLost(rows: seq<seq<Cell>>, cv: seq<LineV>, wv: seq<LineV>, b: Before)
    requires |rows| == |cv| == |b.wv| == |b.base| == |wv| == 2 && b.OverrunsOnlyAt(1) && b.Lost(1) == 1
    requires ScrolledAbove(rows, cv, b, 1, 5) && Shows(cv, wv)
    requires |wv[0].cells| == |b.base[1]| == 5 && wv[0].cells[0] == Cell('a', false) && b.base[1][0] == BLANK
    ensures rows != Rows(cv)
  {
    assert rows[0] == ShownAfter(cv, b, 1, 5, 0) == b.base[1];
    assert ShowsLine(cv[0].cells, wv[0].cells, false);
    assert Rows(cv)[0][0] == Cell('a', false);
  }

  /** The wrefresh in which it happens. */
  method RefreshBelow(scr: Screen, win: Window)
    requires Kept(scr, win, Rows(scr.curscr.view)) && !scr.term.wild && scr.caps == SMALL && scr.cury == 1
    requires win.maxy == 2 && win.maxx == 5 && !win.clearOk && !scr.curscr.clearOk
    requires !Visited(win.view[0]) && win.view[1].dirty && win.view[0].pastEol
    requires win.view[0].cells[0] == Cell('a', false) && scr.curscr.view[1].cells[0] == BLANK
    modifies scr, scr.curscr, scr.curscr.lines, scr.curscr.pool, scr.curscr.buffers, win, win.pool
    ensures scr.Valid() && scr.term.wild && scr.term.rows != Rows(scr.curscr.view)
  {
    ghost var b := LoopStart(scr, win);
    OverrunsAtOne(b);
    RefreshKept(scr, win);
    FirstLineIsLost(scr.term.rows, scr.curscr.view, win.view, b);
  }

  /** A character on the second line, and the wrefresh for it. */
  method TypeAndRefresh(scr: Screen, win: Window)
    requires Filled(scr, win) && scr.cury == 1 && !Visited(win.view[0]) && Shows(scr.curscr.view, win.view)
    modifies scr, scr.curscr, scr.curscr.lines, scr.curscr.pool, scr.curscr.buffers
    modifies win, win.lines, win.pool, win.buffers
    ensures scr.Valid() && scr.term.wild && scr.term.rows != Rows(scr.curscr.view)
  {
    TypeBelow(scr, win);
    RefreshBelow(scr, win);
  }

  /** Two lines of five columns, the first one filled and left, a refresh, and a character on the second
      line: the next wrefresh starts from the bottom line, follows the cursor past the end of the first
      line off the screen, and the terminal no longer shows what curscr says. */
  method OverrunLosesTheScreen() returns (scr: Screen, win: Window)
    ensures fresh(scr) && scr.Valid() && scr.term.wild && scr.term.rows != Rows(scr.curscr.view)
  {
    scr, win := TypeFullLine();
    RefreshFullLine(scr, win);
    TypeAndRefresh(scr, win);
  }

  // ----- another -----

  /** A terminal that does not wrap at the margin. */
  const UNWRAPPED: Caps := SMALL.(am := false)

  /** A window of one line that may not scroll, with a text up to its corner, all of it marked. */
  predicate CornerMarked(r: WinV) {
    && |r.lines| == 1 && |r.lines[0].cells| == 5 && !r.scrollOk
    && r.lines[0].cells[0] == Cell('a', false) && r.lines[0].cells[4] == Cell('e', false)
    && r.lines[0].dirty && r.lines[0].force && r.lines[0].first == 0 && r.lines[0].last == 4
  }

  lemma CornerText(s: WinV, stands: bool)
    requires WellFormed(s, 5) && |s.lines| == 1 && s.y == s.x == 0 && !s.standout && !s.lines[0].pastEol && !s.scrollOk
    ensures var r := Edited(s, AddBytes("abcde"), false, stands, 5);
      WellFormed(r, 5) && CornerMarked(Edited(r, TouchWin, false, stands, 5))
  {
    var t := Typist(s, 0, 0, true);
    TextIsTyped(t, "abcde", false, false, 5);
    var u := TypeAll(t, "abcde", false, false, 5);
    assert Typed(t, u, "abcde", false, 5) && Added(s, "abcde", false, false, 5) == Synced(u);
    assert u.s.lines[0].cells[0] == Cell('a', false) && u.s.lines[0].cells[4] == Cell('e', false);
  }

  method TypeInCorner() returns (scr: Screen, win: Window)
    ensures Kept(scr, win, Rows(scr.curscr.view)) && !scr.term.wild && scr.caps == UNWRAPPED
    ensures !win.clearOk && !scr.curscr.clearOk && CornerMarked(win.Snap())
    ensures fresh(scr) && fresh(scr.curscr) && fresh(scr.curscr.lines) && fresh(scr.curscr.pool)
      && fresh(scr.curscr.buffers)
    ensures fresh(win) && fresh(win.lines) && fresh(win.pool) && fresh(win.buffers)
  {
    scr, win := Start(1, 5, UNWRAPPED, c => 0);
    FillCorner(scr, win);
  }

  method FillCorner(scr: Screen, win: Window)
    requires Kept(scr, win, Rows(scr.curscr.view)) && scr.caps == UNWRAPPED && win.maxy == 1 && win.maxx == 5
    requires win.cury == win.curx == 0 && !win.standout && !win.view[0].pastEol && !win.scrollOk && !win.clearOk
    modifies win, win.lines, win.pool, win.buffers
    ensures Kept(scr, win, Rows(scr.curscr.view)) && !win.clearOk && CornerMarked(win.Snap())
  {
    CornerText(win.Snap(), UNWRAPPED.stands);
    EditKept(scr, win, AddBytes("abcde"), false);
    EditKept(scr, win, TouchWin, false);
  }

  /** Such a window in its corner: the next wrefresh scrolls the text off the screen. */
  lemma CornerWraps(c: Caps, b: Before)
    requires b.Valid() && |b.wv| == 1 && |b.wv[0].cells| == |b.base[0]| == 5 && b.ly < 1 && !c.am && !b.scroll
    requires Visited(b.wv[0]) && b.wv[0].force && b.wv[0].first == 0 && b.wv[0].last == 4
    requires b.wv[0].cells[4] == Cell('e', false)
    ensures b.Wraps(c) && !b.Overruns()
  {
  }

  /** A text in the last line of a window that may not scroll, up to the corner: on a terminal that does
      not wrap, the wrefresh that paints it scrolls the screen, and curscr does not know. */
  method CornerLosesTheScreen() returns (scr: Screen, win: Window)
    ensures fresh(scr) && scr.Valid() && scr.term.wild && scr.term.rows != Rows(scr.curscr.view)
  {
    scr, win := TypeInCorner();
    ghost var b := LoopStart(scr, win);
    CornerWraps(scr.caps, b);
    RefreshKept(scr, win);
    assert ShowsLine(scr.curscr.view[0].cells, win.view[0].cells, true);
    assert scr.term.rows[0] == Blanks(5) && Rows(scr.curscr.view)[0][0] == Cell('a', false);
  }
}
