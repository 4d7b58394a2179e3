/** Libcurses-21/refresh.c: making the screen look like a full-screen window. */
module Screens {
  import opened Cycle
  import opened Windows
  import opened Clearing
  import opened Terminal

  function Rows(v: seq<LineV>): (r: seq<seq<Cell>>)
    ensures |r| == |v|
  {
    seq(|v|, i requires 0 <= i < |v| => v[i].cells)
  }

  /** refresh.c:527-533 and 478-482: an unforced line of the window that equals a line of curscr. */
  predicate Match(w: LineV, c: LineV) {
    !w.force && w.hash == c.hash && w.cells == c.cells
  }

  /** The b window lines from w on match the b curscr lines from s on. */
  ghost predicate BlockMatches(wv: seq<LineV>, cv: seq<LineV>, w: int, s: int, b: int) {
    && 0 <= w && w + b <= |wv| && 0 <= s && s + b <= |cv|
    && forall k :: w <= k < w + b ==> Match(wv[k], cv[k - w + s])
  }

  /** No block of b lines inside top..bot matches, among those the search looks at. */
  ghost predicate NoBlock(wv: seq<LineV>, cv: seq<LineV>, top: int, bot: int, b: int) {
    forall w, s :: top <= w <= bot - b && top <= s <= bot - b ==> !BlockMatches(wv, cv, w, s, b)
  }

  /** No block of more than `than` and at least `least` lines matches. */
  ghost predicate NoneLarger(wv: seq<LineV>, cv: seq<LineV>, top: int, bot: int, than: int, least: int) {
    forall b :: than < b <= bot - top && least <= b ==> NoBlock(wv, cv, top, bot, b)
  }

  /** No block of b lines inside top..bot that the search comes to before w and s matches: it goes by
      window lines first, and then by curscr lines. */
  ghost predicate NoneBefore(wv: seq<LineV>, cv: seq<LineV>, top: int, bot: int, w: int, s: int, b: int) {
    forall u, t :: top <= u <= bot - b && top <= t <= bot - b && (u < w || (u == w && t < s)) ==>
      !BlockMatches(wv, cv, u, t, b)
  }

  /** top and bot are the first and the last window line that differ from the curscr line beside them, or
      are forced; behind and in front of the lines if none does. */
  ghost predicate AreEnds(cv: seq<LineV>, wv: seq<LineV>, top: int, bot: int) {
    && |cv| == |wv| && 0 <= top <= |wv| && -1 <= bot < |wv|
    && (forall k :: 0 <= k < |wv| && (k < top || bot < k) ==> Match(wv[k], cv[k]))
    && (top < |wv| ==> !Match(wv[top], cv[top]))
    && (0 <= bot ==> !Match(wv[bot], cv[bot]))
  }

  /** What scrolln cannot be relied on to do, with the cursor in column `curx` of an `h` by `w` screen. */
  predicate ScrollUndetermined(c: Caps, up: bool, top: int, bot: int, curx: int, h: nat, w: nat) {
    || (!c.SafeMoves() && curx != 0)
    || (up && c.PlainForward(top, bot, h) && (bot != h - 1 || w != 1))
  }

  /** Of the lines `was` those from lo to hi have been marked clean, and no others; they match curscr. */
  ghost predicate CleanedMatches(was: seq<LineV>, v: seq<LineV>, cv: seq<LineV>, lo: int, hi: int) {
    && |was| == |v| == |cv|
    && (forall i :: 0 <= i < |v| ==> v[i] == if lo <= i < hi then was[i].(dirty := false) else was[i])
    && forall i :: 0 <= i < |v| && lo <= i < hi ==> Match(v[i], cv[i])
  }

  class Screen {
    const curscr: Window
    const caps: Caps
    /** __hash; nothing below depends on which function it is. */
    const hashOf: seq<Cell> -> int
    /** curscr->cury and curscr->curx; they can leave the screen once the terminal has run wild. */
    var cury: int
    var curx: int
    /** Where refresh.c takes the terminal's cursor to be. */
    var ly: int
    var lx: int
    var term: Term

    /** A blank screen with the cursor at the top left. */
    constructor (h: nat, w: nat, c: Caps, f: seq<Cell> -> int)
      requires 0 < h && 0 < w
      ensures Valid() && fresh(curscr) && fresh(curscr.lines) && fresh(curscr.pool) && fresh(curscr.buffers)
      ensures curscr.maxy == h && curscr.maxx == w && caps == c && hashOf == f
      ensures term == Term(seq(h, i => Blanks(w)), 0, 0, false, 0, h - 1, false)
      ensures Rows(curscr.view) == term.rows && !curscr.standout && !curscr.clearOk
      ensures cury == curx == ly == lx == 0
    {
      curscr := new Window(h, w, f(Blanks(w)));
      caps, hashOf := c, f;
      cury, curx, ly, lx := 0, 0, 0, 0;
      term := Term(seq(h, i => Blanks(w)), 0, 0, false, 0, h - 1, false);
    }

    ghost predicate Valid()
      reads this, curscr, curscr.lines, curscr.pool, curscr.buffers
    {
      && curscr.Valid()
      && WfTerm(term, curscr.maxy, curscr.maxx)
      && term.top == 0 && term.bot == curscr.maxy - 1
    }

    // ----- scrolln -----

    /** sf, n times */
    method SendForward(n: nat)
      requires WfTerm(term, curscr.maxy, curscr.maxx) && 0 < n
      modifies this`term
      ensures WfTerm(term, curscr.maxy, curscr.maxx) && term == ScrollForward(old(term), n, curscr.maxx)
    {
      ghost var t := term;
      for i := 0 to n
        invariant i == 0 ==> term == t
        invariant i > 0 ==> term == ScrollForward(t, i, curscr.maxx)
        invariant WfTerm(term, curscr.maxy, curscr.maxx)
      {
        if i > 0 { ScrollForwardOnce(t, i, curscr.maxy, curscr.maxx); }
        ScrollForwardOnce(t, i + 1, curscr.maxy, curscr.maxx);
        term := ScrollForward(term, 1, curscr.maxx);
      }
    }

    /** sr, n times */
    method SendReverse(n: nat)
      requires WfTerm(term, curscr.maxy, curscr.maxx) && 0 < n
      modifies this`term
      ensures WfTerm(term, curscr.maxy, curscr.maxx) && term == ScrollReverse(old(term), n, curscr.maxx)
    {
      ghost var t := term;
      for i := 0 to n
        invariant i == 0 ==> term == t
        invariant i > 0 ==> term == ScrollReverse(t, i, curscr.maxx)
        invariant WfTerm(term, curscr.maxy, curscr.maxx)
      {
        if i > 0 { ScrollReverseOnce(t, i, curscr.maxy, curscr.maxx); }
        ScrollReverseOnce(t, i + 1, curscr.maxy, curscr.maxx);
        term := ScrollReverse(term, 1, curscr.maxx);
      }
    }

    /** dl, n times */
    method SendDeletes(n: nat)
      requires WfTerm(term, curscr.maxy, curscr.maxx) && 0 < n
      modifies this`term
      ensures WfTerm(term, curscr.maxy, curscr.maxx) && term == DeleteLines(old(term), n, curscr.maxx)
    {
      ghost var t := term;
      for i := 0 to n
        invariant i == 0 ==> term == t
        invariant i > 0 ==> term == DeleteLines(t, i, curscr.maxx)
        invariant WfTerm(term, curscr.maxy, curscr.maxx)
      {
        if i > 0 { DeleteLinesOnce(t, i, curscr.maxy, curscr.maxx); }
        DeleteLinesOnce(t, i + 1, curscr.maxy, curscr.maxx);
        term := DeleteLines(term, 1, curscr.maxx);
      }
    }

    /** al, n times */
    method SendInserts(n: nat)
      requires WfTerm(term, curscr.maxy, curscr.maxx) && 0 < n
      modifies this`term
      ensures WfTerm(term, curscr.maxy, curscr.maxx) && term == InsertLines(old(term), n, curscr.maxx)
    {
      ghost var t := term;
      for i := 0 to n
        invariant i == 0 ==> term == t
        invariant i > 0 ==> term == InsertLines(t, i, curscr.maxx)
        invariant WfTerm(term, curscr.maxy, curscr.maxx)
      {
        if i > 0 { InsertLinesOnce(t, i, curscr.maxy, curscr.maxx); }
        InsertLinesOnce(t, i + 1, curscr.maxy, curscr.maxx);
        term := InsertLines(term, 1, curscr.maxx);
      }
    }

    /** refresh.c:749-762: scrolls lines top..bot up inside a scrolling region. */
    method UpInRegion(n: nat, bot: int, top: int)
      requires Valid() && 0 <= top <= bot < curscr.maxy && 0 < n
      requires caps.SF || caps.sf
      modifies this`term
      ensures Valid() && term.standout == old(term.standout) && term.wild == old(term.wild)
      ensures term.rows == Up(old(term.rows), top, bot, n, curscr.maxx) && term.row == term.col == 0
    {
      ScrollWidth(term.rows, top, bot, n, curscr.maxx);
      term := SetRegion(term, top, bot);
      term := Home(term);
      term := Mvcur(term, caps, 0, 0, bot, 0);
      if caps.SF {
        term := ScrollForward(term, n, curscr.maxx);
      } else {
        SendForward(n);
      }
      term := SetRegion(term, 0, curscr.maxy - 1);
      term := Home(term);
    }

    /** refresh.c:804-817 */
    method DownInRegion(n: nat, bot: int, top: int)
      requires Valid() && 0 <= top <= bot < curscr.maxy && 0 < n
      requires caps.SR || caps.sr
      modifies this`term
      ensures Valid() && term.standout == old(term.standout) && term.wild == old(term.wild)
      ensures term.rows == Down(old(term.rows), top, bot, n, curscr.maxx) && term.row == term.col == 0
    {
      ScrollWidth(term.rows, top, bot, n, curscr.maxx);
      term := SetRegion(term, top, bot);
      term := Home(term);
      term := Mvcur(term, caps, 0, 0, top, 0);
      if caps.SR {
        term := ScrollReverse(term, n, curscr.maxx);
      } else {
        SendReverse(n);
      }
      term := SetRegion(term, 0, curscr.maxy - 1);
      term := Home(term);
    }

    /** refresh.c:767-768 */
    method ScrollPlainly(n: nat, bot: int)
      requires Valid() && Parked() && 0 <= bot < curscr.maxy && 0 < n
      modifies this`term
      ensures Valid() && term.standout == old(term.standout) && term.row == bot && term.col == 0
      ensures term.wild <==> old(term.wild) || bot != curscr.maxy - 1
      ensures !term.wild ==> term.rows == Up(old(term.rows), 0, curscr.maxy - 1, n, curscr.maxx)
    {
      ScrollWidth(term.rows, 0, curscr.maxy - 1, n, curscr.maxx);
      term := Mvcur(term, caps, cury, curx, bot, 0);
      term := ScrollForward(term, n, curscr.maxx);
    }

    /** refresh.c:769-775 */
    method DeleteAt(n: nat, top: int)
      requires Valid() && Parked() && (caps.DL || caps.dl) && 0 <= top < curscr.maxy && 0 < n
      modifies this`term
      ensures Valid() && term.standout == old(term.standout) && term.wild == old(term.wild)
      ensures term.row == top && term.col == 0
      ensures term.rows == Up(old(term.rows), top, curscr.maxy - 1, n, curscr.maxx)
    {
      ScrollWidth(term.rows, top, curscr.maxy - 1, n, curscr.maxx);
      term := Mvcur(term, caps, cury, curx, top, 0);
      if caps.DL {
        term := DeleteLines(term, n, curscr.maxx);
      } else {
        SendDeletes(n);
      }
    }

    /** refresh.c:766-781: takes n lines out at the top of the block, or scrolls the whole screen. */
    method TakeOutAtTop(n: nat, bot: int, top: int)
      requires Valid() && Parked() && caps.CanScroll() && !caps.UpByRegion(top, bot, curscr.maxy)
      requires 0 <= top <= bot < curscr.maxy && 0 < n
      modifies this`term
      ensures Valid() && term.standout == old(term.standout)
      ensures term.wild <==> old(term.wild) || (caps.PlainForward(top, bot, curscr.maxy) && bot != curscr.maxy - 1)
      ensures !term.wild ==> term.rows == Up(old(term.rows), top, curscr.maxy - 1, n, curscr.maxx)
      ensures !term.wild ==>
        term.row == (if caps.PlainForward(top, bot, curscr.maxy) then bot else top) && term.col == 0
    {
      ScrollWidth(term.rows, top, curscr.maxy - 1, n, curscr.maxx);
      if caps.SF && top == 0 {
        ScrollPlainly(n, bot);
      } else if caps.DL || caps.dl {
        DeleteAt(n, top);
      } else {
        // neither sf alone (refresh.c:776) nor abort (line 781) is reached on a terminal that CanScroll
        assert false;
      }
    }

    /** refresh.c:784-791 and 837-844: puts n blank lines in at line y, the cursor being taken to be on
        line oy. */
    method PutIn(n: nat, oy: int, y: int)
      requires Valid() && (caps.AL || caps.al) && 0 <= y < curscr.maxy && 0 < n
      modifies this`term
      ensures Valid() && term.standout == old(term.standout)
      ensures term.wild == (old(term.wild) || !old(From(term, oy, 0)))
      ensures term.rows == Down(old(term.rows), y, curscr.maxy - 1, n, curscr.maxx)
      ensures term.row == y && term.col == 0
    {
      ScrollWidth(term.rows, y, curscr.maxy - 1, n, curscr.maxx);
      term := Mvcur(term, caps, oy, 0, y, 0);
      if caps.AL {
        term := InsertLines(term, n, curscr.maxx);
      } else if caps.al {
        SendInserts(n);
      } else {
        assert false;
      }
    }

    /** refresh.c:821-834: takes n lines out at the bottom of the block. */
    method TakeOutAtBottom(n: nat, bot: int)
      requires Valid() && Parked() && (caps.DL || caps.dl) && 0 <= bot - n + 1 <= bot < curscr.maxy && 0 < n
      modifies this`term
      ensures Valid() && term.standout == old(term.standout) && term.wild == old(term.wild)
      ensures term.rows == Up(old(term.rows), bot - n + 1, curscr.maxy - 1, n, curscr.maxx)
      ensures term.row == bot - n + 1 && term.col == 0
    {
      ScrollWidth(term.rows, bot - n + 1, curscr.maxy - 1, n, curscr.maxx);
      term := Mvcur(term, caps, cury, curx, bot - n + 1, 0);
      // refresh.c:823 and 830 ask for bot == win->maxy, which never holds
      if caps.DL {
        term := DeleteLines(term, n, curscr.maxx);
      } else if caps.dl {
        SendDeletes(n);
      } else {
        assert false;
      }
    }

    /** curscr's cursor is on the screen and the terminal's cursor is there, unless the terminal has run
        wild. */
    predicate Parked()
      reads this, curscr
    {
      && 0 <= cury && 0 <= curx < curscr.maxx
      && (term.wild || (cury < curscr.maxy && Agrees(term, cury, curx, curscr.maxx)))
    }

    /** refresh.c:761, 792, 817 and 845: the cursor goes back from the margin to where curscr has it. */
    method GoBack(oy: int)
      requires Valid() && 0 <= cury && (term.wild || cury < curscr.maxy) && 0 <= curx < curscr.maxx
      requires !term.wild ==> term.row == oy && term.col == 0
      modifies this`term
      ensures Valid() && Parked() && term.standout == old(term.standout)
      ensures term.wild == (old(term.wild) || (!caps.SafeMoves() && curx != 0))
      ensures !term.wild ==> term.rows == old(term.rows)
    {
      if cury >= curscr.maxy { ScrollWidth(term.rows, 0, curscr.maxy - 1, cury - curscr.maxy + 1, curscr.maxx); }
      term := Mvcur(term, caps, oy, 0, cury, curx);
    }

    /** What scrolln leaves undetermined. The way back may write over cells. Upwards, the whole screen may
        be scrolled plainly: if the block ends above the bottom line that moves too many lines or none,
        and otherwise the next move starts from the top of the block (refresh.c:784), where the cursor is
        not; that is well only on a screen of one column, where every move is an address. */
    predicate Undetermined(up: bool, top: int, bot: int)
      reads this, curscr
    {
      ScrollUndetermined(caps, up, top, bot, curx, curscr.maxy, curscr.maxx)
    }

    /** scrolln with n > 0: the block top..bot moves up by n lines. */
    method ScrollUp(n: nat, bot: int, top: int)
      requires Valid() && Parked() && caps.CanScroll()
      requires 0 <= top <= bot < curscr.maxy && 0 < n <= bot - top
      modifies this`term
      ensures Valid() && Parked() && term.standout == old(term.standout)
      ensures term.wild <==> old(term.wild) || Undetermined(true, top, bot)
      ensures !term.wild ==> term.rows == Up(old(term.rows), top, bot, n, curscr.maxx)
    {
      if caps.UpByRegion(top, bot, curscr.maxy) {
        UpInRegion(n, bot, top);
        GoBack(0);
      } else {
        DeleteThenInsert(term.rows, top, bot, n, curscr.maxx);
        TakeOutAtTop(n, bot, top);
        PutIn(n, top, bot - n + 1);
        GoBack(bot - n + 1);
      }
    }

    /** scrolln with n < 0: the block moves down by -n lines. */
    method ScrollDown(n: nat, bot: int, top: int)
      requires Valid() && Parked() && caps.CanScroll()
      requires 0 <= top <= bot < curscr.maxy && 0 < n <= bot - top
      modifies this`term
      ensures Valid() && Parked() && term.standout == old(term.standout)
      ensures term.wild <==> old(term.wild) || Undetermined(false, top, bot)
      ensures !term.wild ==> term.rows == Down(old(term.rows), top, bot, n, curscr.maxx)
    {
      if caps.DownByRegion(top, bot, curscr.maxy) {
        DownInRegion(n, bot, top);
        GoBack(0);
      } else {
        DeleteThenInsert(term.rows, top, bot, n, curscr.maxx);
        TakeOutAtBottom(n, bot);
        PutIn(n, bot - n + 1, top);
        GoBack(top);
      }
    }

    // ----- quickch -----

    /** `win` is a window of the size of the screen, apart from curscr. */
    ghost predicate Over(win: Window)
      reads this, curscr, curscr.lines, curscr.pool, curscr.buffers
      reads win, win.lines, win.pool, win.buffers
    {
      && Valid() && win.Valid()
      && win.maxy == curscr.maxy && win.maxx == curscr.maxx
      && win != curscr && win.lines != curscr.lines
      && win.pool !! curscr.pool && win.buffers !! curscr.buffers
    }

    method Matches(win: Window, y: int, s: int) returns (m: bool)
      requires Over(win) && 0 <= y < win.maxy && 0 <= s < win.maxy
      ensures m == (
        && !win.view[y].force
        && win.view[y].hash == curscr.view[s].hash && win.view[y].cells == curscr.view[s].cells)
      ensures m == Match(win.view[y], curscr.view[s])
    {
      var w, c := win.lines[y], curscr.lines[s];
      assert w.View() == win.view[y] && c.View() == curscr.view[s];
      m := !w.force && w.hash == c.hash && w.cells[..] == c.cells[..];
    }

    /** Marks a line clean that matches, next to those from lo to hi that do. */
    method CleanNext(win: Window, y: int, ghost v: seq<LineV>, ghost lo: int, ghost hi: int) returns (m: bool)
      requires Over(win) && 0 <= y < win.maxy && CleanedMatches(v, win.view, curscr.view, lo, hi)
      requires 0 <= lo <= hi <= win.maxy && (y == hi || y == lo - 1)
      modifies win`view, win.pool
      ensures Over(win) && m == Match(v[y], curscr.view[y])
      ensures if m then CleanedMatches(v, win.view, curscr.view, if y < lo then y else lo, if y < lo then hi else y + 1)
              else win.view == old(win.view)
    {
      m := Matches(win, y, y);
      if m { win.SetDirty(y, false); }
    }

    /** refresh.c:477-485: the unchanged lines at the top of the window are marked clean. */
    method FindTop(win: Window) returns (top: int)
      requires Over(win)
      modifies win`view, win.pool
      ensures Over(win) && 0 <= top <= win.maxy && CleanedMatches(old(win.view), win.view, curscr.view, 0, top)
      ensures top < win.maxy ==> !Match(win.view[top], curscr.view[top])
    {
      ghost var v := win.view;
      top := 0;
      while top < win.maxy
        invariant Over(win) && 0 <= top <= win.maxy && CleanedMatches(v, win.view, curscr.view, 0, top)
      {
        var m := CleanNext(win, top, v, 0, top);
        if !m { break; }
        top := top + 1;
      }
    }

    /** refresh.c:489-497: the unchanged lines at the bottom. */
    method FindBot(win: Window) returns (bot: int)
      requires Over(win)
      modifies win`view, win.pool
      ensures Over(win) && -1 <= bot < win.maxy
      ensures CleanedMatches(old(win.view), win.view, curscr.view, bot + 1, win.maxy)
      ensures 0 <= bot ==> !Match(win.view[bot], curscr.view[bot])
    {
      ghost var v := win.view;
      bot := win.maxy - 1;
      while bot >= 0
        invariant Over(win) && -1 <= bot < win.maxy
        invariant CleanedMatches(v, win.view, curscr.view, bot + 1, win.maxy)
      {
        var m := CleanNext(win, bot, v, bot + 1, win.maxy);
        if !m { break; }
        bot := bot - 1;
      }
    }

    /** refresh.c:525-535: compares one pair of blocks. */
    method CompareBlocks(win: Window, startw: int, starts: int, bsize: int) returns (m: bool)
      requires Over(win) && 0 <= startw && 0 <= starts && 0 <= bsize
      requires startw + bsize <= win.maxy && starts + bsize <= win.maxy
      ensures m <==> BlockMatches(win.view, curscr.view, startw, starts, bsize)
    {
      var curw, curs := startw, starts;
      while curs < starts + bsize
        invariant starts <= curs <= starts + bsize && curw - startw == curs - starts
        invariant forall k :: startw <= k < curw ==> Match(win.view[k], curscr.view[k - startw + starts])
      {
        var same := Matches(win, curw, curs);
        if !same { return false; }
        curw, curs := curw + 1, curs + 1;
      }
      return true;
    }

    /** refresh.c:521-542: the largest unchanged block of at least maxy/4 lines, if there is one, and of
        those the first. */
    method FindBlock(win: Window, top: int, bot: int) returns (bsize: int, startw: int, starts: int)
      requires Over(win) && 0 <= top && bot < win.maxy
      ensures bsize <= bot - top || bsize < win.maxy / 4
      ensures bsize >= win.maxy / 4 ==> top <= startw <= bot - bsize && top <= starts <= bot - bsize
      ensures bsize >= win.maxy / 4 ==> BlockMatches(win.view, curscr.view, startw, starts, bsize)
      ensures bsize >= win.maxy / 4 ==> NoneBefore(win.view, curscr.view, top, bot, startw, starts, bsize)
      ensures NoneLarger(win.view, curscr.view, top, bot, bsize, win.maxy / 4)
    {
      startw, starts := top, top;
      bsize := bot - top;
      while bsize >= win.maxy / 4
        invariant bsize <= bot - top
        invariant NoneLarger(win.view, curscr.view, top, bot, bsize, win.maxy / 4)
      {
        startw := top;
        while startw <= bot - bsize
          invariant top <= startw
          invariant forall w, s :: top <= w < startw && top <= s <= bot - bsize ==>
            !BlockMatches(win.view, curscr.view, w, s, bsize)
        {
          starts := top;
          while starts <= bot - bsize
            invariant top <= starts
            invariant forall s :: top <= s < starts ==> !BlockMatches(win.view, curscr.view, startw, s, bsize)
          {
            var m := CompareBlocks(win, startw, starts, bsize);
            if m { return; }
            starts := starts + 1;
          }
          startw := startw + 1;
        }
        bsize := bsize - 1;
      }
    }
  }
}
