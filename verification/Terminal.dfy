/** A model of the screen terminal that Libcurses-21/refresh.c drives, as termcap describes its
    commands. Cursor addressing is absolute. */
module Terminal {
  import opened Windows

  /** What the terminal shows, its cursor (col == width means past the last column), its standout
      mode and its scrolling region top..bot. `wild` records that it was sent something whose
      effect is not determined, or that it scrolled when nobody asked for scrolling. */
  datatype Term = Term(
    rows: seq<seq<Cell>>, row: int, col: int, standout: bool, top: int, bot: int, wild: bool)

  predicate WfTerm(t: Term, h: nat, w: nat) {
    && |t.rows| == h > 0 && w > 0
    && (forall i :: 0 <= i < h ==> |t.rows[i]| == w)
    && 0 <= t.row < h && 0 <= t.col <= w
    && 0 <= t.top <= t.bot < h
  }

  // ----- scrolling -----

  /** Lines a..b moved up by n, blank lines coming in at the bottom. */
  function Up(rows: seq<seq<Cell>>, a: int, b: int, n: nat, w: nat): (r: seq<seq<Cell>>)
    requires 0 <= a && b < |rows|
    ensures |r| == |rows|
  {
    seq(|rows|, i requires 0 <= i < |rows| =>
      if a <= i <= b then (if i + n <= b then rows[i + n] else Blanks(w)) else rows[i])
  }

  /** Lines a..b moved down by n, blank lines coming in at the top. */
  function Down(rows: seq<seq<Cell>>, a: int, b: int, n: nat, w: nat): (r: seq<seq<Cell>>)
    requires 0 <= a && b < |rows|
    ensures |r| == |rows|
  {
    seq(|rows|, i requires 0 <= i < |rows| =>
      if a <= i <= b then (if a <= i - n then rows[i - n] else Blanks(w)) else rows[i])
  }

  lemma ScrollWidth(rows: seq<seq<Cell>>, a: int, b: int, n: nat, w: nat)
    requires 0 <= a && b < |rows| && forall i :: 0 <= i < |rows| ==> |rows[i]| == w
    ensures forall i :: 0 <= i < |rows| ==> |Up(rows, a, b, n, w)[i]| == w
    ensures forall i :: 0 <= i < |rows| ==> |Down(rows, a, b, n, w)[i]| == w
  {
    forall i | 0 <= i < |rows| ensures |Up(rows, a, b, n, w)[i]| == w && |Down(rows, a, b, n, w)[i]| == w {
      assert |Blanks(w)| == w;
    }
  }

  lemma UpOnce(rows: seq<seq<Cell>>, a: int, b: int, n: nat, w: nat)
    requires 0 <= a && b < |rows|
    ensures Up(Up(rows, a, b, n, w), a, b, 1, w) == Up(rows, a, b, n + 1, w)
    ensures Up(rows, a, b, 0, w) == rows
  {
  }

  lemma DownOnce(rows: seq<seq<Cell>>, a: int, b: int, n: nat, w: nat)
    requires 0 <= a && b < |rows|
    ensures Down(Down(rows, a, b, n, w), a, b, 1, w) == Down(rows, a, b, n + 1, w)
    ensures Down(rows, a, b, 0, w) == rows
  {
  }

  /** Deleting n lines at the top of a block and inserting n at the end of the block, or the other
      way round, moves the block and leaves the lines below it where they were. */
  lemma DeleteThenInsert(rows: seq<seq<Cell>>, a: int, b: int, n: nat, w: nat)
    requires 0 <= a && b < |rows| && n <= b - a + 1
    ensures Down(Up(rows, a, |rows| - 1, n, w), b - n + 1, |rows| - 1, n, w) == Up(rows, a, b, n, w)
    ensures Down(Up(rows, b - n + 1, |rows| - 1, n, w), a, |rows| - 1, n, w) == Down(rows, a, b, n, w)
  {
  }

  // ----- the commands -----

  /** Cursor addressing: a destination below the screen is reached by linefeeds on the bottom line,
      which scroll everything up. */
  function MoveTo(t: Term, y: int, x: int): Term
    requires |t.rows| > 0
  {
    var h := |t.rows|;
    if y < h then t.(row := y, col := x)
    else t.(rows := Up(t.rows, 0, h - 1, y - h + 1, |t.rows[0]|), row := h - 1, col := x, wild := true)
  }

  /** CM by itself: an address off the screen is clipped, and rows never change. */
  function Address(t: Term, y: int, x: int): Term
    requires |t.rows| > 0
  {
    if y < |t.rows| then t.(row := y, col := x) else t.(row := |t.rows| - 1, col := x, wild := true)
  }

  /** putchar */
  function Put(t: Term, c: char): Term
    requires 0 <= t.row < |t.rows| && 0 <= t.col <= |t.rows[t.row]|
  {
    if t.col == |t.rows[t.row]| then t.(wild := true)
    else t.(rows := t.rows[t.row := t.rows[t.row][t.col := Cell(c, t.standout)]], col := t.col + 1)
  }

  function SetStandout(t: Term, on: bool): Term {
    t.(standout := on)
  }

  /** CE */
  function ClearToEol(t: Term): Term
    requires 0 <= t.row < |t.rows| && 0 <= t.col <= |t.rows[t.row]|
  {
    var r := t.rows[t.row];
    t.(rows := t.rows[t.row := r[..t.col] + Blanks(|r| - t.col)])
  }

  /** CL */
  function Clear(t: Term, w: nat): Term {
    t.(rows := seq(|t.rows|, i => Blanks(w)), row := 0, col := 0)
  }

  /** HO */
  function Home(t: Term): Term {
    t.(row := 0, col := 0)
  }

  /** CS, whose parameters count the first and the last line of the region. */
  function SetRegion(t: Term, top: int, bot: int): Term {
    t.(top := top, bot := bot)
  }

  /** SF n, or sf n times: defined on the last line of the scrolling region. */
  function ScrollForward(t: Term, n: nat, w: nat): Term
    requires 0 <= t.top && t.bot < |t.rows|
  {
    if t.row == t.bot then t.(rows := Up(t.rows, t.top, t.bot, n, w)) else t.(wild := true)
  }

  /** SR n, or sr n times: defined on the first line of the scrolling region. */
  function ScrollReverse(t: Term, n: nat, w: nat): Term
    requires 0 <= t.top && t.bot < |t.rows|
  {
    if t.row == t.top then t.(rows := Down(t.rows, t.top, t.bot, n, w)) else t.(wild := true)
  }

  /** DL n, or dl n times: takes out lines from the cursor line on. */
  function DeleteLines(t: Term, n: nat, w: nat): Term
    requires 0 <= t.row && t.bot < |t.rows|
  {
    if t.top <= t.row <= t.bot then t.(rows := Up(t.rows, t.row, t.bot, n, w)) else t.(wild := true)
  }

  /** AL n, or al n times: puts in blank lines at the cursor line. */
  function InsertLines(t: Term, n: nat, w: nat): Term
    requires 0 <= t.row && t.bot < |t.rows|
  {
    if t.top <= t.row <= t.bot then t.(rows := Down(t.rows, t.row, t.bot, n, w)) else t.(wild := true)
  }

  // Sending the one-line command n times has the effect of the command with parameter n.

  lemma ScrollForwardOnce(t: Term, n: nat, h: nat, w: nat)
    requires WfTerm(t, h, w) && 0 < n
    ensures ScrollForward(ScrollForward(t, n, w), 1, w) == ScrollForward(t, n + 1, w)
    ensures WfTerm(ScrollForward(t, n, w), h, w)
  {
    UpOnce(t.rows, t.top, t.bot, n, w);
    ScrollWidth(t.rows, t.top, t.bot, n, w);
  }

  lemma ScrollReverseOnce(t: Term, n: nat, h: nat, w: nat)
    requires WfTerm(t, h, w) && 0 < n
    ensures ScrollReverse(ScrollReverse(t, n, w), 1, w) == ScrollReverse(t, n + 1, w)
    ensures WfTerm(ScrollReverse(t, n, w), h, w)
  {
    DownOnce(t.rows, t.top, t.bot, n, w);
    ScrollWidth(t.rows, t.top, t.bot, n, w);
  }

  lemma DeleteLinesOnce(t: Term, n: nat, h: nat, w: nat)
    requires WfTerm(t, h, w) && 0 < n
    ensures DeleteLines(DeleteLines(t, n, w), 1, w) == DeleteLines(t, n + 1, w)
    ensures WfTerm(DeleteLines(t, n, w), h, w)
  {
    UpOnce(t.rows, t.row, t.bot, n, w);
    ScrollWidth(t.rows, t.row, t.bot, n, w);
  }

  lemma InsertLinesOnce(t: Term, n: nat, h: nat, w: nat)
    requires WfTerm(t, h, w) && 0 < n
    ensures InsertLines(InsertLines(t, n, w), 1, w) == InsertLines(t, n + 1, w)
    ensures WfTerm(InsertLines(t, n, w), h, w)
  {
    DownOnce(t.rows, t.row, t.bot, n, w);
    ScrollWidth(t.rows, t.row, t.bot, n, w);
  }

  /** The cursor is where it is taken to be; past the last column a wrap may be pending. */
  predicate Agrees(t: Term, y: int, x: int, w: nat) {
    t.row == y && (t.col == x || (x == w - 1 && t.col == w))
  }

  /** Where __mvcur can start from: where the cursor is, or what is taken to be the last column, from
      where it never moves relatively (cr_put.c:183-190). */
  predicate From(t: Term, oy: int, ox: int)
    requires |t.rows| > 0
  {
    ox == |t.rows[0]| - 1 || (t.row == oy && t.col == ox)
  }

  /** __mvcur, from where the cursor is taken to be. If it is not there, where it goes is not determined.
      To get to a column behind the margin it may step over cells, and without ND a step over a cell in
      standout, or in standout mode, writes a blank there; what the terminal then shows is not
      determined here either. */
  function Mvcur(t: Term, c: Caps, oy: int, ox: int, y: int, x: int): Term
    requires |t.rows| > 0
  {
    if From(t, oy, ox) && (c.SafeMoves() || x == 0 || ox == |t.rows[0]| - 1) then MoveTo(t, y, x)
    else MoveTo(t, y, x).(wild := true)
  }

  /** A linefeed that nobody asked for: on the bottom line it scrolls. */
  function Newline(t: Term, w: nat): Term
    requires |t.rows| > 0
  {
    if t.row + 1 < |t.rows| then t.(row := t.row + 1, col := 0)
    else t.(rows := Up(t.rows, 0, |t.rows| - 1, 1, w), col := 0, wild := true)
  }

  /** The capabilities refresh.c looks at; `ce` is the length of CE, or 0 without it, and `stands`
      says that SO and SE are both there. UC is absent. */
  datatype Caps = Caps(
    cs: bool, ho: bool, SF: bool, sf: bool, SR: bool, sr: bool,
    AL: bool, al: bool, DL: bool, dl: bool,
    ce: nat, stands: bool, ms: bool, am: bool, nd: bool)
  {
    /** No cursor motion writes over cells. */
    predicate SafeMoves() {
      nd || !stands
    }

    /** setterm.c:179-182: quickch is only used on terminals for which this holds. */
    predicate CanScroll() {
      !((!cs || !ho || (!SF && !sf) || (!SR && !sr)) && ((!AL && !al) || (!DL && !dl)))
    }

    /** refresh.c:746-748: is the block scrolled up inside a scrolling region? */
    predicate UpByRegion(top: int, bot: int, h: nat) {
      cs && ho && (SF || ((!AL || !DL || top > 3 || bot + 3 < h) && sf))
    }

    /** refresh.c:801-803: is the block scrolled down inside a scrolling region? */
    predicate DownByRegion(top: int, bot: int, h: nat) {
      cs && ho && (SR || ((!AL || !DL || top > 3 || bot + 3 < h) && sr))
    }

    /** refresh.c:766 scrolls the whole screen by SF without a scrolling region. */
    predicate PlainForward(top: int, bot: int, h: nat) {
      !UpByRegion(top, bot, h) && SF && top == 0
    }
  }
}
