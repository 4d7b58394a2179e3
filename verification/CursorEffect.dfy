/** What planned cursor motion does to the screen. While the screen is being refreshed, plod steps over
    a plain cell outside standout mode by writing the cell again; over any other cell, or in standout
    mode, it sends ND, and without ND a blank (cr_put.c:401-423). */
module CursorEffect {
  import opened Basics
  import opened Windows
  import T = Terminal
  import M = CursorMotion
  import D = CursorTerminal

  predicate OnRows(rows: seq<seq<Cell>>, p: M.Pos) {
    p.line < |rows| && p.col < |rows[p.line]|
  }

  function At(rows: seq<seq<Cell>>, p: M.Pos): Cell
    requires OnRows(rows, p)
  {
    rows[p.line][p.col]
  }

  function Written(rows: seq<seq<Cell>>, p: M.Pos, cell: Cell): (r: seq<seq<Cell>>)
    requires OnRows(rows, p)
    ensures |r| == |rows| && forall i :: 0 <= i < |r| ==> |r[i]| == |rows[i]|
  {
    rows[p.line := rows[p.line][p.col := cell]]
  }

  /** The rows after a motion, when curscr has the rows `base`. */
  function AfterMotion(rows: seq<seq<Cell>>, base: seq<seq<Cell>>, nd: bool, standout: bool, m: M.Motion):
      (r: seq<seq<Cell>>)
    ensures |r| == |rows| && forall i :: 0 <= i < |r| ==> |r[i]| == |rows[i]|
  {
    if !(m.Right? && OnRows(base, m.over) && OnRows(rows, m.over)) then rows
    else if !At(base, m.over).standout && !standout then Written(rows, m.over, Cell(At(base, m.over).ch, false))
    else if nd then rows
    else Written(rows, m.over, Cell(' ', standout))
  }

  function AfterMotions(rows: seq<seq<Cell>>, base: seq<seq<Cell>>, nd: bool, standout: bool, ms: seq<M.Motion>):
      (r: seq<seq<Cell>>)
    ensures |r| == |rows| && forall i :: 0 <= i < |r| ==> |r[i]| == |rows[i]|
  {
    if ms == [] then rows
    else AfterMotion(AfterMotions(rows, base, nd, standout, ms[..|ms| - 1]), base, nd, standout, ms[|ms| - 1])
  }

  /** The cells a step to the right writes again: those that are plain in curscr, outside standout mode. */
  ghost predicate AreShown(shown: map<M.Pos, char>, base: seq<seq<Cell>>, standout: bool) {
    && (forall p :: p in shown <==> OnRows(base, p) && !At(base, p).standout && !standout)
    && forall p :: p in shown ==> shown[p] == At(base, p).ch
  }

  predicate SameSize(a: seq<seq<Cell>>, b: seq<seq<Cell>>) {
    |a| == |b| && forall i :: 0 <= i < |a| ==> |a[i]| == |b[i]|
  }

  lemma {:induction false} MotionsFromTheFront(rows: seq<seq<Cell>>, base: seq<seq<Cell>>, nd: bool, standout: bool,
                                               ms: seq<M.Motion>)
    requires ms != []
    ensures AfterMotions(rows, base, nd, standout, ms)
            == AfterMotions(AfterMotion(rows, base, nd, standout, ms[0]), base, nd, standout, ms[1..])
    decreases |ms|
  {
    var front := ms[..|ms| - 1];
    if front == [] {
      assert ms[1..] == [];
    } else {
      MotionsFromTheFront(rows, base, nd, standout, front);
      assert ms[1..][..|ms| - 2] == front[1..];
    }
  }

  /** What the characters sent leave on a terminal that reads them is the effect the motions have here. */
  lemma {:induction false} EffectIsCarriedOut(rows: seq<seq<Cell>>, base: seq<seq<Cell>>, shown: map<M.Pos, char>,
                                              nd: bool, standout: bool, ms: seq<M.Motion>)
    requires AreShown(shown, base, standout) && SameSize(rows, base)
    ensures D.Stepped(rows, shown, nd, standout, ms) == AfterMotions(rows, base, nd, standout, ms)
    decreases |ms|
  {
    if ms != [] {
      MotionsFromTheFront(rows, base, nd, standout, ms);
      EffectIsCarriedOut(AfterMotion(rows, base, nd, standout, ms[0]), base, shown, nd, standout, ms[1..]);
    }
  }

  /** A motion that shows the cell it steps over again, whatever the terminal has. */
  predicate Harmless(base: seq<seq<Cell>>, standout: bool, m: M.Motion) {
    m.Right? && OnRows(base, m.over) ==>
      || (!At(base, m.over).standout && !standout)
      || At(base, m.over) == Cell(' ', standout)
  }

  predicate AllHarmless(base: seq<seq<Cell>>, standout: bool, ms: seq<M.Motion>) {
    forall i :: 0 <= i < |ms| ==> Harmless(base, standout, ms[i])
  }

  lemma HarmlessMotionKeeps(base: seq<seq<Cell>>, nd: bool, standout: bool, m: M.Motion)
    requires nd || Harmless(base, standout, m)
    ensures AfterMotion(base, base, nd, standout, m) == base
  {
    if m.Right? && OnRows(base, m.over) {
      var p := m.over;
      assert base[p.line][p.col := At(base, p)] == base[p.line];
      assert base[p.line := base[p.line]] == base;
    }
  }

  lemma {:induction false} HarmlessMotionsKeep(base: seq<seq<Cell>>, nd: bool, standout: bool, ms: seq<M.Motion>)
    requires nd || AllHarmless(base, standout, ms)
    ensures AfterMotions(base, base, nd, standout, ms) == base
  {
    if ms != [] {
      HarmlessMotionsKeep(base, nd, standout, ms[..|ms| - 1]);
      HarmlessMotionKeeps(base, nd, standout, ms[|ms| - 1]);
    }
  }

  /** A cell that a blank has been written over stays so. */
  lemma {:induction false} HarmStays(base: seq<seq<Cell>>, standout: bool, ms: seq<M.Motion>, i: nat)
    requires i < |ms| && !Harmless(base, standout, ms[i])
    ensures At(AfterMotions(base, base, false, standout, ms), ms[i].over) == Cell(' ', standout)
    decreases |ms|
  {
    if i < |ms| - 1 { HarmStays(base, standout, ms[..|ms| - 1], i); }
  }

  /** Motions made on a screen that shows curscr leave it unchanged if and only if the terminal has ND or
      every cell stepped over is plain and outside standout mode, or already such a blank. */
  lemma MotionsKeepTheScreenIff(base: seq<seq<Cell>>, nd: bool, standout: bool, ms: seq<M.Motion>)
    ensures AfterMotions(base, base, nd, standout, ms) == base <==> nd || AllHarmless(base, standout, ms)
  {
    if nd || AllHarmless(base, standout, ms) {
      HarmlessMotionsKeep(base, nd, standout, ms);
    } else {
      var i :| 0 <= i < |ms| && !Harmless(base, standout, ms[i]);
      HarmStays(base, standout, ms, i);
    }
  }

  // ----- plans -----

  /** The terminal after the planned motions to a place of the screen. */
  function AfterPlan(t: T.Term, c: M.Caps, dest: M.Pos): T.Term
    requires 0 <= t.row && 0 <= t.col && M.Choose(c, M.Pos(t.row, t.col), dest) != M.Impossible
  {
    var ms := M.Plan(c, M.Pos(t.row, t.col), dest);
    t.(rows := AfterMotions(t.rows, t.rows, c.nd.Some?, t.standout, ms), row := dest.line, col := dest.col)
  }

  /** The motions lead to the place, and have the effect of absolute addressing if and only if the
      terminal has ND or each of them is harmless. */
  lemma PlanIsAddressingIff(t: T.Term, c: M.Caps, dest: M.Pos)
    requires T.WfTerm(t, c.lines, c.cols) && t.col < c.cols && M.OnScreen(c, dest) && !c.nc
    requires M.Choose(c, M.Pos(t.row, t.col), dest) != M.Impossible
    ensures M.Leads(c, M.Plan(c, M.Pos(t.row, t.col), dest), M.Pos(t.row, t.col), dest)
    ensures AfterPlan(t, c, dest) == T.MoveTo(t, dest.line, dest.col)
            <==> c.nd.Some? || AllHarmless(t.rows, t.standout, M.Plan(c, M.Pos(t.row, t.col), dest))
  {
    var from := M.Pos(t.row, t.col);
    M.PlanLeads(c, from, dest);
    MotionsKeepTheScreenIff(t.rows, c.nd.Some?, t.standout, M.Plan(c, from, dest));
  }

  /** They always have it on a terminal with ND, and where nothing stands out. */
  lemma SafeMovesAddress(t: T.Term, c: M.Caps, dest: M.Pos)
    requires T.WfTerm(t, c.lines, c.cols) && t.col < c.cols && M.OnScreen(c, dest) && !c.nc
    requires M.Choose(c, M.Pos(t.row, t.col), dest) != M.Impossible
    requires c.nd.Some? || (!t.standout && NothingStandsOut(t.rows))
    ensures AfterPlan(t, c, dest) == T.MoveTo(t, dest.line, dest.col)
  {
    var ms := M.Plan(c, M.Pos(t.row, t.col), dest);
    forall i | c.nd.None? && 0 <= i < |ms| ensures Harmless(t.rows, t.standout, ms[i]) {
    }
    PlanIsAddressingIff(t, c, dest);
  }

  predicate NothingStandsOut(rows: seq<seq<Cell>>) {
    forall i, x :: 0 <= i < |rows| && 0 <= x < |rows[i]| ==> !rows[i][x].standout
  }

  lemma {:induction false} TimesIsNoStep(n: nat, m: M.Motion, base: seq<seq<Cell>>, standout: bool)
    requires !m.Right?
    ensures AllHarmless(base, standout, M.Times(n, m))
  {
    if n > 0 { TimesIsNoStep(n - 1, m, base, standout); }
  }

  /** So they have on the way to the margin: nothing is stepped over. */
  lemma MarginMovesAddress(t: T.Term, c: M.Caps, line: nat)
    requires T.WfTerm(t, c.lines, c.cols) && t.col < c.cols && line < c.lines && !c.nc
    requires M.Choose(c, M.Pos(t.row, t.col), M.Pos(line, 0)) != M.Impossible
    ensures AfterPlan(t, c, M.Pos(line, 0)) == T.MoveTo(t, line, 0)
  {
    var from, dest := M.Pos(t.row, t.col), M.Pos(line, 0);
    var (ms, p) := M.Begin(c, from, M.Choose(c, from, dest));
    LocalIsHarmless(c, p, line, t.rows, t.standout);
    PlanIsAddressingIff(t, c, dest);
  }

  lemma LocalIsHarmless(c: M.Caps, p: M.Pos, line: nat, base: seq<seq<Cell>>, standout: bool)
    ensures AllHarmless(base, standout, M.Local(c, p, M.Pos(line, 0)))
  {
    var dest := M.Pos(line, 0);
    var (a, p1) := M.CarriageReturn(c, p, dest);
    var (b, p2) := M.Down(c, p1, dest);
    var (d, p3) := M.Left(p2, dest);
    if p1.line < line { TimesIsNoStep(line - p1.line, M.Linefeed, base, standout); }
    if p2.col > 0 { TimesIsNoStep(p2.col, M.Back, base, standout); }
    if p3.line > line { TimesIsNoStep(p3.line - line, M.Motion.Up, base, standout); }
    assert M.Rightward(p3, 0) == [];
  }

  /** An input for which a step writes over the cell: one that stands out, without ND. */
  lemma StepBlanksStandout()
    ensures var row := [Cell('a', true), Cell('b', false)];
      AfterMotions([row], [row], false, false, [M.Right(M.Pos(0, 0))]) == [[Cell(' ', false), Cell('b', false)]]
  {
    var row, m := [Cell('a', true), Cell('b', false)], M.Right(M.Pos(0, 0));
    assert [m][..0] == [];
    assert row[0 := Cell(' ', false)] == [Cell(' ', false), Cell('b', false)];
  }
}
