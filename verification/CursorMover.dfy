/** The planner as it runs: once to count, once to send. */
module CursorMover {
  import opened Basics
  import opened CursorMotion
  import opened CursorTerminal

  function OrElse(s: Option<string>, default': string): string {
    if s.Some? then s.value else default'
  }

  /** The characters of a motion. While the screen is being refreshed, a step to the right is made
      by writing the character that `shown` has there, if its standout mode is the current one. */
  function Text(c: Caps, shown: map<Pos, char>, inRefresh: bool, m: Motion): string {
    match m
    case Home => OrElse(c.ho, "")
    case LowerLeft => OrElse(c.ll, "")
    case Return => OrElse(c.cr, "\r")
    case Linefeed => OrElse(c.nl, "\n")
    case Back => OrElse(c.bc, "\U{0008}")
    case Up => OrElse(c.up, "")
    case Tab => OrElse(c.ta, "\t")
    case Right(over) => if inRefresh && over in shown then [shown[over]] else OrElse(c.nd, " ")
  }

  function Texts(c: Caps, shown: map<Pos, char>, inRefresh: bool, ms: seq<Motion>): string {
    if ms == [] then [] else Texts(c, shown, inRefresh, ms[..|ms| - 1]) + Text(c, shown, inRefresh, ms[|ms| - 1])
  }

  /** What the counting run takes a motion to cost. */
  function Cost(c: Caps, inRefresh: bool, m: Motion): nat {
    if m.Right? && inRefresh then 1 else |Text(c, map[], false, m)|
  }

  function Costs(c: Caps, inRefresh: bool, ms: seq<Motion>): nat {
    if ms == [] then 0 else Costs(c, inRefresh, ms[..|ms| - 1]) + Cost(c, inRefresh, ms[|ms| - 1])
  }

  /** Outside a refresh the count is exact. */
  lemma {:induction false} CostIsLength(c: Caps, shown: map<Pos, char>, ms: seq<Motion>)
    ensures |Texts(c, shown, false, ms)| == Costs(c, false, ms)
  {
    if ms != [] { CostIsLength(c, shown, ms[..|ms| - 1]); }
  }

  /** In a refresh a step over a cell that is not written again counts one character, whatever ND has. */
  predicate CountedRight(c: Caps, shown: map<Pos, char>, m: Motion) {
    m.Right? ==> m.over in shown || |OrElse(c.nd, " ")| == 1
  }

  /** In a refresh the count is never more than the length, and it is exact if and only if each step to
      the right writes a cell again or ND is a single character. */
  lemma {:induction false} RefreshCostIff(c: Caps, shown: map<Pos, char>, ms: seq<Motion>)
    requires OrElse(c.nd, " ") != ""
    ensures Costs(c, true, ms) <= |Texts(c, shown, true, ms)|
    ensures |Texts(c, shown, true, ms)| == Costs(c, true, ms) <==>
      forall i :: 0 <= i < |ms| ==> CountedRight(c, shown, ms[i])
  {
    if ms != [] { RefreshCostIff(c, shown, ms[..|ms| - 1]); }
  }

  /** A terminal with addressing whose ND has three characters. */
  const LONG_ND: Caps :=
    Caps(None, None, None, None, None, None, Some("ESC"), None, false, false, false, false, true, true, 24, 80)

  lemma FourToTheRight()
    ensures var ms := Plan(LONG_ND, Pos(0, 0), Pos(0, 4));
      Costs(LONG_ND, true, ms) == 4 && |Texts(LONG_ND, map[], true, ms)| == 12
  {
    var p := seq(4, i requires 0 <= i < 4 => Right(Pos(0, i)));
    assert Rightward(Pos(0, 0), 4) == p by {
      assert Rightward(Pos(0, 3), 4) == p[3..];
      assert Rightward(Pos(0, 2), 4) == p[2..];
      assert Rightward(Pos(0, 1), 4) == p[1..];
    }
    assert Plan(LONG_ND, Pos(0, 0), Pos(0, 4)) == p;
    FourSteps(LONG_ND, p);
  }

  lemma FourSteps(c: Caps, p: seq<Motion>)
    requires |p| == 4 && (forall i :: 0 <= i < 4 ==> p[i].Right?) && c.nd.Some? && |c.nd.value| == 3
    ensures Costs(c, true, p) == 4 && |Texts(c, map[], true, p)| == 12
  {
    assert p[..3][..2] == p[..2] && p[..2][..1] == p[..1] && p[..1][..0] == [];
    assert Costs(c, true, p[..1]) == 1 && |Texts(c, map[], true, p[..1])| == 3;
    assert Costs(c, true, p[..2]) == 2 && |Texts(c, map[], true, p[..2])| == 6;
    assert Costs(c, true, p[..3]) == 3 && |Texts(c, map[], true, p[..3])| == 9;
  }

  lemma {:induction false} CostsGrow(c: Caps, inRefresh: bool, a: seq<Motion>, b: seq<Motion>)
    requires a <= b
    ensures Costs(c, inRefresh, a) <= Costs(c, inRefresh, b)
    decreases |b|
  {
    if a != b {
      CostsGrow(c, inRefresh, a, b[..|b| - 1]);
    }
  }

  lemma OneMore(ms: seq<Motion>, m: Motion, more: seq<Motion>)
    ensures ms + [m] + more == ms + ([m] + more) && (ms + [m])[..|ms|] == ms
  {
  }

  lemma OneMoreTold(c: Caps, shown: map<Pos, char>, inRefresh: bool, ms: seq<Motion>, m: Motion, sent: string)
    ensures Costs(c, inRefresh, ms + [m]) == Costs(c, inRefresh, ms) + Cost(c, inRefresh, m)
    ensures sent + Texts(c, shown, inRefresh, ms + [m])
            == sent + Texts(c, shown, inRefresh, ms) + Text(c, shown, inRefresh, m)
  {
    var both := ms + [m];
    assert both[..|both| - 1] == ms && both[|both| - 1] == m;
    Joined(sent, Texts(c, shown, inRefresh, ms), Text(c, shown, inRefresh, m));
  }

  lemma Joined(a: string, b: string, c: string)
    ensures a + (b + c) == a + b + c
  {
  }

  // ----- what is sent does what was planned -----

  /** What the steps to the right can show: nothing outside a refresh. */
  function Visible(shown: map<Pos, char>, inRefresh: bool): map<Pos, char> {
    if inRefresh then shown else map[]
  }

  lemma {:induction false} TextsFromTheFront(c: Caps, shown: map<Pos, char>, inRefresh: bool, ms: seq<Motion>)
    requires ms != []
    ensures Texts(c, shown, inRefresh, ms) == Text(c, shown, inRefresh, ms[0]) + Texts(c, shown, inRefresh, ms[1..])
    decreases |ms|
  {
    var front, last := ms[..|ms| - 1], ms[|ms| - 1];
    if front == [] {
      assert ms[1..] == [];
    } else {
      TextsFromTheFront(c, shown, inRefresh, front);
      assert ms[1..][..|ms| - 2] == front[1..];
      Joined(Text(c, shown, inRefresh, ms[0]), Texts(c, shown, inRefresh, front[1..]), Text(c, shown, inRefresh, last));
    }
  }

  /** A motion of the cursor alone. */
  lemma PlainMotionIsCarriedOut(c: Caps, shown: map<Pos, char>, inRefresh: bool, m: Motion, rest: string, d: Device)
    requires Legible(c, shown) && IsDevice(c, d) && Allowed(c, m, d.pos) && !m.Right?
    ensures Execute(c, Text(c, shown, inRefresh, m) + rest, d) == Execute(c, rest, d.(pos := Moved(c, m, d.pos)))
  {
    var v := match m
      case Home => DoHome
      case LowerLeft => DoLow
      case Return => DoReturn
      case Linefeed => DoLine
      case Back => DoBack
      case Up => DoUp
      case _ => DoTab;
    CodeIsCarriedOut(c, shown, v, rest, d);
  }

  lemma StepIsCarriedOut(c: Caps, shown: map<Pos, char>, inRefresh: bool, m: Motion, rest: string, d: Device)
    requires Legible(c, shown) && IsDevice(c, d) && Allowed(c, m, d.pos) && m.Right?
    ensures var rows := SteppedOnce(d.rows, Visible(shown, inRefresh), c.nd.Some?, d.standout, m);
      Execute(c, Text(c, shown, inRefresh, m) + rest, d)
      == Execute(c, rest, d.(pos := Moved(c, m, d.pos), rows := rows))
  {
    if inRefresh && m.over in shown {
      NoCodeBegins(c, shown, m.over);
      CharIsShown(c, shown[m.over], rest, d);
    } else if c.nd.Some? {
      CodeIsCarriedOut(c, shown, DoRight, rest, d);
    } else {
      CharIsShown(c, ' ', rest, d);
    }
  }

  lemma NoCodeBegins(c: Caps, shown: map<Pos, char>, p: Pos)
    requires Legible(c, shown) && p in shown
    ensures forall v :: Code(c, v).Some? ==> Code(c, v).value != "" && Code(c, v).value[0] != shown[p]
  {
    forall v | Code(c, v).Some? ensures Code(c, v).value[0] != shown[p] {
      assert Code(c, v).value[..1] == [Code(c, v).value[0]];
    }
  }

  lemma {:induction false} TextsAreCarriedOut(c: Caps, shown: map<Pos, char>, inRefresh: bool, ms: seq<Motion>,
                                              d: Device, q: Pos)
    requires Legible(c, shown) && IsDevice(c, d) && Leads(c, ms, d.pos, q)
    ensures Execute(c, Texts(c, shown, inRefresh, ms), d)
            == Device(q, Stepped(d.rows, Visible(shown, inRefresh), c.nd.Some?, d.standout, ms), d.standout)
    decreases |ms|
  {
    if ms != [] {
      var rest := Texts(c, shown, inRefresh, ms[1..]);
      var rows := SteppedOnce(d.rows, Visible(shown, inRefresh), c.nd.Some?, d.standout, ms[0]);
      var next := d.(pos := Moved(c, ms[0], d.pos), rows := rows);
      TextsFromTheFront(c, shown, inRefresh, ms);
      if ms[0].Right? {
        StepIsCarriedOut(c, shown, inRefresh, ms[0], rest, d);
      } else {
        PlainMotionIsCarriedOut(c, shown, inRefresh, ms[0], rest, d);
      }
      TextsAreCarriedOut(c, shown, inRefresh, ms[1..], next, q);
    }
  }

  /** For every terminal whose strings can be told apart: the characters of motions that lead from `p` to
      `q`, read by it, take its cursor there, and the cells stepped over are left as the steps say. */
  lemma MotionsAreCarriedOut(c: Caps, shown: map<Pos, char>, inRefresh: bool, ms: seq<Motion>, p: Pos, q: Pos)
    requires Legible(c, shown) && Leads(c, ms, p, q)
    ensures CarriesOut(c, Visible(shown, inRefresh), Texts(c, shown, inRefresh, ms), ms, p, q)
  {
    forall d: Device | IsDevice(c, d) && d.pos == p
      ensures Execute(c, Texts(c, shown, inRefresh, ms), d)
              == Device(q, Stepped(d.rows, Visible(shown, inRefresh), c.nd.Some?, d.standout, ms), d.standout)
    {
      TextsAreCarriedOut(c, shown, inRefresh, ms, d, q);
    }
  }

  class Mover {
    const caps: Caps
    const shown: map<Pos, char>
    const inRefresh: bool
    var outline: nat
    var outcol: nat
    var destline: nat
    var destcol: nat
    var plodcnt: int
    var plodflg: int
    var output: string
    ghost var done: seq<Motion>

    constructor (caps: Caps, shown: map<Pos, char>, inRefresh: bool, from: Pos, dest: Pos)
      ensures this.caps == caps && this.shown == shown && this.inRefresh == inRefresh && output == ""
      ensures Here() == from && There() == dest
    {
      this.caps, this.shown, this.inRefresh := caps, shown, inRefresh;
      outline, outcol, destline, destcol := from.line, from.col, dest.line, dest.col;
      plodcnt, plodflg, output, done := 0, 0, "", [];
    }

    function Here(): Pos
      reads this
    {
      Pos(outline, outcol)
    }

    function There(): Pos
      reads this
    {
      Pos(destline, destcol)
    }

    /** What has been counted or sent of the motions so far. */
    ghost predicate Told(sent: string)
      reads this
    {
      && plodcnt == plodflg - (if plodflg != 0 then Costs(caps, inRefresh, done) else 0)
      && output == if plodflg != 0 then sent else sent + Texts(caps, shown, inRefresh, done)
    }

    /** plodput and tputs. */
    method Put(m: Motion, ghost sent: string)
      requires Told(sent)
      modifies `plodcnt, `output, `done
      ensures Told(sent) && done == old(done) + [m]
    {
      OneMoreTold(caps, shown, inRefresh, done, m, sent);
      if plodflg != 0 {
        plodcnt := plodcnt - Cost(caps, inRefresh, m);
      } else {
        output := output + Text(caps, shown, inRefresh, m);
      }
      done := done + [m];
    }

    /** A stage has made its motions, or has stopped within them as the budget was spent. */
    ghost predicate Staged(before: seq<Motion>, stage: (seq<Motion>, Pos), stop: bool)
      reads this
    {
      if stop then plodcnt < 0 && done <= before + stage.0
      else done == before + stage.0 && Here() == stage.1
    }

    method GoDown(ghost sent: string) returns (stop: bool)
      requires Told(sent)
      modifies `outline, `outcol, `plodcnt, `output, `done
      ensures Told(sent) && Staged(old(done), old(Down(caps, Here(), There())), stop)
    {
      stop := false;
      assert done + [] == done;
      if outline < destline { stop := Feed(sent); }
    }

    /** The linefeeds. */
    method Feed(ghost sent: string) returns (stop: bool)
      requires Told(sent) && outline < destline
      modifies `outline, `outcol, `plodcnt, `output, `done
      ensures Told(sent)
      ensures var lines := old(done) + Times(destline - old(outline), Linefeed);
              if stop then plodcnt < 0 && done <= lines
              else done == lines && outline == destline && outcol == if Returning(caps) then 0 else old(outcol)
    {
      ghost var start, whole := outline, done + Times(destline - outline, Linefeed);
      while outline < destline
        invariant Told(sent) && start <= outline <= destline
        invariant done + Times(destline - outline, Linefeed) == whole
        invariant outcol == if outline > start && Returning(caps) then 0 else old(outcol)
      {
        stop := FeedOne(sent);
        if stop { return; }
      }
      assert done + [] == done;
      return false;
    }

    /** One linefeed. */
    method FeedOne(ghost sent: string) returns (stop: bool)
      requires Told(sent) && outline < destline
      modifies `outline, `outcol, `plodcnt, `output, `done
      ensures Told(sent) && outline == old(outline) + 1
      ensures done + Times(destline - outline, Linefeed) == old(done) + old(Times(destline - outline, Linefeed))
      ensures if stop then plodcnt < 0 else outcol == if Returning(caps) then 0 else old(outcol)
    {
      OneMore(done, Linefeed, Times(destline - outline - 1, Linefeed));
      outline := outline + 1;
      Put(Linefeed, sent);
      if plodcnt < 0 { return true; }
      if caps.nonl || !caps.pfast { outcol := 0; }
      return false;
    }

    method GoLeft(ghost sent: string) returns (stop: bool)
      requires Told(sent)
      modifies `outcol, `plodcnt, `output, `done
      ensures Told(sent) && Staged(old(done), old(Left(Here(), There())), stop)
    {
      ghost var start := outcol;
      while outcol > destcol
        invariant Told(sent) && outcol <= start && (outcol >= destcol || outcol == start)
        invariant outcol >= destcol ==> done + Times(outcol - destcol, Back) == old(done) + Times(start - destcol, Back)
        invariant outcol == start ==> done == old(done)
      {
        if plodcnt < 0 { return true; }
        OneMore(done, Back, Times(outcol - destcol - 1, Back));
        outcol := outcol - 1;
        Put(Back, sent);
      }
      assert done + [] == done && old(done) + [] == old(done);
      return false;
    }

    method GoUp(ghost sent: string) returns (stop: bool)
      requires Told(sent)
      modifies `outline, `plodcnt, `output, `done
      ensures Told(sent) && Staged(old(done), old(Upward(Here(), There())), stop)
    {
      ghost var start := outline;
      while outline > destline
        invariant Told(sent) && outline <= start && (outline >= destline || outline == start)
        invariant outline >= destline ==>
          done + Times(outline - destline, Up) == old(done) + Times(start - destline, Up)
        invariant outline == start ==> done == old(done)
      {
        OneMore(done, Up, Times(outline - destline - 1, Up));
        outline := outline - 1;
        Put(Up, sent);
        if plodcnt < 0 { return true; }
      }
      assert done + [] == done && old(done) + [] == old(done);
      return false;
    }

    /** Tabs as far as they do not pass the column; `i` is the stop behind. */
    method GoTabs(ghost sent: string) returns (i: nat)
      requires Told(sent) && outcol <= destcol
      modifies `outcol, `plodcnt, `output, `done
      ensures Told(sent) && done == old(done) + Tabs(old(outcol), destcol)
      ensures outcol == AfterTabs(old(outcol), destcol) && i == TabStop(outcol)
    {
      ghost var start := outcol;
      ghost var whole := done + Tabs(start, destcol);
      i := TabStop(outcol);
      while i <= destcol
        invariant Told(sent) && i == TabStop(outcol) && outcol <= destcol
        invariant done + Tabs(outcol, destcol) == whole
        invariant AfterTabs(outcol, destcol) == AfterTabs(start, destcol)
        decreases destcol - outcol
      {
        OneMore(done, Tab, Tabs(i, destcol));
        Put(Tab, sent);
        outcol := i;
        i := TabStop(outcol);
      }
      assert done + [] == done;
    }

    /** Tabs, and perhaps one too many and back again; the budget is not looked at meanwhile. */
    method GoTabbing(ghost sent: string)
      requires Told(sent)
      modifies `outcol, `plodcnt, `output, `done
      ensures Told(sent) && Staged(old(done), old(Tabbing(caps, Here(), There())), false)
    {
      assert done + [] == done;
      if caps.gt && (destcol as int) - outcol > 1 {
        ghost var before, tabs := done, Tabs(outcol, destcol);
        var i := GoTabs(sent);
        if (destcol as int) - outcol > 4 && i < caps.cols && (caps.bc.Some? || caps.bs) {
          ghost var back := [Tab] + Times(i - destcol, Back);
          GoBack(i, sent);
          Reassociate(before, tabs, back);
        }
      }
    }

    /** One tab to column `i`, and back. */
    method GoBack(i: nat, ghost sent: string)
      requires Told(sent) && i > destcol
      modifies `outcol, `plodcnt, `output, `done
      ensures Told(sent) && done == old(done) + ([Tab] + Times(i - destcol, Back)) && outcol == destcol
    {
      OneMore(done, Tab, Times(i - destcol, Back));
      Put(Tab, sent);
      outcol := i;
      while outcol > destcol
        invariant Told(sent) && outcol >= destcol
        invariant done + Times(outcol - destcol, Back) == old(done) + ([Tab] + Times(i - destcol, Back))
      {
        OneMore(done, Back, Times(outcol - destcol - 1, Back));
        outcol := outcol - 1;
        Put(Back, sent);
      }
      assert done + [] == done;
    }

    method GoRight(ghost sent: string) returns (stop: bool)
      requires Told(sent)
      modifies `outcol, `plodcnt, `output, `done
      ensures Told(sent) && (!stop ==> done == old(done) + Rightward(old(Here()), destcol))
      ensures stop ==> plodcnt < 0 && done <= old(done) + Rightward(old(Here()), destcol)
      ensures !stop ==> outcol == if old(outcol) < destcol then destcol else old(outcol)
    {
      ghost var start := Here();
      while outcol < destcol
        invariant Told(sent) && start.col <= outcol && (outcol <= destcol || outcol == start.col)
        invariant done + Rightward(Here(), destcol) == old(done) + Rightward(start, destcol)
      {
        OneMore(done, Right(Here()), Rightward(Pos(outline, outcol + 1), destcol));
        Put(Right(Here()), sent);
        outcol := outcol + 1;
        if plodcnt < 0 { return true; }
      }
      assert done + [] == done;
      return false;
    }

    /** The costs of the columns from the left margin and from here, cr_put.c:229-257. */
    method Estimate() returns (i: int, j: int)
      ensures (i, j) == Estimates(caps, Here(), There())
    {
      i := if caps.gt then destcol / HARDTABS + destcol % HARDTABS else destcol;
      if destcol >= outcol {
        j := destcol / HARDTABS - outcol / HARDTABS;
        if caps.gt && j != 0 { j := j + destcol % HARDTABS; } else { j := destcol - outcol; }
      } else if outcol - destcol <= i && (caps.bs || caps.bc.Some?) {
        i := outcol - destcol;
        j := i;
      } else {
        j := i + 1;
      }
    }

    /** Whether to home first, to home down, or to start from here, if there is a way at all. */
    method Consider() returns (choice: Choice)
      ensures choice == Choose(caps, Here(), There())
    {
      if caps.ho.Some? {
        var i, j := Estimate();
        j := j + (if outline < destline then destline - outline else outline - destline);
        if i + destline < j || (caps.up.None? && destline < outline) { return GoHome; }
        if caps.ll.Some? {
          var k := caps.lines - 1 - destline;
          if i + k + 2 < j && (k <= 0 || caps.up.Some?) { return GoLow; }
        }
      } else if caps.up.None? && destline < outline {
        return Impossible;
      }
      return Stay;
    }

    method Start(choice: Choice, ghost sent: string)
      requires Told(sent) && done == []
      modifies `outline, `outcol, `plodcnt, `output, `done
      ensures Told(sent) && Staged([], Begin(caps, old(Here()), choice), false)
    {
      if choice == GoHome {
        Put(Home, sent);
        outcol, outline := 0, 0;
      } else if choice == GoLow {
        Put(LowerLeft, sent);
        outcol := 0;
        outline := if caps.lines > 0 then caps.lines - 1 else 0;
      }
    }

    /** Whether a carriage return is cheaper, or the only way to the left. */
    method ConsiderReturn() returns (first: bool)
      ensures first == ReturnsFirst(caps, Here(), There())
    {
      var i := if caps.gt then destcol % HARDTABS + destcol / HARDTABS else destcol;
      var j := (outcol as int) - destcol;
      if (caps.nonl || !caps.pfast) && outline < destline { return false; }
      if caps.nc && outline >= destline { return false; }
      return j > i + 1 || (outcol > destcol && !caps.bs && caps.bc.None?);
    }

    method GoReturn(ghost sent: string)
      requires Told(sent)
      modifies `outline, `outcol, `plodcnt, `output, `done
      ensures Told(sent) && Staged(old(done), old(CarriageReturn(caps, Here(), There())), false)
    {
      var first := ConsiderReturn();
      assert done + [] == done;
      if first {
        OneMore(done, Return, [Linefeed]);
        Put(Return, sent);
        if caps.nc {
          Put(Linefeed, sent);
          outline := outline + 1;
        }
        outcol := 0;
      }
    }

    /** The stages after the linefeeds, until the budget is spent. */
    method GoAcross(ghost sent: string) returns (stop: bool)
      requires Told(sent)
      modifies `outline, `outcol, `plodcnt, `output, `done
      ensures Told(sent)
      ensures stop ==> plodcnt < 0 && done <= old(done) + old(Across(caps, Here(), There()))
      ensures !stop ==> done == old(done) + old(Across(caps, Here(), There()))
      ensures !stop && old(outline) >= destline ==> Here() == There()
    {
      ghost var from, dest, before := Here(), There(), done;
      ghost var (d, p3) := Left(from, dest);
      ghost var (e, p4) := Upward(p3, dest);
      ghost var (f, p5) := Tabbing(caps, p4, dest);
      Parts(before, d, e, f, Rightward(p5, dest.col));
      stop := GoLeft(sent);
      if stop { return; }
      stop := GoUp(sent);
      if stop { return; }
      GoTabbing(sent);
      stop := GoRight(sent);
    }

    /** The stages after the start, until the budget is spent. */
    method GoLocal(ghost sent: string) returns (stop: bool)
      requires Told(sent)
      modifies `outline, `outcol, `plodcnt, `output, `done
      ensures Told(sent)
      ensures stop ==> plodcnt < 0 && done <= old(done) + old(Local(caps, Here(), There()))
      ensures !stop ==> done == old(done) + old(Local(caps, Here(), There())) && Here() == There()
    {
      ghost var from, dest, before := Here(), There(), done;
      ghost var (a, p1) := CarriageReturn(caps, from, dest);
      ghost var (b, p2) := Down(caps, p1, dest);
      ghost var d := Across(caps, p2, dest);
      Reassociate(before, a, b + d);
      Reassociate(before + a, b, d);
      GoReturn(sent);
      stop := GoDown(sent);
      if stop { return; }
      stop := GoAcross(sent);
    }

    /** What the plan is from where the cursor is taken to be. */
    function Route(): seq<Motion>
      requires Choose(caps, Here(), There()) != Impossible
      reads this
    {
      Plan(caps, Here(), There())
    }

    /** plod. A run with a budget counts, changes nothing and says what is left of the budget; if
        that is negative, the motions cost more. A run without one sends the motions. */
    method Plod(cnt: nat) returns (r: int)
      modifies `outline, `outcol, `plodcnt, `plodflg, `output, `done
      ensures old(Choose(caps, Here(), There())) == Impossible ==>
                r == -1 && output == old(output) && Here() == old(Here())
      ensures old(Choose(caps, Here(), There())) != Impossible && cnt > 0 ==>
                && output == old(output) && Here() == old(Here())
                && (r >= 0 ==> r == cnt - Costs(caps, inRefresh, old(Route())))
                && (r < 0 ==> Costs(caps, inRefresh, old(Route())) > cnt)
      ensures old(Choose(caps, Here(), There())) != Impossible && cnt == 0 ==>
                r == 0 && output == old(output) + Texts(caps, shown, inRefresh, old(Route())) && Here() == There()
    {
      plodcnt, plodflg, done := cnt, cnt, [];
      ghost var sent := output;
      assert sent + [] == sent;
      var soutcol, soutline := outcol, outline;
      var choice := Consider();
      if choice == Impossible { return -1; }
      Start(choice, sent);
      var stop := GoLocal(sent);
      if plodflg != 0 {
        CostsGrow(caps, inRefresh, done, old(Route()));
        outcol, outline := soutcol, soutline;
      }
      r := plodcnt;
    }

    /** The planned motions lead there, and so do the characters sent for them. */
    lemma PlanArrives(from: Pos, dest: Pos)
      requires OnScreen(caps, from) && OnScreen(caps, dest) && !caps.nc && Choose(caps, from, dest) != Impossible
      ensures Leads(caps, Plan(caps, from, dest), from, dest)
      ensures Legible(caps, shown) ==>
        var ms := Plan(caps, from, dest);
        CarriesOut(caps, Visible(shown, inRefresh), Texts(caps, shown, inRefresh, ms), ms, from, dest)
    {
      PlanLeads(caps, from, dest);
      if Legible(caps, shown) {
        MotionsAreCarriedOut(caps, shown, inRefresh, Plan(caps, from, dest), from, dest);
      }
    }

    /** fgoto, for positions on the screen: relative motion if it can be used and is shorter than the
        absolute sequence, from anywhere but the last column. Without absolute addressing and without
        a way up, the destination is moved down first. */
    method Fgoto(cgp: string) returns (ghost moves: Option<seq<Motion>>)
      requires OnScreen(caps, Here()) && OnScreen(caps, There()) && cgp != ""
      modifies this
      ensures Here() == There()
      ensures There() == old(if There().line < outline && !caps.ca && caps.up.None? then Pos(outline, destcol)
                             else There())
      ensures moves.None? ==> caps.ca && output == old(output) + cgp
      ensures moves.Some? ==> output == old(output) + Texts(caps, shown, inRefresh, moves.value)
      ensures moves.Some? && !caps.nc ==> Leads(caps, moves.value, old(Here()), There())
      ensures moves.Some? && !caps.nc && Legible(caps, shown) ==>
        CarriesOut(caps, Visible(shown, inRefresh), Texts(caps, shown, inRefresh, moves.value), moves.value,
                   old(Here()), There())
      ensures caps.ca && old(Choose(caps, Here(), There())) != Impossible ==>
        (moves.Some? <==> old(outcol) != caps.cols - 1 && Costs(caps, inRefresh, old(Route())) < |cgp|)
      ensures moves.Some? && caps.ca ==>
        old(Choose(caps, Here(), There())) != Impossible && moves.value == old(Route())
      ensures moves.Some? && caps.ca && !inRefresh ==> |Texts(caps, shown, inRefresh, moves.value)| < |cgp|
      ensures
        (moves.None? && !inRefresh && old(outcol) != caps.cols - 1
         && old(Choose(caps, Here(), There())) != Impossible) ==>
          |Texts(caps, shown, inRefresh, old(Route()))| >= |cgp|
    {
      if destline < outline && !(caps.ca || caps.up.Some?) { destline := outline; }
      if Choose(caps, Here(), There()) != Impossible {
        CostIsLength(caps, shown, Route());
        if !caps.nc { PlanArrives(Here(), There()); }
      }
      moves := Send(cgp);
      outline := destline;
      outcol := destcol;
    }

    /** Sends the motions, or the address. */
    method Send(cgp: string) returns (ghost moves: Option<seq<Motion>>)
      requires cgp != ""
      modifies `outline, `outcol, `plodcnt, `plodflg, `output, `done
      ensures var can := old(Choose(caps, Here(), There())) != Impossible;
        && (moves.None? ==> caps.ca && output == old(output) + cgp)
        && (moves.Some? && can ==>
          moves.value == old(Route()) && output == old(output) + Texts(caps, shown, inRefresh, moves.value))
        && (moves.Some? && !can ==> !caps.ca && moves.value == [] && output == old(output))
        && (caps.ca && can ==>
          (moves.Some? <==> old(outcol) != caps.cols - 1 && Costs(caps, inRefresh, old(Route())) < |cgp|))
        && (caps.ca && !can ==> moves.None?)
    {
      ghost var route := if Choose(caps, Here(), There()) != Impossible then Route() else [];
      var r := 0;
      if caps.ca {
        if outcol != caps.cols - 1 { r := Plod(|cgp|); }
        if r > 0 {
          r := Plod(0);
          moves := Some(route);
        } else {
          output := output + cgp;
          moves := None;
        }
      } else {
        r := Plod(0);
        moves := Some(route);
      }
    }
  }

  /** An input for which fgoto in a refresh, on a screen of which curscr has shown nothing there, prefers
      relative motion to an address and sends the longer of the two. */
  method LongerThanTheAddress(cgp: string) returns (sent: string)
    requires |cgp| == 6
    ensures |sent| == 12
  {
    var m := new Mover(LONG_ND, map[], true, Pos(0, 0), Pos(0, 4));
    FourToTheRight();
    var _ := m.Fgoto(cgp);
    sent := m.output;
  }

  lemma Parts(x: seq<Motion>, d: seq<Motion>, e: seq<Motion>, f: seq<Motion>, g: seq<Motion>)
    ensures x + (d + (e + (f + g))) == x + d + e + f + g
  {
    Reassociate(x, d, e + (f + g));
    Reassociate(x + d, e, f + g);
    Reassociate(x + d + e, f, g);
  }

  lemma Reassociate(a: seq<Motion>, b: seq<Motion>, d: seq<Motion>)
    ensures a + (b + d) == a + b + d
  {
  }
}