/** Relative cursor motion: the motions that are planned, what they cost, and where they lead. */
module CursorMotion {
  import opened Basics

  const HARDTABS: nat := 8

  /** The terminal's capability strings, its flags, and its size. */
  datatype Caps = Caps(ho: Option<string>, ll: Option<string>, up: Option<string>, bc: Option<string>,
                       cr: Option<string>, nl: Option<string>, nd: Option<string>, ta: Option<string>,
                       bs: bool, gt: bool, nonl: bool, nc: bool, pfast: bool, ca: bool, lines: nat, cols: nat)

  datatype Pos = Pos(line: nat, col: nat)

  predicate OnScreen(c: Caps, p: Pos) {
    p.line < c.lines && p.col < c.cols
  }

  /** A step to the right knows the cell it passes over. */
  datatype Motion = Home | LowerLeft | Return | Linefeed | Back | Up | Tab | Right(over: Pos)

  predicate CanBack(c: Caps) {
    c.bs || c.bc.Some?
  }

  /** A linefeed that the terminal or its driver turns into a return as well. */
  predicate Returning(c: Caps) {
    c.nonl || !c.pfast
  }

  // ----- what the terminal does -----

  /** tabcol, for a column on the screen: the next hardware tab stop. */
  function TabStop(col: nat): (n: nat)
    ensures n > col && n % HARDTABS == 0 && n <= col + HARDTABS
  {
    col + HARDTABS - col % HARDTABS
  }

  /** Whether a motion has a defined effect from `p`, with the capability it needs. */
  predicate Allowed(c: Caps, m: Motion, p: Pos) {
    match m
    case Home => c.ho.Some?
    case LowerLeft => c.ll.Some? && c.lines > 0
    case Return => true
    case Linefeed => p.line + 1 < c.lines
    case Back => CanBack(c) && p.col > 0
    case Up => c.up.Some? && p.line > 0
    case Tab => c.gt && TabStop(p.col) < c.cols
    case Right(over) => over == p && p.col + 1 < c.cols
  }

  function Moved(c: Caps, m: Motion, p: Pos): Pos
    requires Allowed(c, m, p)
  {
    match m
    case Home => Pos(0, 0)
    case LowerLeft => Pos(c.lines - 1, 0)
    case Return => Pos(p.line, 0)
    case Linefeed => Pos(p.line + 1, if Returning(c) then 0 else p.col)
    case Back => Pos(p.line, p.col - 1)
    case Up => Pos(p.line - 1, p.col)
    case Tab => Pos(p.line, TabStop(p.col))
    case Right(_) => Pos(p.line, p.col + 1)
  }

  /** The motions can be made one after the other, and lead from `p` to `q`. */
  predicate Leads(c: Caps, ms: seq<Motion>, p: Pos, q: Pos)
    decreases |ms|
  {
    if ms == [] then p == q
    else Allowed(c, ms[0], p) && Leads(c, ms[1..], Moved(c, ms[0], p), q)
  }

  lemma {:induction false} LeadsOn(c: Caps, a: seq<Motion>, b: seq<Motion>, p: Pos, q: Pos, r: Pos)
    requires Leads(c, a, p, q) && Leads(c, b, q, r)
    ensures Leads(c, a + b, p, r)
    decreases |a|
  {
    if a == [] {
      assert a + b == b;
    } else {
      LeadsOn(c, a[1..], b, Moved(c, a[0], p), q, r);
      assert (a + b)[1..] == a[1..] + b;
    }
  }

  // ----- the plan -----

  function Times(n: nat, m: Motion): seq<Motion> {
    if n == 0 then [] else [m] + Times(n - 1, m)
  }

  /** Where to start from: here, from the home position, or from the lower left corner. */
  datatype Choice = Stay | GoHome | GoLow | Impossible

  /** The columns to the right from the left margin, counted in motions. */
  function FromMargin(c: Caps, col: nat): nat {
    if c.gt then col / HARDTABS + col % HARDTABS else col
  }

  /** The estimated cost of the columns with and without homing. */
  function Estimates(c: Caps, from: Pos, dest: Pos): (nat, nat) {
    var i := FromMargin(c, dest.col);
    if dest.col >= from.col then
      var tabs := dest.col / HARDTABS - from.col / HARDTABS;
      (i, if c.gt && tabs != 0 then tabs + dest.col % HARDTABS else dest.col - from.col)
    else if from.col - dest.col <= i && CanBack(c) then (from.col - dest.col, from.col - dest.col)
    else (i, i + 1)
  }

  function Distance(a: nat, b: nat): nat {
    if a < b then b - a else a - b
  }

  function Choose(c: Caps, from: Pos, dest: Pos): Choice {
    if c.ho.Some? then
      var (i, j0) := Estimates(c, from, dest);
      var j := j0 + Distance(from.line, dest.line);
      if i + dest.line < j || (c.up.None? && dest.line < from.line) then GoHome
      else if c.ll.Some? then
        var k := c.lines - 1 - dest.line;
        if i + k + 2 < j && (k <= 0 || c.up.Some?) then GoLow else Stay
      else Stay
    else if c.up.None? && dest.line < from.line then Impossible
    else Stay
  }

  function Begin(c: Caps, from: Pos, choice: Choice): (seq<Motion>, Pos) {
    match choice
    case GoHome => ([Home], Pos(0, 0))
    case GoLow => ([LowerLeft], Pos(if c.lines > 0 then c.lines - 1 else 0, 0))
    case _ => ([], from)
  }

  /** Whether a carriage return comes first. */
  predicate ReturnsFirst(c: Caps, p: Pos, dest: Pos) {
    && !(Returning(c) && p.line < dest.line)
    && !(c.nc && p.line >= dest.line)
    && ((p.col as int) - dest.col > FromMargin(c, dest.col) + 1 || (p.col > dest.col && !CanBack(c)))
  }

  function CarriageReturn(c: Caps, p: Pos, dest: Pos): (seq<Motion>, Pos) {
    if !ReturnsFirst(c, p, dest) then ([], p)
    else if c.nc then ([Return, Linefeed], Pos(p.line + 1, 0))
    else ([Return], Pos(p.line, 0))
  }

  function Down(c: Caps, p: Pos, dest: Pos): (seq<Motion>, Pos) {
    if p.line < dest.line then (Times(dest.line - p.line, Linefeed), Pos(dest.line, if Returning(c) then 0 else p.col))
    else ([], p)
  }

  function Left(p: Pos, dest: Pos): (seq<Motion>, Pos) {
    if p.col > dest.col then (Times(p.col - dest.col, Back), Pos(p.line, dest.col)) else ([], p)
  }

  function Upward(p: Pos, dest: Pos): (seq<Motion>, Pos) {
    if p.line > dest.line then (Times(p.line - dest.line, Up), Pos(dest.line, p.col)) else ([], p)
  }

  /** Tabs as long as they do not pass the column. */
  function Tabs(col: nat, dest: nat): seq<Motion>
    decreases dest - col
  {
    if TabStop(col) > dest then [] else [Tab] + Tabs(TabStop(col), dest)
  }

  function AfterTabs(col: nat, dest: nat): (r: nat)
    ensures col <= dest ==> r <= dest
    ensures TabStop(r) > dest || col > dest
    decreases dest - col
  {
    if TabStop(col) > dest then col else AfterTabs(TabStop(col), dest)
  }

  /** One more tab and then back, where that is shorter. */
  predicate Overtabs(c: Caps, col: nat, dest: nat) {
    (dest as int) - col > 4 && TabStop(col) < c.cols && CanBack(c)
  }

  function Tabbing(c: Caps, p: Pos, dest: Pos): (seq<Motion>, Pos) {
    if !(c.gt && (dest.col as int) - p.col > 1) then ([], p)
    else
      var col := AfterTabs(p.col, dest.col);
      if Overtabs(c, col, dest.col) then
        (Tabs(p.col, dest.col) + ([Tab] + Times(TabStop(col) - dest.col, Back)), Pos(p.line, dest.col))
      else (Tabs(p.col, dest.col), Pos(p.line, col))
  }

  function Rightward(p: Pos, dest: nat): seq<Motion>
    decreases dest - p.col
  {
    if p.col >= dest then [] else [Right(p)] + Rightward(Pos(p.line, p.col + 1), dest)
  }

  /** The motions from `p` on, once the line is reached or lies above. */
  function Across(c: Caps, p: Pos, dest: Pos): seq<Motion> {
    var (d, p3) := Left(p, dest);
    var (e, p4) := Upward(p3, dest);
    var (f, p5) := Tabbing(c, p4, dest);
    d + (e + (f + Rightward(p5, dest.col)))
  }

  /** The motions from `p` on, once the start is chosen. */
  function Local(c: Caps, p: Pos, dest: Pos): seq<Motion> {
    var (a, p1) := CarriageReturn(c, p, dest);
    var (b, p2) := Down(c, p1, dest);
    a + (b + Across(c, p2, dest))
  }

  function Plan(c: Caps, from: Pos, dest: Pos): seq<Motion>
    requires Choose(c, from, dest) != Impossible
  {
    var (ms, p) := Begin(c, from, Choose(c, from, dest));
    ms + Local(c, p, dest)
  }

  // ----- the plan leads to the destination -----

  lemma {:induction false} DownLeads(c: Caps, p: Pos, dest: Pos)
    requires dest.line < c.lines && p.line <= dest.line
    ensures Leads(c, Times(dest.line - p.line, Linefeed), p,
                  Pos(dest.line, if Returning(c) && p.line < dest.line then 0 else p.col))
    decreases dest.line - p.line
  {
    if p.line < dest.line {
      DownLeads(c, Moved(c, Linefeed, p), dest);
      assert ([Linefeed] + Times(dest.line - p.line - 1, Linefeed))[1..] == Times(dest.line - p.line - 1, Linefeed);
    }
  }

  lemma {:induction false} LeftLeads(c: Caps, p: Pos, col: nat)
    requires CanBack(c) && p.col >= col
    ensures Leads(c, Times(p.col - col, Back), p, Pos(p.line, col))
    decreases p.col - col
  {
    if p.col > col {
      LeftLeads(c, Moved(c, Back, p), col);
      assert ([Back] + Times(p.col - col - 1, Back))[1..] == Times(p.col - col - 1, Back);
    }
  }

  lemma {:induction false} UpLeads(c: Caps, p: Pos, dest: Pos)
    requires c.up.Some? && p.line >= dest.line
    ensures Leads(c, Times(p.line - dest.line, Up), p, Pos(dest.line, p.col))
    decreases p.line - dest.line
  {
    if p.line > dest.line {
      UpLeads(c, Moved(c, Up, p), dest);
      assert ([Up] + Times(p.line - dest.line - 1, Up))[1..] == Times(p.line - dest.line - 1, Up);
    }
  }

  lemma {:induction false} TabsLead(c: Caps, p: Pos, dest: nat)
    requires c.gt && p.col <= dest < c.cols
    ensures Leads(c, Tabs(p.col, dest), p, Pos(p.line, AfterTabs(p.col, dest)))
    decreases dest - p.col
  {
    if TabStop(p.col) <= dest {
      TabsLead(c, Moved(c, Tab, p), dest);
      assert ([Tab] + Tabs(TabStop(p.col), dest))[1..] == Tabs(TabStop(p.col), dest);
    }
  }

  lemma TabbingLeads(c: Caps, p: Pos, dest: Pos)
    requires p.col <= dest.col < c.cols
    ensures var (f, q) := Tabbing(c, p, dest); Leads(c, f, p, q) && q.line == p.line && q.col <= dest.col
  {
    if !(c.gt && dest.col - p.col > 1) { return; }
    TabsLead(c, p, dest.col);
    var col := AfterTabs(p.col, dest.col);
    var q := Pos(p.line, col);
    if Overtabs(c, col, dest.col) {
      LeftLeads(c, Pos(p.line, TabStop(col)), dest.col);
      var back := Times(TabStop(col) - dest.col, Back);
      assert ([Tab] + back)[1..] == back;
      LeadsOn(c, Tabs(p.col, dest.col), [Tab] + back, p, q, Pos(p.line, dest.col));
    }
  }

  lemma {:induction false} RightLeads(c: Caps, p: Pos, dest: nat)
    requires p.col <= dest < c.cols
    ensures Leads(c, Rightward(p, dest), p, Pos(p.line, dest))
    decreases dest - p.col
  {
    if p.col < dest {
      var q := Pos(p.line, p.col + 1);
      RightLeads(c, q, dest);
      assert ([Right(p)] + Rightward(q, dest))[1..] == Rightward(q, dest);
    }
  }

  /** A start from which only motions the terminal has are needed. */
  predicate Reachable(c: Caps, p: Pos, dest: Pos) {
    p.line <= dest.line || c.up.Some?
  }

  lemma AcrossLeads(c: Caps, p: Pos, dest: Pos)
    requires OnScreen(c, dest) && p.line >= dest.line && (p.col > dest.col ==> CanBack(c))
    requires p.line > dest.line ==> c.up.Some?
    ensures Leads(c, Across(c, p, dest), p, dest)
  {
    var (d, p3) := Left(p, dest);
    var (e, p4) := Upward(p3, dest);
    var (f, p5) := Tabbing(c, p4, dest);
    var g := Rightward(p5, dest.col);
    if p.col > dest.col { LeftLeads(c, p, dest.col); }
    if p3.line > dest.line { UpLeads(c, p3, dest); }
    TabbingLeads(c, p4, dest);
    RightLeads(c, p5, dest.col);
    LeadsOn(c, f, g, p4, p5, dest);
    LeadsOn(c, e, f + g, p3, p4, dest);
    LeadsOn(c, d, e + (f + g), p, p3, dest);
  }

  lemma LocalLeads(c: Caps, p: Pos, dest: Pos)
    requires OnScreen(c, p) && OnScreen(c, dest) && Reachable(c, p, dest) && !c.nc
    ensures Leads(c, Local(c, p, dest), p, dest)
  {
    var (a, p1) := CarriageReturn(c, p, dest);
    var (b, p2) := Down(c, p1, dest);
    ReturnLeads(c, p, dest);
    if p1.line < dest.line { DownLeads(c, p1, dest); }
    AcrossLeads(c, p2, dest);
    LeadsOn(c, b, Across(c, p2, dest), p1, p2, dest);
    LeadsOn(c, a, b + Across(c, p2, dest), p, p1, dest);
  }

  /** Without a backspace the cursor is left of the destination after the return and the linefeeds. */
  lemma ReturnLeads(c: Caps, p: Pos, dest: Pos)
    requires OnScreen(c, p) && !c.nc
    ensures var (a, p1) := CarriageReturn(c, p, dest);
            && Leads(c, a, p, p1) && p1.line == p.line && OnScreen(c, p1)
            && (var (b, p2) := Down(c, p1, dest); p2.col > dest.col ==> CanBack(c))
  {
    assert [Return][1..] == [];
  }

  /** For every combination of capabilities, from anywhere to anywhere on the screen: unless the
      planner gives up, its motions lead exactly to the destination, and none of them needs a
      capability the terminal lacks. */
  lemma PlanLeads(c: Caps, from: Pos, dest: Pos)
    requires OnScreen(c, from) && OnScreen(c, dest) && !c.nc && Choose(c, from, dest) != Impossible
    ensures Leads(c, Plan(c, from, dest), from, dest)
  {
    var choice := Choose(c, from, dest);
    var (ms, p) := Begin(c, from, choice);
    assert ms != [] ==> ms[1..] == [];
    LocalLeads(c, p, dest);
    LeadsOn(c, ms, Local(c, p, dest), from, p, dest);
  }

  /** It gives up exactly if the destination is higher up and the terminal can neither home nor go
      up. */
  lemma GivesUpIff(c: Caps, from: Pos, dest: Pos)
    ensures Choose(c, from, dest) == Impossible <==> c.ho.None? && c.up.None? && dest.line < from.line
  {
  }

  // ----- tabs -----

  /** As many tabs are sent as there are stops up to the destination. */
  lemma {:induction false} TabsLength(col: nat, dest: nat)
    requires col <= dest
    ensures |Tabs(col, dest)| == dest / HARDTABS - col / HARDTABS
    decreases dest - col
  {
    StopsBetween(col, dest);
    if TabStop(col) <= dest { TabsLength(TabStop(col), dest); }
  }

  lemma StopsBetween(col: nat, dest: nat)
    requires col <= dest
    ensures TabStop(col) / HARDTABS == col / HARDTABS + 1
    ensures TabStop(col) > dest ==> dest / HARDTABS == col / HARDTABS
  {
  }

  /** A tab too many, and back, is sent only if it takes fewer motions than the steps to the right, and
      behind a tab stop exactly then, if the terminal can. */
  lemma OvertabsIfShorter(c: Caps, col: nat, dest: nat)
    requires col <= dest < TabStop(col)
    ensures var over := 1 + (TabStop(col) - dest);
      && (Overtabs(c, col, dest) ==> over < dest - col)
      && (col % HARDTABS == 0 ==>
        (Overtabs(c, col, dest) <==> over < dest - col && TabStop(col) < c.cols && CanBack(c)))
  {
  }

  // ----- whether homing is shorter -----

  /** A terminal that can home, go up and go back, whose return and linefeed do just that. */
  predicate Simple(c: Caps) {
    c.ho.Some? && c.up.Some? && CanBack(c) && !c.nc && !Returning(c)
  }

  /** What going to the right is estimated at: the tabs, and the steps behind the last one. */
  function RightEstimate(c: Caps, from: nat, dest: nat): nat
    requires from <= dest
  {
    var tabs := dest / HARDTABS - from / HARDTABS;
    if c.gt && tabs > 0 then tabs + dest % HARDTABS else dest - from
  }

  /** Tabs are used and the last one goes too far. */
  predicate GoesTooFar(c: Caps, from: nat, dest: nat) {
    c.gt && (dest as int) - from > 1 && Overtabs(c, AfterTabs(from, dest), dest)
  }

  lemma {:induction false} AfterTabsIs(col: nat, dest: nat)
    requires col <= dest
    ensures AfterTabs(col, dest) == if dest / HARDTABS == col / HARDTABS then col else dest - dest % HARDTABS
    decreases dest - col
  {
    StopsBetween(col, dest);
    if TabStop(col) <= dest { AfterTabsIs(TabStop(col), dest); }
  }

  /** The estimate is exact unless the last tab goes too far, and then fewer motions are made. */
  lemma RightCost(c: Caps, p: Pos, dest: Pos)
    requires p.col <= dest.col
    ensures var (f, q) := Tabbing(c, p, dest);
      var n, estimate := |f| + |Rightward(q, dest.col)|, RightEstimate(c, p.col, dest.col);
      && n <= estimate && (n == estimate <==> !GoesTooFar(c, p.col, dest.col))
      && (GoesTooFar(c, p.col, dest.col)
        ==> n == (dest.col / HARDTABS - p.col / HARDTABS) + 1 + (HARDTABS - dest.col % HARDTABS))
  {
    var col := AfterTabs(p.col, dest.col);
    AfterTabsIs(p.col, dest.col);
    TabsLength(p.col, dest.col);
    RightwardLength(Tabbing(c, p, dest).1, dest.col);
    if GoesTooFar(c, p.col, dest.col) { TimesLength(TabStop(col) - dest.col, Back); }
  }

  /** No tab on the way to this column goes too far, from wherever it is. */
  predicate NeverTooFar(c: Caps, dest: nat) {
    c.gt ==> dest % HARDTABS <= 4 || TabStop(dest) >= c.cols
  }

  lemma NotTooFar(c: Caps, from: nat, dest: nat)
    requires from <= dest && NeverTooFar(c, dest)
    ensures !GoesTooFar(c, from, dest)
  {
    AfterTabsIs(from, dest);
  }

  lemma {:induction false} TimesLength(n: nat, m: Motion)
    ensures |Times(n, m)| == n
  {
    if n > 0 { TimesLength(n - 1, m); }
  }

  lemma {:induction false} RightwardLength(p: Pos, dest: nat)
    ensures |Rightward(p, dest)| == if p.col < dest then dest - p.col else 0
    decreases dest - p.col
  {
    if p.col < dest { RightwardLength(Pos(p.line, p.col + 1), dest); }
  }

  /** The columns from here: to the right, or back one by one, or by a return if that is shorter. */
  function ColumnMotions(c: Caps, from: nat, dest: nat): nat {
    if from <= dest then RightEstimate(c, from, dest)
    else if from - dest > FromMargin(c, dest) + 1 then 1 + FromMargin(c, dest)
    else from - dest
  }

  /** The number of motions from a place to another. */
  lemma LocalLength(c: Caps, p: Pos, dest: Pos)
    requires Simple(c) && NeverTooFar(c, dest.col)
    ensures |Local(c, p, dest)| == Distance(p.line, dest.line) + ColumnMotions(c, p.col, dest.col)
  {
    var (a, p1) := CarriageReturn(c, p, dest);
    var (b, p2) := Down(c, p1, dest);
    if p1.line < dest.line { TimesLength(dest.line - p1.line, Linefeed); }
    AcrossLength(c, p2, dest);
    assert RightEstimate(c, 0, dest.col) == FromMargin(c, dest.col);
  }

  lemma AcrossLength(c: Caps, p: Pos, dest: Pos)
    requires NeverTooFar(c, dest.col) && p.line >= dest.line
    ensures |Across(c, p, dest)|
      == p.line - dest.line + if p.col > dest.col then p.col - dest.col else RightEstimate(c, p.col, dest.col)
  {
    var (d, p3) := Left(p, dest);
    var (e, p4) := Upward(p3, dest);
    if p.col > dest.col { TimesLength(p.col - dest.col, Back); }
    if p3.line > dest.line { TimesLength(p3.line - dest.line, Up); }
    RightCost(c, p4, dest);
    NotTooFar(c, p4.col, dest.col);
  }

  /** The number of motions by way of the home position, and of the lower left corner. */
  function HomeLength(c: Caps, dest: Pos): nat {
    |[Home] + Local(c, Pos(0, 0), dest)|
  }

  function LowLength(c: Caps, dest: Pos): nat
    requires c.lines > 0
  {
    |[LowerLeft] + Local(c, Pos(c.lines - 1, 0), dest)|
  }

  /** The destination is to the left, and no further from here than from the margin. */
  predicate ShortWayBack(c: Caps, from: Pos, dest: Pos) {
    dest.col < from.col <= dest.col + FromMargin(c, dest.col)
  }

  /** Outside that case the cursor is homed exactly if that takes no more motions than going from here,
      and otherwise sent to the lower left corner exactly if that saves two motions or more. */
  lemma HomesIffShorter(c: Caps, from: Pos, dest: Pos)
    requires Simple(c) && NeverTooFar(c, dest.col) && dest.line < c.lines && !ShortWayBack(c, from, dest)
    ensures var stay := |Local(c, from, dest)|;
      && (Choose(c, from, dest) == GoHome <==> HomeLength(c, dest) <= stay)
      && (Choose(c, from, dest) == GoLow <==> HomeLength(c, dest) > stay && c.ll.Some? && LowLength(c, dest) + 1 < stay)
  {
    LocalLength(c, from, dest);
    LocalLength(c, Pos(0, 0), dest);
    LocalLength(c, Pos(c.lines - 1, 0), dest);
    EstimatesAre(c, from, dest);
    ChoiceBy(c, from, dest);
  }

  lemma EstimatesAre(c: Caps, from: Pos, dest: Pos)
    requires Simple(c) && !ShortWayBack(c, from, dest)
    ensures Estimates(c, from, dest) == (ColumnMotions(c, 0, dest.col), ColumnMotions(c, from.col, dest.col))
  {
  }

  lemma ChoiceBy(c: Caps, from: Pos, dest: Pos)
    requires Simple(c) && dest.line < c.lines
    ensures var (i, j) := Estimates(c, from, dest);
      var stay, home, low := j + Distance(from.line, dest.line), 1 + i + dest.line, 1 + i + (c.lines - 1 - dest.line);
      && (Choose(c, from, dest) == GoHome <==> home <= stay)
      && (Choose(c, from, dest) == GoLow <==> home > stay && c.ll.Some? && low + 1 < stay)
  {
  }

  /** In that case what homing costs in columns is taken to be what going back costs, cr_put.c:248-250, so
      the cursor is homed exactly if there are fewer lines from the top than from here. */
  lemma HomesIffFewerLines(c: Caps, from: Pos, dest: Pos)
    requires Simple(c) && NeverTooFar(c, dest.col) && ShortWayBack(c, from, dest)
    ensures Choose(c, from, dest) == GoHome <==> dest.line < Distance(from.line, dest.line)
    ensures |Local(c, from, dest)| == Distance(from.line, dest.line) + (from.col - dest.col)
    ensures HomeLength(c, dest) == 1 + dest.line + FromMargin(c, dest.col)
  {
    LocalLength(c, from, dest);
    LocalLength(c, Pos(0, 0), dest);
  }

  /** An input for which that is the longer way: 39 motions instead of 12. */
  lemma HomesThoughLonger(c: Caps)
    requires Simple(c) && !c.gt
    ensures Choose(c, Pos(10, 40), Pos(0, 38)) == GoHome
    ensures |Plan(c, Pos(10, 40), Pos(0, 38))| == 39 && |Local(c, Pos(10, 40), Pos(0, 38))| == 12
  {
    HomesIffFewerLines(c, Pos(10, 40), Pos(0, 38));
    LocalLength(c, Pos(0, 0), Pos(0, 38));
  }

  // ----- terminals whose carriage return does not work -----

  lemma {:induction false} OnlyThese(n: nat, m: Motion)
    ensures forall x :: x in Times(n, m) ==> x == m
    ensures n > 0 ==> m in Times(n, m)
  {
    if n > 0 { OnlyThese(n - 1, m); }
  }

  lemma {:induction false} TabsOnly(col: nat, dest: nat)
    ensures Back !in Tabs(col, dest)
    decreases dest - col
  {
    if TabStop(col) <= dest { TabsOnly(TabStop(col), dest); }
  }

  lemma {:induction false} RightsOnly(p: Pos, dest: nat)
    ensures Back !in Rightward(p, dest)
    decreases dest - p.col
  {
    if p.col < dest { RightsOnly(Pos(p.line, p.col + 1), dest); }
  }

  lemma LocalBackspaces(c: Caps, p: Pos, dest: Pos)
    requires !CanBack(c)
    ensures Back in Local(c, p, dest) <==> c.nc && p.line >= dest.line && p.col > dest.col
  {
    var (a, p1) := CarriageReturn(c, p, dest);
    var (b, p2) := Down(c, p1, dest);
    var (d, p3) := Left(p2, dest);
    var (e, p4) := Upward(p3, dest);
    var (f, p5) := Tabbing(c, p4, dest);
    if p1.line < dest.line { OnlyThese(dest.line - p1.line, Linefeed); }
    if p2.col > dest.col { OnlyThese(p2.col - dest.col, Back); }
    if p3.line > dest.line { OnlyThese(p3.line - dest.line, Up); }
    TabsOnly(p4.col, dest.col);
    RightsOnly(p5, dest.col);
  }

  /** A terminal without a backspace is sent one exactly if its carriage return is not to be used, the
      destination is to the left and not further down, and the plan starts from here. */
  lemma BackspaceAnyway(c: Caps, from: Pos, dest: Pos)
    requires !CanBack(c) && Choose(c, from, dest) != Impossible
    ensures Back in Plan(c, from, dest)
            <==> Choose(c, from, dest) == Stay && c.nc && from.line >= dest.line && from.col > dest.col
  {
    var (ms, p) := Begin(c, from, Choose(c, from, dest));
    LocalBackspaces(c, p, dest);
  }
}
