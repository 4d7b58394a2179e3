/** A terminal reading what is sent to it: it carries out the strings it knows and shows any other
    character where its cursor is. */
module CursorTerminal {
  import opened Basics
  import opened Windows
  import opened CursorMotion

  /** What a terminal can be told by a string. */
  datatype Verb = DoHome | DoLow | DoReturn | DoLine | DoBack | DoUp | DoTab | DoRight

  /** The strings of the terminal description: ho, ll, cr, nl, bc, up, ta and nd. A carriage return, a
      linefeed, a backspace and a tab have their control character if there is no string for them. */
  function Code(c: Caps, v: Verb): Option<string> {
    match v
    case DoHome => c.ho
    case DoLow => c.ll
    case DoReturn => if c.cr.Some? then c.cr else Some("\r")
    case DoLine => if c.nl.Some? then c.nl else Some("\n")
    case DoBack => if c.bc.Some? then c.bc else Some("\U{0008}")
    case DoUp => c.up
    case DoTab => if c.ta.Some? then c.ta else Some("\t")
    case DoRight => c.nd
  }

  /** Where its cursor is, what it shows, and whether it is in standout mode. */
  datatype Device = Device(pos: Pos, rows: seq<seq<Cell>>, standout: bool)

  predicate IsDevice(c: Caps, d: Device) {
    OnScreen(c, d.pos) && |d.rows| == c.lines && forall i :: 0 <= i < |d.rows| ==> |d.rows[i]| == c.cols
  }

  function MotionOf(v: Verb, p: Pos): Motion {
    match v
    case DoHome => Home
    case DoLow => LowerLeft
    case DoReturn => Return
    case DoLine => Linefeed
    case DoBack => Back
    case DoUp => Motion.Up
    case DoTab => Tab
    case DoRight => Right(p)
  }

  /** The cursor moves as told; a motion with no defined effect here is taken to have none. */
  function Perform(c: Caps, v: Verb, d: Device): Device {
    var m := MotionOf(v, d.pos);
    if Allowed(c, m, d.pos) then d.(pos := Moved(c, m, d.pos)) else d
  }

  /** A character takes the cell of the cursor, and the cursor goes one to the right. */
  function Show(c: Caps, ch: char, d: Device): Device {
    if d.pos.line < |d.rows| && d.pos.col < |d.rows[d.pos.line]| then
      var row := d.rows[d.pos.line][d.pos.col := Cell(ch, d.standout)];
      d.(rows := d.rows[d.pos.line := row],
         pos := Pos(d.pos.line, if d.pos.col + 1 < c.cols then d.pos.col + 1 else d.pos.col))
    else d
  }

  predicate Starts(c: Caps, v: Verb, s: string) {
    Code(c, v).Some? && Code(c, v).value != "" && Code(c, v).value <= s
  }

  /** What the terminal recognizes at the front of a text. */
  function Recognized(c: Caps, s: string): (r: Option<Verb>)
    ensures r.Some? ==> Starts(c, r.value, s)
    ensures r.None? ==> forall v :: !Starts(c, v, s)
  {
    if Starts(c, DoHome, s) then Some(DoHome)
    else if Starts(c, DoLow, s) then Some(DoLow)
    else if Starts(c, DoReturn, s) then Some(DoReturn)
    else if Starts(c, DoLine, s) then Some(DoLine)
    else if Starts(c, DoBack, s) then Some(DoBack)
    else if Starts(c, DoUp, s) then Some(DoUp)
    else if Starts(c, DoTab, s) then Some(DoTab)
    else if Starts(c, DoRight, s) then Some(DoRight)
    else None
  }

  /** The terminal after a text has been sent to it. */
  function Execute(c: Caps, s: string, d: Device): Device
    decreases |s|
  {
    if s == [] then d
    else
      var v := Recognized(c, s);
      if v.Some? then Execute(c, s[|Code(c, v.value).value|..], Perform(c, v.value, d))
      else Execute(c, s[1..], Show(c, s[0], d))
  }

  /** The strings of the terminal can be told apart, and none begins with a blank or with a character
      that is shown. */
  ghost predicate Legible(c: Caps, shown: map<Pos, char>) {
    && (forall v :: Code(c, v).Some? ==> Code(c, v).value != "" && Code(c, v).value[0] != ' ')
    && (forall v, u :: v != u && Code(c, v).Some? && Code(c, u).Some? ==> !(Code(c, v).value <= Code(c, u).value))
    && (forall v, p :: Code(c, v).Some? && p in shown ==> [shown[p]] != Code(c, v).value[..1])
  }

  lemma CodeIsRecognized(c: Caps, shown: map<Pos, char>, v: Verb, rest: string)
    requires Legible(c, shown) && Code(c, v).Some?
    ensures Recognized(c, Code(c, v).value + rest) == Some(v)
    ensures (Code(c, v).value + rest)[|Code(c, v).value|..] == rest
  {
    var s := Code(c, v).value + rest;
    assert Starts(c, v, s);
    var u := Recognized(c, s).value;
    if u != v { OnePrefix(Code(c, v).value, Code(c, u).value, s); }
  }

  lemma OnePrefix(a: string, b: string, s: string)
    requires a <= s && b <= s
    ensures a <= b || b <= a
  {
    if |a| <= |b| { assert a == s[..|a|] == b[..|a|]; } else { assert b == s[..|b|] == a[..|b|]; }
  }

  lemma OtherIsShown(c: Caps, ch: char, rest: string)
    requires forall v :: Code(c, v).Some? ==> Code(c, v).value != "" && Code(c, v).value[0] != ch
    ensures Recognized(c, [ch] + rest) == None
  {
    var s := [ch] + rest;
    assert s[0] == ch;
  }

  /** A string the terminal knows is carried out. */
  lemma CodeIsCarriedOut(c: Caps, shown: map<Pos, char>, v: Verb, rest: string, d: Device)
    requires Legible(c, shown) && Code(c, v).Some?
    ensures Execute(c, Code(c, v).value + rest, d) == Execute(c, rest, Perform(c, v, d))
  {
    CodeIsRecognized(c, shown, v, rest);
  }

  /** Any other character is shown. */
  lemma CharIsShown(c: Caps, ch: char, rest: string, d: Device)
    requires forall v :: Code(c, v).Some? ==> Code(c, v).value != "" && Code(c, v).value[0] != ch
    ensures Execute(c, [ch] + rest, d) == Execute(c, rest, Show(c, ch, d))
  {
    OtherIsShown(c, ch, rest);
    assert ([ch] + rest)[1..] == rest;
  }

  // ----- what a step to the right leaves behind -----

  /** The rows after a motion: a step over a cell in `shown` puts that character there; over any other it
      leaves the cell if the terminal can step to the right, and else a blank. */
  function SteppedOnce(rows: seq<seq<Cell>>, shown: map<Pos, char>, nd: bool, standout: bool, m: Motion):
      (r: seq<seq<Cell>>)
    ensures |r| == |rows| && forall i :: 0 <= i < |r| ==> |r[i]| == |rows[i]|
  {
    if !m.Right? || m.over.line >= |rows| || m.over.col >= |rows[m.over.line]| then rows
    else if m.over in shown then
      rows[m.over.line := rows[m.over.line][m.over.col := Cell(shown[m.over], standout)]]
    else if nd then rows
    else rows[m.over.line := rows[m.over.line][m.over.col := Cell(' ', standout)]]
  }

  function Stepped(rows: seq<seq<Cell>>, shown: map<Pos, char>, nd: bool, standout: bool, ms: seq<Motion>):
      (r: seq<seq<Cell>>)
    ensures |r| == |rows| && forall i :: 0 <= i < |r| ==> |r[i]| == |rows[i]|
    decreases |ms|
  {
    if ms == [] then rows
    else Stepped(SteppedOnce(rows, shown, nd, standout, ms[0]), shown, nd, standout, ms[1..])
  }

  /** Sent to a terminal with its cursor at `p`, the text takes the cursor to `q` and leaves on the
      screen what the steps to the right leave. */
  ghost predicate CarriesOut(c: Caps, shown: map<Pos, char>, sent: string, ms: seq<Motion>, p: Pos, q: Pos) {
    forall d: Device :: IsDevice(c, d) && d.pos == p ==>
      Execute(c, sent, d) == Device(q, Stepped(d.rows, shown, c.nd.Some?, d.standout, ms), d.standout)
  }
}
