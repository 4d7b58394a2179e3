/** What typing does, cell by cell: text of any length flows from line to line, and the control
    characters move as they should. */
module TypingCells {
  import opened Windows
  import opened Editing
  import opened Clearing
  import opened Typing
  import opened EditingCells

  // ----- the control characters -----

  /** A carriage return goes to the first column, a backspace to the column on the left, if there is
      one. Neither touches the window. */
  lemma ControlsMove(t: Typist, so: bool, nonl: bool, w: nat)
    requires Steady(t, w)
    ensures TypeOne(t, '\r', so, nonl, w) == t.(x := 0)
    ensures t.x > 0 ==> TypeOne(t, BACKSPACE, so, nonl, w) == t.(x := t.x - 1)
    ensures t.x == 0 ==> TypeOne(t, BACKSPACE, so, nonl, w) == t
  {
  }

  /** A tab with its next stop in the line: plain blanks up to the next column divisible by eight. */
  lemma TabIsTyped(t: Typist, n: nat, so: bool, nonl: bool, w: nat)
    requires Steady(t, w) && t.ok && !t.s.lines[t.y].pastEol
    requires 1 <= n <= 8 && (t.x + n) % 8 == 0 && t.x + n < w
    ensures var r := TypeOne(t, '\t', so, nonl, w);
      && Typed(Synced(t), r.(s := r.s.(y := t.y, x := t.x)), Spaces(n), false, w)
      && r.s.y == t.y && r.s.x == r.x == t.x + n
  {
    assert n == 8 - t.x % 8;
    BlanksAreTyped(Synced(t), n, nonl, w);
    TextIsTyped(Synced(t), Spaces(n), false, nonl, w);
  }

  /** A newline clears to the end of the line and goes to the start of the next line. On the bottom line
      it scrolls if that is allowed, and is an error otherwise. */
  lemma NewlineMeans(t: Typist, so: bool, nonl: bool, w: nat)
    requires Steady(t, w)
    ensures var r, c := TypeOne(t, '\n', so, nonl, w), ClearedToEol(t.s.(y := t.y, x := t.x), w);
      && (t.y + 1 < |t.s.lines| ==> r == Typist(c, t.y + 1, 0, t.ok))
      && (t.y + 1 == |t.s.lines| && t.s.scrollOk ==>
        Synced(r) == Synced(Typist(Scrolled(c.(x := if nonl then t.x else 0), w), t.y, 0, t.ok)))
      && (t.y + 1 == |t.s.lines| && !t.s.scrollOk ==> !r.ok && r.s == c)
  {
    var c := ClearedToEol(t.s.(y := t.y, x := t.x), w);
    assert WellFormed(c, w);
    ScrolledWell(c.(x := if nonl then t.x else 0), w);
  }

  /** A character behind a full line goes to the start of the next line, whose other cells stay, or to
      that of the bottom line after scrolling; with no line to go to it is an error. In each case the
      full line is no longer marked as left past its end. */
  lemma CharBehindFullLine(t: Typist, c: char, so: bool, nonl: bool, w: nat)
    requires Steady(t, w) && t.ok && PlainText([c]) && t.s.lines[t.y].pastEol
    ensures var r, stand := TypeOne(t, c, so, nonl, w), t.s.standout || so;
      && (t.y + 1 == |t.s.lines| && !t.s.scrollOk ==>
        !r.ok && r.s == t.s.(lines := t.s.lines[t.y := t.s.lines[t.y].(pastEol := false)]))
      && (t.y + 1 < |t.s.lines| ==>
        && r.ok && r.y == t.y + 1 && r.x == (if w == 1 then 0 else 1) && |r.s.lines| == |t.s.lines|
        && r.s.lines[t.y] == t.s.lines[t.y].(pastEol := false)
        && r.s.lines[t.y + 1].cells == t.s.lines[t.y + 1].cells[0 := Cell(c, stand)]
        && forall k :: 0 <= k < |t.s.lines| && k != t.y && k != t.y + 1 ==> r.s.lines[k] == t.s.lines[k])
      && (t.y + 1 == |t.s.lines| && t.s.scrollOk ==>
        && r.ok && r.y == t.y && r.x == (if w == 1 then 0 else 1) && |r.s.lines| == |t.s.lines|
        && (forall k :: 0 <= k < t.y ==> r.s.lines[k].cells == t.s.lines[k + 1].cells)
        && r.s.lines[t.y].cells == Blanks(w)[0 := Cell(c, stand)])
  {
    assert [c][0] == c;
    if t.y + 1 == |t.s.lines| && t.s.scrollOk { ScrolledBack(t, w); }
  }

  lemma ScrolledBack(t: Typist, w: nat)
    requires Steady(t, w) && t.y + 1 == |t.s.lines| && t.s.scrollOk
    ensures var r := NewLine(BackInLine(t), w);
      && Steady(r, w) && r.ok == t.ok && r.y == t.y && r.x == 0 && |r.s.lines| == |t.s.lines|
      && r.s.standout == t.s.standout && !r.s.lines[t.y].pastEol && r.s.lines[t.y].cells == Blanks(w)
      && forall k :: 0 <= k < t.y ==> r.s.lines[k].cells == t.s.lines[k + 1].cells
  {
    var t1 := BackInLine(t);
    var s := t1.s.(y := t.y, x := t.x);
    assert Steady(t1, w);
    SteadyNewLine(t1, w);
    ScrolledCells(s, w, t.y);
    forall k | 0 <= k < t.y ensures Scrolled(s, w).lines[k].cells == t.s.lines[k + 1].cells {
      ScrolledCells(s, w, k);
    }
  }

  // ----- a newline behind a text -----

  /** The row of the line after text and a newline: the text, and blanks behind it. */
  predicate TextThenBlanks(was: seq<Cell>, row: seq<Cell>, x: nat, text: string, stand: bool)
    requires |row| == |was| && x + |text| <= |was|
  {
    && (forall j :: 0 <= j < x ==> row[j] == was[j])
    && (forall j :: x <= j < x + |text| ==> row[j] == Cell(text[j - x], stand))
    && (forall j :: x + |text| <= j < |was| ==> row[j] == PLAIN_BLANK)
  }

  lemma NewlineAfterText(t: Typist, u: Typist, text: string, so: bool, nonl: bool, w: nat)
    requires Steady(t, w) && Steady(u, w) && t.x + |text| < w && Typed(t, u, text, so, w)
    requires !t.s.lines[t.y].pastEol
    ensures var r := TypeOne(u, '\n', so, nonl, w);
      && |r.s.lines| == |t.s.lines|
      && (t.y + 1 < |t.s.lines| ==>
        && r.ok && r.y == t.y + 1 && r.x == 0
        && |r.s.lines[t.y].cells| == w
        && TextThenBlanks(t.s.lines[t.y].cells, r.s.lines[t.y].cells, t.x, text, t.s.standout || so)
        && !r.s.lines[t.y].pastEol
        && forall k :: 0 <= k < |t.s.lines| && k != t.y ==> r.s.lines[k] == t.s.lines[k])
  {
  }

  /** Text that does not fill the line, and a newline: the line keeps what was in front and holds the
      text and then blanks, the other lines are as before, and the cursor goes to the start of the
      next line. */
  lemma LineIsTyped(s: WinV, text: string, so: bool, nonl: bool, w: nat)
    requires WellFormed(s, w) && PlainText(text) && s.x + |text| < w && s.y + 1 < |s.lines|
    requires !s.lines[s.y].pastEol
    ensures var r := Added(s, text + "\n", so, nonl, w);
      && r.ok && r.s == WinV(r.s.lines, s.y + 1, 0, s.scrollOk, s.standout) && |r.s.lines| == |s.lines|
      && |r.s.lines[s.y].cells| == w
      && TextThenBlanks(s.lines[s.y].cells, r.s.lines[s.y].cells, s.x, text, s.standout || so)
      && !r.s.lines[s.y].pastEol
      && forall k :: 0 <= k < |s.lines| && k != s.y ==> r.s.lines[k] == s.lines[k]
  {
    var t := Typist(s, s.y, s.x, true);
    var bytes, n := text + "\n", |text|;
    assert bytes[..n] == text && bytes[..n + 1] == bytes;
    TextIsTyped(t, text, so, nonl, w);
    AddByte(t, bytes, n, so, nonl, w);
    NewlineAfterText(t, TypeAll(t, text, so, nonl, w), text, so, nonl, w);
  }

  // ----- text of any length -----

  /** The places of the window, counted from the top left and line by line. */
  function Place(i: int, j: int, w: nat): int {
    i * w + j
  }

  lemma SamePlace(i: int, j: int, y: int, x: int, w: nat)
    requires 0 <= j < w && 0 <= x < w
    ensures Place(i, j, w) == Place(y, x, w) <==> i == y && j == x
  {
    if i < y { Further(i + 1, y, w); } else if y < i { Further(y + 1, i, w); }
  }

  lemma Further(a: int, b: int, w: nat)
    requires a <= b
    ensures a * w <= b * w && (a - 1) * w == a * w - w
  {
  }

  /** A line is left past its end only with the cursor in its last column. */
  function Pending(t: Typist): int
    requires 0 <= t.y < |t.s.lines|
  {
    if t.s.lines[t.y].pastEol then 1 else 0
  }

  /** The text stands at the places from `from` on, and everywhere else is what was there. */
  ghost predicate Stands(s: WinV, r: WinV, from: int, bytes: string, stand: bool, w: nat)
    requires WellFormed(s, w) && WellFormed(r, w) && |r.lines| == |s.lines|
  {
    forall i, j :: InScreen(s, i, j, w) ==>
      At(r, i, j) == var k := Place(i, j, w) - from;
                     if 0 <= k < |bytes| then Cell(bytes[k], stand) else At(s, i, j)
  }

  /** The cursor is behind the text, or on its last character if that is in the last column; no line
      from the first one on is left past its end, except for that one. */
  predicate IsBehind(t: Typist, r: Typist, n: nat, w: nat)
    requires Steady(t, w) && Steady(r, w)
  {
    && Place(r.y, r.x, w) + Pending(r) == Place(t.y, t.x, w) + n
    && (Pending(r) == 1 ==> r.x == w - 1)
    && forall k :: t.y <= k < |r.s.lines| && k != r.y ==> !r.s.lines[k].pastEol
  }

  ghost predicate Flowed(t: Typist, r: Typist, bytes: string, stand: bool, w: nat)
    requires Steady(t, w)
  {
    && Steady(r, w) && r.ok && |r.s.lines| == |t.s.lines| && r.s == t.s.(lines := r.s.lines) && t.y <= r.y
    && Stands(t.s, r.s, Place(t.y, t.x, w), bytes, stand, w) && IsBehind(t, r, |bytes|, w)
  }

  /** One more character at its place. */
  lemma OneMoreStands(s: WinV, r: WinV, from: int, bytes: string, c: char, stand: bool, w: nat, y: int, x: int,
                      l: LineV)
    requires WellFormed(s, w) && WellFormed(r, w) && |r.lines| == |s.lines|
    requires Stands(s, r, from, bytes, stand, w) && InScreen(s, y, x, w) && Place(y, x, w) == from + |bytes|
    requires WellMarked(l, w) && l.cells == r.lines[y].cells[x := Cell(c, stand)]
    ensures Stands(s, r.(lines := r.lines[y := l]), from, bytes + [c], stand, w)
  {
    var r' := r.(lines := r.lines[y := l]);
    forall i, j | InScreen(s, i, j, w)
      ensures At(r', i, j) == var k := Place(i, j, w) - from;
                              if 0 <= k < |bytes + [c]| then Cell((bytes + [c])[k], stand) else At(s, i, j)
    {
      SamePlace(i, j, y, x, w);
      assert At(r, i, j) == var k := Place(i, j, w) - from;
                            if 0 <= k < |bytes| then Cell(bytes[k], stand) else At(s, i, j);
    }
  }

  /** Writing at the cursor, the line not being left. */
  lemma WriteFlows(t: Typist, r: Typist, bytes: string, c: char, so: bool, w: nat)
    requires Steady(t, w) && Flowed(t, r, bytes, t.s.standout || so, w) && Pending(r) == 0
    ensures Flowed(t, Write(r, c, so, w), bytes + [c], t.s.standout || so, w)
  {
    var l := Written(r.s.lines[r.y], r.x, c, t.s.standout || so);
    SteadyWrite(r, c, so, w);
    assert l.cells == r.s.lines[r.y].cells[r.x := Cell(c, t.s.standout || so)];
    OneMoreStands(t.s, r.s, Place(t.y, t.x, w), bytes, c, t.s.standout || so, w, r.y, r.x, l);
  }

  /** The cursor past the end of its line goes to the start of the next one. */
  lemma WrapFlows(t: Typist, r: Typist, bytes: string, stand: bool, w: nat)
    requires Steady(t, w) && Flowed(t, r, bytes, stand, w) && Pending(r) == 1
    requires Place(t.y, t.x, w) + |bytes| < Place(|t.s.lines|, 0, w)
    ensures var r1 := BackInLine(r);
      Steady(r1, w) && Flowed(t, NewLine(r1, w), bytes, stand, w) && Pending(NewLine(r1, w)) == 0
  {
    var r1 := BackInLine(r);
    assert Place(r.y + 1, 0, w) == Place(r.y, r.x, w) + 1;
    assert r.y + 1 < |t.s.lines| by {
      if |t.s.lines| <= r.y + 1 { Further(|t.s.lines|, r.y + 1, w); }
    }
    assert forall i :: 0 <= i < |r.s.lines| ==> r1.s.lines[i].cells == r.s.lines[i].cells;
    forall i, j | InScreen(t.s, i, j, w) ensures At(r1.s, i, j) == At(r.s, i, j) {}
  }

  lemma OneFlows(t: Typist, r: Typist, bytes: string, c: char, so: bool, nonl: bool, w: nat)
    requires Steady(t, w) && Flowed(t, r, bytes, t.s.standout || so, w) && PlainText([c])
    requires Place(t.y, t.x, w) + |bytes| < Place(|t.s.lines|, 0, w)
    ensures Flowed(t, TypeOne(r, c, so, nonl, w), bytes + [c], t.s.standout || so, w)
  {
    assert [c][0] == c;
    if Pending(r) == 1 {
      WrapFlows(t, r, bytes, t.s.standout || so, w);
      WriteFlows(t, NewLine(BackInLine(r), w), bytes, c, so, w);
    } else {
      WriteFlows(t, r, bytes, c, so, w);
    }
  }

  /** Text of any length that fits in the rest of the window flows from line to line: its characters
      stand at consecutive places, every other cell is as before, and the cursor is behind it. */
  lemma {:induction false} TextFlows(t: Typist, bytes: string, so: bool, nonl: bool, w: nat)
    requires Steady(t, w) && t.ok && PlainText(bytes) && forall k :: t.y <= k < |t.s.lines| ==> !t.s.lines[k].pastEol
    requires Place(t.y, t.x, w) + |bytes| <= Place(|t.s.lines|, 0, w)
    ensures Flowed(t, TypeAll(t, bytes, so, nonl, w), bytes, t.s.standout || so, w)
    decreases |bytes|
  {
    if bytes != [] {
      var front, last := bytes[..|bytes| - 1], bytes[|bytes| - 1];
      TextFlows(t, front, so, nonl, w);
      assert PlainText([last]) by { assert [last][0] == bytes[|bytes| - 1]; }
      OneFlows(t, TypeAll(t, front, so, nonl, w), front, last, so, nonl, w);
      assert bytes == front + [last];
    }
  }
}
