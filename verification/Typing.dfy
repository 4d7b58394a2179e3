/** __waddbytes of Libcurses-21/addbytes.c. */
module Typing {
  import opened Windows
  import opened Editing
  import opened Clearing

  /** The window together with the registers y and x of __waddbytes, which are written back to the
      window's cursor only at SYNCH_OUT. `ok` turns false at `return (ERR)`. */
  datatype Typist = Typist(s: WinV, y: int, x: int, ok: bool)

  predicate Steady(t: Typist, w: nat) {
    WellFormed(t.s, w) && 0 <= t.y < |t.s.lines| && 0 <= t.x < w
  }

  /** The label `newline`: down one line or, on the bottom line, scroll if that is allowed. */
  function NewLine(t: Typist, w: nat): (r: Typist)
    requires Steady(t, w)
  {
    if t.y < |t.s.lines| - 1 then t.(y := t.y + 1, x := 0)
    else if t.s.scrollOk then
      var s := Scrolled(t.s.(y := t.y, x := t.x), w);
      t.(s := s, y := s.y, x := 0)
    else t.(ok := false)
  }

  /** The marks extended to column x. */
  function Marked(l: LineV, x: int): LineV {
    if !l.dirty then l.(dirty := true, first := x, last := x)
    else if x < l.first then l.(first := x)
    else if x > l.last then l.(last := x)
    else l
  }

  /** Writes one character at column x of a line. The test of addbytes.c:127-128 leaves the line
      unmarked only when it already has the character in standout and standout is wanted. */
  function Written(l: LineV, x: int, c: char, stand: bool): LineV
    requires 0 <= x < |l.cells|
  {
    var l1 := if l.cells[x].ch == c && l.cells[x].standout && stand then l else Marked(l, x);
    l1.(cells := l.cells[x := Cell(c, stand)], pastEol := l.pastEol || x == |l.cells| - 1)
  }

  /** The line of the registers is no longer marked as holding the cursor past its end. */
  function BackInLine(t: Typist): Typist
    requires 0 <= t.y < |t.s.lines|
  {
    t.(s := t.s.(lines := t.s.lines[t.y := t.s.lines[t.y].(pastEol := false)]))
  }

  function Write(t: Typist, c: char, so: bool, w: nat): Typist
    requires Steady(t, w)
  {
    var l := Written(t.s.lines[t.y], t.x, c, t.s.standout || so);
    t.(s := t.s.(lines := t.s.lines[t.y := l]), x := if t.x == w - 1 then t.x else t.x + 1)
  }

  /** The default case: leave the line if the cursor is past its end, then write. */
  function TypeChar(t: Typist, c: char, so: bool, w: nat): Typist
    requires Steady(t, w)
  {
    if !t.s.lines[t.y].pastEol then Write(t, c, so, w)
    else
      SteadyNewLine(BackInLine(t), w);
      var t1 := NewLine(BackInLine(t), w);
      if t1.ok then Write(t1, c, so, w) else t1
  }

  const BACKSPACE: char := '\U{0008}'

  /** Any character but a tab. */
  function TypePlain(t: Typist, c: char, so: bool, nonl: bool, w: nat): Typist
    requires Steady(t, w)
  {
    if c == '\n' then
      NewLine(t.(s := ClearedToEol(t.s.(y := t.y, x := t.x), w), x := if nonl then t.x else 0), w)
    else if c == '\r' then t.(x := 0)
    else if c == BACKSPACE then t.(x := if t.x > 0 then t.x - 1 else 0)
    else TypeChar(t, c, so, w)
  }

  lemma SteadyNewLine(t: Typist, w: nat)
    requires Steady(t, w)
    ensures Steady(NewLine(t, w), w)
  {
    if t.y == |t.s.lines| - 1 && t.s.scrollOk { ScrolledWell(t.s.(y := t.y, x := t.x), w); }
  }

  lemma ScrolledWell(s: WinV, w: nat)
    requires WellFormed(s, w)
    ensures WellFormed(Scrolled(s, w), w) && |Scrolled(s, w).lines| == |s.lines|
    ensures Scrolled(s, w).scrollOk == s.scrollOk && Scrolled(s, w).standout == s.standout
    ensures Scrolled(s, w).y == s.y && Scrolled(s, w).x == s.x
  {
    if s.scrollOk {
      var s1 := MovedTo(s, 0, 0, w);
      DeletedWell(s1.lines, 0, w);
    }
  }

  lemma SteadyWrite(t: Typist, c: char, so: bool, w: nat)
    requires Steady(t, w)
    ensures Steady(Write(t, c, so, w), w)
  {
    assert WellMarked(Write(t, c, so, w).s.lines[t.y], w);
  }

  lemma SteadyPlain(t: Typist, c: char, so: bool, nonl: bool, w: nat)
    requires Steady(t, w)
    ensures Steady(TypePlain(t, c, so, nonl, w), w)
  {
    if c == '\n' {
      var t1 := t.(s := ClearedToEol(t.s.(y := t.y, x := t.x), w), x := if nonl then t.x else 0);
      assert Steady(t1, w);
      SteadyNewLine(t1, w);
    } else if c != '\r' && c != BACKSPACE {
      if t.s.lines[t.y].pastEol {
        SteadyNewLine(BackInLine(t), w);
        if NewLine(BackInLine(t), w).ok { SteadyWrite(NewLine(BackInLine(t), w), c, so, w); }
      } else {
        SteadyWrite(t, c, so, w);
      }
    }
  }

  /** A tab: n blanks without standout, typed by a nested call that reads and writes the cursor. */
  function {:induction false} TypeBlanks(t: Typist, n: nat, nonl: bool, w: nat): (r: Typist)
    requires Steady(t, w)
    ensures Steady(r, w)
  {
    if n == 0 then t
    else
      var t1 := TypeBlanks(t, n - 1, nonl, w);
      SteadyPlain(t1, ' ', false, nonl, w);
      if t1.ok then TypePlain(t1, ' ', false, nonl, w) else t1
  }

  function Synced(t: Typist): Typist {
    if t.ok then t.(s := t.s.(y := t.y, x := t.x)) else t
  }

  function TypeOne(t: Typist, c: char, so: bool, nonl: bool, w: nat): (r: Typist)
    requires Steady(t, w)
    ensures Steady(r, w)
  {
    SteadyPlain(t, c, so, nonl, w);
    if c == '\t' then Synced(TypeBlanks(Synced(t), 8 - t.x % 8, nonl, w))
    else TypePlain(t, c, so, nonl, w)
  }

  /** The loop over the bytes; it stops at the first error. */
  function TypeAll(t: Typist, bytes: string, so: bool, nonl: bool, w: nat): (r: Typist)
    requires Steady(t, w)
    ensures Steady(r, w)
  {
    if bytes == [] then t
    else
      var t1 := TypeAll(t, bytes[..|bytes| - 1], so, nonl, w);
      if t1.ok then TypeOne(t1, bytes[|bytes| - 1], so, nonl, w) else t1
  }

  /** __waddbytes: on success the registers are written back to the cursor; on an error they are
      not, and the cursor stays where it was last written back. */
  function Added(s: WinV, bytes: string, so: bool, nonl: bool, w: nat): Typist
    requires WellFormed(s, w)
  {
    Synced(TypeAll(Typist(s, s.y, s.x, true), bytes, so, nonl, w))
  }

  // ----- the method -----

  /** The registers of a running __waddbytes, as a value. */
  ghost function Now(win: Window, y: int, x: int, ok: bool): Typist
    reads win
  {
    Typist(win.Snap(), y, x, ok)
  }

  method DoNewLine(win: Window, y: int, x: int) returns (y': int, x': int, ok: bool)
    requires win.Valid() && 0 <= y < win.maxy && 0 <= x < win.maxx
    modifies win`view, win`cury, win`curx, win.lines, win.pool, win.buffers
    ensures win.Valid() && Now(win, y', x', ok) == NewLine(old(Now(win, y, x, true)), win.maxx)
  {
    y', x', ok := y, x, true;
    if y == win.maxy - 1 {
      if win.scrollOk {
        win.cury, win.curx := y, x;
        var _ := Scroll(win);
        y', x' := win.cury, 0;
      } else {
        ok := false;
      }
    } else {
      y', x' := y + 1, 0;
    }
  }

  /** Extends the marks of a line to column x. */
  method Mark(l: Line, x: int)
    modifies l
    ensures l.View() == Marked(old(l.View()), x)
  {
    if !l.dirty {
      l.dirty := true;
      l.firstch := x;
      l.lastch := x;
    } else if x < l.firstch {
      l.firstch := x;
    } else if x > l.lastch {
      l.lastch := x;
    }
  }

  method WriteInLine(l: Line, x: int, c: char, stand: bool)
    requires 0 <= x < l.cells.Length
    modifies l, l.cells
    ensures l.View() == Written(old(l.View()), x, c, stand)
  {
    if l.cells[x].ch != c || !(l.cells[x].standout && stand) {
      Mark(l, x);
    }
    l.cells[x] := Cell(c, stand);
    if x == l.cells.Length - 1 {
      l.pastEol := true;
    }
  }

  method DoWrite(win: Window, y: int, x: int, c: char, so: bool) returns (x': int)
    requires win.Valid() && 0 <= y < win.maxy && 0 <= x < win.maxx
    modifies win`view, win.lines[y], win.lines[y].cells
    ensures win.Valid() && Now(win, y, x', true) == Write(old(Now(win, y, x, true)), c, so, win.maxx)
  {
    var stand := win.standout || so;
    WriteInLine(win.lines[y], x, c, stand);
    x' := if x == win.maxx - 1 then x else x + 1;
    win.view := win.view[y := Written(win.view[y], x, c, stand)];
  }

  method DoChar(win: Window, y: int, x: int, c: char, so: bool) returns (y': int, x': int, ok: bool)
    requires win.Valid() && 0 <= y < win.maxy && 0 <= x < win.maxx
    modifies win`view, win`cury, win`curx, win.lines, win.pool, win.buffers
    ensures win.Valid() && Now(win, y', x', ok) == TypeChar(old(Now(win, y, x, true)), c, so, win.maxx)
  {
    y', x', ok := y, x, true;
    if win.lines[y].pastEol {
      win.SetPastEol(y, false);
      SteadyNewLine(Now(win, y, x, true), win.maxx);
      y', x', ok := DoNewLine(win, y, x);
    }
    if ok {
      x' := DoWrite(win, y', x', c, so);
    }
  }

  method DoPlain(win: Window, y: int, x: int, c: char, so: bool, nonl: bool) returns (y': int, x': int, ok: bool)
    requires win.Valid() && 0 <= y < win.maxy && 0 <= x < win.maxx
    modifies win`view, win`cury, win`curx, win.lines, win.pool, win.buffers
    ensures win.Valid() && Now(win, y', x', ok) == TypePlain(old(Now(win, y, x, true)), c, so, nonl, win.maxx)
    ensures 0 <= y' < win.maxy && 0 <= x' < win.maxx
  {
    SteadyPlain(Now(win, y, x, true), c, so, nonl, win.maxx);
    y', x', ok := y, x, true;
    if c == '\n' {
      win.cury, win.curx := y, x;
      Wclrtoeol(win);
      y', x' := win.cury, if nonl then win.curx else 0;
      y', x', ok := DoNewLine(win, y', x');
    } else if c == '\r' {
      x' := 0;
    } else if c == BACKSPACE {
      x' := if x > 0 then x - 1 else 0;
    } else {
      y', x', ok := DoChar(win, y, x, c, so);
    }
  }

  /** Typing n blanks without a tab among them is what the nested call for a tab does. */
  lemma {:induction false} BlanksAreTyped(t: Typist, n: nat, nonl: bool, w: nat)
    requires Steady(t, w)
    ensures TypeAll(t, Spaces(n), false, nonl, w) == TypeBlanks(t, n, nonl, w)
  {
    if n > 0 {
      assert Spaces(n)[..n - 1] == Spaces(n - 1);
      BlanksAreTyped(t, n - 1, nonl, w);
    }
  }

  function Spaces(n: nat): (r: string)
    ensures |r| == n
  {
    seq(n, i => ' ')
  }

  /** One turn of the loop: a tab is typed by a nested call. */
  method TypeByte(win: Window, y: int, x: int, c: char, so: bool, nonl: bool) returns (y': int, x': int, ok: bool)
    requires win.Valid() && 0 <= y < win.maxy && 0 <= x < win.maxx
    modifies win`view, win`cury, win`curx, win.lines, win.pool, win.buffers
    ensures win.Valid() && TypeOne(old(Now(win, y, x, true)), c, so, nonl, win.maxx).ok == ok
    ensures ok ==> Now(win, y', x', true) == TypeOne(old(Now(win, y, x, true)), c, so, nonl, win.maxx)
    ensures !ok ==> win.Snap() == TypeOne(old(Now(win, y, x, true)), c, so, nonl, win.maxx).s
    ensures 0 <= y' < win.maxy && 0 <= x' < win.maxx
    decreases c == '\t', 0
  {
    if c == '\t' {
      win.cury, win.curx := y, x;
      BlanksAreTyped(Now(win, y, x, true), 8 - x % 8, nonl, win.maxx);
      ok := Waddbytes(win, Spaces(8 - x % 8), false, nonl);
      y', x' := win.cury, win.curx;
    } else {
      y', x', ok := DoPlain(win, y, x, c, so, nonl);
    }
  }

  /** __waddbytes */
  method Waddbytes(win: Window, bytes: string, so: bool, nonl: bool) returns (ok: bool)
    requires win.Valid()
    modifies win`view, win`cury, win`curx, win.lines, win.pool, win.buffers
    ensures win.Valid()
    ensures win.Snap() == Added(old(win.Snap()), bytes, so, nonl, win.maxx).s
    ensures ok == Added(old(win.Snap()), bytes, so, nonl, win.maxx).ok
    decreases '\t' in bytes, 1
  {
    var y, x := win.cury, win.curx;
    ghost var start := Now(win, y, x, true);
    ok := true;
    for i := 0 to |bytes|
      invariant win.Valid() && 0 <= y < win.maxy && 0 <= x < win.maxx && ok
      invariant Now(win, y, x, true) == TypeAll(start, bytes[..i], so, nonl, win.maxx)
    {
      AddByte(start, bytes, i, so, nonl, win.maxx);
      y, x, ok := TypeByte(win, y, x, bytes[i], so, nonl);
      if !ok {
        StopsAt(start, bytes, i + 1, so, nonl, win.maxx);
        return;
      }
    }
    assert bytes[..|bytes|] == bytes;
    win.cury, win.curx := y, x;
  }

  lemma AddByte(t: Typist, bytes: string, i: nat, so: bool, nonl: bool, w: nat)
    requires Steady(t, w) && i < |bytes| && TypeAll(t, bytes[..i], so, nonl, w).ok
    ensures TypeAll(t, bytes[..i + 1], so, nonl, w)
         == TypeOne(TypeAll(t, bytes[..i], so, nonl, w), bytes[i], so, nonl, w)
  {
    assert bytes[..i + 1][..i] == bytes[..i];
  }

  /** After the first error the rest of the bytes is ignored. */
  lemma {:induction false} StopsAt(t: Typist, bytes: string, i: nat, so: bool, nonl: bool, w: nat)
    requires Steady(t, w) && i <= |bytes| && !TypeAll(t, bytes[..i], so, nonl, w).ok
    ensures TypeAll(t, bytes, so, nonl, w) == TypeAll(t, bytes[..i], so, nonl, w)
    decreases |bytes|
  {
    if i == |bytes| {
      assert bytes[..i] == bytes;
    } else {
      assert bytes[..|bytes| - 1][..i] == bytes[..i];
      StopsAt(t, bytes[..|bytes| - 1], i, so, nonl, w);
    }
  }

  // ----- what typing means -----

  predicate PlainText(bytes: string) {
    forall i :: 0 <= i < |bytes| ==> bytes[i] != '\t' && bytes[i] != '\n' && bytes[i] != '\r' && bytes[i] != BACKSPACE
  }

  /** A row with a text written over it from column x on. */
  function Overtyped(cells: seq<Cell>, x: int, bytes: string, stand: bool): seq<Cell>
    requires 0 <= x && x + |bytes| <= |cells|
  {
    cells[..x] + seq(|bytes|, i requires 0 <= i < |bytes| => Cell(bytes[i], stand)) + cells[x + |bytes|..]
  }

  /** One plain character in the line. */
  lemma CharIsTyped(t: Typist, c: char, so: bool, nonl: bool, w: nat)
    requires Steady(t, w) && t.ok && PlainText([c]) && !t.s.lines[t.y].pastEol
    ensures var r, l, stand := TypeOne(t, c, so, nonl, w), t.s.lines[t.y], t.s.standout || so;
      && r == t.(s := t.s.(lines := t.s.lines[t.y := Written(l, t.x, c, stand)]),
                 x := if t.x == w - 1 then t.x else t.x + 1)
      && Written(l, t.x, c, stand).cells == l.cells[t.x := Cell(c, stand)]
      && (Written(l, t.x, c, stand).pastEol <==> t.x == w - 1) && Written(l, t.x, c, stand).force == l.force
  {
    assert [c][0] == c;
  }

  /** The text so far, and one character more. */
  lemma OneCharMore(t: Typist, r: Typist, bytes: string, so: bool, nonl: bool, w: nat)
    requires Steady(t, w) && Steady(r, w) && bytes != [] && PlainText(bytes) && t.x + |bytes| <= w
    requires Typed(t, r, bytes[..|bytes| - 1], so, w)
    ensures Typed(t, TypeOne(r, bytes[|bytes| - 1], so, nonl, w), bytes, so, w)
  {
    CharIsTyped(r, bytes[|bytes| - 1], so, nonl, w);
    OvertypeOne(t.s.lines[t.y].cells, t.x, bytes, t.s.standout || so);
  }

  /** `r` is `t` with the text written where it was. */
  predicate Typed(t: Typist, r: Typist, bytes: string, so: bool, w: nat)
    requires Steady(t, w) && t.x + |bytes| <= w
  {
    && r.ok && r.y == t.y && r.x == (if t.x + |bytes| < w then t.x + |bytes| else w - 1)
    && |r.s.lines| == |t.s.lines| && r.s == t.s.(lines := r.s.lines)
    && r.s.lines[t.y].cells == Overtyped(t.s.lines[t.y].cells, t.x, bytes, t.s.standout || so)
    && (r.s.lines[t.y].pastEol <==> bytes != [] && t.x + |bytes| == w)
    && r.s.lines[t.y].force == t.s.lines[t.y].force
    && forall k :: 0 <= k < |t.s.lines| && k != t.y ==> r.s.lines[k] == t.s.lines[k]
  }

  /** Text that fits in the rest of the line is written there, in the standout asked for, and no
      other cell changes. The cursor ends behind it or, when the line is full, on the last column
      with the line marked as left past its end. */
  lemma {:induction false} TextIsTyped(t: Typist, bytes: string, so: bool, nonl: bool, w: nat)
    requires Steady(t, w) && t.ok && PlainText(bytes) && t.x + |bytes| <= w && !t.s.lines[t.y].pastEol
    ensures Typed(t, TypeAll(t, bytes, so, nonl, w), bytes, so, w)
    decreases |bytes|
  {
    if bytes == [] {
      assert Overtyped(t.s.lines[t.y].cells, t.x, bytes, t.s.standout || so) == t.s.lines[t.y].cells;
    } else {
      TextIsTyped(t, bytes[..|bytes| - 1], so, nonl, w);
      OneCharMore(t, TypeAll(t, bytes[..|bytes| - 1], so, nonl, w), bytes, so, nonl, w);
    }
  }

  lemma OvertypeOne(cells: seq<Cell>, x: int, bytes: string, stand: bool)
    requires 0 <= x && bytes != [] && x + |bytes| <= |cells|
    ensures var n := |bytes| - 1;
      Overtyped(cells, x, bytes, stand) == Overtyped(cells, x, bytes[..n], stand)[x + n := Cell(bytes[n], stand)]
  {
  }
}
