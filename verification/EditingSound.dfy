/** Every editing call keeps the change marks sound against whatever the screen showed before. */
module EditingSound {
  import opened Windows
  import opened Editing
  import opened Clearing
  import opened Typing
  import opened Terminal
  import opened Repaint

  /** A line whose marks are sound against `base` and whose cells can be shown. */
  ghost predicate GoodLine(c: Caps, base: seq<Cell>, l: LineV, bottom: bool) {
    SoundLine(base, l, bottom) && Showable(c, l.cells)
  }

  /** The same for a whole window, of width w. */
  ghost predicate Good(c: Caps, base: seq<seq<Cell>>, s: WinV, w: nat) {
    && WellFormed(s, w) && |base| == |s.lines|
    && (forall k :: 0 <= k < |s.lines| ==> GoodLine(c, base[k], s.lines[k], k == |s.lines| - 1))
    && (s.standout ==> c.stands)
  }

  // ----- single lines -----

  /** A line touched over its full width is good on any place of the screen. */
  lemma FullyTouched(c: Caps, base: seq<Cell>, l: LineV, bottom: bool, w: nat)
    requires |base| == w > 0 && WellMarked(l, w) && Showable(c, l.cells)
    ensures GoodLine(c, base, Touched(l, 0, w - 1, false), bottom)
  {
  }

  /** Changing columns x.. only and touching them keeps a line good. */
  lemma TailTouched(c: Caps, base: seq<Cell>, l: LineV, bottom: bool, cells: seq<Cell>, x: int)
    requires GoodLine(c, base, l, bottom) && WellMarked(l, |base|) && 0 <= x < |base| == |cells|
    requires (forall k :: 0 <= k < x ==> cells[k] == l.cells[k]) && Showable(c, cells)
    ensures GoodLine(c, base, Touched(l.(cells := cells), x, |base| - 1, false), bottom)
  {
  }

  /** Wiping a line marks all columns it changes. */
  lemma WipedGood(c: Caps, base: seq<Cell>, l: LineV, bottom: bool, x: int)
    requires GoodLine(c, base, l, bottom) && WellMarked(l, |base|) && 0 <= x < |base|
    ensures GoodLine(c, base, WipedLine(l, x), bottom) && WellMarked(WipedLine(l, x), |base|)
  {
    var w := |l.cells|;
    var first, last := FirstInk(l.cells, x, w), LastInk(l.cells, x, w);
    if first != -1 {
      assert l.cells[first] != BLANK;
      assert last != -1;
    }
  }

  /** Writing a character marks its column unless nothing changes. */
  lemma WrittenGood(c: Caps, base: seq<Cell>, l: LineV, bottom: bool, x: int, ch: char, stand: bool)
    requires GoodLine(c, base, l, bottom) && WellMarked(l, |base|) && 0 <= x < |base| && (stand ==> c.stands)
    ensures GoodLine(c, base, Written(l, x, ch, stand), bottom) && WellMarked(Written(l, x, ch, stand), |base|)
  {
  }

  // ----- calls that move lines -----

  lemma DeletedGood(c: Caps, base: seq<seq<Cell>>, s: WinV, w: nat)
    requires Good(c, base, s, w)
    ensures Good(c, base, s.(lines := Deleted(s.lines, s.y, w)), w)
  {
    DeletedWell(s.lines, s.y, w);
    var v, v' := s.lines, Deleted(s.lines, s.y, w);
    forall k | 0 <= k < |v| ensures GoodLine(c, base[k], v'[k], k == |v| - 1) {
      assert GoodLine(c, base[k], v[k], k == |v| - 1) && GoodLine(c, base[s.y], v[s.y], s.y == |v| - 1);
      if s.y <= k < |v| - 1 {
        assert GoodLine(c, base[k + 1], v[k + 1], k + 1 == |v| - 1);
        FullyTouched(c, base[k], v[k + 1].(pastEol := false), false, w);
      } else if k == |v| - 1 {
        FullyTouched(c, base[k], v[s.y].(cells := Blanks(w), pastEol := s.y == |v| - 1 && v[s.y].pastEol), true, w);
      }
    }
  }

  lemma InsertedLineGood(c: Caps, base: seq<Cell>, v: seq<LineV>, y: int, w: nat, k: int)
    requires 0 <= y < |v| && 0 <= k < |v| && |base| == w > 0
    requires k < y ==> GoodLine(c, base, v[k], k == |v| - 1)
    requires k > y ==> WellMarked(v[k - 1], w) && Showable(c, v[k - 1].cells)
    requires k == y ==> WellMarked(v[|v| - 1], w)
    ensures GoodLine(c, base, Inserted(v, y, w)[k], k == |v| - 1)
  {
    var l := Inserted(v, y, w)[k];
    if k > y {
      assert l == Moved(v[k - 1], w);
      FullyTouched(c, base, v[k - 1].(pastEol := false), k == |v| - 1, w);
    } else if k == y {
      var past := y == |v| - 1 && v[y].pastEol;
      assert l == Blanked(v[|v| - 1], w, past);
      var blank := v[|v| - 1].(cells := Blanks(w), pastEol := past);
      FullyTouched(c, base, blank, k == |v| - 1, w);
    } else {
      assert l == v[k];
    }
  }

  lemma InsertedGood(c: Caps, base: seq<seq<Cell>>, s: WinV, w: nat)
    requires Good(c, base, s, w)
    ensures Good(c, base, s.(lines := Inserted(s.lines, s.y, w)), w)
  {
    InsertedWell(s.lines, s.y, w);
    forall k | 0 <= k < |s.lines|
      ensures GoodLine(c, base[k], Inserted(s.lines, s.y, w)[k], k == |s.lines| - 1)
    {
      assert GoodLine(c, base[k], s.lines[k], k == |s.lines| - 1);
      if k > s.y { assert GoodLine(c, base[k - 1], s.lines[k - 1], k - 1 == |s.lines| - 1); }
      InsertedLineGood(c, base[k], s.lines, s.y, w, k);
    }
  }

  lemma MovedGood(c: Caps, base: seq<seq<Cell>>, s: WinV, y: int, x: int, w: nat)
    requires Good(c, base, s, w)
    ensures Good(c, base, MovedTo(s, y, x, w), w)
  {
    if InWindow(s, y, x, w) {
      assert GoodLine(c, base[s.y], s.lines[s.y], s.y == |s.lines| - 1);
      assert GoodLine(c, base[y], s.lines[y], y == |s.lines| - 1);
      var v' := MovedTo(s, y, x, w).lines;
      forall k | 0 <= k < |v'| ensures GoodLine(c, base[k], v'[k], k == |v'| - 1) && WellMarked(v'[k], w) {
        assert GoodLine(c, base[k], s.lines[k], k == |s.lines| - 1);
      }
    }
  }

  lemma ScrolledGood(c: Caps, base: seq<seq<Cell>>, s: WinV, w: nat)
    requires Good(c, base, s, w)
    ensures Good(c, base, Scrolled(s, w), w)
  {
    if s.scrollOk {
      var s1 := MovedTo(s, 0, 0, w);
      MovedGood(c, base, s, 0, 0, w);
      DeletedGood(c, base, s1, w);
      MovedGood(c, base, s1.(lines := Deleted(s1.lines, 0, w)), s.y, s.x, w);
    }
  }

  // ----- calls that change one line -----

  /** Replacing one line of a good window by a good line. */
  lemma OneLineGood(c: Caps, base: seq<seq<Cell>>, s: WinV, y: int, l: LineV, w: nat)
    requires Good(c, base, s, w) && 0 <= y < |s.lines|
    requires GoodLine(c, base[y], l, y == |s.lines| - 1) && WellMarked(l, w)
    ensures Good(c, base, s.(lines := s.lines[y := l]), w)
  {
    var v' := s.lines[y := l];
    forall k | 0 <= k < |v'| ensures GoodLine(c, base[k], v'[k], k == |v'| - 1) {
      assert GoodLine(c, base[k], s.lines[k], k == |s.lines| - 1);
    }
  }

  lemma TailGood(c: Caps, base: seq<seq<Cell>>, s: WinV, y: int, cells: seq<Cell>, x: int, w: nat)
    requires Good(c, base, s, w) && 0 <= y < |s.lines| && 0 <= x < w == |cells|
    requires (forall k :: 0 <= k < x ==> cells[k] == s.lines[y].cells[k]) && Showable(c, cells)
    ensures Good(c, base, s.(lines := s.lines[y := Touched(s.lines[y].(cells := cells), x, w - 1, false)]), w)
  {
    assert GoodLine(c, base[y], s.lines[y], y == |s.lines| - 1);
    TailTouched(c, base[y], s.lines[y], y == |s.lines| - 1, cells, x);
    OneLineGood(c, base, s, y, Touched(s.lines[y].(cells := cells), x, w - 1, false), w);
  }

  lemma ClearedToEolGood(c: Caps, base: seq<seq<Cell>>, s: WinV, w: nat)
    requires Good(c, base, s, w)
    ensures Good(c, base, ClearedToEol(s, w), w)
  {
    var past := s.lines[s.y].pastEol;
    var y, x := if past then s.y + 1 else s.y, if past then 0 else s.x;
    if y < |s.lines| {
      assert GoodLine(c, base[y], s.lines[y], y == |s.lines| - 1);
      TailGood(c, base, s, y, Wiped(s.lines[y].cells, x, w), x, w);
    }
  }

  lemma DeletedChGood(c: Caps, base: seq<seq<Cell>>, s: WinV, w: nat)
    requires Good(c, base, s, w)
    ensures Good(c, base, DeletedCh(s, w), w)
  {
    var l := s.lines[s.y];
    assert GoodLine(c, base[s.y], l, s.y == |s.lines| - 1);
    TailGood(c, base, s, s.y, l.cells[..s.x] + l.cells[s.x + 1..] + [BLANK], s.x, w);
  }

  lemma InsertedChGood(c: Caps, base: seq<seq<Cell>>, s: WinV, ch: char, w: nat)
    requires Good(c, base, s, w)
    ensures Good(c, base, InsertedCh(s, ch, w), w)
  {
    var l := s.lines[s.y];
    assert GoodLine(c, base[s.y], l, s.y == |s.lines| - 1);
    TailGood(c, base, s, s.y, l.cells[..s.x] + [Cell(ch, false)] + l.cells[s.x..w - 1], s.x, w);
  }

  // ----- calls that clear many lines -----

  lemma ClearedToBotGood(c: Caps, base: seq<seq<Cell>>, s: WinV, w: nat)
    requires Good(c, base, s, w)
    ensures Good(c, base, ClearedToBot(s, w), w)
  {
    var past := s.lines[s.y].pastEol;
    var y, x := if past then s.y + 1 else s.y, if past then 0 else s.x;
    var v' := ClearedToBot(s, w).lines;
    forall k | 0 <= k < |v'| ensures GoodLine(c, base[k], v'[k], k == |v'| - 1) && WellMarked(v'[k], w) {
      assert GoodLine(c, base[k], s.lines[k], k == |s.lines| - 1);
      if k >= y { WipedGood(c, base[k], s.lines[k], k == |v'| - 1, if k == y then x else 0); }
    }
  }

  lemma ErasedGood(c: Caps, base: seq<seq<Cell>>, s: WinV, w: nat)
    requires Good(c, base, s, w)
    ensures Good(c, base, s.(lines := Erased(s.lines)), w)
  {
    var v' := Erased(s.lines);
    forall k | 0 <= k < |v'| ensures GoodLine(c, base[k], v'[k], k == |v'| - 1) && WellMarked(v'[k], w) {
      assert GoodLine(c, base[k], s.lines[k], k == |s.lines| - 1);
      WipedGood(c, base[k], s.lines[k], k == |v'| - 1, 0);
    }
  }

  lemma TouchedGood(c: Caps, base: seq<seq<Cell>>, s: WinV, v': seq<LineV>, force: bool, w: nat)
    requires Good(c, base, s, w) && |v'| == |s.lines|
    requires forall k :: 0 <= k < |v'| ==> v'[k] == Touched(s.lines[k], 0, w - 1, force)
    ensures Good(c, base, s.(lines := v'), w)
  {
    forall k | 0 <= k < |v'| ensures GoodLine(c, base[k], v'[k], k == |v'| - 1) {
      assert GoodLine(c, base[k], s.lines[k], k == |s.lines| - 1);
    }
  }

  // ----- typing -----

  lemma NewLineGood(c: Caps, base: seq<seq<Cell>>, t: Typist, w: nat)
    requires Good(c, base, t.s, w) && Steady(t, w)
    ensures Good(c, base, NewLine(t, w).s, w)
  {
    if t.y == |t.s.lines| - 1 && t.s.scrollOk {
      var s := t.s.(y := t.y, x := t.x);
      assert Good(c, base, s, w);
      ScrolledGood(c, base, s, w);
    }
  }

  lemma WriteGood(c: Caps, base: seq<seq<Cell>>, t: Typist, ch: char, so: bool, w: nat)
    requires Good(c, base, t.s, w) && Steady(t, w) && (so ==> c.stands)
    ensures Good(c, base, Write(t, ch, so, w).s, w)
  {
    assert GoodLine(c, base[t.y], t.s.lines[t.y], t.y == |t.s.lines| - 1);
    WrittenGood(c, base[t.y], t.s.lines[t.y], t.y == |t.s.lines| - 1, t.x, ch, t.s.standout || so);
    OneLineGood(c, base, t.s, t.y, Written(t.s.lines[t.y], t.x, ch, t.s.standout || so), w);
  }

  lemma TypeCharGood(c: Caps, base: seq<seq<Cell>>, t: Typist, ch: char, so: bool, w: nat)
    requires Good(c, base, t.s, w) && Steady(t, w) && (so ==> c.stands)
    ensures Good(c, base, TypeChar(t, ch, so, w).s, w)
  {
    if t.s.lines[t.y].pastEol {
      assert GoodLine(c, base[t.y], t.s.lines[t.y], t.y == |t.s.lines| - 1);
      OneLineGood(c, base, t.s, t.y, t.s.lines[t.y].(pastEol := false), w);
      var t0 := BackInLine(t);
      SteadyNewLine(t0, w);
      NewLineGood(c, base, t0, w);
      if NewLine(t0, w).ok { WriteGood(c, base, NewLine(t0, w), ch, so, w); }
    } else {
      WriteGood(c, base, t, ch, so, w);
    }
  }

  lemma TypePlainGood(c: Caps, base: seq<seq<Cell>>, t: Typist, ch: char, so: bool, nonl: bool, w: nat)
    requires Good(c, base, t.s, w) && Steady(t, w) && (so ==> c.stands)
    ensures Good(c, base, TypePlain(t, ch, so, nonl, w).s, w)
  {
    if ch == '\n' {
      var s := t.s.(y := t.y, x := t.x);
      assert Good(c, base, s, w);
      ClearedToEolGood(c, base, s, w);
      NewLineGood(c, base, t.(s := ClearedToEol(s, w), x := if nonl then t.x else 0), w);
    } else if ch != '\r' && ch != BACKSPACE {
      TypeCharGood(c, base, t, ch, so, w);
    }
  }

  lemma {:induction false} TypeBlanksGood(c: Caps, base: seq<seq<Cell>>, t: Typist, n: nat, nonl: bool, w: nat)
    requires Good(c, base, t.s, w) && Steady(t, w)
    ensures Good(c, base, TypeBlanks(t, n, nonl, w).s, w)
  {
    if n > 0 {
      TypeBlanksGood(c, base, t, n - 1, nonl, w);
      TypePlainGood(c, base, TypeBlanks(t, n - 1, nonl, w), ' ', false, nonl, w);
    }
  }

  lemma SyncedGood(c: Caps, base: seq<seq<Cell>>, t: Typist, w: nat)
    requires Good(c, base, t.s, w) && Steady(t, w)
    ensures Good(c, base, Synced(t).s, w) && Steady(Synced(t), w)
  {
  }

  lemma TypeOneGood(c: Caps, base: seq<seq<Cell>>, t: Typist, ch: char, so: bool, nonl: bool, w: nat)
    requires Good(c, base, t.s, w) && Steady(t, w) && (so ==> c.stands)
    ensures Good(c, base, TypeOne(t, ch, so, nonl, w).s, w)
  {
    if ch == '\t' {
      SyncedGood(c, base, t, w);
      TypeBlanksGood(c, base, Synced(t), 8 - t.x % 8, nonl, w);
      SyncedGood(c, base, TypeBlanks(Synced(t), 8 - t.x % 8, nonl, w), w);
    } else {
      TypePlainGood(c, base, t, ch, so, nonl, w);
    }
  }

  lemma {:induction false} TypeAllGood(c: Caps, base: seq<seq<Cell>>, t: Typist, bytes: string, so: bool, nonl: bool,
      w: nat)
    requires Good(c, base, t.s, w) && Steady(t, w) && (so ==> c.stands)
    ensures Good(c, base, TypeAll(t, bytes, so, nonl, w).s, w)
    decreases |bytes|
  {
    if bytes != [] {
      var init := bytes[..|bytes| - 1];
      TypeAllGood(c, base, t, init, so, nonl, w);
      var t1 := TypeAll(t, init, so, nonl, w);
      if t1.ok { TypeOneGood(c, base, t1, bytes[|bytes| - 1], so, nonl, w); }
    }
  }

  /** __waddbytes keeps the marks sound, whatever it is given. */
  lemma AddedGood(c: Caps, base: seq<seq<Cell>>, s: WinV, bytes: string, so: bool, nonl: bool, w: nat)
    requires Good(c, base, s, w) && (so ==> c.stands)
    ensures Good(c, base, Added(s, bytes, so, nonl, w).s, w)
  {
    TypeAllGood(c, base, Typist(s, s.y, s.x, true), bytes, so, nonl, w);
  }
}
