/** quickch of Libcurses-21/refresh.c from line 548 on: the in-place rotation of curscr. */
module QuickChange {
  import opened Cycle
  import opened Windows
  import opened Editing
  import opened Terminal
  import opened Screens

  /** The shift of top..bot by n lines that was found, with the unchanged block from..till of the
      window. Lines that wrap around the region lie outside the block. */
  datatype Shift = Shift(top: int, bot: int, n: int, from: int, till: int)
  {
    function Size(): int {
      bot - top + 1
    }

    predicate Valid(h: nat) {
      && 0 <= top <= bot < h && -Size() < n < Size()
      && top <= from <= till <= bot + 1
      && (n > 0 ==> top + n <= from) && (n < 0 ==> till <= bot + 1 + n)
    }

    predicate InBlock(k: int) {
      from <= k < till
    }

    /** The lines that wrapped around: scrolling has put blank lines there. */
    predicate Wrapped(k: int) {
      (n > 0 && top <= k < top + n) || (n < 0 && bot + n < k <= bot)
    }
  }

  /** What happens to the curscr line that comes to place k. */
  function SettledC(l: LineV, s: Shift, k: int, w: nat, blankHash: int): LineV {
    if !s.InBlock(k) && s.Wrapped(k) then l.(cells := Blanks(w), hash := blankHash) else l
  }

  /** What happens to the window line at place k. */
  function SettledW(l: LineV, s: Shift, k: int, w: nat): LineV {
    if s.InBlock(k) then l.(dirty := false) else Touched(l, 0, w - 1, false)
  }

  /** curscr after the rotation. */
  function Rotated(v: seq<LineV>, s: Shift, w: nat, blankHash: int): (r: seq<LineV>)
    requires s.Valid(|v|)
    ensures |r| == |v|
  {
    seq(|v|, k requires 0 <= k < |v| =>
      if s.top <= k <= s.bot then SettledC(v[Source(s.top, s.Size(), s.n, k)], s, k, w, blankHash) else v[k])
  }

  /** The window's lines after the rotation. */
  function Remarked(v: seq<LineV>, s: Shift, w: nat): (r: seq<LineV>)
    ensures |r| == |v|
  {
    seq(|v|, k requires 0 <= k < |v| => if s.top <= k <= s.bot then SettledW(v[k], s, k, w) else v[k])
  }

  /** refresh.c:640-668: blanks the rotated line if it wrapped around and marks the window's line. */
  method Settle(win: Window, clp: Line, s: Shift, target: int, blankHash: int)
    requires win.Valid() && 0 <= target < win.maxy
    requires clp !in win.pool && clp.cells !in win.buffers && clp.cells.Length == win.maxx
    modifies win`view, win.lines[target], clp, clp.cells
    ensures win.Valid() && win.view == old(win.view)[target := SettledW(old(win.view)[target], s, target, win.maxx)]
    ensures clp.View() == SettledC(old(clp.View()), s, target, win.maxx, blankHash)
  {
    if s.InBlock(target) {
      win.SetDirty(target, false);
    } else if s.Wrapped(target) {
      if clp.hash != blankHash || clp.cells[..] != Blanks(win.maxx) {
        forall k | 0 <= k < win.maxx { clp.cells[k] := BLANK; }
        assert clp.cells[..] == Blanks(win.maxx);
        clp.hash := blankHash;
      }
      win.TouchLine(target, 0, win.maxx - 1, false);
    } else {
      win.TouchLine(target, 0, win.maxx - 1, false);
    }
  }

  // ----- the loop -----

  /** Source and Target of all places, as two inverse maps. */
  function SourceMap(s: Shift, h: nat): (r: seq<int>)
    requires s.Valid(h)
    ensures |r| == h
  {
    seq(h, k => if s.top <= k <= s.bot then Source(s.top, s.Size(), s.n, k) else k)
  }

  function TargetMap(s: Shift, h: nat): (r: seq<int>)
    requires s.Valid(h)
    ensures |r| == h
  {
    seq(h, k => if s.top <= k <= s.bot then Target(s.top, s.Size(), s.n, k) else k)
  }

  /** Each line goes to one place, and the maps say which. */
  lemma MapsAreInverse(s: Shift, h: nat, k: int)
    requires s.Valid(h) && 0 <= k < h
    ensures 0 <= SourceMap(s, h)[k] < h && 0 <= TargetMap(s, h)[k] < h
    ensures forall i :: 0 <= i < h ==> (TargetMap(s, h)[i] == k <==> i == SourceMap(s, h)[k])
    ensures forall j :: 0 <= j < h && SourceMap(s, h)[j] == SourceMap(s, h)[k] ==> j == k
  {
    if s.top <= k <= s.bot { SourceOfTarget(s.top, s.Size(), s.n, k); }
    forall i | 0 <= i < h ensures TargetMap(s, h)[i] == k <==> i == SourceMap(s, h)[k] {
      if s.top <= i <= s.bot { SourceOfTarget(s.top, s.Size(), s.n, i); }
    }
    forall j | 0 <= j < h && SourceMap(s, h)[j] == SourceMap(s, h)[k] ensures j == k {
      if s.top <= j <= s.bot { SourceOfTarget(s.top, s.Size(), s.n, j); }
    }
  }

  /** What the loop started from: the lines `obs` of curscr with values cv, the window's lines wv,
      and which place each line goes to and comes from. */
  datatype Start = Start(obs: seq<Line>, cv: seq<LineV>, wv: seq<LineV>, src: seq<int>, tgt: seq<int>)

  ghost predicate ValidStart(b: Start, cur: Window, win: Window) {
    && AreLines(b.obs, cur) && cur.maxy == win.maxy && cur.maxx == win.maxx
    && win.pool !! cur.pool && win.buffers !! cur.buffers
    && win.lines != cur.lines && win != cur && cur.lines.Length == cur.maxy
    && |b.cv| == |b.wv| == |b.src| == |b.tgt| == cur.maxy
  }

  /** The places in `done` hold their new lines. */
  ghost predicate Placed(b: Start, lines: array<Line>, done: set<int>)
    requires lines.Length == |b.obs| == |b.src|
    reads lines
  {
    forall k :: 0 <= k < |b.obs| ==>
      (k in done ==> 0 <= b.src[k] < |b.obs| && lines[k] == b.obs[b.src[k]]) && (k !in done ==> lines[k] == b.obs[k])
  }

  /** The lines that went to the places in `done` are settled. */
  ghost predicate Settled(b: Start, s: Shift, w: nat, blankHash: int, done: set<int>)
    requires |b.cv| == |b.obs| == |b.tgt|
    reads b.obs, set i | 0 <= i < |b.obs| :: b.obs[i].cells
  {
    forall i :: 0 <= i < |b.obs| ==>
      b.obs[i].View() == if b.tgt[i] in done then SettledC(b.cv[i], s, b.tgt[i], w, blankHash) else b.cv[i]
  }

  /** The window's lines at the places in `done` are marked. */
  ghost predicate MarkedBy(b: Start, s: Shift, w: nat, view: seq<LineV>, done: set<int>) {
    && |view| == |b.wv|
    && forall k :: 0 <= k < |b.wv| ==> view[k] == if k in done then SettledW(b.wv[k], s, k, w) else b.wv[k]
  }

  /** Settle touches no other line of curscr. */
  method SettleAmong(cur: Window, win: Window, clp: Line, s: Shift, target: int, blankHash: int, ghost i: int,
      ghost b: Start)
    requires ValidStart(b, cur, win) && win.Valid() && 0 <= target < win.maxy && 0 <= i < win.maxy && clp == b.obs[i]
    modifies win`view, win.lines[target], clp, clp.cells
    ensures win.Valid() && win.view == old(win.view)[target := SettledW(old(win.view)[target], s, target, win.maxx)]
    ensures clp.View() == SettledC(old(clp.View()), s, target, win.maxx, blankHash)
    ensures forall j :: 0 <= j < win.maxy && j != i ==> b.obs[j].View() == old(b.obs[j].View())
  {
    Settle(win, clp, s, target, blankHash);
  }

  /** The line that came to the target is settled now, the others are as they were. */
  method SettleOne(cur: Window, win: Window, clp: Line, s: Shift, target: int, blankHash: int,
                   ghost i: int, ghost b: Start, ghost done: set<int>)
    requires ValidStart(b, cur, win) && win.Valid() && 0 <= target < win.maxy && 0 <= i < win.maxy && clp == b.obs[i]
    requires Settled(b, s, win.maxx, blankHash, done) && target !in done
    requires forall j :: 0 <= j < win.maxy ==> (b.tgt[j] == target <==> j == i)
    modifies win`view, win.lines[target], clp, clp.cells
    ensures win.Valid() && win.view == old(win.view)[target := SettledW(old(win.view)[target], s, target, win.maxx)]
    ensures Settled(b, s, win.maxx, blankHash, done + {target})
  {
    SettleAmong(cur, win, clp, s, target, blankHash, i, b);
  }

  lemma MarkOne(b: Start, s: Shift, w: nat, view: seq<LineV>, done: set<int>, target: int)
    requires MarkedBy(b, s, w, view, done) && 0 <= target < |view| && target !in done
    ensures MarkedBy(b, s, w, view[target := SettledW(view[target], s, target, w)], done + {target})
  {
  }

  /** Swaps the line in hand with the one at the target. */
  method PlaceOne(lines: array<Line>, tmp1: Line, target: int, ghost i: int, ghost b: Start, ghost done: set<int>)
    returns (tmp2: Line)
    requires lines.Length == |b.obs| == |b.src| && Placed(b, lines, done)
    requires 0 <= target < lines.Length && target !in done && i == b.src[target] && 0 <= i < |b.obs| && tmp1 == b.obs[i]
    modifies lines
    ensures tmp2 == b.obs[target] && lines[target] == tmp1 && Placed(b, lines, done + {target})
  {
    tmp2 := lines[target];
    lines[target] := tmp1;
  }

  /** One turn of the loop, refresh.c:632-668: tmp1, the line of place i, goes to the place target. */
  method RotateOne(cur: Window, win: Window, tmp1: Line, target: int, s: Shift, blankHash: int,
                   ghost i: int, ghost b: Start, ghost done: set<int>)
    returns (tmp2: Line)
    requires ValidStart(b, cur, win) && win.Valid()
    requires Placed(b, cur.lines, done) && Settled(b, s, win.maxx, blankHash, done)
      && MarkedBy(b, s, win.maxx, win.view, done)
    requires 0 <= target < win.maxy && target !in done && i == b.src[target]
    requires 0 <= i < win.maxy && tmp1 == b.obs[i]
    requires forall j :: 0 <= j < win.maxy ==> (b.tgt[j] == target <==> j == i)
    modifies cur.lines, b.obs[i], b.obs[i].cells, win`view, win.lines[target]
    ensures win.Valid() && tmp2 == b.obs[target]
    ensures Placed(b, cur.lines, done + {target})
    ensures Settled(b, s, win.maxx, blankHash, done + {target})
    ensures MarkedBy(b, s, win.maxx, win.view, done + {target})
  {
    tmp2 := PlaceOne(cur.lines, tmp1, target, i, b, done);
    MarkOne(b, s, win.maxx, win.view, done, target);
    SettleOne(cur, win, tmp1, s, target, blankHash, i, b, done);
  }

  ghost function StartOf(s: Shift, cur: Window, win: Window): (b: Start)
    requires s.Valid(cur.maxy)
    reads cur, cur.lines, win
  {
    Start(cur.lines[..], cur.view, win.view, SourceMap(s, cur.maxy), TargetMap(s, cur.maxy))
  }

  /** Turn c of the loop as the rest of the proof needs it: where it stands, the place it writes,
      which was not written before, and how it was reached from the turn before it. */
  ghost predicate Plan(v: Itinerary, b: Start, s: Shift, c: int)
    requires 0 <= c < |v.stops| == |v.starts| == |v.targets|
    requires |b.src| == |b.tgt| == |b.obs|
  {
    Computed(v, s, c) && Places(v, b, s, c)
  }

  /** The place is the one that the source computes. */
  ghost predicate Computed(v: Itinerary, s: Shift, c: int)
    requires 0 <= c < |v.stops| == |v.targets|
  {
    0 < s.Size() && v.targets[c] == (v.stops[c] - s.top + s.n + s.Size()) % s.Size() + s.top
  }

  ghost predicate Places(v: Itinerary, b: Start, s: Shift, c: int)
    requires 0 <= c < |v.stops| == |v.starts| == |v.targets|
    requires |b.src| == |b.tgt| == |b.obs|
  {
    && s.top <= v.stops[c] <= s.bot < |b.obs| && s.top <= v.targets[c] <= s.bot && 0 <= s.top
    && v.stops[c] == b.src[v.targets[c]]
    && (forall j :: 0 <= j < |b.tgt| ==> (b.tgt[j] == v.targets[c] <==> j == v.stops[c]))
    && v.targets[c] !in v.targets[..c]
    && (c == 0 ==> v.stops[0] == v.starts[0] == s.top)
    && (c > 0 ==>
         if v.targets[c - 1] == v.starts[c - 1] then
           v.stops[c] == v.starts[c] == v.targets[c - 1] + 1 && v.stops[c] !in v.targets[..c]
         else
           v.stops[c] == v.targets[c - 1] && v.starts[c] == v.starts[c - 1])
  }

  ghost predicate AllPlanned(v: Itinerary, b: Start, s: Shift) {
    && |v.stops| == |v.starts| == |v.targets| == s.Size() > 0 && |b.src| == |b.tgt| == |b.obs|
    && forall c :: 0 <= c < s.Size() ==> Plan(v, b, s, c)
  }

  lemma MakePlan(s: Shift, b: Start, h: nat) returns (v: Itinerary)
    requires s.Valid(h) && |b.obs| == h && b.src == SourceMap(s, h) && b.tgt == TargetMap(s, h)
    ensures AllPlanned(v, b, s)
    ensures forall x :: x in v.targets <==> s.top <= x <= s.bot
  {
    v := FullItinerary(s.n, s.Size(), s.top);
    forall c | 0 <= c < s.Size() ensures Plan(v, b, s, c) {
      assert Visits(v, s.n, s.Size(), s.top, c);
      MapsAreInverse(s, h, v.targets[c]);
    }
  }

  /** The loop variables agree with turn c of the itinerary. */
  ghost predicate AtTurn(v: Itinerary, c: int, b: Start, i: int, tmp1: Line, curPeriod: int)
    requires 0 <= c < |v.stops| == |v.starts|
  {
    0 <= i < |b.obs| && i == v.stops[c] && curPeriod == v.starts[c] && tmp1 == b.obs[i]
  }

  /** Everything the rotation loop keeps, before its turn c. */
  ghost predicate Rotating(cur: Window, win: Window, s: Shift, blankHash: int, b: Start, v: Itinerary, c: int,
      done: set<int>)
    reads cur, cur.lines, b.obs, set i | 0 <= i < |b.obs| :: b.obs[i].cells
    reads win, win.lines, win.pool, win.buffers
  {
    && ValidStart(b, cur, win) && win.Valid()
    && 0 <= c <= |v.targets|
    && (forall k :: k in done <==> k in v.targets[..c])
    && Placed(b, cur.lines, done)
    && Settled(b, s, win.maxx, blankHash, done)
    && MarkedBy(b, s, win.maxx, win.view, done)
  }

  /** The line after the start of a cycle that has come to its end is still in its place. */
  lemma NextIsPlaced(cur: Window, win: Window, s: Shift, blankHash: int, b: Start, v: Itinerary, c: int,
                     done: set<int>, target: int)
    requires 0 <= c < |v.targets| == |v.stops| == |v.starts| && target == v.targets[c]
    requires Rotating(cur, win, s, blankHash, b, v, c + 1, done)
    requires c + 1 < |v.stops| && Places(v, b, s, c + 1) && target == v.starts[c]
    ensures 0 <= target + 1 < cur.lines.Length == |b.obs| && cur.lines[target + 1] == b.obs[target + 1]
  {
    assert target + 1 == v.stops[c + 1] && v.stops[c + 1] !in done;
  }

  /** refresh.c:631 */
  method TargetOf(s: Shift, i: int, ghost v: Itinerary, ghost c: int) returns (target: int)
    requires 0 <= c < |v.stops| == |v.targets| && Computed(v, s, c) && i == v.stops[c]
    ensures target == v.targets[c]
  {
    target := (i - s.top + s.n + s.Size()) % s.Size() + s.top;
  }

  /** What RotateOne needs to know about the places of turn c. */
  lemma TurnPlaces(v: Itinerary, b: Start, s: Shift, c: int, done: set<int>)
    requires 0 <= c < |v.stops| == |v.starts| == |v.targets| && |b.src| == |b.tgt| == |b.obs|
    requires Places(v, b, s, c) && forall k :: k in done <==> k in v.targets[..c]
    ensures 0 <= v.targets[c] < |b.obs| && v.targets[c] !in done && v.stops[c] == b.src[v.targets[c]]
    ensures 0 <= v.stops[c] < |b.obs| && forall j :: 0 <= j < |b.obs| ==>
      (b.tgt[j] == v.targets[c] <==> j == v.stops[c])
    ensures forall k :: k in done + {v.targets[c]} <==> k in v.targets[..c + 1]
  {
    assert v.targets[..c + 1] == v.targets[..c] + [v.targets[c]];
  }

  /** One turn up to refresh.c:668, at places known from the plan. */
  method RotateTurn(cur: Window, win: Window, s: Shift, blankHash: int, tmp1: Line, target: int,
                    ghost i: int, ghost b: Start, ghost v: Itinerary, ghost c: int, ghost done: set<int>)
    returns (tmp2: Line, ghost done': set<int>)
    requires Rotating(cur, win, s, blankHash, b, v, c, done) && c < |v.targets| == |v.stops| == |v.starts|
    requires Places(v, b, s, c) && target == v.targets[c] && 0 <= i < |b.obs| && i == v.stops[c] && tmp1 == b.obs[i]
    modifies cur.lines, tmp1, tmp1.cells, win`view, win.pool
    ensures Rotating(cur, win, s, blankHash, b, v, c + 1, done') && 0 <= target < |b.obs| && tmp2 == b.obs[target]
  {
    TurnPlaces(v, b, s, c, done);
    done' := done + {target};
    tmp2 := RotateOne(cur, win, tmp1, target, s, blankHash, i, b, done);
  }

  /** One turn of the loop of refresh.c:630-680, behind its first line. It goes on to the target, or to the
      line after the start of the cycle when that is where the line went. At the end of the last cycle the
      source also reads the pointer after the region, which it does not use; that read is left out here
      when the region ends the screen. */
  method Turn(cur: Window, win: Window, s: Shift, blankHash: int, target: int, tmp1: Line, curPeriod: int,
              ghost i: int, ghost b: Start, ghost v: Itinerary, ghost c: int, ghost done: set<int>)
    returns (i': int, tmp1': Line, curPeriod': int, ghost done': set<int>)
    requires Rotating(cur, win, s, blankHash, b, v, c, done)
    requires c < |v.stops| == |v.starts| == |v.targets| && target == v.targets[c]
    requires Places(v, b, s, c) && (c + 1 < |v.stops| ==> Places(v, b, s, c + 1))
    requires AtTurn(v, c, b, i, tmp1, curPeriod)
    modifies cur.lines, tmp1, tmp1.cells, win`view, win.pool
    ensures Rotating(cur, win, s, blankHash, b, v, c + 1, done')
    ensures c + 1 < |v.stops| ==> AtTurn(v, c + 1, b, i', tmp1', curPeriod')
  {
    var tmp2;
    tmp2, done' := RotateTurn(cur, win, s, blankHash, tmp1, target, i, b, v, c, done);
    if target == curPeriod {
      if c + 1 < |v.stops| { NextIsPlaced(cur, win, s, blankHash, b, v, c, done', target); }
      i' := target + 1;
      tmp1' := if i' < cur.lines.Length then cur.lines[i'] else tmp2;
      curPeriod' := i';
    } else {
      i', tmp1', curPeriod' := target, tmp2, curPeriod;
    }
  }

  lemma BeginsAtTop(v: Itinerary, b: Start, s: Shift)
    requires AllPlanned(v, b, s)
    ensures v.stops[0] == v.starts[0] == s.top && 0 <= s.top < |b.obs|
  {
    assert Plan(v, b, s, 0);
  }

  /** One turn of the loop with its first line. */
  method LoopTurn(cur: Window, win: Window, s: Shift, blankHash: int, i: int, tmp1: Line, curPeriod: int,
                  ghost b: Start, ghost v: Itinerary, ghost c: int, ghost done: set<int>)
    returns (i': int, tmp1': Line, curPeriod': int, ghost done': set<int>)
    requires Rotating(cur, win, s, blankHash, b, v, c, done) && AllPlanned(v, b, s) && c < s.Size()
    requires AtTurn(v, c, b, i, tmp1, curPeriod)
    modifies cur.lines, cur.pool, cur.buffers, win`view, win.pool
    ensures Rotating(cur, win, s, blankHash, b, v, c + 1, done')
    ensures c + 1 < s.Size() ==> AtTurn(v, c + 1, b, i', tmp1', curPeriod')
  {
    assert Plan(v, b, s, c) && (c + 1 < s.Size() ==> Plan(v, b, s, c + 1));
    var target := TargetOf(s, i, v, c);
    i', tmp1', curPeriod', done' := Turn(cur, win, s, blankHash, target, tmp1, curPeriod, i, b, v, c, done);
  }

  /** refresh.c:626-680 with its loop: the lines top..bot of curscr move n places down, modulo the
      size of the region, by following the cycles of line pointers. */
  method RotateLines(cur: Window, win: Window, s: Shift, blankHash: int, ghost b: Start, ghost v: Itinerary)
    returns (ghost done: set<int>)
    requires Rotating(cur, win, s, blankHash, b, v, 0, {}) && AllPlanned(v, b, s)
    modifies cur.lines, cur.pool, cur.buffers, win`view, win.pool
    ensures Rotating(cur, win, s, blankHash, b, v, s.Size(), done)
  {
    BeginsAtTop(v, b, s);
    var i := s.top;
    var tmp1 := cur.lines[s.top];
    var curPeriod := s.top;
    done := {};
    ghost var c := 0;
    for j := s.top to s.bot + 1
      invariant c == j - s.top
      invariant Rotating(cur, win, s, blankHash, b, v, c, done)
      invariant c < s.Size() ==> AtTurn(v, c, b, i, tmp1, curPeriod)
    {
      i, tmp1, curPeriod, done := LoopTurn(cur, win, s, blankHash, i, tmp1, curPeriod, b, v, c, done);
      c := c + 1;
    }
  }

  lemma SettledWell(l: LineV, s: Shift, k: int, w: nat, blankHash: int)
    requires WellMarked(l, w)
    ensures WellMarked(SettledC(l, s, k, w, blankHash), w)
  {
  }

  /** Every line has moved: the lines by place are the original lines permuted by the source map. */
  lemma AllMoved(cur: Window, win: Window, s: Shift, blankHash: int, b: Start, v: Itinerary, done: set<int>, k: int)
    requires Rotating(cur, win, s, blankHash, b, v, s.Size(), done) && s.Valid(cur.maxy) && |v.targets| == s.Size()
    requires forall x :: x in v.targets <==> s.top <= x <= s.bot
    requires b.src == SourceMap(s, cur.maxy) && b.tgt == TargetMap(s, cur.maxy) && 0 <= k < cur.maxy
    requires forall i :: 0 <= i < cur.maxy ==> WellMarked(b.cv[i], cur.maxx)
    ensures 0 <= b.src[k] < cur.maxy && cur.lines[k] == b.obs[b.src[k]]
    ensures b.obs[b.src[k]].View() == Rotated(b.cv, s, cur.maxx, blankHash)[k]
    ensures WellMarked(Rotated(b.cv, s, cur.maxx, blankHash)[k], cur.maxx)
    ensures win.view[k] == Remarked(b.wv, s, cur.maxx)[k]
    ensures forall j :: 0 <= j < cur.maxy && b.src[j] == b.src[k] ==> j == k
  {
    assert v.targets[..s.Size()] == v.targets;
    MapsAreInverse(s, cur.maxy, k);
    SettledWell(b.cv[b.src[k]], s, k, cur.maxx, blankHash);
  }

  /** The rotation and the marking of refresh.c:626-680 for whole windows. */
  method Rotate(cur: Window, win: Window, s: Shift, blankHash: int)
    requires cur.Valid() && win.Valid() && cur.maxy == win.maxy && cur.maxx == win.maxx
    requires win != cur && win.lines != cur.lines && win.pool !! cur.pool && win.buffers !! cur.buffers
    requires s.Valid(cur.maxy)
    modifies cur`view, cur.lines, cur.pool, cur.buffers, win`view, win.pool
    ensures cur.Valid() && cur.view == Rotated(old(cur.view), s, cur.maxx, blankHash)
    ensures win.Valid() && win.view == Remarked(old(win.view), s, win.maxx)
  {
    ghost var b := StartOf(s, cur, win);
    ghost var v := MakePlan(s, b, cur.maxy);
    assert Rotating(cur, win, s, blankHash, b, v, 0, {});
    ghost var done := RotateLines(cur, win, s, blankHash, b, v);
    forall k | 0 <= k < cur.maxy
      ensures 0 <= b.src[k] < cur.maxy && cur.lines[k] == b.obs[b.src[k]]
      ensures b.obs[b.src[k]].View() == Rotated(b.cv, s, cur.maxx, blankHash)[k]
      ensures WellMarked(Rotated(b.cv, s, cur.maxx, blankHash)[k], cur.maxx)
      ensures win.view[k] == Remarked(b.wv, s, cur.maxx)[k]
      ensures forall j :: 0 <= j < cur.maxy && b.src[j] == b.src[k] ==> j == k
    {
      AllMoved(cur, win, s, blankHash, b, v, done, k);
    }
    Restore(cur, b.obs, b.src, Rotated(b.cv, s, cur.maxx, blankHash));
  }

  // ----- what the rotation means -----

  /** Away from the wrap-around a line comes from n places above. */
  lemma SourceInside(s: Shift, h: nat, k: int)
    requires s.Valid(h) && s.top <= k <= s.bot && s.top <= k - s.n <= s.bot
    ensures Source(s.top, s.Size(), s.n, k) == k - s.n
  {
    ModIdentity(k - s.top - s.n, s.Size());
  }

  /** The rotation with its blanking has on curscr the effect that scrolling the region has on the
      screen: up when n is negative, down when it is positive. */
  lemma RotationScrolls(v: seq<LineV>, s: Shift, w: nat, blankHash: int)
    requires s.Valid(|v|)
    ensures s.n < 0 ==> Rows(Rotated(v, s, w, blankHash)) == Up(Rows(v), s.top, s.bot, -s.n, w)
    ensures s.n > 0 ==> Rows(Rotated(v, s, w, blankHash)) == Down(Rows(v), s.top, s.bot, s.n, w)
    ensures s.n == 0 ==> Rows(Rotated(v, s, w, blankHash)) == Rows(v)
  {
    forall k | 0 <= k < |v|
      ensures s.n < 0 ==> Rows(Rotated(v, s, w, blankHash))[k] == Up(Rows(v), s.top, s.bot, -s.n, w)[k]
      ensures s.n > 0 ==> Rows(Rotated(v, s, w, blankHash))[k] == Down(Rows(v), s.top, s.bot, s.n, w)[k]
      ensures s.n == 0 ==> Rows(Rotated(v, s, w, blankHash))[k] == Rows(v)[k]
    {
      if s.top <= k <= s.bot && s.top <= k - s.n <= s.bot { SourceInside(s, |v|, k); }
    }
  }

  /** The window line k and the curscr line k after a shift that a matching block justified: a line
      left clean equals curscr, and every other line is marked over its full width. */
  lemma RotationMarks(cv: seq<LineV>, wv: seq<LineV>, s: Shift, w: nat, blankHash: int, starts: int, k: int)
    requires s.Valid(|wv|) && |cv| == |wv| && 0 <= k < |wv|
    requires s.n == s.from - starts && BlockMatches(wv, cv, s.from, starts, s.till - s.from)
    requires s.top <= starts && starts + (s.till - s.from) <= s.bot + 1
    requires WellMarked(wv[k], w) && 0 < w
    requires (k < s.top || k > s.bot) ==> Match(wv[k], cv[k]) && !wv[k].dirty
    ensures var c, l := Rotated(cv, s, w, blankHash)[k], Remarked(wv, s, w)[k];
      && l.cells == wv[k].cells && l.pastEol == wv[k].pastEol && l.force == wv[k].force
      && (!l.dirty ==> l.cells == c.cells)
      && (l.dirty ==> l.first == 0 && l.last == w - 1)
  {
    if s.InBlock(k) { SourceInside(s, |wv|, k); }
  }

  // ----- quickch -----

  /** The result of quickch on the lines, when it shifted something: every window line left clean
      equals the curscr line beside it, and every other line is marked over its full width. */
  ghost predicate Shifted(cv: seq<LineV>, wv: seq<LineV>, w: nat) {
    && |cv| == |wv|
    && forall k :: 0 <= k < |wv| ==>
         if wv[k].dirty then wv[k].first == 0 && wv[k].last == w - 1 else wv[k].cells == cv[k].cells
  }

  /** The result when it found no block: only lines that equal the curscr line were marked clean. */
  ghost predicate OnlyCleaned(cv: seq<LineV>, was: seq<LineV>, wv: seq<LineV>) {
    && |cv| == |was| == |wv|
    && forall k :: 0 <= k < |wv| ==>
         wv[k] == was[k] || (wv[k] == was[k].(dirty := false) && wv[k].cells == cv[k].cells)
  }

  /** The text and the end-of-line marks of the lines, which refreshing keeps; it forces no line. */
  ghost predicate SameText(was: seq<LineV>, wv: seq<LineV>) {
    && |was| == |wv|
    && forall k :: 0 <= k < |wv| ==>
         wv[k].cells == was[k].cells && wv[k].pastEol == was[k].pastEol && (wv[k].force ==> was[k].force)
  }

  /** The scroll that accompanies a shift has no determined effect on the screen. */
  predicate ShiftUndetermined(c: Caps, s: Shift, curx: int, h: nat, w: nat) {
    s.n != 0 && ScrollUndetermined(c, s.n < 0, s.top, s.bot, curx, h, w)
  }

  predicate Undetermined(scr: Screen, s: Shift)
    reads scr, scr.curscr
  {
    ShiftUndetermined(scr.caps, s, scr.curx, scr.curscr.maxy, scr.curscr.maxx)
  }

  /** What scrolling shows after the shift. */
  function ScrolledRows(rows: seq<seq<Cell>>, s: Shift, w: nat): seq<seq<Cell>>
    requires 0 <= s.top && s.bot < |rows|
  {
    if s.n < 0 then Up(rows, s.top, s.bot, -s.n, w)
    else if s.n > 0 then Down(rows, s.top, s.bot, s.n, w)
    else rows
  }

  /** The scrolling of refresh.c:695-697: brings the terminal along. */
  method ScrollTerminal(scr: Screen, s: Shift)
    requires scr.Valid() && scr.Parked() && scr.caps.CanScroll() && s.Valid(scr.curscr.maxy)
    modifies scr`term
    ensures scr.Valid() && scr.Parked() && scr.term.standout == old(scr.term.standout)
    ensures scr.term.wild == (old(scr.term.wild) || Undetermined(scr, s))
    ensures !scr.term.wild ==> scr.term.rows == ScrolledRows(old(scr.term.rows), s, scr.curscr.maxx)
  {
    if s.n < 0 {
      scr.ScrollUp(-s.n, s.bot, s.top);
    } else if s.n > 0 {
      scr.ScrollDown(s.n, s.bot, s.top);
    }
  }

  /** The window lines outside top..bot are clean and equal curscr. */
  ghost predicate CleanOutside(cv: seq<LineV>, wv: seq<LineV>, top: int, bot: int) {
    && |cv| == |wv|
    && forall k :: 0 <= k < |wv| && !(top <= k <= bot) ==> Match(wv[k], cv[k]) && !wv[k].dirty
  }

  /** A shift is justified by a block of unchanged lines. */
  ghost predicate Justified(cv: seq<LineV>, wv: seq<LineV>, s: Shift) {
    && s.Valid(|wv|) && CleanOutside(cv, wv, s.top, s.bot)
    && s.top <= s.from - s.n && s.till - s.n <= s.bot + 1
    && BlockMatches(wv, cv, s.from, s.from - s.n, s.till - s.from)
  }

  /** What a justified shift leaves of the lines. */
  lemma ShiftMarks(cv: seq<LineV>, wv: seq<LineV>, s: Shift, w: nat, blankHash: int)
    requires Justified(cv, wv, s) && 0 < w && forall k :: 0 <= k < |wv| ==> WellMarked(wv[k], w)
    ensures SameText(wv, Remarked(wv, s, w)) && Shifted(Rotated(cv, s, w, blankHash), Remarked(wv, s, w), w)
  {
    var c, l := Rotated(cv, s, w, blankHash), Remarked(wv, s, w);
    forall k | 0 <= k < |wv|
      ensures l[k].cells == wv[k].cells && l[k].pastEol == wv[k].pastEol && l[k].force == wv[k].force
      ensures if l[k].dirty then l[k].first == 0 && l[k].last == w - 1 else l[k].cells == c[k].cells
    {
      RotationMarks(cv, wv, s, w, blankHash, s.from - s.n, k);
    }
  }

  /** The part of quickch after the search, refresh.c:587-705. */
  method ApplyShift(scr: Screen, win: Window, s: Shift)
    requires scr.Over(win) && scr.Parked() && scr.caps.CanScroll() && Justified(scr.curscr.view, win.view, s)
    modifies scr`term, scr.curscr`view, scr.curscr.lines, scr.curscr.pool, scr.curscr.buffers, win`view, win.pool
    ensures scr.Over(win) && SameText(old(win.view), win.view) && Shifted(scr.curscr.view, win.view, win.maxx)
    ensures scr.Parked() && Rows(scr.curscr.view) == ScrolledRows(Rows(old(scr.curscr.view)), s, win.maxx)
    ensures scr.term.wild == (old(scr.term.wild) || Undetermined(scr, s))
    ensures !scr.term.wild && old(scr.term.rows) == Rows(old(scr.curscr.view)) ==>
      scr.term.rows == Rows(scr.curscr.view)
    ensures scr.term.standout == old(scr.term.standout)
  {
    ghost var wv, cv := win.view, scr.curscr.view;
    var blankHash := scr.hashOf(Blanks(win.maxx));
    ShiftMarks(cv, wv, s, win.maxx, blankHash);
    RotationScrolls(cv, s, win.maxx, blankHash);
    Rotate(scr.curscr, win, s, blankHash);
    ScrollTerminal(scr, s);
  }

  /** A found block justifies the shift it asks for; the adjustments of refresh.c:553-556 change
      neither end of the region. */
  lemma FoundIsJustified(cv: seq<LineV>, wv: seq<LineV>, top: int, bot: int, bsize: int, startw: int, starts: int)
    requires 0 <= top && bot < |wv| == |cv| && 0 <= bsize
    requires top <= startw <= bot - bsize && top <= starts <= bot - bsize
    requires BlockMatches(wv, cv, startw, starts, bsize)
    requires CleanOutside(cv, wv, top, bot)
    ensures Justified(cv, wv, Shift(top, bot, startw - starts, startw, startw + bsize))
    ensures starts + bsize <= bot && top <= starts
  {
  }

  /** The lines outside top..bot have been marked clean, and nothing else has changed. */
  ghost predicate CleanedOutside(was: seq<LineV>, wv: seq<LineV>, top: int, bot: int) {
    && |was| == |wv|
    && forall k :: 0 <= k < |wv| ==> wv[k] == if top <= k <= bot then was[k] else was[k].(dirty := false)
  }

  /** Cleaning at the top and then at the bottom. */
  lemma EndsAreCleaned(cv: seq<LineV>, was: seq<LineV>, mid: seq<LineV>, wv: seq<LineV>, top: int, bot: int)
    requires |cv| == |was| && 0 <= top <= |was| && -1 <= bot < |was|
    requires CleanedMatches(was, mid, cv, 0, top) && (top < |was| ==> !Match(mid[top], cv[top]))
    requires CleanedMatches(mid, wv, cv, bot + 1, |was|) && (0 <= bot ==> !Match(wv[bot], cv[bot]))
    ensures AreEnds(cv, was, top, bot) && CleanedOutside(was, wv, top, bot)
    ensures OnlyCleaned(cv, was, wv) && CleanOutside(cv, wv, top, bot)
  {
    forall k | 0 <= k < |was| && (k < top || bot < k) ensures Match(was[k], cv[k]) && Match(wv[k], cv[k]) {
      if k < top { assert Match(mid[k], cv[k]); } else { assert Match(wv[k], cv[k]); }
    }
  }

  /** refresh.c:477-497: finds the lines that have changed at both ends, and marks those outside clean. */
  method FindEnds(scr: Screen, win: Window) returns (top: int, bot: int)
    requires scr.Over(win)
    modifies win`view, win.pool
    ensures scr.Over(win) && OnlyCleaned(scr.curscr.view, old(win.view), win.view)
    ensures AreEnds(scr.curscr.view, old(win.view), top, bot) && CleanedOutside(old(win.view), win.view, top, bot)
    ensures CleanOutside(scr.curscr.view, win.view, top, bot)
  {
    ghost var was := win.view;
    top := scr.FindTop(win);
    ghost var mid := win.view;
    bot := scr.FindBot(win);
    EndsAreCleaned(scr.curscr.view, was, mid, win.view, top, bot);
  }

  /** refresh.c:553-558 */
  method ToShift(top: int, bot: int, bsize: int, startw: int, starts: int) returns (s: Shift)
    requires starts + bsize <= bot && top <= starts
    ensures s == Shift(top, bot, startw - starts, startw, startw + bsize)
  {
    var curs, curw := starts + bsize, startw + bsize;
    var bot' := if bot < curs then curs - 1 else bot;
    var top' := if top > starts then starts else top;
    s := Shift(top', bot', startw - starts, startw, curw);
  }

  /** The block at w and s is the largest inside the ends, and of those the first. */
  ghost predicate IsBest(wv: seq<LineV>, cv: seq<LineV>, top: int, bot: int, w: int, s: int, b: int) {
    && |wv| / 4 <= b && top <= w <= bot - b && top <= s <= bot - b && BlockMatches(wv, cv, w, s, b)
    && NoneLarger(wv, cv, top, bot, b, |wv| / 4) && NoneBefore(wv, cv, top, bot, w, s, b)
  }

  /** The shift that the lines ask for: between the first and the last line that differ the largest block
      of at least a quarter of the window that matches, and of those the first. */
  ghost predicate IsShiftFor(cv: seq<LineV>, wv: seq<LineV>, s: Shift) {
    AreEnds(cv, wv, s.top, s.bot) && IsBest(wv, cv, s.top, s.bot, s.from, s.from - s.n, s.till - s.from)
  }

  /** No block of a quarter of the window or more that the search looks at matches. */
  ghost predicate NothingToShift(cv: seq<LineV>, wv: seq<LineV>) {
    forall top, bot, b :: AreEnds(cv, wv, top, bot) && |wv| / 4 <= b <= bot - top ==> NoBlock(wv, cv, top, bot, b)
  }

  lemma EndsAreUnique(cv: seq<LineV>, wv: seq<LineV>, top: int, bot: int, top': int, bot': int)
    requires AreEnds(cv, wv, top, bot) && AreEnds(cv, wv, top', bot')
    ensures top == top' && bot == bot'
  {
    if top < |wv| { assert Match(wv[top], cv[top]) <==> false; }
    if top' < |wv| { assert Match(wv[top'], cv[top']) <==> false; }
    if 0 <= bot { assert Match(wv[bot], cv[bot]) <==> false; }
    if 0 <= bot' { assert Match(wv[bot'], cv[bot']) <==> false; }
  }

  lemma BestIsLargest(wv: seq<LineV>, cv: seq<LineV>, top: int, bot: int, w: int, s: int, b: int, w': int, s': int,
                      b': int)
    requires IsBest(wv, cv, top, bot, w, s, b) && IsBest(wv, cv, top, bot, w', s', b')
    ensures b' <= b
  {
    if b < b' { assert NoBlock(wv, cv, top, bot, b'); }
  }

  lemma BestIsFirst(wv: seq<LineV>, cv: seq<LineV>, top: int, bot: int, w: int, s: int, b: int, w': int, s': int)
    requires IsBest(wv, cv, top, bot, w, s, b) && IsBest(wv, cv, top, bot, w', s', b)
    ensures w == w' && s == s'
  {
  }

  /** There is one such shift at most. */
  lemma ShiftIsUnique(cv: seq<LineV>, wv: seq<LineV>, s: Shift, s': Shift)
    requires IsShiftFor(cv, wv, s) && IsShiftFor(cv, wv, s')
    ensures s == s'
  {
    var b, b' := s.till - s.from, s'.till - s'.from;
    EndsAreUnique(cv, wv, s.top, s.bot, s'.top, s'.bot);
    BestIsLargest(wv, cv, s.top, s.bot, s.from, s.from - s.n, b, s'.from, s'.from - s'.n, b');
    BestIsLargest(wv, cv, s.top, s.bot, s'.from, s'.from - s'.n, b', s.from, s.from - s.n, b);
    BestIsFirst(wv, cv, s.top, s.bot, s.from, s.from - s.n, b, s'.from, s'.from - s'.n);
  }

  /** And there is none if there is nothing to shift. */
  lemma ShiftOrNothing(cv: seq<LineV>, wv: seq<LineV>, s: Shift)
    requires IsShiftFor(cv, wv, s)
    ensures !NothingToShift(cv, wv)
  {
    assert !NoBlock(wv, cv, s.top, s.bot, s.till - s.from);
  }

  /** Marking lines clean changes no match. */
  lemma CleanMatchesAlike(cv: seq<LineV>, was: seq<LineV>, wv: seq<LineV>, top: int, bot: int)
    requires |cv| == |was| && CleanedOutside(was, wv, top, bot)
    ensures forall w, s, b :: BlockMatches(wv, cv, w, s, b) <==> BlockMatches(was, cv, w, s, b)
  {
    assert forall k, j :: 0 <= k < |was| && 0 <= j < |cv| ==> Match(wv[k], cv[j]) == Match(was[k], cv[j]);
    forall w, s, b ensures BlockMatches(wv, cv, w, s, b) <==> BlockMatches(was, cv, w, s, b) {
    }
  }

  /** What the search has found out, in terms of the lines before. */
  lemma FoundAsBefore(cv: seq<LineV>, was: seq<LineV>, wv: seq<LineV>, top: int, bot: int, b: int, w: int, s: int)
    requires |cv| == |was| && CleanedOutside(was, wv, top, bot)
    requires NoneLarger(wv, cv, top, bot, b, |wv| / 4)
    ensures NoneLarger(was, cv, top, bot, b, |was| / 4)
    ensures IsBest(wv, cv, top, bot, w, s, b) ==> IsBest(was, cv, top, bot, w, s, b)
  {
    CleanMatchesAlike(cv, was, wv, top, bot);
    forall c | NoBlock(wv, cv, top, bot, c) ensures NoBlock(was, cv, top, bot, c) {
    }
  }

  lemma NoneIsNothing(cv: seq<LineV>, was: seq<LineV>, top: int, bot: int, b: int)
    requires AreEnds(cv, was, top, bot) && NoneLarger(was, cv, top, bot, b, |was| / 4) && b < |was| / 4
    ensures NothingToShift(cv, was)
  {
    forall top', bot', c | AreEnds(cv, was, top', bot') && |was| / 4 <= c <= bot' - top'
      ensures NoBlock(was, cv, top', bot', c)
    {
      EndsAreUnique(cv, was, top, bot, top', bot');
    }
  }

  /** The lines outside those that differ have been marked clean. */
  ghost predicate CleanedAtEnds(cv: seq<LineV>, was: seq<LineV>, wv: seq<LineV>) {
    forall top, bot :: AreEnds(cv, was, top, bot) ==> CleanedOutside(was, wv, top, bot)
  }

  /** What the search comes to. */
  ghost predicate Searched(cv: seq<LineV>, was: seq<LineV>, wv: seq<LineV>, found: bool, s: Shift) {
    && OnlyCleaned(cv, was, wv) && CleanedAtEnds(cv, was, wv)
    && (found ==> IsShiftFor(cv, was, s) && Justified(cv, wv, s))
    && (!found ==> NothingToShift(cv, was))
  }

  lemma IsSearched(cv: seq<LineV>, was: seq<LineV>, wv: seq<LineV>, top: int, bot: int, b: int, w: int, s: int,
                   found: bool, sh: Shift)
    requires OnlyCleaned(cv, was, wv) && CleanOutside(cv, wv, top, bot)
    requires CleanedOutside(was, wv, top, bot) && AreEnds(cv, was, top, bot)
    requires NoneLarger(wv, cv, top, bot, b, |wv| / 4)
    requires b >= |wv| / 4 ==> IsBest(wv, cv, top, bot, w, s, b)
    requires found == (b >= |wv| / 4) && (found ==> sh == Shift(top, bot, w - s, w, w + b))
    ensures Searched(cv, was, wv, found, sh)
  {
    FoundAsBefore(cv, was, wv, top, bot, b, w, s);
    OnlyTheseEnds(cv, was, wv, top, bot);
    if found {
      FoundIsJustified(cv, wv, top, bot, b, w, s);
    } else {
      NoneIsNothing(cv, was, top, bot, b);
    }
  }

  /** The part of quickch up to the search, refresh.c:474-558: it finds the shift that the lines ask for,
      and none only if there is nothing to shift. */
  method FindShift(scr: Screen, win: Window) returns (found: bool, s: Shift)
    requires scr.Over(win)
    modifies win`view, win.pool
    ensures scr.Over(win) && Searched(scr.curscr.view, old(win.view), win.view, found, s)
  {
    ghost var was := win.view;
    var top, bot := FindEnds(scr, win);
    var bsize, startw, starts := scr.FindBlock(win, top, bot);
    found, s := Outcome(win.maxy, top, bot, bsize, startw, starts);
    IsSearched(scr.curscr.view, was, win.view, top, bot, bsize, startw, starts, found, s);
  }

  /** refresh.c:544-558 */
  method Outcome(maxy: nat, top: int, bot: int, bsize: int, startw: int, starts: int) returns (found: bool, s: Shift)
    requires bsize >= maxy / 4 ==> starts + bsize <= bot && top <= starts
    ensures found == (bsize >= maxy / 4) && (found ==> s == Shift(top, bot, startw - starts, startw, startw + bsize))
  {
    found := bsize >= maxy / 4;
    if found {
      s := ToShift(top, bot, bsize, startw, starts);
    } else {
      s := Shift(0, 0, 0, 0, 0);
    }
  }

  lemma OnlyTheseEnds(cv: seq<LineV>, was: seq<LineV>, wv: seq<LineV>, top: int, bot: int)
    requires AreEnds(cv, was, top, bot) && CleanedOutside(was, wv, top, bot)
    ensures CleanedAtEnds(cv, was, wv)
  {
    forall t, b | AreEnds(cv, was, t, b) ensures CleanedOutside(was, wv, t, b) {
      EndsAreUnique(cv, was, top, bot, t, b);
    }
  }

  /** What quickch makes of the lines of curscr and of the window. If it shifts something, it is the shift
      that the lines ask for; if not, there is nothing to shift, and only the lines outside those that
      differ have been marked clean. */
  ghost predicate Quickened(cv0: seq<LineV>, wv0: seq<LineV>, cv: seq<LineV>, wv: seq<LineV>, shifted: bool, s: Shift,
                            w: nat)
  {
    && SameText(wv0, wv)
    && (shifted ==>
      && IsShiftFor(cv0, wv0, s) && s.Valid(|cv0|) && Shifted(cv, wv, w)
      && Rows(cv) == ScrolledRows(Rows(cv0), s, w))
    && (!shifted ==>
      && NothingToShift(cv0, wv0) && cv == cv0 && OnlyCleaned(cv, wv0, wv) && CleanedAtEnds(cv, wv0, wv))
  }

  lemma ShiftQuickens(cv0: seq<LineV>, wv0: seq<LineV>, mid: seq<LineV>, cv: seq<LineV>, wv: seq<LineV>, s: Shift,
                      w: nat)
    requires Searched(cv0, wv0, mid, true, s) && SameText(mid, wv) && Shifted(cv, wv, w) && |cv0| == |wv0|
    requires s.Valid(|cv0|) && Rows(cv) == ScrolledRows(Rows(cv0), s, w)
    ensures Quickened(cv0, wv0, cv, wv, true, s, w)
  {
  }

  lemma NoShiftQuickens(cv: seq<LineV>, wv0: seq<LineV>, wv: seq<LineV>, s: Shift, w: nat)
    requires Searched(cv, wv0, wv, false, s)
    ensures Quickened(cv, wv0, cv, wv, false, s, w)
  {
  }

  /** quickch. `shifted` tells whether a block was found, and s which lines then moved; the terminal runs
      wild if it cannot follow. */
  method Quickch(scr: Screen, win: Window) returns (shifted: bool, ghost s: Shift)
    requires scr.Over(win) && scr.Parked() && scr.caps.CanScroll()
    modifies scr`term, scr.curscr`view, scr.curscr.lines, scr.curscr.pool, scr.curscr.buffers, win`view, win.pool
    ensures scr.Over(win) && scr.Parked()
    ensures Quickened(old(scr.curscr.view), old(win.view), scr.curscr.view, win.view, shifted, s, win.maxx)
    ensures !shifted ==> scr.term == old(scr.term)
    ensures scr.term.wild == (old(scr.term.wild) || (shifted && Undetermined(scr, s)))
    ensures !scr.term.wild && old(scr.term.rows) == Rows(old(scr.curscr.view)) ==>
      scr.term.rows == Rows(scr.curscr.view)
    ensures scr.term.standout == old(scr.term.standout)
  {
    ghost var cv0, wv0 := scr.curscr.view, win.view;
    var found, sh := FindShift(scr, win);
    ghost var mid := win.view;
    if found {
      ApplyShift(scr, win, sh);
      ShiftQuickens(cv0, wv0, mid, scr.curscr.view, win.view, sh, win.maxx);
    } else {
      NoShiftQuickens(cv0, wv0, win.view, sh, win.maxx);
    }
    return found, sh;
  }
}
