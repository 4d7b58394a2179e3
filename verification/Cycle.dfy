/** The arithmetic behind the in-place rotation of Libcurses-21/refresh.c:626-680: stepping by n
    modulo m splits the positions 0..m-1 into g = gcd(n, m) cycles of d = m/g positions each, one
    through each of 0..g-1. */
module Cycle {

  /** m = g*d and n mod m = g*q, where u inverts q modulo d. */
  datatype Cycles = Cycles(g: int, d: int, q: int, u: int)

  ghost predicate Splits(c: Cycles, n: int, m: int) {
    && c.g > 0 && c.d > 0
    && m == c.g * c.d
    && n % m == c.g * c.q
    && (c.q * c.u) % c.d == 1 % c.d
  }

  // ----- division by a positive number -----

  lemma MultipleGrows(d: int, z: int)
    requires d > 0
    ensures z >= 1 ==> d * z >= d
    ensures z <= -1 ==> d * z <= -d
  {
    if z >= 1 { assert d * z >= d * 1; }
    if z <= -1 { assert d * z <= d * -1; }
  }

  lemma ModUnique(x: int, d: int, k: int, r: int)
    requires 0 <= r < d && x == d * k + r
    ensures x % d == r && x / d == k
  {
    var k', r' := x / d, x % d;
    assert x == d * k' + r';
    assert d * (k - k') == d * k - d * k';
    MultipleGrows(d, k - k');
  }

  lemma ModShift(x: int, d: int, k: int)
    requires d > 0
    ensures (x + d * k) % d == x % d
  {
    assert x + d * k == d * (x / d + k) + x % d;
    ModUnique(x + d * k, d, x / d + k, x % d);
  }

  lemma ModMul(a: int, b: int, d: int)
    requires d > 0
    ensures ((a % d) * b) % d == (a * b) % d
  {
    assert a * b == (a % d) * b + d * ((a / d) * b) by {
      assert a == d * (a / d) + a % d;
    }
    ModShift((a % d) * b, d, (a / d) * b);
  }

  // ----- gcd and inverse -----

  /** Extended Euclid: g divides both numbers and is an integer combination of them. */
  lemma {:induction false} Bezout(a: nat, b: nat) returns (g: int, x: int, y: int, a': int, b': int)
    requires a + b > 0
    ensures g > 0 && a == g * a' && b == g * b' && g == a * x + b * y
    decreases b
  {
    if b == 0 {
      g, x, y, a', b' := a, 1, 0, 1, 0;
    } else {
      var x0, y0, a0, b0;
      g, x0, y0, a0, b0 := Bezout(b, a % b);
      x, y, a', b' := y0, x0 - (a / b) * y0, a0 * (a / b) + b0, a0;
      BezoutStep(a, b, g, x0, y0, a0, b0);
    }
  }

  lemma BezoutStep(a: nat, b: nat, g: int, x0: int, y0: int, a0: int, b0: int)
    requires b > 0 && b == g * a0 && a % b == g * b0 && g == b * x0 + (a % b) * y0
    ensures a == g * (a0 * (a / b) + b0)
    ensures g == a * y0 + b * (x0 - (a / b) * y0)
  {
    var k := a / b;
    assert a == b * k + a % b;
    assert g * (a0 * k + b0) == (g * a0) * k + g * b0;
    assert a * y0 + b * (x0 - k * y0) == b * x0 + (a - b * k) * y0 by {
      assert b * (x0 - k * y0) == b * x0 - (b * k) * y0;
      assert (a - b * k) * y0 == a * y0 - (b * k) * y0;
    }
  }

  lemma Split(n: int, m: int) returns (c: Cycles)
    requires m > 0
    ensures Splits(c, n, m)
  {
    var g, x, y, q, d := Bezout(n % m, m);
    c := Cycles(g, d, q, x);
    assert g * d > 0 ==> d > 0;
    // g = g*q*x + g*d*y, so q*x = 1 - d*y
    assert g == g * (q * x + d * y) by {
      assert (n % m) * x == g * (q * x) && m * y == g * (d * y);
    }
    assert q * x + d * y == 1;
    ModShift(1, d, -y);
    assert q * x == 1 + d * (-y);
  }

  // ----- the walk -----

  /** The position reached from p after t steps of n. */
  function Pos(c: Cycles, p: int, t: int): int
    requires c.d > 0
  {
    p + c.g * ((t * c.q) % c.d)
  }

  /** After how many steps from x % g is x reached (0 meaning: at the start). */
  function Rank(c: Cycles, x: int): int
    requires c.g > 0 && c.d > 0
  {
    ((x / c.g) * c.u) % c.d
  }

  /** Has the walk, t steps into the cycle of p, already written position x? */
  predicate Done(c: Cycles, p: int, t: int, x: int)
    requires c.g > 0 && c.d > 0
  {
    x % c.g < p || (x % c.g == p && 1 <= Rank(c, x) <= t)
  }

  lemma PosSplits(c: Cycles, p: int, r: int)
    requires c.g > 0 && 0 <= p < c.g
    ensures (p + c.g * r) % c.g == p && (p + c.g * r) / c.g == r
  {
    ModUnique(p + c.g * r, c.g, r, p);
  }

  /** Ranks and step counts are inverse to each other, because u inverts q. */
  lemma RankOfPos(c: Cycles, n: int, m: int, p: int, t: int)
    requires Splits(c, n, m) && 0 <= p < c.g
    ensures Pos(c, p, t) % c.g == p && Rank(c, Pos(c, p, t)) == t % c.d
  {
    var r := (t * c.q) % c.d;
    PosSplits(c, p, r);
    ModMul(t * c.q, c.u, c.d);
    assert (t * c.q) * c.u == (c.q * c.u) * t;
    ModMul(c.q * c.u, t, c.d);
    ModMul(1, t, c.d);
  }

  lemma QuotientBound(g: int, d: int, x: int)
    requires 0 < g && 0 < d && 0 <= x < g * d
    ensures 0 <= x / g < d && x == g * (x / g) + x % g
  {
    var r := x / g;
    assert x == g * r + x % g;
    MultipleGrows(g, r);
    MultipleGrows(g, r - d);
    assert g * (r - d) == g * r - g * d;
  }

  lemma PosOfRank(c: Cycles, n: int, m: int, x: int)
    requires Splits(c, n, m) && 0 <= x < m
    ensures Pos(c, x % c.g, Rank(c, x)) == x
  {
    var r := x / c.g;
    QuotientBound(c.g, c.d, x);
    assert (r * c.u) % c.d * c.q % c.d == r by {
      ModMul(r * c.u, c.q, c.d);
      assert (r * c.u) * c.q == (c.q * c.u) * r;
      ModMul(c.q * c.u, r, c.d);
      ModMul(1, r, c.d);
      ModUnique(r, c.d, 0, r);
    }
  }

  lemma PosInRange(c: Cycles, n: int, m: int, p: int, t: int)
    requires Splits(c, n, m) && 0 <= p < c.g
    ensures 0 <= Pos(c, p, t) < m
  {
    var r := (t * c.q) % c.d;
    MultipleGrows(c.g, r);
    MultipleGrows(c.g, c.d - 1 - r);
    assert c.g * (c.d - 1 - r) == m - c.g - c.g * r;
  }

  lemma StepProducts(g: int, d: int, q: int, qa: int, ra: int, qb: int, rb: int)
    requires d * qb + rb == d * qa + ra + q
    ensures g * q == (g * d) * (qb - qa) + g * rb - g * ra
  {
    assert q == d * (qb - qa) + rb - ra;
    assert g * (d * (qb - qa)) == (g * d) * (qb - qa);
  }

  /** One step of n from Pos(p, t) leads to Pos(p, t + 1). */
  lemma OneStep(c: Cycles, n: int, m: int, p: int, t: int)
    requires Splits(c, n, m) && 0 <= p < c.g
    ensures (Pos(c, p, t) + n) % m == Pos(c, p, t + 1)
  {
    PosInRange(c, n, m, p, t + 1);
    var qa, ra := (t * c.q) / c.d, (t * c.q) % c.d;
    var qb, rb := ((t + 1) * c.q) / c.d, ((t + 1) * c.q) % c.d;
    assert (t + 1) * c.q == t * c.q + c.q;
    StepProducts(c.g, c.d, c.q, qa, ra, qb, rb);
    ShiftedUnique(p + c.g * ra, n, m, qb - qa, p + c.g * rb);
  }

  lemma ShiftedUnique(x: int, n: int, m: int, k: int, r: int)
    requires m > 0 && 0 <= r < m && x + n % m == m * k + r
    ensures (x + n) % m == r
  {
    assert m * (n / m) + m * k == m * (n / m + k);
    ModUnique(x + n, m, n / m + k, r);
  }

  lemma RankOfStart(c: Cycles, p: int)
    requires c.d > 0 && 0 <= p < c.g
    ensures p % c.g == p && Rank(c, p) == 0
  {
    ModUnique(p, c.g, 0, p);
    assert (p / c.g) * c.u == 0;
  }

  /** The walk returns to its start exactly after d steps. */
  lemma ReturnsAfterD(c: Cycles, n: int, m: int, p: int, t: int)
    requires Splits(c, n, m) && 0 <= p < c.g && 0 <= t < c.d
    ensures Pos(c, p, t + 1) == p <==> t + 1 == c.d
  {
    if t + 1 == c.d {
      ModUnique((t + 1) * c.q, c.d, c.q, 0);
    } else {
      RankOfPos(c, n, m, p, t + 1);
      ModUnique(t + 1, c.d, 0, t + 1);
      RankOfStart(c, p);
    }
  }

  /** A step inside a cycle makes exactly its target done. */
  lemma StepDone(c: Cycles, n: int, m: int, p: int, t: int, x: int)
    requires Splits(c, n, m) && 0 <= p < c.g && 0 <= t && t + 1 < c.d && 0 <= x < m
    ensures Done(c, p, t + 1, x) <==> Done(c, p, t, x) || x == Pos(c, p, t + 1)
    ensures !Done(c, p, t, Pos(c, p, t + 1))
  {
    RankOfPos(c, n, m, p, t + 1);
    ModUnique(t + 1, c.d, 0, t + 1);
    PosOfRank(c, n, m, x);
  }

  lemma PosOfZero(c: Cycles, p: int)
    requires c.d > 0
    ensures Pos(c, p, 0) == p
  {
    assert 0 * c.q == 0;
  }

  /** Rank 0 in the cycle of p means being p. */
  lemma IsStart(c: Cycles, n: int, m: int, p: int, x: int)
    requires Splits(c, n, m) && 0 <= p < c.g && 0 <= x < m
    ensures x == p <==> x % c.g == p && Rank(c, x) == 0
  {
    if x == p { RankOfStart(c, p); }
    PosOfRank(c, n, m, x);
    PosOfZero(c, x % c.g);
  }

  lemma RankRange(c: Cycles, x: int)
    requires c.g > 0 && c.d > 0
    ensures 0 <= Rank(c, x) < c.d
  {
  }

  /** The step that closes a cycle makes exactly its start done. */
  lemma CloseDone(c: Cycles, n: int, m: int, p: int, x: int)
    requires Splits(c, n, m) && 0 <= p < c.g && 0 <= x < m
    ensures Done(c, p + 1, 0, x) <==> Done(c, p, c.d - 1, x) || x == p
    ensures !Done(c, p, c.d - 1, p)
  {
    IsStart(c, n, m, p, x);
    RankOfStart(c, p);
    RankRange(c, x);
  }

  lemma NextStartUntouched(c: Cycles, p: int)
    requires c.d > 0 && 0 <= p && p + 1 < c.g
    ensures !Done(c, p + 1, 0, p + 1)
  {
    RankOfStart(c, p + 1);
  }

  /** When all g cycles are closed every position is done. */
  lemma AllDone(c: Cycles, x: int)
    requires c.g > 0 && c.d > 0
    ensures Done(c, c.g, 0, x)
  {
  }

  // ----- the walk over the lines top..top+m-1 -----

  /** Is line k already written? */
  predicate Written(c: Cycles, m: nat, top: int, p: int, t: int, k: int)
    requires c.g > 0 && c.d > 0
  {
    top <= k < top + m && Done(c, p, t, k - top)
  }

  /** Where the line that goes to k comes from. */
  function Source(top: int, m: nat, n: int, k: int): (r: int)
    requires m > 0
    ensures top <= r < top + m
  {
    top + (k - top - n) % m
  }

  /** The line that k goes to. */
  function Target(top: int, m: nat, n: int, k: int): (r: int)
    requires m > 0
    ensures top <= r < top + m
  {
    top + (k - top + n) % m
  }

  lemma ModIdentity(x: int, m: nat)
    requires 0 <= x < m
    ensures x % m == x
  {
  }

  lemma ModAdd(a: int, b: int, m: nat)
    requires m > 0
    ensures (a % m + b) % m == (a + b) % m
  {
    assert a + b == (a % m + b) + m * (a / m);
    ModShift(a % m + b, m, a / m);
  }

  /** Source and Target are inverse to each other. */
  lemma SourceOfTarget(top: int, m: nat, n: int, k: int)
    requires m > 0 && top <= k < top + m
    ensures Source(top, m, n, Target(top, m, n, k)) == k
    ensures Target(top, m, n, Source(top, m, n, k)) == k
  {
    ModAdd(k - top + n, -n, m);
    ModAdd(k - top - n, n, m);
    ModIdentity(k - top, m);
  }

  /** One turn of the rotation loop, standing at line i with cycle p and t steps done: it writes
      the target of i, which was not written before. */
  lemma Turn(c: Cycles, n: int, m: nat, top: int, p: int, t: int, i: int)
    requires m > 0 && Splits(c, n, m) && 0 <= p < c.g && 0 <= t < c.d
    requires i == top + Pos(c, p, t)
    ensures var target := (i - top + n + m) % m + top;
      && top <= i < top + m
      && target == Target(top, m, n, i) == top + Pos(c, p, t + 1)
      && Source(top, m, n, target) == i
      && (target == top + p <==> t + 1 == c.d)
  {
    PosInRange(c, n, m, p, t);
    OneStep(c, n, m, p, t);
    ModShift(i - top + n, m, 1);
    SourceOfTarget(top, m, n, i);
    ReturnsAfterD(c, n, m, p, t);
  }

  lemma TurnWrites(c: Cycles, n: int, m: nat, top: int, p: int, t: int, k: int)
    requires m > 0 && Splits(c, n, m) && 0 <= p < c.g && 0 <= t && t + 1 < c.d
    ensures Written(c, m, top, p, t + 1, k) <==> Written(c, m, top, p, t, k) || k == top + Pos(c, p, t + 1)
    ensures k == top + Pos(c, p, t + 1) ==> !Written(c, m, top, p, t, k)
  {
    PosInRange(c, n, m, p, t + 1);
    if top <= k < top + m {
      StepDone(c, n, m, p, t, k - top);
    }
  }

  lemma ClosingTurnWrites(c: Cycles, n: int, m: nat, top: int, p: int, k: int)
    requires m > 0 && Splits(c, n, m) && 0 <= p < c.g
    ensures Written(c, m, top, p + 1, 0, k) <==> Written(c, m, top, p, c.d - 1, k) || k == top + p
    ensures k == top + p ==> !Written(c, m, top, p, c.d - 1, k)
  {
    CycleStartsInRange(c, n, m, p);
    if top <= k < top + m {
      CloseDone(c, n, m, p, k - top);
    }
  }

  lemma CycleStartsInRange(c: Cycles, n: int, m: int, p: int)
    requires Splits(c, n, m) && 0 <= p < c.g
    ensures 0 <= p < m
  {
    MultipleGrows(c.g, c.d - 1);
    assert c.g * (c.d - 1) == m - c.g;
  }

  /** Between cycles the next one starts at an untouched line, until all g are closed. */
  lemma NextCycle(c: Cycles, n: int, m: nat, top: int, p: int)
    requires Splits(c, n, m) && 0 <= p && p + 1 <= c.g
    ensures p + 1 < c.g ==> top + p + 1 < top + m && !Written(c, m, top, p + 1, 0, top + p + 1)
    ensures Pos(c, p + 1, 0) == p + 1
  {
    PosOfZero(c, p + 1);
    if p + 1 < c.g {
      NextStartUntouched(c, p);
      CycleStartsInRange(c, n, m, p + 1);
      assert top + p + 1 - top == p + 1;
    }
  }

  /** The number of turns taken says whether a cycle is still open. */
  lemma TurnsLeft(c: Cycles, n: int, m: int, p: int, t: int)
    requires Splits(c, n, m) && 0 <= p <= c.g && 0 <= t < c.d && (p == c.g ==> t == 0)
    ensures p * c.d + t < m <==> p < c.g
    ensures p < c.g ==> (p + 1) * c.d == p * c.d + c.d
    ensures p * c.d + t == m ==> p == c.g
  {
    MultipleGrows(c.d, c.g - 1 - p);
    assert c.d * (c.g - 1 - p) == m - c.d - p * c.d;
    assert (p + 1) * c.d == p * c.d + c.d;
  }

  // ----- the walk as one state -----

  /** How far the rotation loop has come: in the cycle of p, t steps, with the lines `done` written. */
  datatype Walk = Walk(c: Cycles, p: int, t: int, done: set<int>)

  ghost predicate Walking(k: Walk, n: int, m: nat, top: int) {
    && m > 0 && Splits(k.c, n, m)
    && 0 <= k.p <= k.c.g && 0 <= k.t < k.c.d && (k.p == k.c.g ==> k.t == 0)
    && forall x :: x in k.done <==> Written(k.c, m, top, k.p, k.t, x)
  }

  function Turns(k: Walk): int {
    k.p * k.c.d + k.t
  }

  /** The line the loop stands at. */
  function Here(k: Walk, top: int): int
    requires k.c.d > 0
  {
    top + Pos(k.c, k.p, k.t)
  }

  lemma WalkStart(n: int, m: nat, top: int) returns (k: Walk)
    requires m > 0
    ensures Walking(k, n, m, top) && Turns(k) == 0 && k.p == 0 && k.done == {} && Here(k, top) == top
  {
    var c := Split(n, m);
    k := Walk(c, 0, 0, {});
    PosOfZero(c, 0);
    forall x ensures !Written(c, m, top, 0, 0, x) {
      if top <= x < top + m { RankRange(c, x - top); }
    }
  }

  lemma WalkInCycle(k: Walk, n: int, m: nat, top: int) returns (k': Walk)
    requires Walking(k, n, m, top) && k.p < k.c.g && k.t + 1 < k.c.d
    ensures Walking(k', n, m, top) && k'.p == k.p && Turns(k') == Turns(k) + 1
    ensures Here(k', top) == top + Pos(k.c, k.p, k.t + 1) && Here(k', top) !in k.done
    ensures k'.done == k.done + {Here(k', top)}
  {
    k' := k.(t := k.t + 1, done := k.done + {top + Pos(k.c, k.p, k.t + 1)});
    forall x
      ensures Written(k.c, m, top, k.p, k.t + 1, x)
              <==> Written(k.c, m, top, k.p, k.t, x) || x == top + Pos(k.c, k.p, k.t + 1)
    {
      TurnWrites(k.c, n, m, top, k.p, k.t, x);
    }
    TurnWrites(k.c, n, m, top, k.p, k.t, top + Pos(k.c, k.p, k.t + 1));
  }

  lemma WalkToNext(k: Walk, n: int, m: nat, top: int) returns (k': Walk)
    requires Walking(k, n, m, top) && k.p < k.c.g && k.t + 1 == k.c.d
    ensures Walking(k', n, m, top) && k'.p == k.p + 1 && Turns(k') == Turns(k) + 1
    ensures top + k.p !in k.done && k'.done == k.done + {top + k.p}
    ensures Turns(k') < m ==>
      Here(k', top) == top + k.p + 1 && top + k.p + 1 !in k'.done && top + k.p + 1 < top + m
  {
    k' := Walk(k.c, k.p + 1, 0, k.done + {top + k.p});
    forall x
      ensures Written(k.c, m, top, k.p + 1, 0, x) <==> Written(k.c, m, top, k.p, k.t, x) || x == top + k.p
    {
      ClosingTurnWrites(k.c, n, m, top, k.p, x);
    }
    ClosingTurnWrites(k.c, n, m, top, k.p, top + k.p);
    TurnsLeft(k.c, n, m, k.p, k.t);
    TurnsLeft(k.c, n, m, k.p + 1, 0);
    NextCycle(k.c, n, m, top, k.p);
  }

  /** One turn: the line moved is the source of the target, the target was untouched, and the loop
      goes on at the target or, if that closed the cycle, at the untouched line after its start. */
  lemma WalkOn(k: Walk, n: int, m: nat, top: int) returns (k': Walk)
    requires Walking(k, n, m, top) && Turns(k) < m
    ensures Walking(k', n, m, top) && Turns(k') == Turns(k) + 1
    ensures var i := Here(k, top); var target := (i - top + n + m) % m + top;
      && top <= i < top + m && top <= target < top + m
      && i == Source(top, m, n, target)
      && target !in k.done && k'.done == k.done + {target}
      && (if target == top + k.p then
            k'.p == k.p + 1
            && (Turns(k') < m ==> Here(k', top) == target + 1 && target + 1 !in k'.done && target + 1 < top + m)
          else k'.p == k.p && Here(k', top) == target)
  {
    TurnsLeft(k.c, n, m, k.p, k.t);
    Turn(k.c, n, m, top, k.p, k.t, Here(k, top));
    if k.t + 1 == k.c.d {
      k' := WalkToNext(k, n, m, top);
    } else {
      k' := WalkInCycle(k, n, m, top);
    }
  }

  lemma WalkEnd(k: Walk, n: int, m: nat, top: int)
    requires Walking(k, n, m, top) && Turns(k) == m
    ensures forall x :: top <= x < top + m <==> x in k.done
  {
    TurnsLeft(k.c, n, m, k.p, k.t);
    forall x ensures top <= x < top + m <==> x in k.done {
      if top <= x < top + m { AllDone(k.c, x - top); }
      assert x in k.done <==> Written(k.c, m, top, k.p, k.t, x);
    }
  }

  /** All turns of the rotation loop: where each stands, where its cycle started, and the place it
      writes. */
  datatype Itinerary = Itinerary(stops: seq<int>, starts: seq<int>, targets: seq<int>)

  ghost predicate Visits(v: Itinerary, n: int, m: nat, top: int, c: int)
    requires 0 <= c < |v.stops| == |v.starts| == |v.targets|
  {
    && m > 0
    && top <= v.stops[c] < top + m && top <= v.targets[c] < top + m
    && v.targets[c] == (v.stops[c] - top + n + m) % m + top
    && v.stops[c] == Source(top, m, n, v.targets[c])
    && v.targets[c] !in v.targets[..c]
    && (c == 0 ==> v.stops[0] == v.starts[0] == top)
    && (c > 0 ==>
         if v.targets[c - 1] == v.starts[c - 1] then
           v.stops[c] == v.starts[c] == v.targets[c - 1] + 1 && v.stops[c] !in v.targets[..c]
         else
           v.stops[c] == v.targets[c - 1] && v.starts[c] == v.starts[c - 1])
  }

  /** The first turns of the loop, which now stands at `here` in a cycle started at `start`. */
  ghost predicate Traced(v: Itinerary, n: int, m: nat, top: int, here: int, start: int) {
    && |v.stops| == |v.starts| == |v.targets| <= m
    && (forall c :: 0 <= c < |v.stops| ==> Visits(v, n, m, top, c))
    && (|v.stops| == 0 ==> here == start == top)
    && (0 < |v.stops| < m ==>
         if v.targets[|v.targets| - 1] == v.starts[|v.starts| - 1] then
           here == start == v.targets[|v.targets| - 1] + 1 && here !in v.targets
         else
           here == v.targets[|v.targets| - 1] && start == v.starts[|v.starts| - 1])
  }

  /** Adds a turn to a trace. */
  lemma Append(v: Itinerary, n: int, m: nat, top: int, here: int, start: int) returns (v': Itinerary)
    requires m > 0 && Traced(v, n, m, top, here, start) && |v.stops| < m
    requires top <= here < top + m
    requires var target := (here - top + n + m) % m + top;
      target !in v.targets && top <= target && here == Source(top, m, n, target)
    ensures v'.stops == v.stops + [here] && v'.starts == v.starts + [start]
    ensures v'.targets == v.targets + [(here - top + n + m) % m + top]
    ensures forall c :: 0 <= c < |v'.stops| ==> Visits(v', n, m, top, c)
  {
    v' := Itinerary(v.stops + [here], v.starts + [start], v.targets + [(here - top + n + m) % m + top]);
    forall c | 0 <= c < |v.stops| ensures Visits(v', n, m, top, c) {
      VisitKept(v, v', n, m, top, c);
    }
    assert v'.targets[..|v.stops|] == v.targets;
  }

  lemma VisitKept(v: Itinerary, v': Itinerary, n: int, m: nat, top: int, c: int)
    requires |v.stops| == |v.starts| == |v.targets| && |v'.stops| == |v'.starts| == |v'.targets|
    requires v.stops <= v'.stops && v.starts <= v'.starts && v.targets <= v'.targets
    requires 0 <= c < |v.stops| && Visits(v, n, m, top, c)
    ensures Visits(v', n, m, top, c)
  {
    assert v'.targets[..c] == v.targets[..c];
  }

  /** The whole itinerary: every place of the region is written exactly once. */
  lemma FullItinerary(n: int, m: nat, top: int) returns (v: Itinerary)
    requires m > 0
    ensures |v.stops| == |v.starts| == |v.targets| == m
    ensures forall c :: 0 <= c < m ==> Visits(v, n, m, top, c)
    ensures forall x :: x in v.targets <==> top <= x < top + m
  {
    v := Itinerary([], [], []);
    var k := WalkStart(n, m, top);
    while |v.stops| < m
      invariant Walking(k, n, m, top) && Turns(k) == |v.stops|
      invariant Traced(v, n, m, top, Here(k, top), top + k.p)
      invariant forall x :: x in k.done <==> x in v.targets
      decreases m - |v.stops|
    {
      var on := WalkOn(k, n, m, top);
      v := Append(v, n, m, top, Here(k, top), top + k.p);
      k := on;
    }
    WalkEnd(k, n, m, top);
  }
}
