/** Name lookup replies: packed tuples, and the collection of those not seen before. */
module Nbp {
  import opened Basics

  const NVE_STR_SIZE: nat := 32

  datatype Entity = Entity(obj: seq<Byte>, kind: seq<Byte>, zone: seq<Byte>)

  datatype Address = Address(net: nat, node: nat, socket: nat)

  datatype Tuple = Tuple(addr: Address, enumerator: nat, entity: Entity)

  // ----- the compressed format -----

  /** A tuple with names as long as the protocol allows. */
  predicate IsTuple(t: Tuple) {
    && t.addr.net < 0x1_0000 && t.addr.node < 256 && t.addr.socket < 256 && t.enumerator < 256
    && |t.entity.obj| <= NVE_STR_SIZE && |t.entity.kind| <= NVE_STR_SIZE && |t.entity.zone| <= NVE_STR_SIZE
  }

  predicate AreTuples(ts: seq<Tuple>) {
    forall i :: 0 <= i < |ts| ==> IsTuple(ts[i])
  }

  function Counted(s: seq<Byte>): seq<Byte>
    requires |s| <= NVE_STR_SIZE
  {
    [|s|] + s
  }

  function Head(t: Tuple): seq<Byte>
    requires IsTuple(t)
  {
    [t.addr.net / 0x100, t.addr.net % 0x100, t.addr.node, t.addr.socket, t.enumerator]
  }

  function Names(e: Entity): seq<Byte>
    requires |e.obj| <= NVE_STR_SIZE && |e.kind| <= NVE_STR_SIZE && |e.zone| <= NVE_STR_SIZE
  {
    Counted(e.obj) + (Counted(e.kind) + Counted(e.zone))
  }

  /** An address of four bytes and an enumerator, and the names without filler. */
  function Packed(t: Tuple): seq<Byte>
    requires IsTuple(t)
  {
    Head(t) + Names(t.entity)
  }

  function PackedAll(ts: seq<Tuple>): seq<Byte>
    requires AreTuples(ts)
  {
    if ts == [] then [] else Packed(ts[0]) + PackedAll(ts[1..])
  }

  /** A counted name at `p`, no longer than its field. */
  predicate NameAt(b: seq<Byte>, p: nat) {
    p < |b| && b[p] <= NVE_STR_SIZE && p + 1 + b[p] <= |b|
  }

  function AfterName(b: seq<Byte>, p: nat): nat
    requires NameAt(b, p)
  {
    p + 1 + b[p]
  }

  function Name(b: seq<Byte>, p: nat): seq<Byte>
    requires NameAt(b, p)
  {
    b[p + 1..p + 1 + b[p]]
  }

  predicate NamesAt(b: seq<Byte>, p: nat) {
    NameAt(b, p) && NameAt(b, AfterName(b, p)) && NameAt(b, AfterName(b, AfterName(b, p)))
  }

  function AfterNames(b: seq<Byte>, p: nat): (q: nat)
    requires NamesAt(b, p)
    ensures p + 3 <= q <= |b|
  {
    AfterName(b, AfterName(b, AfterName(b, p)))
  }

  function EntityAt(b: seq<Byte>, p: nat): Entity
    requires NamesAt(b, p)
  {
    Entity(Name(b, p), Name(b, AfterName(b, p)), Name(b, AfterName(b, AfterName(b, p))))
  }

  /** A tuple with its three names at `p`. */
  predicate TupleAt(b: seq<Byte>, p: nat) {
    NamesAt(b, p + 5)
  }

  /** nbp_len of the tuple at `p`. */
  function Length(b: seq<Byte>, p: nat): (n: nat)
    requires TupleAt(b, p)
    ensures 8 <= n && p + n <= |b|
  {
    AfterNames(b, p + 5) - p
  }

  /** The tuple at `p`, as doNbpReply reads it. */
  function Unpacked(b: seq<Byte>, p: nat): Tuple
    requires TupleAt(b, p)
  {
    Tuple(Address(Word(b[p], b[p + 1]), b[p + 2], b[p + 3]), b[p + 4], EntityAt(b, p + 5))
  }

  function Word(high: Byte, low: Byte): nat {
    high * 0x100 + low
  }

  lemma NameIsRead(b: seq<Byte>, p: nat, s: seq<Byte>)
    requires |s| <= NVE_STR_SIZE && p + 1 + |s| <= |b| && b[p..p + 1 + |s|] == Counted(s)
    ensures NameAt(b, p) && Name(b, p) == s && AfterName(b, p) == p + 1 + |s|
  {
    assert b[p] == b[p..p + 1 + |s|][0];
    assert b[p + 1..p + 1 + |s|] == b[p..p + 1 + |s|][1..];
  }

  lemma PartOf(b: seq<Byte>, p: nat, x: seq<Byte>, y: seq<Byte>)
    requires p + |x| + |y| <= |b| && b[p..p + |x| + |y|] == x + y
    ensures b[p..p + |x|] == x && b[p + |x|..p + |x| + |y|] == y
  {
    assert b[p..p + |x|] == b[p..p + |x| + |y|][..|x|];
    assert b[p + |x|..p + |x| + |y|] == b[p..p + |x| + |y|][|x|..];
  }

  lemma NamesAreRead(e: Entity, b: seq<Byte>, p: nat)
    requires |e.obj| <= NVE_STR_SIZE && |e.kind| <= NVE_STR_SIZE && |e.zone| <= NVE_STR_SIZE
    requires p + |Names(e)| <= |b| && b[p..p + |Names(e)|] == Names(e)
    ensures NamesAt(b, p) && EntityAt(b, p) == e && AfterNames(b, p) == p + |Names(e)|
  {
    var obj, kind, zone := Counted(e.obj), Counted(e.kind), Counted(e.zone);
    assert Names(e) == obj + (kind + zone);
    PartOf(b, p, obj, kind + zone);
    NameIsRead(b, p, e.obj);
    LastNamesAreRead(e, b, p + |obj|);
  }

  lemma LastNamesAreRead(e: Entity, b: seq<Byte>, p: nat)
    requires |e.kind| <= NVE_STR_SIZE && |e.zone| <= NVE_STR_SIZE
    requires var n := |e.kind| + |e.zone| + 2; p + n <= |b| && b[p..p + n] == Counted(e.kind) + Counted(e.zone)
    ensures NameAt(b, p) && Name(b, p) == e.kind && AfterName(b, p) == p + 1 + |e.kind|
    ensures var q := p + 1 + |e.kind|; NameAt(b, q) && Name(b, q) == e.zone && AfterName(b, q) == q + 1 + |e.zone|
  {
    PartOf(b, p, Counted(e.kind), Counted(e.zone));
    NameIsRead(b, p, e.kind);
    NameIsRead(b, p + 1 + |e.kind|, e.zone);
  }

  lemma HeadIsRead(t: Tuple, b: seq<Byte>, p: nat)
    requires IsTuple(t) && p + 5 <= |b| && b[p..p + 5] == Head(t)
    ensures Word(b[p], b[p + 1]) == t.addr.net && b[p + 2] == t.addr.node
    ensures b[p + 3] == t.addr.socket && b[p + 4] == t.enumerator
  {
    var h := b[p..p + 5];
    assert b[p] == h[0] && b[p + 1] == h[1] && b[p + 2] == h[2] && b[p + 3] == h[3] && b[p + 4] == h[4];
  }

  /** Unpacking undoes packing, and nbp_len steps over exactly one packed tuple. */
  lemma PackedIsRead(t: Tuple, b: seq<Byte>, p: nat)
    requires IsTuple(t) && p + |Packed(t)| <= |b| && b[p..p + |Packed(t)|] == Packed(t)
    ensures TupleAt(b, p) && Unpacked(b, p) == t && Length(b, p) == |Packed(t)|
  {
    PartOf(b, p, Head(t), Names(t.entity));
    NamesAreRead(t.entity, b, p + 5);
    HeadIsRead(t, b, p);
  }

  /** Where each part of a packed tuple is: the net with its high byte first, node, socket, enumerator, and
      the three names, each behind its length. */
  lemma PackedLayout(t: Tuple)
    requires IsTuple(t)
    ensures var b, kind := Packed(t), 6 + |t.entity.obj|;
      var zone := kind + 1 + |t.entity.kind|;
      && |b| == zone + 1 + |t.entity.zone|
      && Word(b[0], b[1]) == t.addr.net && b[2] == t.addr.node && b[3] == t.addr.socket && b[4] == t.enumerator
      && b[5] == |t.entity.obj| && b[6..kind] == t.entity.obj
      && b[kind] == |t.entity.kind| && b[kind + 1..zone] == t.entity.kind
      && b[zone] == |t.entity.zone| && b[zone + 1..] == t.entity.zone
  {
    var b := Packed(t);
    PackedIsRead(t, b, 0);
  }

  lemma NameIsWritten(b: seq<Byte>, p: nat)
    requires NameAt(b, p)
    ensures |Name(b, p)| <= NVE_STR_SIZE && Counted(Name(b, p)) == b[p..AfterName(b, p)]
  {
  }

  lemma WordIsSplit(high: Byte, low: Byte)
    ensures Word(high, low) / 0x100 == high && Word(high, low) % 0x100 == low && Word(high, low) < 0x1_0000
  {
  }

  lemma HeadIsWritten(t: Tuple, b: seq<Byte>, p: nat)
    requires IsTuple(t) && p + 5 <= |b|
    requires t.addr == Address(Word(b[p], b[p + 1]), b[p + 2], b[p + 3]) && t.enumerator == b[p + 4]
    ensures Head(t) == b[p..p + 5]
  {
    WordIsSplit(b[p], b[p + 1]);
  }

  lemma Joined(b: seq<Byte>, p: nat, q: nat, r: nat)
    requires p <= q <= r <= |b|
    ensures b[p..q] + b[q..r] == b[p..r]
  {
  }

  lemma NamesAreWritten(b: seq<Byte>, p: nat)
    requires NamesAt(b, p)
    ensures var e := EntityAt(b, p);
      && |e.obj| <= NVE_STR_SIZE && |e.kind| <= NVE_STR_SIZE && |e.zone| <= NVE_STR_SIZE
      && Names(e) == b[p..AfterNames(b, p)]
  {
    var kind := AfterName(b, p);
    var zone := AfterName(b, kind);
    NameIsWritten(b, p);
    NameIsWritten(b, kind);
    NameIsWritten(b, zone);
    Joined(b, kind, zone, AfterName(b, zone));
    Joined(b, p, kind, AfterName(b, zone));
  }

  /** Packing undoes unpacking. */
  lemma ReadIsPacked(b: seq<Byte>, p: nat)
    requires TupleAt(b, p)
    ensures IsTuple(Unpacked(b, p)) && Packed(Unpacked(b, p)) == b[p..p + Length(b, p)]
  {
    WordIsSplit(b[p], b[p + 1]);
    NamesAreWritten(b, p + 5);
    HeadIsWritten(Unpacked(b, p), b, p);
    Joined(b, p, p + 5, AfterNames(b, p + 5));
  }

  /** `count` tuples from `p` on, one behind the other. */
  predicate Holds(b: seq<Byte>, p: nat, count: nat)
    decreases count
  {
    count == 0 || (TupleAt(b, p) && Holds(b, p + Length(b, p), count - 1))
  }

  function Tuples(b: seq<Byte>, p: nat, count: nat): (ts: seq<Tuple>)
    requires Holds(b, p, count)
    ensures |ts| == count
    decreases count
  {
    if count == 0 then [] else [Unpacked(b, p)] + Tuples(b, p + Length(b, p), count - 1)
  }

  /** A packet is read as the tuples that were packed into it. */
  lemma {:induction false} PacketIsRead(ts: seq<Tuple>, b: seq<Byte>, p: nat)
    requires AreTuples(ts) && p + |PackedAll(ts)| <= |b| && b[p..p + |PackedAll(ts)|] == PackedAll(ts)
    ensures Holds(b, p, |ts|) && Tuples(b, p, |ts|) == ts
  {
    if ts != [] {
      PartOf(b, p, Packed(ts[0]), PackedAll(ts[1..]));
      PackedIsRead(ts[0], b, p);
      PacketIsRead(ts[1..], b, p + |Packed(ts[0])|);
      assert ts == [ts[0]] + ts[1..];
    }
  }

  // ----- first occurrences -----

  /** What makes two replies the same: not their names. */
  predicate Same(a: Tuple, b: Tuple) {
    && a.enumerator == b.enumerator
    && a.addr.net == b.addr.net && a.addr.node == b.addr.node && a.addr.socket == b.addr.socket
  }

  predicate Known(t: Tuple, ts: seq<Tuple>) {
    exists i :: 0 <= i < |ts| && Same(ts[i], t)
  }

  function Firsts(ts: seq<Tuple>): (r: seq<Tuple>)
    ensures |r| <= |ts|
  {
    if ts == [] then []
    else
      var r := Firsts(ts[..|ts| - 1]);
      if Known(ts[|ts| - 1], r) then r else r + [ts[|ts| - 1]]
  }

  function AtMost(ts: seq<Tuple>, max: nat): seq<Tuple> {
    if |ts| <= max then ts else ts[..max]
  }

  /** What has been collected out of everything received. */
  function Collected(ts: seq<Tuple>, max: nat): seq<Tuple> {
    AtMost(Firsts(ts), max)
  }

  lemma CollectOne(ts: seq<Tuple>, t: Tuple, max: nat)
    ensures Known(t, Collected(ts, max)) || |Collected(ts, max)| >= max ==>
      Collected(ts + [t], max) == Collected(ts, max)
    ensures !Known(t, Collected(ts, max)) && |Collected(ts, max)| < max ==>
      Collected(ts + [t], max) == Collected(ts, max) + [t]
  {
    assert (ts + [t])[..|ts|] == ts;
    var r := Firsts(ts);
    if Known(t, Collected(ts, max)) {
      var i :| 0 <= i < |Collected(ts, max)| && Same(Collected(ts, max)[i], t);
      assert Same(r[i], t);
    }
  }

  lemma {:induction false} CollectFull(ts: seq<Tuple>, more: seq<Tuple>, max: nat)
    requires |Collected(ts, max)| >= max
    ensures Collected(ts + more, max) == Collected(ts, max)
  {
    if more == [] {
      assert ts + more == ts;
    } else {
      CollectFull(ts, more[..|more| - 1], max);
      CollectOne(ts + more[..|more| - 1], more[|more| - 1], max);
      assert ts + more == ts + more[..|more| - 1] + [more[|more| - 1]];
    }
  }

  /** Any two of these tuples differ in their enumerator, net, node or socket. */
  predicate AllDiffer(r: seq<Tuple>) {
    forall i, j :: 0 <= i < j < |r| ==>
      || r[i].enumerator != r[j].enumerator
      || r[i].addr.net != r[j].addr.net || r[i].addr.node != r[j].addr.node || r[i].addr.socket != r[j].addr.socket
  }

  predicate AllIn(r: seq<Tuple>, ts: seq<Tuple>) {
    forall i :: 0 <= i < |r| ==> r[i] in ts
  }

  /** For each of `ts` there is one in `r` with the same enumerator, net, node and socket. */
  predicate NoneMissing(ts: seq<Tuple>, r: seq<Tuple>) {
    forall t :: t in ts ==>
      exists u :: u in r && u.enumerator == t.enumerator
                  && u.addr.net == t.addr.net && u.addr.node == t.addr.node && u.addr.socket == t.addr.socket
  }

  /** What is collected are different tuples, each of which has been received, and none that was
      received is missing unless there are `max` of them. */
  lemma {:induction false} CollectedMeans(ts: seq<Tuple>, max: nat)
    ensures |Collected(ts, max)| <= max
    ensures AllDiffer(Collected(ts, max)) && AllIn(Collected(ts, max), ts)
    ensures |Collected(ts, max)| < max ==> NoneMissing(ts, Collected(ts, max))
  {
    FirstsMean(ts);
    if |Collected(ts, max)| < max {
      forall t | t in ts ensures exists u :: u in Firsts(ts) && Same(u, t) {
        var i :| 0 <= i < |ts| && ts[i] == t;
        assert Known(ts[i], Firsts(ts));
      }
    }
  }

  /** Of those received with the same four fields it is the first that is collected, under its names. */
  lemma {:induction false} FirstIsKept(ts: seq<Tuple>, max: nat, i: nat) returns (k: nat)
    requires i < |Collected(ts, max)|
    ensures k < |ts| && Collected(ts, max)[i] == ts[k]
    ensures forall j :: 0 <= j < k ==>
      || ts[j].enumerator != ts[k].enumerator || ts[j].addr.net != ts[k].addr.net
      || ts[j].addr.node != ts[k].addr.node || ts[j].addr.socket != ts[k].addr.socket
    decreases |ts|
  {
    var front := ts[..|ts| - 1];
    if i < |Firsts(front)| {
      k := FirstIsKept(front, |ts|, i);
      assert ts[k] == front[k];
    } else {
      k := |ts| - 1;
      FirstsMean(front);
      forall j | 0 <= j < k ensures !Same(ts[j], ts[k]) {
        assert Known(front[j], Firsts(front));
      }
    }
  }

  lemma {:induction false} FirstsMean(ts: seq<Tuple>)
    ensures AllDiffer(Firsts(ts)) && AllIn(Firsts(ts), ts) && AllKnown(ts, Firsts(ts))
  {
    if ts != [] {
      var front, t := ts[..|ts| - 1], ts[|ts| - 1];
      FirstsMean(front);
      assert ts == front + [t];
      OneMoreMeans(front, t, Firsts(front));
    }
  }

  predicate AllKnown(ts: seq<Tuple>, r: seq<Tuple>) {
    forall i :: 0 <= i < |ts| ==> Known(ts[i], r)
  }

  lemma OneMoreMeans(ts: seq<Tuple>, t: Tuple, r: seq<Tuple>)
    requires AllDiffer(r) && AllIn(r, ts) && AllKnown(ts, r)
    ensures var r' := if Known(t, r) then r else r + [t];
      AllDiffer(r') && AllIn(r', ts + [t]) && AllKnown(ts + [t], r')
  {
    var r' := if Known(t, r) then r else r + [t];
    forall i | 0 <= i < |ts + [t]| ensures Known((ts + [t])[i], r') {
      if i == |ts| {
        if !Known(t, r) { NowKnown(r, t); }
      } else if !Known(t, r) {
        StaysKnown(ts[i], r, t);
      }
    }
  }

  lemma StaysKnown(x: Tuple, r: seq<Tuple>, t: Tuple)
    requires Known(x, r)
    ensures Known(x, r + [t])
  {
    var j :| 0 <= j < |r| && Same(r[j], x);
    assert Same((r + [t])[j], x);
  }

  lemma NowKnown(r: seq<Tuple>, t: Tuple)
    ensures Known(t, r + [t])
  {
    assert Same((r + [t])[|r|], t);
  }

  // ----- doNbpReply -----

  /** Whether a tuple is in the reply already. */
  method Search(reply: array<Tuple>, got: nat, t: Tuple) returns (found: bool)
    requires got <= reply.Length
    ensures found <==>
      exists j :: 0 <= j < got && reply[j].enumerator == t.enumerator && reply[j].addr.net == t.addr.net
                  && reply[j].addr.node == t.addr.node && reply[j].addr.socket == t.addr.socket
    ensures found == Known(t, reply[..got])
  {
    var i := 0;
    while i < got
      invariant i <= got && forall j :: 0 <= j < i ==> !Same(reply[j], t)
    {
      if
        && reply[i].enumerator == t.enumerator
        && reply[i].addr.net == t.addr.net
        && reply[i].addr.node == t.addr.node
        && reply[i].addr.socket == t.addr.socket
      {
        assert Same(reply[..got][i], t);
        return true;
      }
      i := i + 1;
    }
    return false;
  }

  /** What one more tuple makes of the reply. */
  function Added(r: seq<Tuple>, t: Tuple, max: nat): seq<Tuple> {
    if Known(t, r) || |r| >= max then r else r + [t]
  }

  /** What more tuples make of it, one after the other. */
  function AddedAll(r: seq<Tuple>, ts: seq<Tuple>, max: nat): seq<Tuple>
    decreases |ts|
  {
    if ts == [] then r else AddedAll(Added(r, ts[0], max), ts[1..], max)
  }

  lemma {:induction false} AddedIsCollected(seen: seq<Tuple>, ts: seq<Tuple>, max: nat)
    ensures AddedAll(Collected(seen, max), ts, max) == Collected(seen + ts, max)
    decreases |ts|
  {
    if ts == [] {
      assert seen + ts == seen;
    } else {
      CollectOne(seen, ts[0], max);
      AddedIsCollected(seen + [ts[0]], ts[1..], max);
      assert (seen + [ts[0]]) + ts[1..] == seen + ts;
    }
  }

  /** Before or after a turn of the loop: where it reads, and the reply. */
  datatype Stage = Stage(p: nat, r: seq<Tuple>)

  predicate Turn(packet: seq<Byte>, stages: seq<Stage>, max: nat, k: nat)
    requires k + 1 < |stages|
  {
    var a, b := stages[k], stages[k + 1];
    TupleAt(packet, a.p) && b == Stage(a.p + Length(packet, a.p), Added(a.r, Unpacked(packet, a.p), max))
  }

  predicate Turns(packet: seq<Byte>, stages: seq<Stage>, max: nat) {
    forall k :: 0 <= k < |stages| - 1 ==> Turn(packet, stages, max, k)
  }

  lemma AddFirst(r: seq<Tuple>, t: Tuple, rest: seq<Tuple>, max: nat)
    ensures AddedAll(r, [t] + rest, max) == AddedAll(Added(r, t, max), rest, max)
  {
    assert ([t] + rest)[1..] == rest;
  }

  lemma TurnFirst(packet: seq<Byte>, a: Stage, more: seq<Stage>, max: nat)
    requires more != [] && Turns(packet, more, max) && TupleAt(packet, a.p)
    requires more[0] == Stage(a.p + Length(packet, a.p), Added(a.r, Unpacked(packet, a.p), max))
    ensures Turns(packet, [a] + more, max)
  {
    var stages := [a] + more;
    forall k | 0 <= k < |stages| - 1 ensures Turn(packet, stages, max, k) {
      if k > 0 { assert Turn(packet, more, max, k - 1); }
    }
  }

  /** All turns that the loop over a packet could make. */
  lemma {:induction false} PlanTurns(packet: seq<Byte>, p: nat, count: nat, r: seq<Tuple>, max: nat)
      returns (stages: seq<Stage>)
    requires Holds(packet, p, count)
    ensures |stages| == count + 1 && stages[0] == Stage(p, r) && Turns(packet, stages, max)
    ensures stages[count].r == AddedAll(r, Tuples(packet, p, count), max)
    decreases count
  {
    if count == 0 {
      stages := [Stage(p, r)];
    } else {
      var t, next := Unpacked(packet, p), p + Length(packet, p);
      var more := PlanTurns(packet, next, count - 1, Added(r, t, max), max);
      AddFirst(r, t, Tuples(packet, next, count - 1), max);
      stages := [Stage(p, r)] + more;
      TurnFirst(packet, Stage(p, r), more, max);
    }
  }

  /** A full reply stays as it is. */
  lemma {:induction false} FullStays(packet: seq<Byte>, stages: seq<Stage>, max: nat, k: nat)
    requires Turns(packet, stages, max) && k < |stages| && |stages[k].r| >= max
    ensures stages[|stages| - 1].r == stages[k].r
    decreases |stages| - k
  {
    if k + 1 < |stages| {
      assert Turn(packet, stages, max, k);
      FullStays(packet, stages, max, k + 1);
    }
  }

  /** One tuple: it is skipped, or put behind the others, or there is no room for it. */
  method Take(t: Tuple, reply: array<Tuple>, got: nat, max: nat) returns (room: bool, now: nat)
    requires got <= max <= reply.Length
    modifies reply
    ensures got <= now <= max && reply[..now] == Added(old(reply[..got]), t, max)
    ensures !room ==> now == max
  {
    var found := Search(reply, got, t);
    if found { return true, got; }
    if got >= max { return false, got; }
    reply[got] := t;
    return true, got + 1;
  }

  /** One turn of the loop, at the tuple at `p`. */
  method TakeNext(packet: seq<Byte>, p: nat, reply: array<Tuple>, got: nat, max: nat,
                  ghost stages: seq<Stage>, ghost k: nat)
      returns (room: bool, now: nat, next: nat)
    requires k + 1 < |stages| && Turn(packet, stages, max, k)
    requires got <= max <= reply.Length && stages[k] == Stage(p, reply[..got])
    modifies reply
    ensures got <= now <= max && stages[k + 1] == Stage(next, reply[..now]) && (!room ==> now == max)
  {
    next := p + Length(packet, p);
    room, now := Take(Unpacked(packet, p), reply, got, max);
  }

  /** One reply packet: its new tuples go behind those collected from `seen`, up to `max`. */
  method DoNbpReply(packet: seq<Byte>, count: nat, reply: array<Tuple>, got: nat, max: nat, ghost seen: seq<Tuple>)
      returns (wegot: nat)
    requires Holds(packet, 0, count)
    requires got <= max <= reply.Length && reply[..got] == Collected(seen, max)
    modifies reply
    ensures got + wegot <= max && reply[..got + wegot] == Collected(seen + Tuples(packet, 0, count), max)
    ensures AllDiffer(reply[..got + wegot])
    ensures got + wegot < max ==> NoneMissing(seen + Tuples(packet, 0, count), reply[..got + wegot])
  {
    AddedIsCollected(seen, Tuples(packet, 0, count), max);
    CollectedMeans(seen + Tuples(packet, 0, count), max);
    var now := ReadPacket(packet, count, reply, got, max);
    return now - got;
  }

  method ReadPacket(packet: seq<Byte>, count: nat, reply: array<Tuple>, got: nat, max: nat) returns (now: nat)
    requires Holds(packet, 0, count) && got <= max <= reply.Length
    modifies reply
    ensures got <= now <= max && reply[..now] == AddedAll(old(reply[..got]), Tuples(packet, 0, count), max)
  {
    ghost var stages := PlanTurns(packet, 0, count, reply[..got], max);
    var room, p: nat, i: nat := true, 0, 0;
    now := got;
    while i < count && room
      invariant i <= count && got <= now <= max
      invariant stages[i] == Stage(p, reply[..now]) && (!room ==> now == max)
    {
      assert Turn(packet, stages, max, i);
      room, now, p := TakeNext(packet, p, reply, now, max, stages, i);
      i := i + 1;
    }
    if !room { FullStays(packet, stages, max, i); }
  }

  lemma Assoc(a: seq<Tuple>, b: seq<Tuple>, c: seq<Tuple>)
    ensures (a + b) + c == a + (b + c)
  {
  }

  /** A packet that has arrived. */
  datatype Packet = Packet(id: nat, control: nat, count: nat, tuples: seq<Byte>)
  {
    /** It answers the request. */
    predicate Matches(id: nat, control: nat) {
      this.id == id && this.control == control
    }

    /** If so, the tuples that follow the header are as many as it says. */
    predicate Readable(id: nat, control: nat) {
      Matches(id, control) ==> Holds(tuples, 0, count)
    }
  }

  /** The tuples of a packet that answers the request. */
  function Answer(p: Packet, id: nat, control: nat): seq<Tuple>
    requires p.Readable(id, control)
  {
    if p.Matches(id, control) then Tuples(p.tuples, 0, p.count) else []
  }

  predicate AllReadable(packets: seq<Packet>, id: nat, control: nat) {
    forall k :: 0 <= k < |packets| ==> packets[k].Readable(id, control)
  }

  function Answers(packets: seq<Packet>, id: nat, control: nat): seq<Tuple>
    requires AllReadable(packets, id, control)
  {
    if packets == [] then []
    else Answers(packets[..|packets| - 1], id, control) + Answer(packets[|packets| - 1], id, control)
  }

  lemma {:induction false} AnswersHave(packets: seq<Packet>, id: nat, control: nat, k: nat, t: Tuple)
    requires AllReadable(packets, id, control) && k < |packets| && packets[k].Matches(id, control)
    requires t in Tuples(packets[k].tuples, 0, packets[k].count)
    ensures t in Answers(packets, id, control)
    decreases |packets|
  {
    if k < |packets| - 1 {
      assert packets[..|packets| - 1][k] == packets[k];
      AnswersHave(packets[..|packets| - 1], id, control, k, t);
    }
  }

  lemma {:induction false} AnswersComeFrom(packets: seq<Packet>, id: nat, control: nat, t: Tuple) returns (k: nat)
    requires AllReadable(packets, id, control) && t in Answers(packets, id, control)
    ensures k < |packets| && packets[k].Matches(id, control)
    ensures t in Tuples(packets[k].tuples, 0, packets[k].count)
    decreases |packets|
  {
    var front := packets[..|packets| - 1];
    if t in Answers(front, id, control) {
      k := AnswersComeFrom(front, id, control, t);
      assert packets[k] == front[k];
    } else {
      k := |packets| - 1;
    }
  }

  /** The tuples considered are those of the packets with this id and control, and no others. */
  lemma AnswersMean(packets: seq<Packet>, id: nat, control: nat, t: Tuple)
    requires AllReadable(packets, id, control)
    ensures t in Answers(packets, id, control) <==>
      exists k :: 0 <= k < |packets| && packets[k].id == id && packets[k].control == control
                  && t in Tuples(packets[k].tuples, 0, packets[k].count)
  {
    if t in Answers(packets, id, control) {
      var k := AnswersComeFrom(packets, id, control, t);
    }
    forall k | 0 <= k < |packets| && packets[k].Matches(id, control)
               && t in Tuples(packets[k].tuples, 0, packets[k].count)
      ensures t in Answers(packets, id, control)
    {
      AnswersHave(packets, id, control, k, t);
    }
  }

  lemma {:induction false} AnswersOn(packets: seq<Packet>, k: nat, id: nat, control: nat) returns (more: seq<Tuple>)
    requires AllReadable(packets, id, control) && k <= |packets|
    ensures Answers(packets, id, control) == Answers(packets[..k], id, control) + more
    decreases |packets|
  {
    if k == |packets| {
      assert packets[..k] == packets;
      more := [];
    } else {
      var front := packets[..|packets| - 1];
      var before := AnswersOn(front, k, id, control);
      assert front[..k] == packets[..k];
      var last := Answer(packets[|packets| - 1], id, control);
      more := before + last;
      Assoc(Answers(packets[..k], id, control), before, last);
    }
  }

  /** One packet: it is passed over, or its tuples are collected. */
  method ReceiveOne(p: Packet, id: nat, control: nat, reply: array<Tuple>, got: nat, max: nat, ghost seen: seq<Tuple>)
      returns (now: nat)
    requires p.Readable(id, control) && got <= max <= reply.Length && reply[..got] == Collected(seen, max)
    modifies reply
    ensures now <= max && reply[..now] == Collected(seen + Answer(p, id, control), max)
  {
    now := got;
    if p.Matches(id, control) {
      var n := DoNbpReply(p.tuples, p.count, reply, got, max, seen);
      now := got + n;
    } else {
      assert seen + [] == seen;
    }
  }

  /** Packets in the order in which they arrive, until `max` tuples have been collected: the reply is
      made of the first of those that differ, over all packets that answer the request. */
  method Receive(packets: seq<Packet>, id: nat, control: nat, reply: array<Tuple>, max: nat) returns (got: nat)
    requires max <= reply.Length && AllReadable(packets, id, control)
    modifies reply
    ensures got <= max && reply[..got] == Collected(Answers(packets, id, control), max)
    ensures AllDiffer(reply[..got]) && AllIn(reply[..got], Answers(packets, id, control))
    ensures got < max ==> NoneMissing(Answers(packets, id, control), reply[..got])
  {
    CollectedMeans(Answers(packets, id, control), max);
    got := 0;
    var k := 0;
    ghost var seen := [];
    while k < |packets| && got < max
      invariant k <= |packets| && got <= max
      invariant seen == Answers(packets[..k], id, control) && reply[..got] == Collected(seen, max)
    {
      assert packets[..k + 1][..k] == packets[..k];
      assert Answers(packets[..k + 1], id, control) == seen + Answer(packets[k], id, control);
      got := ReceiveOne(packets[k], id, control, reply, got, max, seen);
      k, seen := k + 1, seen + Answer(packets[k], id, control);
    }
    ghost var more := AnswersOn(packets, k, id, control);
    if got >= max { CollectFull(seen, more, max); } else { assert packets[..k] == packets; }
  }
}
