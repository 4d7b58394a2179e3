/** The language of property lists as parse trees, what a tree means, and that the tables parse
    exactly the tokens of a tree into that meaning. */
module PlistTrees {
  import opened Basics
  import opened PlistText
  import opened PlistValues
  import opened PlistLexer
  import opened PlistTables
  import opened PlistGrammar

  /** Brackets carry the ids of their tags; that of a closing one is read and never used. */
  datatype Tree =
    | Atom(token: Token)
    | Listing(isSet: bool, open: int, elems: seq<Tree>, close: int)
    | Pairing(open: int, pairs: seq<Pair>, close: int)

  datatype Pair = Pair(id: int, key: string, value: Tree)

  predicate IsAtom(t: Token) {
    Fits(t) && NUMBER <= t.code <= BOOLEAN
  }

  predicate WellFormed(t: Tree)
    decreases t, 1
  {
    match t
    case Atom(token) => IsAtom(token)
    case Listing(_, _, elems, _) => AllWellFormed(elems)
    case Pairing(_, pairs, _) => PairsWellFormed(pairs)
  }

  predicate AllWellFormed(ts: seq<Tree>)
    decreases ts, 0
  {
    ts == [] || (AllWellFormed(ts[..|ts| - 1]) && WellFormed(ts[|ts| - 1]))
  }

  predicate PairsWellFormed(ps: seq<Pair>)
    decreases ps, 0
  {
    ps == [] || (PairsWellFormed(ps[..|ps| - 1]) && WellFormed(ps[|ps| - 1].value))
  }

  // ----- the tokens of a tree -----

  function OpenToken(isSet: bool, id: int): Token {
    Token(if isSet then 91 else 40, Mark(id))
  }

  function CloseToken(isSet: bool, id: int): Token {
    Token(if isSet then 93 else 41, Mark(id))
  }

  function Tokens(t: Tree): seq<Token>
    decreases t, 1
  {
    match t
    case Atom(token) => [token]
    case Listing(isSet, open, elems, close) =>
      [OpenToken(isSet, open)] + (TokensAll(elems) + [CloseToken(isSet, close)])
    case Pairing(open, pairs, close) =>
      [Token(123, Mark(open))] + (TokensPairs(pairs) + [Token(125, Mark(close))])
  }

  function TokensAll(ts: seq<Tree>): seq<Token>
    decreases ts, 0
  {
    if ts == [] then [] else TokensAll(ts[..|ts| - 1]) + Tokens(ts[|ts| - 1])
  }

  function TokensPairs(ps: seq<Pair>): seq<Token>
    decreases ps, 0
  {
    if ps == [] then [] else TokensPairs(ps[..|ps| - 1]) + TokensPair(ps[|ps| - 1])
  }

  function TokensPair(p: Pair): seq<Token>
    decreases p, 2
  {
    [Token(KEY, Text(p.id, p.key))] + Tokens(p.value)
  }

  // ----- the meaning of a tree -----

  /** An object and what is remembered once it is built; nothing if an id is used too early. */
  function EvalAtom(t: Token, tags: Tags): Option<(Value, Tags)>
    requires IsAtom(t)
  {
    match t.load
    case Text(id, s) => Some((Str(s), Remember(tags, id, Str(s))))
    case Bytes(id, b) => Some((Data(b), Remember(tags, id, Data(b))))
    case Number(id, size, n) => Some((BuiltNumber(size, n), Remember(tags, id, BuiltNumber(size, n))))
    case Truth(b) => Some((Bool(b), tags))
    case Ref(id) => if id in tags then Some((tags[id], tags)) else None
  }

  function Eval(t: Tree, tags: Tags): Option<(Value, Tags)>
    requires WellFormed(t)
    decreases t, 1
  {
    match t
    case Atom(token) => EvalAtom(token, tags)
    case Listing(isSet, open, elems, _) =>
      var r := EvalAll(elems, tags);
      if r.None? then None
      else
        var v := if isSet then Set(BuiltSet(r.value.0)) else Array(Values(r.value.0));
        Some((v, Remember(r.value.1, open, v)))
    case Pairing(open, pairs, _) =>
      var r := EvalPairs(pairs, tags);
      if r.None? then None
      else
        var v := Dict(BuiltDict(r.value.0));
        Some((v, Remember(r.value.1, open, v)))
  }

  function EvalAll(ts: seq<Tree>, tags: Tags): (r: Option<(seq<Item>, Tags)>)
    requires AllWellFormed(ts)
    ensures r.Some? ==> |r.value.0| == |ts|
    decreases ts, 0
  {
    if ts == [] then Some(([], tags))
    else
      var r := EvalAll(ts[..|ts| - 1], tags);
      if r.None? then None
      else
        var e := Eval(ts[|ts| - 1], r.value.1);
        if e.None? then None else Some((r.value.0 + [Item(None, e.value.0)], e.value.1))
  }

  function EvalPairs(ps: seq<Pair>, tags: Tags): (r: Option<(seq<Item>, Tags)>)
    requires PairsWellFormed(ps)
    ensures r.Some? ==> |r.value.0| == |ps|
    ensures r.Some? ==> forall i :: 0 <= i < |ps| ==> r.value.0[i].key == Some(ps[i].key)
    decreases ps, 0
  {
    if ps == [] then Some(([], tags))
    else
      var p := ps[|ps| - 1];
      var r := EvalPairs(ps[..|ps| - 1], tags);
      if r.None? then None
      else
        var e := Eval(p.value, Remember(r.value.1, p.id, Str(p.key)));
        if e.None? then None else Some((r.value.0 + [Item(Some(p.key), e.value.0)], e.value.1))
  }

  /** Item i is the last one with key k. */
  predicate IsLast(items: seq<Item>, k: string, i: int)
    requires forall i :: 0 <= i < |items| ==> items[i].key.Some?
  {
    0 <= i < |items| && items[i].key.value == k && forall j :: i < j < |items| ==> items[j].key.value != k
  }

  lemma OnePairMore(items: seq<Item>, last: Item)
    requires last.key.Some? && forall i :: 0 <= i < |items| ==> items[i].key.Some?
    ensures MeansEntries(BuiltDict(items + [last])) == MeansEntries(BuiltDict(items))[last.key.value := Means(last.obj)]
  {
    assert (items + [last])[..|items|] == items;
    SetEntryMeans(BuiltDict(items), last.key.value, last.obj);
  }

  /** A dictionary has the keys of its pairs, and no others. */
  lemma {:induction false} BuiltDictKeys(items: seq<Item>, k: string)
    requires forall i :: 0 <= i < |items| ==> items[i].key.Some?
    ensures k in MeansEntries(BuiltDict(items)) <==> exists i :: 0 <= i < |items| && items[i].key.value == k
    decreases |items|
  {
    if items != [] {
      var front, last := items[..|items| - 1], items[|items| - 1];
      BuiltDictKeys(front, k);
      OnePairMore(front, last);
      assert items == front + [last];
    }
  }

  /** Of the pairs with the same key the last one counts. */
  lemma {:induction false} BuiltDictMeans(items: seq<Item>, k: string, i: int)
    requires (forall i :: 0 <= i < |items| ==> items[i].key.Some?) && IsLast(items, k, i)
    ensures k in MeansEntries(BuiltDict(items)) && MeansEntries(BuiltDict(items))[k] == Means(items[i].obj)
    decreases |items|
  {
    var front, last := items[..|items| - 1], items[|items| - 1];
    OnePairMore(front, last);
    assert items == front + [last];
    if i < |front| { BuiltDictMeans(front, k, i); }
  }

  lemma OneMemberMore(items: seq<Item>, last: Item)
    ensures Elements(MeansAll(BuiltSet(items + [last]))) == Elements(MeansAll(BuiltSet(items))) + {Means(last.obj)}
  {
    assert (items + [last])[..|items|] == items;
    AddMemberMeans(BuiltSet(items), last.obj);
  }

  /** A set has what its elements mean, and nothing else. */
  lemma {:induction false} BuiltSetMeans(items: seq<Item>, m: Meaning)
    ensures m in Elements(MeansAll(BuiltSet(items))) <==> exists i :: 0 <= i < |items| && Means(items[i].obj) == m
    decreases |items|
  {
    if items != [] {
      var front, last := items[..|items| - 1], items[|items| - 1];
      BuiltSetMeans(front, m);
      OneMemberMore(front, last);
      assert items == front + [last];
    }
  }

  lemma OneElementMore(ts: seq<Tree>, t: Tree, tags: Tags)
    requires AllWellFormed(ts) && WellFormed(t) && EvalAll(ts, tags).Some?
    ensures AllWellFormed(ts + [t])
    ensures var r := EvalAll(ts, tags).value; var e := Eval(t, r.1);
      e.Some? ==> EvalAll(ts + [t], tags) == Some((r.0 + [Item(None, e.value.0)], e.value.1))
  {
    assert (ts + [t])[..|ts|] == ts;
  }

  lemma OneValueMore(items: seq<Item>, item: Item)
    ensures Values(items + [item]) == Values(items) + [item.obj]
  {
    assert (items + [item])[..|items|] == items;
  }

  lemma ListMeans(ts: seq<Tree>, tags: Tags)
    requires AllWellFormed(ts) && EvalAll(ts, tags).Some?
    ensures WellFormed(Listing(false, -1, ts, -1))
    ensures var r := EvalAll(ts, tags).value; Eval(Listing(false, -1, ts, -1), tags) == Some((Array(Values(r.0)), r.1))
  {
  }

  function TextWith(id: int, s: string): Tree {
    Atom(Token(STRING, Text(id, s)))
  }

  lemma TwoTexts(a: string, b: string)
    ensures AllWellFormed([TextWith(0, a), TextWith(0, b)])
    ensures EvalAll([TextWith(0, a), TextWith(0, b)], map[])
            == Some(([Item(None, Str(a)), Item(None, Str(b))], map[0 := Str(b)]))
  {
    var x, y := TextWith(0, a), TextWith(0, b);
    var first: Tags := map[0 := Str(a)];
    assert first[0 := Str(b)] == map[0 := Str(b)];
    OneElementMore([], x, map[]);
    var i, j := Item(None, Str(a)), Item(None, Str(b));
    assert [] + [x] == [x] && [] + [i] == [i];
    assert EvalAll([x], map[]) == Some(([i], first));
    OneElementMore([x], y, map[]);
    assert [x] + [y] == [x, y] && [i] + [j] == [i, j];
  }

  /** An id given twice: a reference behind both is to the second object. */
  lemma LaterIdWins(a: string, b: string)
    ensures var t := Listing(false, -1, [TextWith(0, a), TextWith(0, b), Atom(Token(IDREF, Ref(0)))], -1);
      WellFormed(t) && Eval(t, map[]) == Some((Array([Str(a), Str(b), Str(b)]), map[0 := Str(b)]))
  {
    var x, y, z := TextWith(0, a), TextWith(0, b), Atom(Token(IDREF, Ref(0)));
    var i, j := Item(None, Str(a)), Item(None, Str(b));
    TwoTexts(a, b);
    OneElementMore([x, y], z, map[]);
    assert [x, y] + [z] == [x, y, z];
    OneValueMore([], i);
    OneValueMore([i], j);
    OneValueMore([i, j], j);
    assert Values([i, j] + [j]) == [Str(a), Str(b), Str(b)];
    ListMeans([x, y, z], map[]);
  }

  // ----- how much stack a tree takes -----

  function Max(a: nat, b: nat): nat {
    if a < b then b else a
  }

  /** States that lie on the stack at most, beyond those below the tree. */
  function Peak(t: Tree): (n: nat)
    ensures n >= 1
    decreases t, 1
  {
    match t
    case Atom(_) => 1
    case Listing(_, _, elems, _) => Max(if elems == [] then 2 else 3, 1 + PeakAll(elems))
    case Pairing(_, pairs, _) => Max(if pairs == [] then 2 else 3, 1 + PeakPairs(pairs))
  }

  /** Beyond those of the opening bracket; a list already read takes one state. */
  function PeakAll(ts: seq<Tree>): nat
    decreases ts, 0
  {
    if ts == [] then 0
    else Max(PeakAll(ts[..|ts| - 1]), (if |ts| == 1 then 0 else 1) + Peak(ts[|ts| - 1]))
  }

  function PeakPairs(ps: seq<Pair>): nat
    decreases ps, 0
  {
    if ps == [] then 0
    else Max(PeakPairs(ps[..|ps| - 1]), (if |ps| == 1 then 1 else 2) + Peak(ps[|ps| - 1].value))
  }

  function Depth(t: Tree): nat
    decreases t, 1
  {
    match t
    case Atom(_) => 0
    case Listing(_, _, elems, _) => 1 + DepthAll(elems)
    case Pairing(_, pairs, _) => 1 + DepthPairs(pairs)
  }

  function DepthAll(ts: seq<Tree>): nat
    decreases ts, 0
  {
    if ts == [] then 0 else Max(DepthAll(ts[..|ts| - 1]), Depth(ts[|ts| - 1]))
  }

  function DepthPairs(ps: seq<Pair>): nat
    decreases ps, 0
  {
    if ps == [] then 0 else Max(DepthPairs(ps[..|ps| - 1]), Depth(ps[|ps| - 1].value))
  }

  /** Three states for a level of nesting, however many elements there are. */
  lemma {:induction false} PeakIsNesting(t: Tree)
    ensures Peak(t) <= 3 * Depth(t) + 1
    decreases t, 1
  {
    match t
    case Atom(_) =>
    case Listing(_, _, elems, _) => PeakAllIsNesting(elems);
    case Pairing(_, pairs, _) => PeakPairsIsNesting(pairs);
  }

  lemma {:induction false} PeakAllIsNesting(ts: seq<Tree>)
    ensures PeakAll(ts) <= 3 * DepthAll(ts) + 3
    decreases ts, 0
  {
    if ts != [] {
      PeakAllIsNesting(ts[..|ts| - 1]);
      PeakIsNesting(ts[|ts| - 1]);
    }
  }

  lemma {:induction false} PeakPairsIsNesting(ps: seq<Pair>)
    ensures PeakPairs(ps) <= 3 * DepthPairs(ps) + 3
    decreases ps, 0
  {
    if ps != [] {
      PeakPairsIsNesting(ps[..|ps| - 1]);
      PeakIsNesting(ps[|ps| - 1].value);
    }
  }
}
