/** The tables parse the tokens of a tree into its meaning, whatever surrounds them. */
module PlistParsing {
  import opened Basics
  import opened PlistText
  import opened PlistValues
  import opened PlistLexer
  import opened PlistTables
  import opened PlistGrammar
  import opened PlistTrees

  /** A configuration that was entered, so it fits the stack. */
  predicate Ready(c: Config) {
    Valid(c) && Height(c.stack) < YYMAXDEPTH
  }

  // ----- single steps -----

  lemma RunShift(c: Config, s: nat)
    requires Ready(c) && Looks(Top(c.stack)) && c.tokens != []
    requires Decide(Top(c.stack), YyTranslate(c.tokens[0].code)) == Shift(s)
    ensures Height(c.stack) + 1 >= YYMAXDEPTH ==> Run(c) == Rejected
    ensures Height(c.stack) + 1 < YYMAXDEPTH ==>
              var d := Config(Push(c.stack, s, Leaf(c.tokens[0].load)), c.tokens[1..], c.tags);
              Ready(d) && Run(c) == Run(d)
  {
    EveryState(c.stack);
    SeenKeeps(c);
  }

  lemma RunReduce(c: Config)
    requires Ready(c) && Reduces(Top(c.stack))
    ensures var a := Action(YyDefact(c.stack.state) as nat, c.stack, c.tags);
            if a.Finish? then Run(c) == a.outcome
            else
              var d := Config(Replaced(c.stack, a.sem), c.tokens, a.tags);
              Ready(d) && Run(c) == Run(d)
  {
    EveryState(c.stack);
    ReducedIsReplaced(c);
    ReducedKeeps(c);
    var a := Action(YyDefact(c.stack.state) as nat, c.stack, c.tags);
    if a.Done? { ReplacedIsSmaller(c.stack, a.sem); }
  }

  // ----- an atom -----

  /** The token's state, after one unit reduction, is that of its nonterminal. */
  function AtomState(code: nat): nat {
    match code
    case 258 => 14
    case 259 => 16
    case 260 => 15
    case 261 => 17
    case _ => 18
  }

  lemma AtomShift(s: nat, t: Token)
    requires BeforeObject(s) && IsAtom(t)
    ensures Decide(s, YyTranslate(t.code)) == Shift(t.code - 257)
  {
  }

  /** Where an object of value `v` is parsed, in the place of its tokens. */
  function WithObject(c: Config, rest: seq<Token>, v: Value, tags: Tags): Config {
    Config(Push(c.stack, ObjectState(Top(c.stack)), Object(v)), rest, tags)
  }

  lemma FirstReduction(stack: Stack, tags: Tags)
    requires Sound(stack) && stack.Push? && 1 <= stack.state <= 5
    ensures Action(YyDefact(stack.state) as nat, stack, tags) == Done(stack.sem, tags)
    ensures Replaced(stack, stack.sem) == Push(stack.below, AtomState(stack.state + 257), stack.sem)
  {
    PopOne(stack);
  }

  lemma SecondReduction(stack: Stack, tags: Tags, t: Token)
    requires Sound(stack) && stack.Push? && IsAtom(t) && stack.state == AtomState(t.code) && stack.sem == Leaf(t.load)
    ensures var a := Action(YyDefact(stack.state) as nat, stack, tags);
            if EvalAtom(t, tags).None? then a == Finish(Rejected)
            else a == Done(Object(EvalAtom(t, tags).value.0), EvalAtom(t, tags).value.1)
  {
  }

  lemma ObjectLands(stack: Stack, v: Sem)
    requires Sound(stack) && stack.Push? && 11 <= stack.state <= 18
    ensures Replaced(stack, v) == Push(stack.below, ObjectState(Top(stack.below)), v)
  {
    PopOne(stack);
  }

  lemma PopOne(stack: Stack)
    requires stack.Push?
    ensures Pop(stack, 1) == stack.below
  {
  }

  lemma AtomIsReduced(c: Config, t: Token)
    requires Ready(c) && c.stack.Push? && IsAtom(t) && c.stack.state == t.code - 257 && c.stack.sem == Leaf(t.load)
    ensures var d := Config(Push(c.stack.below, AtomState(t.code), c.stack.sem), c.tokens, c.tags);
            Ready(d) && Run(c) == Run(d)
  {
    FirstReduction(c.stack, c.tags);
    RunReduce(c);
  }

  lemma AtomIsBuilt(c: Config, t: Token)
    requires Ready(c) && c.stack.Push? && IsAtom(t) && c.stack.state == AtomState(t.code) && c.stack.sem == Leaf(t.load)
    ensures EvalAtom(t, c.tags).None? ==> Run(c) == Rejected
    ensures EvalAtom(t, c.tags).Some? ==>
              var (v, tags) := EvalAtom(t, c.tags).value;
              var d := Config(Push(c.stack.below, ObjectState(Top(c.stack.below)), Object(v)), c.tokens, tags);
              Ready(d) && Run(c) == Run(d)
  {
    RunReduce(c);
    SecondReduction(c.stack, c.tags, t);
    if EvalAtom(t, c.tags).Some? {
      ObjectLands(c.stack, Object(EvalAtom(t, c.tags).value.0));
    }
  }

  lemma AtomIsParsed(t: Token, c: Config, rest: seq<Token>)
    requires Ready(c) && BeforeObject(Top(c.stack)) && IsAtom(t) && c.tokens == [t] + rest
    ensures Height(c.stack) + 1 >= YYMAXDEPTH || EvalAtom(t, c.tags).None? ==> Run(c) == Rejected
    ensures Height(c.stack) + 1 < YYMAXDEPTH && EvalAtom(t, c.tags).Some? ==>
              var (v, tags) := EvalAtom(t, c.tags).value;
              Ready(WithObject(c, rest, v, tags)) && Run(c) == Run(WithObject(c, rest, v, tags))
  {
    AtomShift(Top(c.stack), t);
    RunShift(c, t.code - 257);
    assert c.tokens[1..] == rest;
    if Height(c.stack) + 1 < YYMAXDEPTH {
      AtomIsReduced(Config(Push(c.stack, t.code - 257, Leaf(t.load)), rest, c.tags), t);
      AtomIsBuilt(Config(Push(c.stack, AtomState(t.code), Leaf(t.load)), rest, c.tags), t);
    }
  }

  // ----- lists of elements -----

  function ChainOf(items: seq<Item>): Chain {
    if items == [] then Nil else Link(items[|items| - 1], ChainOf(items[..|items| - 1]))
  }

  /** The builders' reversal puts the newest-first list back in source order. */
  lemma {:induction false} ReversalRestoresOrder(items: seq<Item>)
    ensures OldestFirst(ChainOf(items)) == items
  {
    if items != [] { ReversalRestoresOrder(items[..|items| - 1]); }
  }

  lemma ChainOfAppend(items: seq<Item>, i: Item)
    ensures ChainOf(items + [i]) == Link(i, ChainOf(items))
  {
    assert (items + [i])[..|items|] == items;
  }

  function OpenState(isSet: bool): nat {
    if isSet then 9 else 8
  }

  function ListState(isSet: bool): nat {
    if isSet then 28 else 26
  }

  predicate Opened(stack: Stack, isSet: bool) {
    stack.Push? && stack.state == OpenState(isSet)
  }

  /** The stack after some elements. */
  function WithElements(header: Stack, isSet: bool, items: seq<Item>): Stack {
    if items == [] then header else Push(header, ListState(isSet), Chained(ChainOf(items)))
  }

  lemma FirstElementAction(stack: Stack, tags: Tags)
    requires Sound(stack) && stack.Push? && stack.state == 25
    ensures stack.sem.Object?
    ensures Action(22, stack, tags) == Done(Chained(Link(Item(None, stack.sem.value), Nil)), tags)
    ensures forall sem :: Replaced(stack, sem) == Push(stack.below, if Top(stack.below) == 9 then 28 else 26, sem)
  {
    PopOne(stack);
  }

  lemma FirstElementJoins(c: Config, isSet: bool, v: Value)
    requires Ready(c) && c.stack.Push? && c.stack.state == 25 && c.stack.sem == Object(v)
      && Opened(c.stack.below, isSet)
    ensures var i := Item(None, v);
            var d := Config(Push(c.stack.below, ListState(isSet), Chained(Link(i, Nil))), c.tokens, c.tags);
            Ready(d) && Run(c) == Run(d)
  {
    FirstElementAction(c.stack, c.tags);
    RunReduce(c);
  }

  lemma NextElementAction(stack: Stack, tags: Tags)
    requires Sound(stack) && stack.Push? && stack.state == 33
    ensures stack.sem.Object? && stack.below.Push? && stack.below.sem.Chained?
    ensures Action(23, stack, tags) == Done(Chained(Link(Item(None, stack.sem.value), stack.below.sem.items)), tags)
    ensures forall sem ::
      Replaced(stack, sem) == Push(stack.below.below, if Top(stack.below.below) == 9 then 28 else 26, sem)
  {
    PopTwo(stack);
  }

  lemma NextElementJoins(c: Config, header: Stack, isSet: bool, chain: Chain, v: Value)
    requires Ready(c) && Opened(header, isSet)
    requires c.stack == Push(Push(header, ListState(isSet), Chained(chain)), 33, Object(v))
    ensures var i := Item(None, v);
            var d := Config(Push(header, ListState(isSet), Chained(Link(i, chain))), c.tokens, c.tags);
            Ready(d) && Run(c) == Run(d)
  {
    NextElementAction(c.stack, c.tags);
    RunReduce(c);
  }

  lemma ElementJoins(c: Config, header: Stack, isSet: bool, items: seq<Item>, v: Value)
    requires Ready(c) && Opened(header, isSet)
    requires var s := WithElements(header, isSet, items); c.stack == Push(s, ObjectState(Top(s)), Object(v))
    ensures var d := Config(WithElements(header, isSet, items + [Item(None, v)]), c.tokens, c.tags);
            Ready(d) && Run(c) == Run(d)
  {
    ChainOfAppend(items, Item(None, v));
    if items == [] {
      FirstElementJoins(c, isSet, v);
    } else {
      NextElementJoins(c, header, isSet, ChainOf(items), v);
    }
  }

  lemma PopTwo(stack: Stack)
    requires stack.Push? && stack.below.Push?
    ensures Pop(stack, 2) == stack.below.below
  {
    PopOne(stack.below);
  }

  lemma PopThree(stack: Stack)
    requires stack.Push? && stack.below.Push? && stack.below.below.Push?
    ensures Pop(stack, 3) == stack.below.below.below
  {
    PopTwo(stack.below);
  }

  // ----- the brackets of a list -----

  lemma OpenShift(s: nat, isSet: bool, id: int)
    requires BeforeObject(s)
    ensures Decide(s, YyTranslate(OpenToken(isSet, id).code)) == Shift(OpenState(isSet))
  {
  }

  lemma CloseShift(isSet: bool, id: int)
    ensures Decide(OpenState(isSet), YyTranslate(CloseToken(isSet, id).code)) == Shift(if isSet then 27 else 24)
    ensures Decide(ListState(isSet), YyTranslate(CloseToken(isSet, id).code)) == Shift(if isSet then 34 else 32)
  {
  }

  /** What a closed list is built into. */
  function BuiltList(isSet: bool, items: seq<Item>): Value {
    if isSet then Set(BuiltSet(items)) else Array(Values(items))
  }

  /** The stack once the closing bracket has been shifted. */
  function WithClosing(header: Stack, isSet: bool, items: seq<Item>, close: int): Stack {
    if items == [] then Push(header, if isSet then 27 else 24, Leaf(Mark(close)))
    else Push(WithElements(header, isSet, items), if isSet then 34 else 32, Leaf(Mark(close)))
  }

  lemma EmptyListAction(stack: Stack, tags: Tags)
    requires Sound(stack) && stack.Push? && stack.state in {24, 27}
    ensures stack.below.Push? && stack.below.sem.Leaf? && stack.below.sem.load.Mark?
    ensures Action(YyDefact(stack.state) as nat, stack, tags) == Done(Group(stack.below.sem.load.idref, Nil), tags)
    ensures forall sem :: Replaced(stack, sem) == Push(stack.below.below, if stack.state == 27 then 13 else 12, sem)
  {
    PopTwo(stack);
  }

  lemma ListAction(stack: Stack, tags: Tags)
    requires Sound(stack) && stack.Push? && stack.state in {32, 34}
    ensures stack.below.Push? && stack.below.sem.Chained? && stack.below.below.Push?
    ensures stack.below.below.sem.Leaf? && stack.below.below.sem.load.Mark?
    ensures Action(YyDefact(stack.state) as nat, stack, tags)
            == Done(Group(stack.below.below.sem.load.idref, stack.below.sem.items), tags)
  {
    assert Sound(stack.below) && Sound(stack.below.below);
  }

  lemma ListReplaced(stack: Stack, sem: Sem)
    requires Sound(stack) && stack.Push? && stack.state in {32, 34} && stack.below.Push? && stack.below.below.Push?
    ensures Replaced(stack, sem) == Push(stack.below.below.below, if stack.state == 34 then 13 else 12, sem)
  {
    PopThree(stack);
  }

  lemma ListIsGrouped(c: Config, header: Stack, isSet: bool, open: int, items: seq<Item>, close: int)
    requires Ready(c) && Opened(header, isSet) && header.sem == Leaf(Mark(open))
    requires c.stack == WithClosing(header, isSet, items, close)
    ensures var d := Config(Push(header.below, if isSet then 13 else 12, Group(open, ChainOf(items))), c.tokens,
      c.tags);
            Ready(d) && Run(c) == Run(d)
  {
    if items == [] {
      EmptyListAction(c.stack, c.tags);
    } else {
      ListAction(c.stack, c.tags);
      ListReplaced(c.stack, Group(open, ChainOf(items)));
    }
    RunReduce(c);
  }

  lemma GroupIsBuilt(c: Config, isSet: bool, open: int, items: seq<Item>)
    requires Ready(c) && c.stack.Push? && c.stack.state == (if isSet then 13 else 12)
    requires c.stack.sem == Group(open, ChainOf(items))
    ensures var v := BuiltList(isSet, items);
            var d := Config(Push(c.stack.below, ObjectState(Top(c.stack.below)), Object(v)), c.tokens,
                Remember(c.tags, open, v));
            Ready(d) && Run(c) == Run(d)
  {
    RunReduce(c);
    ReversalRestoresOrder(items);
    ObjectLands(c.stack, Object(BuiltList(isSet, items)));
  }

  /** A closing bracket turns the header and its elements into an object. */
  lemma ListCloses(c: Config, header: Stack, isSet: bool, open: int, items: seq<Item>, close: int, rest: seq<Token>)
    requires Ready(c) && Opened(header, isSet) && header.sem == Leaf(Mark(open))
    requires c.stack == WithElements(header, isSet, items) && c.tokens == [CloseToken(isSet, close)] + rest
    ensures Height(c.stack) + 1 >= YYMAXDEPTH ==> Run(c) == Rejected
    ensures Height(c.stack) + 1 < YYMAXDEPTH ==>
              var v := BuiltList(isSet, items);
              var d := Config(Push(header.below, ObjectState(Top(header.below)), Object(v)), rest,
                  Remember(c.tags, open, v));
              Ready(d) && Run(c) == Run(d)
  {
    CloseShift(isSet, close);
    assert c.tokens[1..] == rest;
    var closing := WithClosing(header, isSet, items, close);
    RunShift(c, closing.state);
    if Height(c.stack) + 1 < YYMAXDEPTH {
      ListIsGrouped(Config(closing, rest, c.tags), header, isSet, open, items, close);
      GroupIsBuilt(Config(Push(header.below, if isSet then 13 else 12, Group(open, ChainOf(items))), rest, c.tags),
                   isSet, open, items);
    }
  }

  // ----- pairs -----

  predicate AllKeyed(items: seq<Item>) {
    forall i :: 0 <= i < |items| ==> items[i].key.Some?
  }

  /** The stack after some pairs. */
  function WithPairs(header: Stack, items: seq<Item>): Stack {
    if items == [] then header else Push(header, 21, Chained(ChainOf(items)))
  }

  lemma KeyShift(s: nat, id: int, key: string)
    requires s == 7 || s == 21
    ensures Decide(s, YyTranslate(KEY)) == Shift(19)
  {
  }

  lemma KeyAction(stack: Stack, tags: Tags, id: int, key: string)
    requires Sound(stack) && stack.Push? && stack.state == 19 && stack.sem == Leaf(Text(id, key))
    ensures Action(17, stack, tags) == Done(Object(Str(key)), Remember(tags, id, Str(key)))
    ensures Replaced(stack, Object(Str(key))) == Push(stack.below, 23, Object(Str(key)))
  {
    PopOne(stack);
  }

  lemma KeyIsBuilt(c: Config, id: int, key: string)
    requires Ready(c) && c.stack.Push? && c.stack.state == 19 && c.stack.sem == Leaf(Text(id, key))
    ensures var d := Config(Push(c.stack.below, 23, Object(Str(key))), c.tokens, Remember(c.tags, id, Str(key)));
            Ready(d) && Run(c) == Run(d)
  {
    KeyAction(c.stack, c.tags, id, key);
    RunReduce(c);
  }

  /** A key is built, and remembered, before its object is read. */
  lemma KeyIsParsed(c: Config, id: int, key: string, rest: seq<Token>)
    requires Ready(c) && Top(c.stack) in {7, 21} && c.tokens == [Token(KEY, Text(id, key))] + rest
    ensures Height(c.stack) + 1 >= YYMAXDEPTH ==> Run(c) == Rejected
    ensures Height(c.stack) + 1 < YYMAXDEPTH ==>
              var d := Config(Push(c.stack, 23, Object(Str(key))), rest, Remember(c.tags, id, Str(key)));
              Ready(d) && Run(c) == Run(d)
  {
    KeyShift(Top(c.stack), id, key);
    RunShift(c, 19);
    assert c.tokens[1..] == rest;
    if Height(c.stack) + 1 < YYMAXDEPTH {
      KeyIsBuilt(Config(Push(c.stack, 19, Leaf(Text(id, key))), rest, c.tags), id, key);
    }
  }

  lemma PairAction(stack: Stack, tags: Tags)
    requires Sound(stack) && stack.Push? && stack.state == 31
    ensures stack.sem.Object? && stack.below.Push? && stack.below.sem.Object? && stack.below.sem.value.Str?
    ensures Action(16, stack, tags)
            == Done(Chained(Link(Item(Some(stack.below.sem.value.text), stack.sem.value), Nil)), tags)
    ensures forall sem :: Replaced(stack, sem)
                          == Push(stack.below.below, if Top(stack.below.below) == 21 then 30 else 22, sem)
  {
    PopTwo(stack);
  }

  lemma PairIsMade(c: Config, below: Stack, key: string, v: Value)
    requires Ready(c) && c.stack == Push(Push(below, 23, Object(Str(key))), 31, Object(v))
    ensures var d := Config(Push(below, if Top(below) == 21 then 30 else 22, Chained(Link(Item(Some(key), v), Nil))),
                            c.tokens, c.tags);
            Ready(d) && Run(c) == Run(d)
  {
    PairAction(c.stack, c.tags);
    RunReduce(c);
  }

  lemma FirstPairAction(stack: Stack, tags: Tags)
    requires Sound(stack) && stack.Push? && stack.state == 22
    ensures Action(14, stack, tags) == Done(stack.sem, tags)
    ensures Replaced(stack, stack.sem) == Push(stack.below, 21, stack.sem)
  {
    PopOne(stack);
  }

  lemma FirstPairJoins(c: Config, header: Stack, i: Item)
    requires Ready(c) && Top(header) == 7 && c.stack == Push(header, 22, Chained(Link(i, Nil)))
    ensures var d := Config(Push(header, 21, Chained(Link(i, Nil))), c.tokens, c.tags);
            Ready(d) && Run(c) == Run(d)
  {
    FirstPairAction(c.stack, c.tags);
    RunReduce(c);
  }

  lemma NextPairAction(stack: Stack, tags: Tags)
    requires Sound(stack) && stack.Push? && stack.state == 30
    ensures stack.sem.Chained? && stack.sem.items.Link?
    ensures stack.below.Push? && stack.below.sem.Chained?
    ensures Action(15, stack, tags) == Done(Chained(Link(stack.sem.items.item, stack.below.sem.items)), tags)
    ensures forall sem :: Replaced(stack, sem) == Push(stack.below.below, 21, sem)
  {
    PopTwo(stack);
  }

  lemma NextPairJoins(c: Config, header: Stack, chain: Chain, i: Item)
    requires Ready(c) && Top(header) == 7
    requires c.stack == Push(Push(header, 21, Chained(chain)), 30, Chained(Link(i, Nil)))
    ensures var d := Config(Push(header, 21, Chained(Link(i, chain))), c.tokens, c.tags);
            Ready(d) && Run(c) == Run(d)
  {
    NextPairAction(c.stack, c.tags);
    RunReduce(c);
  }

  lemma PairJoins(c: Config, header: Stack, items: seq<Item>, key: string, v: Value)
    requires Ready(c) && Top(header) == 7
    requires c.stack == Push(Push(WithPairs(header, items), 23, Object(Str(key))), 31, Object(v))
    ensures var d := Config(WithPairs(header, items + [Item(Some(key), v)]), c.tokens, c.tags);
            Ready(d) && Run(c) == Run(d)
  {
    var i := Item(Some(key), v);
    ChainOfAppend(items, i);
    PairIsMade(c, WithPairs(header, items), key, v);
    if items == [] {
      FirstPairJoins(Config(Push(header, 22, Chained(Link(i, Nil))), c.tokens, c.tags), header, i);
    } else {
      NextPairJoins(Config(Push(WithPairs(header, items), 30, Chained(Link(i, Nil))), c.tokens, c.tags),
                    header, ChainOf(items), i);
    }
  }

  lemma BraceShift(s: nat)
    ensures BeforeObject(s) ==> Decide(s, YyTranslate(123)) == Shift(7)
    ensures Decide(7, YyTranslate(125)) == Shift(20) && Decide(21, YyTranslate(125)) == Shift(29)
  {
  }

  function WithBrace(header: Stack, items: seq<Item>, close: int): Stack {
    Push(WithPairs(header, items), if items == [] then 20 else 29, Leaf(Mark(close)))
  }

  lemma NoPairsAction(stack: Stack, tags: Tags)
    requires Sound(stack) && stack.Push? && stack.state == 20
    ensures stack.below.Push? && stack.below.sem.Leaf? && stack.below.sem.load.Mark?
    ensures Action(12, stack, tags) == Done(Group(stack.below.sem.load.idref, Nil), tags)
    ensures forall sem :: Replaced(stack, sem) == Push(stack.below.below, 11, sem)
  {
    PopTwo(stack);
  }

  lemma PairsAction(stack: Stack, tags: Tags)
    requires Sound(stack) && stack.Push? && stack.state == 29
    ensures stack.below.Push? && stack.below.sem.Chained? && stack.below.below.Push?
    ensures stack.below.below.sem.Leaf? && stack.below.below.sem.load.Mark?
    ensures Action(13, stack, tags) == Done(Group(stack.below.below.sem.load.idref, stack.below.sem.items), tags)
    ensures forall sem :: Replaced(stack, sem) == Push(stack.below.below.below, 11, sem)
  {
    assert Sound(stack.below) && Sound(stack.below.below);
    PopThree(stack);
  }

  lemma PairsAreGrouped(c: Config, header: Stack, open: int, items: seq<Item>, close: int)
    requires Ready(c) && Top(header) == 7 && header.sem == Leaf(Mark(open))
    requires c.stack == WithBrace(header, items, close)
    ensures var d := Config(Push(header.below, 11, Group(open, ChainOf(items))), c.tokens, c.tags);
            Ready(d) && Run(c) == Run(d)
  {
    if items == [] {
      NoPairsAction(c.stack, c.tags);
    } else {
      PairsAction(c.stack, c.tags);
    }
    RunReduce(c);
  }

  lemma DictIsBuilt(c: Config, open: int, items: seq<Item>)
    requires Ready(c) && c.stack.Push? && c.stack.state == 11 && AllKeyed(items)
    requires c.stack.sem == Group(open, ChainOf(items))
    ensures var v := Dict(BuiltDict(items));
            var d := Config(Push(c.stack.below, ObjectState(Top(c.stack.below)), Object(v)), c.tokens,
                Remember(c.tags, open, v));
            Ready(d) && Run(c) == Run(d)
  {
    RunReduce(c);
    ReversalRestoresOrder(items);
    ObjectLands(c.stack, Object(Dict(BuiltDict(items))));
  }

  /** A closing brace turns the header and its pairs into a dictionary. */
  lemma PairsClose(c: Config, header: Stack, open: int, items: seq<Item>, close: int, rest: seq<Token>)
    requires Ready(c) && Top(header) == 7 && header.sem == Leaf(Mark(open)) && AllKeyed(items)
    requires c.stack == WithPairs(header, items) && c.tokens == [Token(125, Mark(close))] + rest
    ensures Height(c.stack) + 1 >= YYMAXDEPTH ==> Run(c) == Rejected
    ensures Height(c.stack) + 1 < YYMAXDEPTH ==>
              var v := Dict(BuiltDict(items));
              var d := Config(Push(header.below, ObjectState(Top(header.below)), Object(v)), rest,
                  Remember(c.tags, open, v));
              Ready(d) && Run(c) == Run(d)
  {
    BraceShift(0);
    assert c.tokens[1..] == rest;
    var closing := WithBrace(header, items, close);
    RunShift(c, closing.state);
    if Height(c.stack) + 1 < YYMAXDEPTH {
      PairsAreGrouped(Config(closing, rest, c.tags), header, open, items, close);
      DictIsBuilt(Config(Push(header.below, 11, Group(open, ChainOf(items))), rest, c.tags), open, items);
    }
  }

  // ----- whole trees -----

  /** What parsing an object comes to: it fails if the stack has no room for `need` more states or
      an id is used too early, and else goes on as if the object stood in place of its tokens. */
  predicate Yields(c: Config, need: nat, e: Option<(Value, Tags)>, rest: seq<Token>)
    requires Ready(c)
  {
    if Height(c.stack) + need >= YYMAXDEPTH || e.None? then Run(c) == Rejected
    else
      var d := WithObject(c, rest, e.value.0, e.value.1);
      Ready(d) && Run(c) == Run(d)
  }

  /** The tables driven by yyparse accept every tree, in any context an object may stand in, and
      compute its meaning. */
  lemma {:induction false} TreeIsParsed(t: Tree, c: Config, rest: seq<Token>)
    requires WellFormed(t) && Ready(c) && BeforeObject(Top(c.stack)) && c.tokens == Tokens(t) + rest
    ensures Yields(c, Peak(t), Eval(t, c.tags), rest)
    decreases t, 2
  {
    match t
    case Atom(token) => AtomIsParsed(token, c, rest);
    case Listing(isSet, open, elems, close) => ListIsParsed(isSet, open, elems, close, c, rest);
    case Pairing(open, pairs, close) => DictIsParsed(open, pairs, close, c, rest);
  }

  lemma {:induction false} ListIsParsed(isSet: bool, open: int, elems: seq<Tree>, close: int, c: Config,
      rest: seq<Token>)
    requires AllWellFormed(elems) && Ready(c) && BeforeObject(Top(c.stack))
    requires c.tokens == Tokens(Listing(isSet, open, elems, close)) + rest
    ensures Yields(c, Peak(Listing(isSet, open, elems, close)), Eval(Listing(isSet, open, elems, close), c.tags), rest)
    decreases elems, 1
  {
    var end := [CloseToken(isSet, close)] + rest;
    Assoc([OpenToken(isSet, open)], TokensAll(elems) + [CloseToken(isSet, close)], rest);
    Assoc(TokensAll(elems), [CloseToken(isSet, close)], rest);
    OpenShift(Top(c.stack), isSet, open);
    RunShift(c, OpenState(isSet));
    assert c.tokens[1..] == TokensAll(elems) + end;
    if Height(c.stack) + 1 < YYMAXDEPTH {
      var header := Push(c.stack, OpenState(isSet), Leaf(Mark(open)));
      ElementsAreParsed(elems, isSet, Config(header, TokensAll(elems) + end, c.tags), end);
      if Height(header) + PeakAll(elems) < YYMAXDEPTH && EvalAll(elems, c.tags).Some? {
        var (items, tags) := EvalAll(elems, c.tags).value;
        ListCloses(Config(WithElements(header, isSet, items), end, tags), header, isSet, open, items, close, rest);
      }
    }
  }

  /** The same for the elements of a list, read on top of its header. */
  predicate YieldsElements(c: Config, header: Stack, isSet: bool, need: nat, e: Option<(seq<Item>, Tags)>,
      rest: seq<Token>)
    requires Ready(c)
  {
    if Height(header) + need >= YYMAXDEPTH || e.None? then Run(c) == Rejected
    else
      var d := Config(WithElements(header, isSet, e.value.0), rest, e.value.1);
      Ready(d) && Run(c) == Run(d)
  }

  lemma {:induction false} ElementsAreParsed(ts: seq<Tree>, isSet: bool, c: Config, rest: seq<Token>)
    requires AllWellFormed(ts) && Ready(c) && Opened(c.stack, isSet) && c.tokens == TokensAll(ts) + rest
    ensures YieldsElements(c, c.stack, isSet, PeakAll(ts), EvalAll(ts, c.tags), rest)
    decreases ts, 0
  {
    if ts == [] {
      assert c.tokens == rest;
    } else {
      var front, last := ts[..|ts| - 1], ts[|ts| - 1];
      Assoc(TokensAll(front), Tokens(last), rest);
      ElementsAreParsed(front, isSet, c, Tokens(last) + rest);
      var e := EvalAll(front, c.tags);
      if Height(c.stack) + PeakAll(front) < YYMAXDEPTH && e.Some? {
        NextElement(last, isSet, c.stack, e.value.0,
                    Config(WithElements(c.stack, isSet, e.value.0), Tokens(last) + rest, e.value.1), rest);
      }
    }
  }

  lemma {:induction false} NextElement(t: Tree, isSet: bool, header: Stack, items: seq<Item>, c: Config,
      rest: seq<Token>)
    requires WellFormed(t) && Ready(c) && Opened(header, isSet)
    requires c.stack == WithElements(header, isSet, items) && c.tokens == Tokens(t) + rest
    ensures Height(c.stack) + Peak(t) >= YYMAXDEPTH || Eval(t, c.tags).None? ==> Run(c) == Rejected
    ensures Height(c.stack) + Peak(t) < YYMAXDEPTH && Eval(t, c.tags).Some? ==>
              var i := Item(None, Eval(t, c.tags).value.0);
              var d := Config(WithElements(header, isSet, items + [i]), rest, Eval(t, c.tags).value.1);
              Ready(d) && Run(c) == Run(d)
    decreases t, 3
  {
    TreeIsParsed(t, c, rest);
    if Height(c.stack) + Peak(t) < YYMAXDEPTH && Eval(t, c.tags).Some? {
      var (v, tags) := Eval(t, c.tags).value;
      ElementJoins(WithObject(c, rest, v, tags), header, isSet, items, v);
    }
  }

  /** The opening brace goes on the stack. */
  lemma BraceIsShifted(open: int, pairs: seq<Pair>, close: int, c: Config, rest: seq<Token>)
    requires Ready(c) && BeforeObject(Top(c.stack)) && c.tokens == Tokens(Pairing(open, pairs, close)) + rest
    ensures Height(c.stack) + 1 >= YYMAXDEPTH ==> Run(c) == Rejected
    ensures Height(c.stack) + 1 < YYMAXDEPTH ==>
              var d := Config(Push(c.stack, 7, Leaf(Mark(open))),
                              TokensPairs(pairs) + ([Token(125, Mark(close))] + rest), c.tags);
              Ready(d) && Run(c) == Run(d)
  {
    var closing := Token(125, Mark(close));
    Assoc([Token(123, Mark(open))], TokensPairs(pairs) + [closing], rest);
    Assoc(TokensPairs(pairs), [closing], rest);
    BraceShift(Top(c.stack));
    RunShift(c, 7);
    assert c.tokens[1..] == TokensPairs(pairs) + ([closing] + rest);
  }

  lemma {:induction false} DictIsParsed(open: int, pairs: seq<Pair>, close: int, c: Config, rest: seq<Token>)
    requires PairsWellFormed(pairs) && Ready(c) && BeforeObject(Top(c.stack))
    requires c.tokens == Tokens(Pairing(open, pairs, close)) + rest
    ensures Yields(c, Peak(Pairing(open, pairs, close)), Eval(Pairing(open, pairs, close), c.tags), rest)
    decreases pairs, 1
  {
    var end := [Token(125, Mark(close))] + rest;
    BraceIsShifted(open, pairs, close, c, rest);
    if Height(c.stack) + 1 < YYMAXDEPTH {
      var header := Push(c.stack, 7, Leaf(Mark(open)));
      PairsAreParsed(pairs, Config(header, TokensPairs(pairs) + end, c.tags), end);
      if Height(header) + PeakPairs(pairs) < YYMAXDEPTH && EvalPairs(pairs, c.tags).Some? {
        var (items, tags) := EvalPairs(pairs, c.tags).value;
        PairsClose(Config(WithPairs(header, items), end, tags), header, open, items, close, rest);
      }
    }
  }

  predicate YieldsPairs(c: Config, header: Stack, need: nat, e: Option<(seq<Item>, Tags)>, rest: seq<Token>)
    requires Ready(c)
  {
    if Height(header) + need >= YYMAXDEPTH || e.None? then Run(c) == Rejected
    else
      var d := Config(WithPairs(header, e.value.0), rest, e.value.1);
      Ready(d) && Run(c) == Run(d)
  }

  lemma {:induction false} PairsAreParsed(ps: seq<Pair>, c: Config, rest: seq<Token>)
    requires PairsWellFormed(ps) && Ready(c) && Top(c.stack) == 7 && c.tokens == TokensPairs(ps) + rest
    ensures YieldsPairs(c, c.stack, PeakPairs(ps), EvalPairs(ps, c.tags), rest)
    decreases ps, 0
  {
    if ps == [] {
      assert c.tokens == rest;
    } else {
      var front, last := ps[..|ps| - 1], ps[|ps| - 1];
      Assoc(TokensPairs(front), TokensPair(last), rest);
      PairsAreParsed(front, c, TokensPair(last) + rest);
      var e := EvalPairs(front, c.tags);
      if Height(c.stack) + PeakPairs(front) < YYMAXDEPTH && e.Some? {
        NextPair(last, c.stack, e.value.0,
                 Config(WithPairs(c.stack, e.value.0), TokensPair(last) + rest, e.value.1), rest);
      }
    }
  }

  lemma {:induction false} NextPair(p: Pair, header: Stack, items: seq<Item>, c: Config, rest: seq<Token>)
    requires WellFormed(p.value) && Ready(c) && Top(header) == 7
    requires c.stack == WithPairs(header, items) && c.tokens == TokensPair(p) + rest
    ensures var e := Eval(p.value, Remember(c.tags, p.id, Str(p.key)));
            if Height(c.stack) + 1 + Peak(p.value) >= YYMAXDEPTH || e.None? then Run(c) == Rejected
            else
              var d := Config(WithPairs(header, items + [Item(Some(p.key), e.value.0)]), rest, e.value.1);
              Ready(d) && Run(c) == Run(d)
    decreases p, 3
  {
    var key := Token(KEY, Text(p.id, p.key));
    Assoc([key], Tokens(p.value), rest);
    KeyIsParsed(c, p.id, p.key, Tokens(p.value) + rest);
    if Height(c.stack) + 1 < YYMAXDEPTH {
      var d := Config(Push(c.stack, 23, Object(Str(p.key))), Tokens(p.value) + rest,
          Remember(c.tags, p.id, Str(p.key)));
      TreeIsParsed(p.value, d, rest);
      var e := Eval(p.value, d.tags);
      if Height(d.stack) + Peak(p.value) < YYMAXDEPTH && e.Some? {
        PairJoins(WithObject(d, rest, e.value.0, e.value.1), header, items, p.key, e.value.0);
      }
    }
  }

  /** A tree at the start of the input: its meaning is the result, and what follows is not read. */
  lemma InputIsParsed(t: Tree, rest: seq<Token>)
    requires WellFormed(t) && AllFit(Tokens(t) + rest)
    ensures var e := Eval(t, map[]);
            Run(Config(Bottom, Tokens(t) + rest, map[]))
            == if 1 + Peak(t) >= YYMAXDEPTH || e.None? then Rejected else Accepted(Some(e.value.0))
  {
    var c := Config(Bottom, Tokens(t) + rest, map[]);
    TreeIsParsed(t, c, rest);
  }
}
