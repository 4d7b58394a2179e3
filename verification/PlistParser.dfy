/** The parser as it runs: state and value stacks, the pool of objects, and the main loop. */
module PlistParser {
  import opened Basics
  import opened PlistText
  import opened PlistValues
  import opened PlistLexer
  import opened PlistTables
  import opened PlistGrammar
  import opened PlistParsing
  import opened PlistReader
  import opened PlistPool

  const YYINITDEPTH: nat := 200

  function States(stack: Stack): seq<nat> {
    if stack.Bottom? then [0] else States(stack.below) + [stack.state]
  }

  lemma {:induction false} StatesOfStack(stack: Stack)
    ensures |States(stack)| == Height(stack) && States(stack)[|States(stack)| - 1] == Top(stack)
  {
    if stack.Push? { StatesOfStack(stack.below); }
  }

  // ----- the value stack -----

  /** Slot by slot, the value stack `hs` and the cells `nodes` stand for the semantic values of a
      stack; each slot owns its cells. */
  predicate Rep(cells: seq<Node>, owner: seq<int>, hs: seq<nat>, nodes: seq<seq<nat>>, stack: Stack)
    decreases stack
  {
    match stack
    case Bottom => |owner| == |cells| && hs == [] && nodes == []
    case Push(below, _, sem) =>
      && |owner| == |cells| && |nodes| == |hs| > 0
      && Rep(cells, owner, hs[..|hs| - 1], nodes[..|hs| - 1], below)
      && Holds(cells, nodes[|hs| - 1], hs[|hs| - 1], sem)
      && Owned(owner, nodes[|hs| - 1], |hs| - 1)
  }

  /** No slot owns anything else. */
  predicate Tight(owner: seq<int>, nodes: seq<seq<nat>>) {
    forall c :: 0 <= c < |owner| && owner[c] >= 0 ==> owner[c] < |nodes| && c in nodes[owner[c]]
  }

  /** What the slots below `k` own is as it was. */
  predicate Kept(before: seq<Node>, was: seq<int>, cells: seq<Node>, owner: seq<int>, k: nat)
    requires |before| == |was| && |cells| == |owner|
  {
    forall c :: 0 <= c < |was| && 0 <= was[c] < k ==> c < |cells| && cells[c] == before[c] && owner[c] == was[c]
  }

  lemma HoldsFrame(cells: seq<Node>, cells': seq<Node>, ns: seq<nat>, h: nat, sem: Sem)
    requires Holds(cells, ns, h, sem) && |cells'| >= |cells|
    requires forall i :: 0 <= i < |ns| ==> ns[i] < |cells| && cells'[ns[i]] == cells[ns[i]]
    ensures Holds(cells', ns, h, sem)
  {
    assert cells'[ns[0]] == cells[ns[0]];
    if sem.Group? {
      assert forall i :: 0 <= i < |ns[1..]| ==> ns[1..][i] == ns[i + 1];
      ListedFrame(cells, cells', ns[1..], NewestFirst(sem.chain));
    } else if sem.Chained? {
      ListedFrame(cells, cells', ns, NewestFirst(sem.items));
    }
  }

  lemma {:induction false} RepFrame(before: seq<Node>, was: seq<int>, cells: seq<Node>, owner: seq<int>,
                                    hs: seq<nat>, nodes: seq<seq<nat>>, stack: Stack)
    requires Rep(before, was, hs, nodes, stack) && |cells| == |owner| && |cells| >= |before|
    requires Kept(before, was, cells, owner, |hs|)
    ensures Rep(cells, owner, hs, nodes, stack)
    decreases stack
  {
    if stack.Push? {
      var n := |hs| - 1;
      RepFrame(before, was, cells, owner, hs[..n], nodes[..n], stack.below);
      HoldsFrame(before, cells, nodes[n], hs[n], stack.sem);
    }
  }

  lemma {:induction false} RepPop(cells: seq<Node>, owner: seq<int>, hs: seq<nat>, nodes: seq<seq<nat>>,
      stack: Stack, n: nat)
    requires Rep(cells, owner, hs, nodes, stack) && n <= |hs|
    ensures Rep(cells, owner, hs[..|hs| - n], nodes[..|hs| - n], Pop(stack, n))
    decreases stack
  {
    if n == 0 || stack.Bottom? {
      assert hs[..|hs|] == hs && nodes[..|hs|] == nodes;
    } else {
      var m := |hs| - 1;
      RepPop(cells, owner, hs[..m], nodes[..m], stack.below, n - 1);
      assert hs[..m][..m - (n - 1)] == hs[..|hs| - n] && nodes[..m][..m - (n - 1)] == nodes[..|hs| - n];
    }
  }

  lemma {:induction false} RepHeight(cells: seq<Node>, owner: seq<int>, hs: seq<nat>, nodes: seq<seq<nat>>,
      stack: Stack)
    requires Rep(cells, owner, hs, nodes, stack)
    ensures Height(stack) == |hs| + 1
    decreases stack
  {
    if stack.Push? {
      RepHeight(cells, owner, hs[..|hs| - 1], nodes[..|hs| - 1], stack.below);
    }
  }

  lemma SameSize(cells: seq<Node>, owner: seq<int>, hs: seq<nat>, nodes: seq<seq<nat>>, stack: Stack)
    requires Rep(cells, owner, hs, nodes, stack)
    ensures |hs| == |nodes| && |cells| == |owner|
  {
  }

  /** The slot at `i` from the top. */
  predicate Slot(cells: seq<Node>, owner: seq<int>, hs: seq<nat>, nodes: seq<seq<nat>>, i: nat, sem: Sem)
    requires |owner| == |cells|
  {
    && i < |hs| == |nodes| && Holds(cells, nodes[|hs| - 1 - i], hs[|hs| - 1 - i], sem)
    && Owned(owner, nodes[|hs| - 1 - i], |hs| - 1 - i)
  }

  lemma RepTop(cells: seq<Node>, owner: seq<int>, hs: seq<nat>, nodes: seq<seq<nat>>, stack: Stack)
    requires Rep(cells, owner, hs, nodes, stack)
    ensures stack.Push? ==> Slot(cells, owner, hs, nodes, 0, stack.sem)
  {
  }

  lemma RepSecond(cells: seq<Node>, owner: seq<int>, hs: seq<nat>, nodes: seq<seq<nat>>, stack: Stack)
    requires Rep(cells, owner, hs, nodes, stack) && stack.Push? && stack.below.Push?
    ensures Slot(cells, owner, hs, nodes, 1, stack.below.sem)
  {
    RepTop(cells, owner, hs[..|hs| - 1], nodes[..|hs| - 1], stack.below);
  }

  lemma RepThird(cells: seq<Node>, owner: seq<int>, hs: seq<nat>, nodes: seq<seq<nat>>, stack: Stack)
    requires Rep(cells, owner, hs, nodes, stack) && stack.Push? && stack.below.Push? && stack.below.below.Push?
    ensures Slot(cells, owner, hs, nodes, 2, stack.below.below.sem)
  {
    RepSecond(cells, owner, hs[..|hs| - 1], nodes[..|hs| - 1], stack.below);
  }

  // ----- what the actions make of the top slots -----

  lemma NothingMeans(rule: nat, stack: Stack, tags: Tags)
    requires Sound(stack) && stack.Push? && rule == YyDefact(stack.state) && rule in {12, 18, 20}
    ensures stack.sem.Leaf? && stack.sem.load.Mark? && stack.below.Push? && stack.below.sem.Leaf?
      && stack.below.sem.load.Mark?
    ensures Action(rule, stack, tags) == Done(Group(stack.below.sem.load.idref, Nil), tags)
  {
  }

  lemma GroupMeans(rule: nat, stack: Stack, tags: Tags)
    requires Sound(stack) && stack.Push? && rule == YyDefact(stack.state) && rule in {13, 19, 21}
    ensures stack.sem.Leaf? && stack.sem.load.Mark? && stack.below.Push? && stack.below.sem.Chained?
    ensures stack.below.below.Push? && stack.below.below.sem.Leaf? && stack.below.below.sem.load.Mark?
    ensures Action(rule, stack, tags) == Done(Group(stack.below.below.sem.load.idref, stack.below.sem.items), tags)
  {
    assert Sound(stack.below) && Sound(stack.below.below);
  }

  lemma LinkMeans(rule: nat, stack: Stack, tags: Tags)
    requires Sound(stack) && stack.Push? && rule == YyDefact(stack.state) && (rule == 15 || rule == 23)
    ensures stack.below.Push? && stack.below.sem.Chained?
    ensures rule == 15 ==> stack.sem.Chained? && stack.sem.items.Link? && stack.sem.items.next.Nil?
    ensures rule == 15 ==>
      Action(rule, stack, tags) == Done(Chained(Link(stack.sem.items.item, stack.below.sem.items)), tags)
    ensures rule == 23 ==> stack.sem.Object?
    ensures rule == 23 ==>
      Action(rule, stack, tags) == Done(Chained(Link(Item(None, stack.sem.value), stack.below.sem.items)), tags)
  {
    assert Sound(stack.below);
  }

  lemma PairMeans(stack: Stack, tags: Tags)
    requires Sound(stack) && stack.Push? && YyDefact(stack.state) == 16
    ensures stack.sem.Object? && stack.below.Push? && stack.below.sem.Object? && stack.below.sem.value.Str?
    ensures Action(16, stack, tags)
            == Done(Chained(Link(Item(Some(stack.below.sem.value.text), stack.sem.value), Nil)), tags)
  {
    assert Sound(stack.below);
  }

  lemma DefaultMeans(rule: nat, stack: Stack, tags: Tags)
    requires Sound(stack) && stack.Push? && rule == YyDefact(stack.state) && (rule == 14 || 24 <= rule <= 28)
    ensures Action(rule, stack, tags) == Done(stack.sem, tags) && Width(stack.state) == 1
  {
  }

  /** Which rules take how many symbols. */
  lemma WidthsOfRules(s: nat)
    requires Reduces(s)
    ensures 4 <= YyDefact(s) <= 28
    ensures YyDefact(s) <= 11 || YyDefact(s) == 14 || YyDefact(s) in {17, 22} || YyDefact(s) > 23 ==> Width(s) == 1
    ensures YyDefact(s) in {15, 16, 23} ==> Width(s) == 2
  {
  }

  lemma ElementMeans(stack: Stack, tags: Tags)
    requires Sound(stack) && stack.Push? && YyDefact(stack.state) == 22
    ensures stack.sem.Object? && Action(22, stack, tags) == Done(Chained(Link(Item(None, stack.sem.value), Nil)), tags)
  {
  }

  lemma ContainerMeans(rule: nat, stack: Stack, tags: Tags)
    requires Sound(stack) && stack.Push? && rule == YyDefact(stack.state) && rule in {4, 5, 6}
    ensures stack.sem.Group? && (rule == 4 ==> Keyed(stack.sem.chain))
    ensures var items := OldestFirst(stack.sem.chain);
            Action(rule, stack, tags) ==
            if rule == 4 then (KeyedItems(stack.sem.chain);
                               Done(Object(Dict(BuiltDict(items))),
                                   Remember(tags, stack.sem.idref, Dict(BuiltDict(items)))))
            else if rule == 5 then Done(Object(Array(Values(items))),
                Remember(tags, stack.sem.idref, Array(Values(items))))
            else Done(Object(Set(BuiltSet(items))), Remember(tags, stack.sem.idref, Set(BuiltSet(items))))
  {
  }

  /** The slots from `k` on have become one slot with the cells `ns`; other cells are in no slot. */
  predicate Swapped(before: seq<Node>, was: seq<int>, cells: seq<Node>, owner: seq<int>, k: nat, ns: seq<nat>) {
    && |before| == |was| && |cells| == |owner| && |cells| >= |before|
    && Kept(before, was, cells, owner, k) && Owned(owner, ns, k)
    && forall c :: 0 <= c < |owner| && owner[c] >= 0 ==> (owner[c] == k && c in ns) || (c < |was| && 0 <= was[c] < k)
  }

  lemma SwapGroup(before: seq<Node>, was: seq<int>, cells: seq<Node>, owner: seq<int>, nodes: seq<seq<nat>>,
                  k: nat, header: nat, list: seq<nat>, close: nat)
    requires k <= |nodes| && Tight(was, nodes) && nodes == nodes[..k] + [[header], list, [close]]
    requires |before| == |was| == |cells| == |owner| && header < |was| && was[header] == k && Owned(was, list, k + 1)
      && close < |was| && was[close] == k + 2
    requires forall c :: 0 <= c < |cells| && c != header ==> cells[c] == before[c]
    requires forall c :: 0 <= c < |owner| ==> owner[c] == if c == close then LOOSE else if c in list then k else was[c]
    ensures Swapped(before, was, cells, owner, k, [header] + list)
  {
    var ns := [header] + list;
    forall i | 0 <= i < |ns| ensures ns[i] < |owner| && owner[ns[i]] == k {
      if i > 0 { assert ns[i] == list[i - 1] && list[i - 1] in list; }
    }
    forall c | 0 <= c < |owner| && owner[c] >= 0 ensures (owner[c] == k && c in ns) || (c < |was| && 0 <= was[c] < k) {
      if c in list {
        assert c in ns;
      } else {
        assert nodes[k] == [header] && nodes[k + 1] == list && nodes[k + 2] == [close];
      }
    }
  }

  lemma SwapNothing(before: seq<Node>, was: seq<int>, cells: seq<Node>, owner: seq<int>, nodes: seq<seq<nat>>,
                    k: nat, header: nat, close: nat)
    requires k <= |nodes| && Tight(was, nodes) && nodes == nodes[..k] + [[header], [close]]
    requires |before| == |was| == |cells| == |owner| && header < |was| && was[header] == k && close < |was|
      && was[close] == k + 1
    requires forall c :: 0 <= c < |cells| && c != header && c != close ==> cells[c] == before[c]
    requires forall c :: 0 <= c < |owner| && c != close ==> owner[c] == was[c]
    requires owner[close] < 0
    ensures Swapped(before, was, cells, owner, k, [header])
  {
    assert nodes[k] == [header] && nodes[k + 1] == [close];
  }

  lemma SwapLink(before: seq<Node>, was: seq<int>, cells: seq<Node>, owner: seq<int>, nodes: seq<seq<nat>>,
                 k: nat, t: nat, list: seq<nat>)
    requires k <= |nodes| && Tight(was, nodes) && nodes == nodes[..k] + [list, [t]]
    requires |before| == |was| == |cells| == |owner| && t < |was| && was[t] == k + 1 && Owned(was, list, k)
    requires forall c :: 0 <= c < |cells| && c != t ==> cells[c] == before[c]
    requires owner == was[t := k]
    ensures Swapped(before, was, cells, owner, k, [t] + list)
  {
    var ns := [t] + list;
    forall c | 0 <= c < |owner| && owner[c] >= 0 ensures (owner[c] == k && c in ns) || (c < |was| && 0 <= was[c] < k) {
      assert nodes[k] == list && nodes[k + 1] == [t];
    }
  }

  lemma SwapBuilt(before: seq<Node>, was: seq<int>, cells: seq<Node>, owner: seq<int>, nodes: seq<seq<nat>>,
                  k: nat, h: nat, ns: seq<nat>, v: Value)
    requires k <= |nodes| && Tight(was, nodes) && nodes == nodes[..k] + [ns] && ns != [] && ns[0] == h
    requires Owned(was, ns, k) && Built(before, was, cells, owner, h, ns, k, v)
    ensures Swapped(before, was, cells, owner, k, [h])
  {
    assert nodes[k] == ns;
    assert forall i :: 1 <= i < |ns| ==> ns[1..][i - 1] == ns[i];
  }

  lemma SwapLeaf(before: seq<Node>, was: seq<int>, cells: seq<Node>, owner: seq<int>, nodes: seq<seq<nat>>,
                 k: nat, h: nat, cell: Node)
    requires k <= |nodes| && Tight(was, nodes) && nodes == nodes[..k] + [[h]]
    requires |before| == |was| && h < |was| && was[h] == k && cells == before[h := cell] && owner == was[h := k]
    ensures Swapped(before, was, cells, owner, k, [h])
  {
    assert nodes[k] == [h];
  }

  /** A slot of one cell carries that item. */
  lemma OneItem(cells: seq<Node>, ns: seq<nat>, h: nat, sem: Sem, item: Item)
    requires Holds(cells, ns, h, sem)
    requires (sem.Object? && item == Item(None, sem.value)) || (sem.Chained? && sem.items == Link(item, Nil))
    ensures Carries(cells[h], item) && ns == [h]
  {
    if sem.Chained? {
      assert NewestFirst(sem.items) == [item] + NewestFirst(Nil);
    }
  }

  lemma PushRep(before: seq<Node>, was: seq<int>, cells: seq<Node>, owner: seq<int>, hs: seq<nat>, nodes: seq<seq<nat>>,
                stack: Stack, n: nat, h: nat, ns: seq<nat>, state: nat, sem: Sem)
    requires Rep(before, was, hs, nodes, stack) && Tight(was, nodes) && n <= |hs|
    requires Swapped(before, was, cells, owner, |hs| - n, ns) && Holds(cells, ns, h, sem)
    ensures |nodes| == |hs|
    ensures Rep(cells, owner, hs[..|hs| - n] + [h], nodes[..|hs| - n] + [ns], Push(Pop(stack, n), state, sem))
    ensures Tight(owner, nodes[..|hs| - n] + [ns])
  {
    var k := |hs| - n;
    RepPop(before, was, hs, nodes, stack, n);
    RepFrame(before, was, cells, owner, hs[..k], nodes[..k], Pop(stack, n));
    assert (hs[..k] + [h])[..k] == hs[..k] && (nodes[..k] + [ns])[..k] == nodes[..k];
  }

  /** The same for the stacks that result, whatever they are called. */
  lemma NewRep(before: seq<Node>, was: seq<int>, cells: seq<Node>, owner: seq<int>, hs: seq<nat>, nodes: seq<seq<nat>>,
               stack: Stack, n: nat, h: nat, ns: seq<nat>, state: nat, sem: Sem,
               hs': seq<nat>, nodes': seq<seq<nat>>, stack': Stack)
    requires Rep(before, was, hs, nodes, stack) && Tight(was, nodes) && n <= |hs| == |nodes|
    requires Swapped(before, was, cells, owner, |hs| - n, ns) && Holds(cells, ns, h, sem)
    requires hs' == hs[..|hs| - n] + [h] && nodes' == nodes[..|hs| - n] + [ns]
    requires stack' == Push(Pop(stack, n), state, sem)
    ensures Rep(cells, owner, hs', nodes', stack') && Tight(owner, nodes')
  {
    PushRep(before, was, cells, owner, hs, nodes, stack, n, h, ns, state, sem);
  }

  // ----- the state stack -----

  lemma {:induction false} StatesPop(stack: Stack, n: nat)
    requires n < Height(stack)
    ensures n < |States(stack)| && States(Pop(stack, n)) == States(stack)[..|States(stack)| - n]
  {
    StatesOfStack(stack);
    if n > 0 {
      StatesPop(stack.below, n - 1);
      var s := States(stack.below);
      assert States(stack)[..|s|] == s;
      assert s[..|s| - (n - 1)] == States(stack)[..|s| - (n - 1)];
    } else {
      assert States(stack)[..|States(stack)|] == States(stack);
    }
  }

  /** The state that is uncovered when the symbols of a rule are taken off. */
  lemma Uncovered(stack: Stack, states: seq<nat>)
    requires Sound(stack) && Reduces(Top(stack)) && states == States(stack)
    ensures var n := Width(stack.state);
            && n < |states| == Height(stack) && states[|states| - 1 - n] == Top(Pop(stack, n))
            && States(Pop(stack, n)) == states[..|states| - n]
  {
    BaseState(stack);
    StatesPop(stack, Width(stack.state));
    StatesOfStack(stack);
    StatesOfStack(Pop(stack, Width(stack.state)));
  }

  /** What a reduction by a rule of length `n` does to the state stack. */
  lemma ReplacedFacts(stack: Stack, states: seq<nat>, tags: Tags, d: Done, rule: nat, n: int, target: Stack)
    requires Sound(stack) && Reduces(Top(stack)) && rule == YyDefact(stack.state) && n == YyR2(rule)
    requires states == States(stack) && d == Action(rule, stack, tags) && (d.Done? ==> target == Replaced(stack, d.sem))
    ensures 0 <= n == Width(stack.state) < |states| == Height(stack) && Goto(states[|states| - 1 - n], rule) >= 0
    ensures d.Done? ==>
      && Sound(target) && target == Push(Pop(stack, n), Goto(states[|states| - 1 - n], rule) as nat, d.sem)
      && States(target) == states[..|states| - n] + [target.state]
  {
    ReducesIff(stack.state);
    Uncovered(stack, states);
    BaseState(stack);
    GotoLands(stack);
    var p := Top(Pop(stack, n));
    GotoTable(p, stack.state);
    ActionSuits(stack, tags, p);
  }

  lemma ShiftedFacts(stack: Stack, token: Token, state: nat)
    requires Sound(stack) && Fits(token) && Looks(Top(stack))
    requires Decide(Top(stack), YyTranslate(token.code)) == Shift(state)
    ensures Sound(Push(stack, state, Leaf(token.load))) && Pop(stack, 0) == stack && |States(stack)| > 0
    ensures States(Push(stack, state, Leaf(token.load))) == States(stack)[..|States(stack)| - 0] + [state]
  {
    ShiftSuits(Top(stack), token);
    StatesOfStack(stack);
  }

  /** Nothing but the first rule is ever reduced with a token in sight, and that one without
      looking at it. */
  lemma DecisionsMade(s: nat, token: Token)
    requires Looks(s)
    ensures var d := Decide(s, YyTranslate(token.code));
            && !d.Accept? && (d.Reduce? ==> d.rule == 1) && (d.Shift? ==> token.code != YYEOF)
  {
  }

  /** The result is the only slot left when the parser accepts. */
  lemma OnlySlot(cells: seq<Node>, owner: seq<int>, hs: seq<nat>, nodes: seq<seq<nat>>, stack: Stack)
    requires Rep(cells, owner, hs, nodes, stack) && Sound(stack) && Top(stack) == 10 && Tight(owner, nodes)
    ensures |hs| == 1 && nodes == [[hs[0]]] && stack.sem.Object? && HoldsObject(cells[hs[0]], stack.sem.value)
    ensures forall c :: 0 <= c < |owner| && owner[c] >= 0 ==> c == hs[0]
  {
    assert Sound(stack.below) && stack.below == Bottom;
    assert nodes[0] == [hs[0]];
  }

  lemma SwapFresh(before: seq<Node>, was: seq<int>, cells: seq<Node>, owner: seq<int>, nodes: seq<seq<nat>>, o: nat)
    requires |before| == |was| && |cells| == |owner| && |cells| >= |before| && Tight(was, nodes)
    requires o < |cells| && owner[o] == |nodes| && (o >= |before| || was[o] < 0) && |cells| <= |before| + 1
    requires |cells| > |before| ==> o == |before|
    requires forall c :: 0 <= c < |before| && c != o ==> cells[c] == before[c] && owner[c] == was[c]
    ensures Swapped(before, was, cells, owner, |nodes|, [o])
  {
  }

  /** The tokens to come, one by one. */
  lemma NextToken(s: string)
    ensures LexAll(s) == if Lex(s).token.code == YYEOF then []
                         else if Lex(s).token.code == SYNTAX_ERROR then [Lex(s).token]
                         else [Lex(s).token] + LexAll(Lex(s).rest)
  {
  }

  /** What the token in sight decides about the run. */
  lemma TokenDecides(c: Config, text: string, token: Token)
    requires Ready(c) && Looks(Top(c.stack)) && c.tokens == LexAll(text) && token == Lex(text).token
    ensures var d := Decide(Top(c.stack), YyTranslate(token.code));
            && !d.Accept? && (d.Reduce? ==> Run(c) == Accepted(None)) && (d.Error? ==> Run(c) == Rejected)
            && (d.Shift? ==> c.tokens != [] && token == c.tokens[0])
            && (d.Shift? && d.state != 6 ==>
                  token.code != SYNTAX_ERROR && c.tokens[1..] == LexAll(Lex(text).rest))
  {
    NextToken(text);
    EveryState(c.stack);
    DecisionsMade(Top(c.stack), token);
  }

  /** What the top state says about the run: the parser looks, reduces, or ends in one of two states. */
  lemma TopDecides(c: Config, states: seq<nat>)
    requires Ready(c) && states == States(c.stack)
    ensures |states| == Height(c.stack) && states[|states| - 1] == Top(c.stack)
    ensures Looks(Top(c.stack)) || Reduces(Top(c.stack)) || Top(c.stack) in {6, 10}
    ensures Looks(Top(c.stack)) <==> YyPact(Top(c.stack)) != YYFLAG
    ensures Top(c.stack) == 6 ==> Run(c) == Rejected
    ensures Top(c.stack) == 10 ==> c.stack.sem.Object? && Run(c) == Accepted(Some(c.stack.sem.value))
  {
    EveryState(c.stack);
    StatesOfStack(c.stack);
  }

  class Parser {
    const reader: Reader
    const pool: Pool
    var yyss: seq<nat>
    var yyvs: seq<nat>
    var yystacksize: nat
    var tags: Tags
    /** The cells of every slot, and the stack of states and semantic values they stand for. */
    ghost var nodes: seq<seq<nat>>
    ghost var stack: Stack

    /** The value stack and the pool stand for the semantic values of the stack. */
    ghost predicate Stacked()
      reads this, pool
    {
      Stands(yyvs, nodes, stack)
    }

    ghost predicate Stands(values: seq<nat>, cells: seq<seq<nat>>, target: Stack)
      reads pool
    {
      pool.Valid() && Rep(pool.cells, pool.owner, values, cells, target) && Tight(pool.owner, cells)
    }

    ghost predicate Valid()
      reads this, pool
    {
      Stacked() && Sound(stack) && yyss == States(stack) && |yyss| <= yystacksize <= YYMAXDEPTH
    }

    constructor (buffer: string)
      ensures Valid() && fresh(pool) && fresh(reader) && reader.Rest() == buffer
      ensures stack == Bottom && tags == map[] && yystacksize == YYINITDEPTH
    {
      reader := new Reader(buffer);
      pool := new Pool();
      yyss, yyvs, yystacksize, tags := [0], [], YYINITDEPTH, map[];
      nodes, stack := [], Bottom;
    }

    /** After an action: one slot stands for `sem`, in place of those from `k` on. */
    ghost predicate Acted(before: seq<Node>, was: seq<int>, k: nat, sem: Sem, yyval: nat, ns: seq<nat>)
      reads pool
    {
      pool.Valid() && Swapped(before, was, pool.cells, pool.owner, k, ns) && Holds(pool.cells, ns, yyval, sem)
    }

    /** The default action: the object of the only symbol. */
    method KeepObject() returns (yyval: nat, ghost ns: seq<nat>)
      requires Stacked() && stack.Push?
      ensures |yyvs| >= 1 && Acted(pool.cells, pool.owner, |yyvs| - 1, stack.sem, yyval, ns)
    {
      yyval, ns := yyvs[|yyvs| - 1], nodes[|yyvs| - 1];
    }

    method RememberObject(id: int, v: Value)
      modifies this`tags
      ensures tags == Remember(old(tags), id, v)
    {
      if id >= 0 { tags := tags[id := v]; }
    }

    /** The object that replaces the token it was made from. */
    method Replace(v: Value) returns (yyval: nat, ghost ns: seq<nat>)
      requires Stacked() && stack.Push? && stack.sem.Leaf?
      modifies pool
      ensures |yyvs| >= 1 && Acted(old(pool.cells), old(pool.owner), |yyvs| - 1, Object(v), yyval, ns)
    {
      RepTop(pool.cells, pool.owner, yyvs, nodes, stack);
      yyval := yyvs[|yyvs| - 1];
      ns := [yyval];
      var made := pool.cells[yyval].(text := None, data := None, obj := Some(v));
      pool.Set(yyval, made, |yyvs| - 1);
      SwapLeaf(old(pool.cells), old(pool.owner), pool.cells, pool.owner, nodes, |yyvs| - 1, yyval, made);
    }

    /** buildCFString, for strings and keys. */
    method BuildCFString() returns (yyval: nat, ghost ns: seq<nat>)
      requires Stacked() && stack.Push? && stack.sem.Leaf? && stack.sem.load.Text?
      modifies this`tags, pool
      ensures tags == Remember(old(tags), stack.sem.load.idref, Str(stack.sem.load.text)) && |yyvs| >= 1
      ensures Acted(old(pool.cells), old(pool.owner), |yyvs| - 1, Object(Str(stack.sem.load.text)), yyval, ns)
    {
      var cell := pool.cells[yyvs[|yyvs| - 1]];
      RememberObject(cell.idref, Str(cell.text.value));
      yyval, ns := Replace(Str(cell.text.value));
    }

    method BuildCFData() returns (yyval: nat, ghost ns: seq<nat>)
      requires Stacked() && stack.Push? && stack.sem.Leaf? && stack.sem.load.Bytes?
      modifies this`tags, pool
      ensures tags == Remember(old(tags), stack.sem.load.idref, Data(stack.sem.load.bytes)) && |yyvs| >= 1
      ensures Acted(old(pool.cells), old(pool.owner), |yyvs| - 1, Object(Data(stack.sem.load.bytes)), yyval, ns)
    {
      var cell := pool.cells[yyvs[|yyvs| - 1]];
      RememberObject(cell.idref, Data(cell.data.value));
      yyval, ns := Replace(Data(cell.data.value));
    }

    method BuildCFNumber() returns (yyval: nat, ghost ns: seq<nat>)
      requires Stacked() && stack.Push? && stack.sem.Leaf? && stack.sem.load.Number?
      modifies this`tags, pool
      ensures var v := BuiltNumber(stack.sem.load.size, stack.sem.load.number);
              && tags == Remember(old(tags), stack.sem.load.idref, v) && |yyvs| >= 1
              && Acted(old(pool.cells), old(pool.owner), |yyvs| - 1, Object(v), yyval, ns)
    {
      var cell := pool.cells[yyvs[|yyvs| - 1]];
      var v := if cell.size <= 32 then Num(32, Signed32(cell.number)) else Num(64, Signed64(cell.number));
      RememberObject(cell.idref, v);
      yyval, ns := Replace(v);
    }

    method BuildCFBoolean() returns (yyval: nat, ghost ns: seq<nat>)
      requires Stacked() && stack.Push? && stack.sem.Leaf? && stack.sem.load.Truth?
      modifies pool
      ensures |yyvs| >= 1
      ensures Acted(old(pool.cells), old(pool.owner), |yyvs| - 1, Object(Bool(stack.sem.load.b)), yyval, ns)
    {
      yyval, ns := Replace(Bool(pool.cells[yyvs[|yyvs| - 1]].number != 0));
    }

    /** retrieveObject: a new object for what was remembered, if anything was. */
    method RetrieveObject() returns (found: bool, yyval: nat, ghost ns: seq<nat>)
      requires Stacked() && stack.Push? && stack.sem.Leaf? && stack.sem.load.Ref?
      modifies pool
      ensures found == (stack.sem.load.id in tags) && |yyvs| >= 1
      ensures found ==> Acted(old(pool.cells), old(pool.owner), |yyvs| - 1, Object(tags[stack.sem.load.id]), yyval, ns)
    {
      RepTop(pool.cells, pool.owner, yyvs, nodes, stack);
      var ref := yyvs[|yyvs| - 1];
      var id := pool.cells[ref].idref;
      if id !in tags { return false, 0, []; }
      found := true;
      yyval := pool.NewObject();
      ns := [yyval];
      pool.Set(yyval, pool.cells[yyval].(obj := Some(tags[id])), |yyvs| - 1);
      pool.FreeObject(ref);
      assert nodes[|yyvs| - 1] == [ref];
    }

    /** Brackets around nothing. */
    method GroupNothing() returns (yyval: nat, ghost ns: seq<nat>)
      requires Stacked() && stack.Push? && stack.sem.Leaf? && stack.sem.load.Mark?
      requires stack.below.Push? && stack.below.sem.Leaf? && stack.below.sem.load.Mark?
      modifies pool
      ensures |yyvs| >= 2
      ensures Acted(old(pool.cells), old(pool.owner), |yyvs| - 2, Group(stack.below.sem.load.idref, Nil), yyval, ns)
    {
      RepTop(pool.cells, pool.owner, yyvs, nodes, stack);
      RepSecond(pool.cells, pool.owner, yyvs, nodes, stack);
      ghost var k, close := |yyvs| - 2, yyvs[|yyvs| - 1];
      yyval := yyvs[|yyvs| - 2];
      ns := [yyval];
      pool.TakeNothing(yyval, close, k);
      SwapNothing(old(pool.cells), old(pool.owner), pool.cells, pool.owner, nodes, k, yyval, close);
    }

    /** Brackets around elements: the header takes over the list. */
    method GroupElements() returns (yyval: nat, ghost ns: seq<nat>)
      requires Stacked() && stack.Push? && stack.sem.Leaf? && stack.sem.load.Mark? && stack.below.Push?
        && stack.below.sem.Chained?
      requires stack.below.below.Push? && stack.below.below.sem.Leaf? && stack.below.below.sem.load.Mark?
      modifies pool
      ensures |yyvs| >= 3
      ensures Acted(old(pool.cells), old(pool.owner), |yyvs| - 3,
                    Group(stack.below.below.sem.load.idref, stack.below.sem.items), yyval, ns)
    {
      RepTop(pool.cells, pool.owner, yyvs, nodes, stack);
      RepSecond(pool.cells, pool.owner, yyvs, nodes, stack);
      RepThird(pool.cells, pool.owner, yyvs, nodes, stack);
      ghost var k, close, list := |yyvs| - 3, yyvs[|yyvs| - 1], nodes[|yyvs| - 2];
      yyval := yyvs[|yyvs| - 3];
      ns := [yyval] + list;
      pool.TakeOver(yyval, yyvs[|yyvs| - 2], close, k, list, stack.below.sem.items);
      SwapGroup(old(pool.cells), old(pool.owner), pool.cells, pool.owner, nodes, k, yyval, list, close);
    }

    /** A new item in front of a list. */
    method LinkItem(ghost item: Item) returns (yyval: nat, ghost ns: seq<nat>)
      requires Stacked() && stack.Push? && stack.below.Push? && stack.below.sem.Chained?
      requires (stack.sem.Object? && item == Item(None, stack.sem.value)) || stack.sem == Chained(Link(item, Nil))
      modifies pool
      ensures |yyvs| >= 2
      ensures Acted(old(pool.cells), old(pool.owner), |yyvs| - 2, Chained(Link(item, stack.below.sem.items)), yyval, ns)
    {
      RepTop(pool.cells, pool.owner, yyvs, nodes, stack);
      RepSecond(pool.cells, pool.owner, yyvs, nodes, stack);
      ghost var k, list := |yyvs| - 2, nodes[|yyvs| - 2];
      yyval := yyvs[|yyvs| - 1];
      ns := [yyval] + list;
      OneItem(pool.cells, nodes[|yyvs| - 1], yyval, stack.sem, item);
      pool.LinkFront(yyval, yyvs[|yyvs| - 2], k, list, stack.below.sem.items, item);
      SwapLink(old(pool.cells), old(pool.owner), pool.cells, pool.owner, nodes, k, yyval, list);
    }

    /** A key and its object become an item. */
    method MakePair() returns (yyval: nat, ghost ns: seq<nat>)
      requires Stacked() && stack.Push? && stack.sem.Object?
      requires stack.below.Push? && stack.below.sem.Object? && stack.below.sem.value.Str?
      modifies pool
      ensures |yyvs| >= 2
      ensures Acted(old(pool.cells), old(pool.owner), |yyvs| - 2,
                    Chained(Link(Item(Some(stack.below.sem.value.text), stack.sem.value), Nil)), yyval, ns)
    {
      RepTop(pool.cells, pool.owner, yyvs, nodes, stack);
      RepSecond(pool.cells, pool.owner, yyvs, nodes, stack);
      ghost var k := |yyvs| - 2;
      var value := yyvs[|yyvs| - 1];
      yyval := yyvs[|yyvs| - 2];
      ns := [yyval];
      pool.Pair(yyval, value, k, stack.below.sem.value.text, stack.sem.value);
      SwapNothing(old(pool.cells), old(pool.owner), pool.cells, pool.owner, nodes, k, yyval, value);
    }

    /** The first element of a list. */
    method FirstElement() returns (yyval: nat, ghost ns: seq<nat>)
      requires Stacked() && stack.Push? && stack.sem.Object?
      modifies pool
      ensures |yyvs| >= 1
      ensures Acted(old(pool.cells), old(pool.owner), |yyvs| - 1, Chained(Link(Item(None, stack.sem.value), Nil)),
        yyval, ns)
    {
      RepTop(pool.cells, pool.owner, yyvs, nodes, stack);
      yyval := yyvs[|yyvs| - 1];
      ns := [yyval];
      var made := pool.cells[yyval].(next := None);
      pool.Set(yyval, made, |yyvs| - 1);
      SwapLeaf(old(pool.cells), old(pool.owner), pool.cells, pool.owner, nodes, |yyvs| - 1, yyval, made);
      OneListed(pool.cells, yyval, Item(None, stack.sem.value));
    }

    /** What the builders of containers have in common after the object has been built. */
    method Hold(h: nat, v: Value, ghost before: seq<Node>, ghost was: seq<int>) returns (yyval: nat, ghost ns: seq<nat>)
      requires Tight(was, nodes) && stack.Push? && stack.sem.Group? && |yyvs| >= 1 && h == yyvs[|yyvs| - 1]
        && pool.Valid()
      requires |was| == |before| && Slot(before, was, yyvs, nodes, 0, stack.sem)
      requires Built(before, was, pool.cells, pool.owner, h, nodes[|yyvs| - 1], |yyvs| - 1, v)
      modifies this`tags
      ensures tags == Remember(old(tags), stack.sem.idref, v)
      ensures Acted(before, was, |yyvs| - 1, Object(v), yyval, ns)
    {
      yyval, ns := h, [h];
      RememberObject(pool.cells[h].idref, v);
      SwapBuilt(before, was, pool.cells, pool.owner, nodes, |yyvs| - 1, h, nodes[|yyvs| - 1], v);
    }

    method BuildDictionary() returns (yyval: nat, ghost ns: seq<nat>)
      requires Stacked() && stack.Push? && stack.sem.Group? && Keyed(stack.sem.chain)
      modifies this`tags, pool
      ensures |yyvs| >= 1
      ensures (KeyedItems(stack.sem.chain);
               var v := Dict(BuiltDict(OldestFirst(stack.sem.chain)));
               tags == Remember(old(tags), stack.sem.idref, v)
                   && Acted(old(pool.cells), old(pool.owner), |yyvs| - 1, Object(v), yyval, ns))
    {
      RepTop(pool.cells, pool.owner, yyvs, nodes, stack);
      var h := yyvs[|yyvs| - 1];
      var v := pool.BuildCFDictionary(h, |yyvs| - 1, nodes[|yyvs| - 1], stack.sem.chain);
      yyval, ns := Hold(h, v, old(pool.cells), old(pool.owner));
    }

    method BuildArray() returns (yyval: nat, ghost ns: seq<nat>)
      requires Stacked() && stack.Push? && stack.sem.Group?
      modifies this`tags, pool
      ensures |yyvs| >= 1
      ensures var v := Array(Values(OldestFirst(stack.sem.chain)));
              tags == Remember(old(tags), stack.sem.idref, v)
                  && Acted(old(pool.cells), old(pool.owner), |yyvs| - 1, Object(v), yyval, ns)
    {
      RepTop(pool.cells, pool.owner, yyvs, nodes, stack);
      var h := yyvs[|yyvs| - 1];
      var v := pool.BuildCFArray(h, |yyvs| - 1, nodes[|yyvs| - 1], stack.sem.chain);
      yyval, ns := Hold(h, v, old(pool.cells), old(pool.owner));
    }

    method BuildSet() returns (yyval: nat, ghost ns: seq<nat>)
      requires Stacked() && stack.Push? && stack.sem.Group?
      modifies this`tags, pool
      ensures |yyvs| >= 1
      ensures var v := Set(BuiltSet(OldestFirst(stack.sem.chain)));
              tags == Remember(old(tags), stack.sem.idref, v)
                  && Acted(old(pool.cells), old(pool.owner), |yyvs| - 1, Object(v), yyval, ns)
    {
      RepTop(pool.cells, pool.owner, yyvs, nodes, stack);
      var h := yyvs[|yyvs| - 1];
      var v := pool.BuildCFSet(h, |yyvs| - 1, nodes[|yyvs| - 1], stack.sem.chain);
      yyval, ns := Hold(h, v, old(pool.cells), old(pool.owner));
    }

    // ----- one reduction -----

    /** An action has come out as `d` says. */
    ghost predicate Did(d: Done, before: seq<Node>, was: seq<int>, k: int, found: bool, yyval: nat, ns: seq<nat>)
      reads this, pool
    {
      match d
      case Finish(outcome) => !found && outcome == Rejected
      case Done(sem, tags') => found && tags == tags' && k >= 0 && Acted(before, was, k, sem, yyval, ns)
    }

    /** The actions that build a container. */
    method ActContainer(rule: nat) returns (yyval: nat, ghost ns: seq<nat>)
      requires Valid() && stack.Push? && rule == YyDefact(stack.state) && 4 <= rule <= 6
      modifies this`tags, pool
      ensures Did(old(Action(rule, stack, tags)), old(pool.cells), old(pool.owner), |yyvs| - 1, true, yyval, ns)
    {
      ContainerMeans(rule, stack, tags);
      match rule {
        case 4 => yyval, ns := BuildDictionary();
        case 5 => yyval, ns := BuildArray();
        case _ => yyval, ns := BuildSet();
      }
    }

    /** The actions that make an object of a leaf, or find the object of a reference. */
    method ActLeaf(rule: nat) returns (found: bool, yyval: nat, ghost ns: seq<nat>)
      requires Valid() && stack.Push? && rule == YyDefact(stack.state) && 7 <= rule <= 11
      modifies this`tags, pool
      ensures Did(old(Action(rule, stack, tags)), old(pool.cells), old(pool.owner), |yyvs| - 1, found, yyval, ns)
    {
      found := true;
      match rule {
        case 7 => yyval, ns := BuildCFString();
        case 8 => yyval, ns := BuildCFData();
        case 9 => yyval, ns := BuildCFNumber();
        case 10 => yyval, ns := BuildCFBoolean();
        case _ => found, yyval, ns := RetrieveObject();
      }
    }

    /** The actions for brackets. */
    method ActGroup(rule: nat) returns (yyval: nat, ghost ns: seq<nat>)
      requires Valid() && stack.Push? && rule == YyDefact(stack.state) && rule in {12, 13, 18, 19, 20, 21}
      modifies pool
      ensures Did(Action(rule, stack, tags), old(pool.cells), old(pool.owner), |yyvs| - Width(stack.state), true,
        yyval, ns)
    {
      if rule == 12 || rule == 18 || rule == 20 {
        NothingMeans(rule, stack, tags);
        yyval, ns := GroupNothing();
      } else {
        GroupMeans(rule, stack, tags);
        yyval, ns := GroupElements();
      }
    }

    /** The actions for pairs and elements behind others. */
    method ActLink(rule: nat) returns (yyval: nat, ghost ns: seq<nat>)
      requires Valid() && stack.Push? && rule == YyDefact(stack.state) && (rule == 15 || rule == 23)
      modifies pool
      ensures Did(Action(rule, stack, tags), old(pool.cells), old(pool.owner), |yyvs| - 2, true, yyval, ns)
    {
      LinkMeans(rule, stack, tags);
      ghost var item := if rule == 15 then stack.sem.items.item else Item(None, stack.sem.value);
      yyval, ns := LinkItem(item);
    }

    /** The actions for keys, pairs and first elements. */
    method ActItem(rule: nat) returns (yyval: nat, ghost ns: seq<nat>)
      requires Valid() && stack.Push? && rule == YyDefact(stack.state) && rule in {16, 17, 22}
      modifies this`tags, pool
      ensures Did(old(Action(rule, stack, tags)), old(pool.cells), old(pool.owner),
        |yyvs| - (if rule == 16 then 2 else 1), true, yyval, ns)
    {
      if rule == 16 {
        PairMeans(stack, tags);
        yyval, ns := MakePair();
      } else if rule == 17 {
        yyval, ns := BuildCFString();
      } else {
        ElementMeans(stack, tags);
        yyval, ns := FirstElement();
      }
    }

    /** The rules without an action of their own. */
    method ActDefault(ghost d: Done) returns (yyval: nat, ghost ns: seq<nat>)
      requires Stacked() && stack.Push? && d == Done(stack.sem, tags)
      ensures Did(d, pool.cells, pool.owner, |yyvs| - 1, true, yyval, ns)
    {
      yyval, ns := KeepObject();
    }

    /** The semantic action of a rule. */
    method Act(rule: nat) returns (found: bool, yyval: nat, ghost ns: seq<nat>)
      requires Valid() && Reduces(Top(stack)) && rule == YyDefact(stack.state)
      modifies this`tags, pool
      ensures Did(old(Action(rule, stack, tags)), old(pool.cells), old(pool.owner), |yyvs| - Width(stack.state),
        found, yyval, ns)
    {
      WidthsOfRules(stack.state);
      found := true;
      if rule <= 6 {
        yyval, ns := ActContainer(rule);
      } else if rule <= 11 {
        found, yyval, ns := ActLeaf(rule);
      } else if rule in {12, 13, 18, 19, 20, 21} {
        yyval, ns := ActGroup(rule);
      } else if rule == 15 || rule == 23 {
        yyval, ns := ActLink(rule);
      } else if rule in {16, 17, 22} {
        yyval, ns := ActItem(rule);
      } else {
        DefaultMeans(rule, stack, tags);
        yyval, ns := ActDefault(Action(rule, stack, tags));
      }
    }

    /** A new state has been pushed: the stack grows, up to its limit. */
    method MakeRoom() returns (ok: bool)
      requires |yyss| <= yystacksize <= YYMAXDEPTH && yystacksize > 0
      modifies this`yystacksize
      ensures ok == (|yyss| < YYMAXDEPTH) && |yyss| <= yystacksize <= YYMAXDEPTH
      ensures ok ==> |yyss| < yystacksize
    {
      if |yyss| >= yystacksize {
        if yystacksize >= YYMAXDEPTH { return false; }
        yystacksize := 2 * yystacksize;
        if yystacksize > YYMAXDEPTH { yystacksize := YYMAXDEPTH; }
      }
      return true;
    }

    /** Shifts a token: a new object takes what the lexer found. */
    method Shift(state: nat, token: Token)
      requires Valid() && |yyss| < yystacksize && Fits(token) && Looks(Top(stack))
      requires Decide(Top(stack), YyTranslate(token.code)) == Decision.Shift(state)
      modifies this, pool
      ensures Valid() && stack == Push(old(stack), state, Leaf(token.load)) && tags == old(tags)
    {
      ghost var target := Push(stack, state, Leaf(token.load));
      ShiftedFacts(stack, token, state);
      var o := Load(token.load);
      Settle(0, state, yyss + [state], o, [o], Leaf(token.load), target, old(pool.cells), old(pool.owner));
    }

    /** A new object with the fields that belong to a token. */
    method Load(load: Payload) returns (o: nat)
      requires Stacked()
      modifies pool
      ensures pool.Valid() && Swapped(old(pool.cells), old(pool.owner), pool.cells, pool.owner, |yyvs|, [o])
      ensures Holds(pool.cells, [o], o, Leaf(load))
    {
      o := pool.NewObject();
      var cell := pool.cells[o];
      match load {
        case Nothing =>
        case Mark(idref) => cell := cell.(idref := idref);
        case Text(idref, text) => cell := cell.(idref := idref, text := Some(text));
        case Bytes(idref, bytes) => cell := cell.(idref := idref, data := Some(bytes), size := |bytes|);
        case Number(idref, size, number) => cell := cell.(idref := idref, size := size, number := number);
        case Ref(id) => cell := cell.(idref := id);
        case Truth(b) => cell := cell.(number := if b then 1 else 0);
      }
      pool.Set(o, cell, |yyvs|);
      SwapFresh(old(pool.cells), old(pool.owner), pool.cells, pool.owner, nodes, o);
    }

    /** How many symbols a rule takes off, the state that follows, and the stack that results. */
    method FindTarget(rule: nat, ghost d: Done) returns (yylen: nat, state: nat, ghost target: Stack)
      requires Valid() && Reduces(Top(stack)) && rule == YyDefact(stack.state) && d == Action(rule, stack, tags)
      ensures yylen == Width(stack.state) && yylen < |yyss| && yylen <= |yyvs|
      ensures d.Done? ==> target == Replaced(stack, d.sem) == Push(Pop(stack, yylen), state, d.sem) && Sound(target)
      ensures d.Done? ==> States(target) == yyss[..|yyss| - yylen] + [state]
    {
      target := if d.Done? then Replaced(stack, d.sem) else stack;
      var n := YyR2(rule);
      ReplacedFacts(stack, yyss, tags, d, rule, n, target);
      RepHeight(pool.cells, pool.owner, yyvs, nodes, stack);
      state := Goto(yyss[|yyss| - 1 - n], rule) as nat;
      yylen := n;
    }

    /** Reduces by the rule of the top state; an id that is not known yet is an error. */
    method Reduce(rule: nat) returns (ok: bool, ghost d: Done)
      requires Valid() && Reduces(Top(stack)) && rule == YyDefact(stack.state) && |yyss| < yystacksize
      modifies this, pool
      ensures d == old(Action(rule, stack, tags)) && ok == d.Done? && (!ok ==> d == Finish(Rejected))
      ensures ok ==> Valid() && |yyss| < yystacksize && tags == d.tags && stack == old(Replaced(stack, d.sem))
    {
      d := Action(rule, stack, tags);
      var yylen, state, target := FindTarget(rule, d);
      ok := ReduceTo(rule, yylen, state, d, target);
    }

    /** The action of a rule, and the stacks after it. */
    method ReduceTo(rule: nat, yylen: nat, state: nat, ghost d: Done, ghost target: Stack) returns (ok: bool)
      requires Valid() && Reduces(Top(stack)) && rule == YyDefact(stack.state) && d == Action(rule, stack, tags)
      requires yylen == Width(stack.state) && yylen < |yyss| && yylen <= |yyvs|
      requires d.Done? ==> target == Push(Pop(stack, yylen), state, d.sem)
      modifies this`yyss, this`yyvs, this`nodes, this`stack, this`tags, pool
      ensures ok == d.Done? && (!ok ==> d == Finish(Rejected))
      ensures ok ==>
        tags == d.tags && yyss == old(yyss)[..|old(yyss)| - yylen] + [state] && stack == target && Stacked()
    {
      var yyval;
      ghost var ns;
      ok, yyval, ns := Act(rule);
      if ok {
        var states := yyss[..|yyss| - yylen] + [state];
        Settle(yylen, state, states, yyval, ns, d.sem, target, old(pool.cells), old(pool.owner));
      }
    }

    /** The stacks after the action of a rule. */
    method Settle(yylen: nat, state: nat, states: seq<nat>, yyval: nat, ghost ns: seq<nat>, ghost sem: Sem,
                  ghost target: Stack, ghost before: seq<Node>, ghost was: seq<int>)
      requires yylen <= |yyvs| && Acted(before, was, |yyvs| - yylen, sem, yyval, ns)
      requires Rep(before, was, yyvs, nodes, stack) && Tight(was, nodes)
        && target == Push(Pop(stack, yylen), state, sem)
      modifies this`yyss, this`yyvs, this`nodes, this`stack
      ensures yyss == states && stack == target && Stacked()
    {
      SameSize(before, was, yyvs, nodes, stack);
      var values := yyvs[..|yyvs| - yylen] + [yyval];
      ghost var cells := nodes[..|yyvs| - yylen] + [ns];
      NewRep(before, was, pool.cells, pool.owner, yyvs, nodes, stack, yylen, yyval, ns, state, sem, values, cells,
             target);
      SetStacks(states, values, cells, target);
    }

    method SetStacks(states: seq<nat>, values: seq<nat>, ghost cells: seq<seq<nat>>, ghost target: Stack)
      requires Stands(values, cells, target)
      modifies this`yyss, this`yyvs, this`nodes, this`stack
      ensures yyss == states && stack == target && Stacked()
    {
      yyss, yyvs, nodes, stack := states, values, cells, target;
    }

    // ----- the main loop -----

    /** The run that is still to come. */
    ghost predicate Going(tokens: seq<Token>, outcome: Outcome)
      reads this, pool
    {
      Valid() && AllFit(tokens) && Height(stack) < YYMAXDEPTH && Run(Config(stack, tokens, tags)) == outcome
    }

    /** Accepts with the object of the only slot, which leaves the pool. */
    method TakeResult() returns (v: Value)
      requires Valid() && Top(stack) == 10
      modifies pool
      ensures stack.sem == Object(v) && forall c :: 0 <= c < |pool.cells| ==> Blank(pool.cells[c])
    {
      RepTop(pool.cells, pool.owner, yyvs, nodes, stack);
      OnlySlot(pool.cells, pool.owner, yyvs, nodes, stack);
      var h := yyvs[|yyvs| - 1];
      v := pool.cells[h].obj.value;
      pool.Set(h, pool.cells[h].(obj := None), 0);
      pool.FreeObject(h);
    }

    /** In a state that looks: reads a token and decides. Nothing is reduced for it but the first rule. */
    method SeeToken(ghost tokens: seq<Token>, ghost goal: Outcome) returns (token: Token, d: Decision)
      requires Going(tokens, goal) && Looks(Top(stack)) && tokens == LexAll(reader.Rest())
      modifies reader
      ensures d == Decide(Top(stack), YyTranslate(token.code)) && !d.Accept?
      ensures d.Reduce? ==> goal == Accepted(None)
      ensures d.Error? ==> goal == Rejected
      ensures d.Shift? ==> tokens != [] && token == tokens[0] && Fits(token)
      ensures d.Shift? && d.state != 6 ==> tokens[1..] == LexAll(reader.Rest())
    {
      StatesOfStack(stack);
      ghost var c, text := Config(stack, tokens, tags), reader.Rest();
      token := reader.Yylex();
      d := Decide(yyss[|yyss| - 1], YyTranslate(token.code));
      TokenDecides(c, text, token);
    }

    /** Shifts the token, unless the stack is full. */
    method StepShift(state: nat, token: Token, ghost tokens: seq<Token>, ghost goal: Outcome) returns (room: bool)
      requires Going(tokens, goal) && Looks(Top(stack)) && |yyss| < yystacksize
      requires tokens != [] && token == tokens[0] && Fits(token)
      requires Decide(Top(stack), YyTranslate(token.code)) == Decision.Shift(state)
      modifies this, pool
      ensures !room ==> goal == Rejected
      ensures room ==> Going(tokens[1..], goal) && |yyss| < yystacksize && Top(stack) == state
    {
      RunShift(Config(stack, tokens, tags), state);
      Shift(state, token);
      StatesOfStack(stack);
      room := MakeRoom();
    }

    /** In a state that looks: reads a token, and shifts it or ends the parse. */
    method StepToken(ghost tokens: seq<Token>, ghost goal: Outcome)
        returns (outcome: Option<Outcome>, ghost rest: seq<Token>)
      requires Going(tokens, goal) && Looks(Top(stack)) && tokens == LexAll(reader.Rest()) && |yyss| < yystacksize
      modifies this, pool, reader
      ensures outcome.Some? ==> outcome.value == goal && !(goal.Accepted? && goal.result.Some?)
      ensures outcome.None? ==> Going(rest, goal) && |rest| < |tokens| && |yyss| < yystacksize
      ensures outcome.None? ==> rest == LexAll(reader.Rest()) || Top(stack) == 6
    {
      rest := [];
      var token, d := SeeToken(tokens, goal);
      if d.Reduce? { return Some(Accepted(None)), rest; }
      if !d.Shift? { return Some(Rejected), rest; }
      rest := tokens[1..];
      var room := StepShift(d.state, token, tokens, goal);
      return if room then None else Some(Rejected), rest;
    }

    /** In any other state: reduces by its rule. */
    method StepReduce(ghost tokens: seq<Token>, ghost goal: Outcome) returns (ok: bool)
      requires Going(tokens, goal) && Reduces(Top(stack)) && |yyss| < yystacksize
      modifies this, pool
      ensures !ok ==> goal == Rejected
      ensures ok ==>
        && Going(tokens, goal) && PlistGrammar.Smaller(stack, old(stack))
        && |yyss| < yystacksize && Top(stack) != 6
    {
      ghost var was, c := stack, Config(stack, tokens, tags);
      StatesOfStack(stack);
      ReducesIff(stack.state);
      ghost var d;
      RunReduce(c);
      ok, d := Reduce(YyDefact(yyss[|yyss| - 1]) as nat);
      if ok {
        ReplacedIsSmaller(was, d.sem);
        BaseState(was);
      }
    }

    /** One turn of the main loop. */
    method StepOnce(ghost tokens: seq<Token>, ghost goal: Outcome)
        returns (outcome: Option<Outcome>, ghost rest: seq<Token>)
      requires Going(tokens, goal) && |yyss| < yystacksize
      requires tokens == LexAll(reader.Rest()) || Top(stack) == 6
      modifies this, pool, reader
      ensures outcome.Some? ==> outcome.value == goal
      ensures outcome.Some? && goal.Accepted? && goal.result.Some? ==>
        forall c :: 0 <= c < |pool.cells| ==> Blank(pool.cells[c])
      ensures outcome.None? ==> Going(rest, goal) && |yyss| < yystacksize
      ensures outcome.None? ==> rest == LexAll(reader.Rest()) || Top(stack) == 6
      ensures outcome.None? ==> |rest| < |tokens| || (|rest| == |tokens| && PlistGrammar.Smaller(stack, old(stack)))
    {
      TopDecides(Config(stack, tokens, tags), yyss);
      outcome, rest := None, tokens;
      var yystate := yyss[|yyss| - 1];
      if YyPact(yystate) != YYFLAG {
        outcome, rest := StepToken(tokens, goal);
      } else if yystate == 10 {
        var v := TakeResult();
        outcome := Some(Accepted(Some(v)));
      } else if yystate == 6 {
        outcome := Some(Rejected);
      } else {
        var ok := StepReduce(tokens, goal);
        if !ok { outcome := Some(Rejected); }
      }
    }

    /** yyparse. When it returns an object, no object of the pool has anything attached any more. */
    method Yyparse() returns (outcome: Outcome)
      requires Valid() && stack == Bottom && tags == map[] && yystacksize == YYINITDEPTH
      modifies this, pool, reader
      ensures outcome == Parse(old(reader.Rest()))
      ensures outcome.Accepted? && outcome.result.Some? ==> forall c :: 0 <= c < |pool.cells| ==> Blank(pool.cells[c])
    {
      ghost var tokens := LexAll(reader.Rest());
      ghost var goal := Parse(reader.Rest());
      while true
        invariant Going(tokens, goal) && |yyss| < yystacksize
        invariant tokens == LexAll(reader.Rest()) || Top(stack) == 6
        decreases |tokens|, Height(stack), Rank(Top(stack))
      {
        var halted;
        halted, tokens := StepOnce(tokens, goal);
        if halted.Some? { return halted.value; }
      }
    }
  }

  /** IOCFUnserialize: nothing if the text does not parse or the options are not zero. */
  method IOCFUnserialize(buffer: string, options: int) returns (result: Option<Value>)
    ensures options != 0 ==> result == None
    ensures options == 0 ==> result == if Parse(buffer).Accepted? then Parse(buffer).result else None
  {
    if options != 0 { return None; }
    var parser := new Parser(buffer);
    var outcome := parser.Yyparse();
    return if outcome.Accepted? then outcome.result else None;
  }
}
