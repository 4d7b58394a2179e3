/** The table-driven parser as a machine over tokens: its stack, its steps and its runs. */
module PlistGrammar {
  import opened Basics
  import opened PlistText
  import opened PlistValues
  import opened PlistLexer
  import opened PlistTables

  // ----- semantic values -----

  /** A list as the actions grow it: every new item is put in front. */
  datatype Chain = Nil | Link(item: Item, next: Chain)

  datatype Item = Item(key: Option<string>, obj: Value)

  predicate Keyed(c: Chain) {
    c.Nil? || (c.item.key.Some? && Keyed(c.next))
  }

  function OldestFirst(c: Chain): seq<Item> {
    if c.Nil? then [] else OldestFirst(c.next) + [c.item]
  }

  datatype Sem =
    | Leaf(load: Payload)
    | Group(idref: int, chain: Chain)
    | Object(value: Value)
    | Chained(items: Chain)

  type Tags = map<int, Value>

  function Remember(tags: Tags, idref: int, v: Value): Tags {
    if idref >= 0 then tags[idref := v] else tags
  }

  // ----- the builders -----

  function Values(items: seq<Item>): (r: seq<Value>)
    ensures |r| == |items|
  {
    if items == [] then [] else Values(items[..|items| - 1]) + [items[|items| - 1].obj]
  }

  function BuiltDict(items: seq<Item>): seq<Entry>
    requires forall i :: 0 <= i < |items| ==> items[i].key.Some?
  {
    if items == [] then []
    else SetEntry(BuiltDict(items[..|items| - 1]), items[|items| - 1].key.value, items[|items| - 1].obj)
  }

  function BuiltSet(items: seq<Item>): seq<Value> {
    if items == [] then [] else AddMember(BuiltSet(items[..|items| - 1]), items[|items| - 1].obj)
  }

  /** CFNumberCreate from the low 32 bits, or from all 64. */
  function BuiltNumber(size: int, number: int): Value {
    if size <= 32 then Num(32, Signed32(number)) else Num(64, Signed64(number))
  }

  lemma {:induction false} KeyedItems(c: Chain)
    requires Keyed(c)
    ensures forall i :: 0 <= i < |OldestFirst(c)| ==> OldestFirst(c)[i].key.Some?
  {
    if c.Link? { KeyedItems(c.next); }
  }

  // ----- the stack -----

  /** States and semantic values; state 0 lies below all of them. */
  datatype Stack = Bottom | Push(below: Stack, state: nat, sem: Sem)

  function Top(stack: Stack): nat {
    if stack.Bottom? then 0 else stack.state
  }

  /** How many states are on the stack. */
  function Height(stack: Stack): nat {
    if stack.Bottom? then 1 else 1 + Height(stack.below)
  }

  /** States in which an object may begin. */
  predicate BeforeObject(s: nat) {
    s in {0, 8, 9, 23, 26, 28}
  }

  /** Which states may lie directly below `s`. */
  predicate Above(p: nat, s: nat) {
    match s
    case 1 | 2 | 3 | 4 | 5 | 7 | 8 | 9 => BeforeObject(p)
    case 11 | 12 | 13 | 14 | 15 | 16 | 17 | 18 => BeforeObject(p)
    case 6 | 10 => p == 0
    case 19 | 23 => p == 7 || p == 21
    case 20 | 21 | 22 => p == 7
    case 24 => p == 8
    case 25 => p == 8 || p == 9
    case 26 => p == 8
    case 27 | 28 => p == 9
    case 29 | 30 => p == 21
    case 31 => p == 23
    case 32 => p == 26
    case 33 => p == 26 || p == 28
    case 34 => p == 28
    case _ => false
  }

  /** What kind of semantic value belongs to a state. */
  predicate Suits(s: nat, v: Sem) {
    match s
    case 1 | 14 => v.Leaf? && v.load.Number?
    case 2 | 16 | 19 => v.Leaf? && v.load.Text?
    case 3 | 15 => v.Leaf? && v.load.Bytes?
    case 4 | 17 => v.Leaf? && v.load.Ref?
    case 5 | 18 => v.Leaf? && v.load.Truth?
    case 6 => v.Leaf?
    case 7 | 8 | 9 | 20 | 24 | 27 | 29 | 32 | 34 => v.Leaf? && v.load.Mark?
    case 10 | 25 | 31 | 33 => v.Object?
    case 11 => v.Group? && Keyed(v.chain)
    case 12 | 13 => v.Group?
    case 21 => v.Chained? && Keyed(v.items)
    case 22 | 30 => v.Chained? && Keyed(v.items) && v.items.Link? && v.items.next.Nil?
    case 23 => v.Object? && v.value.Str?
    case 26 | 28 => v.Chained?
    case _ => false
  }

  /** The LR invariant: every state fits the one below it, and its semantic value fits it. */
  predicate Sound(stack: Stack) {
    stack.Push? ==> Sound(stack.below) && Above(Top(stack.below), stack.state) && Suits(stack.state, stack.sem)
  }

  // ----- what the tables say -----

  datatype Decision = Shift(state: nat) | Reduce(rule: nat) | Accept | Error

  function Default(s: nat): Decision {
    if YyDefact(s) == 0 then Error else Reduce(YyDefact(s) as nat)
  }

  /** What to do in state `s` if `t` is the next token. */
  function Decide(s: nat, t: nat): Decision {
    var n := YyPact(s) + t;
    if YyPact(s) == YYFLAG || n < 0 || n > YYLAST || YyCheck(n) != t then Default(s)
    else if YyTable(n) < 0 then (if YyTable(n) == YYFLAG then Error else Reduce(-YyTable(n)))
    else if YyTable(n) == 0 then Error
    else if YyTable(n) == YYFINAL then Accept
    else Shift(YyTable(n))
  }

  /** Where to go from state `s` after a reduction by `rule`. */
  function Goto(s: nat, rule: nat): int {
    var n := YyR1(rule) - YYNTBASE;
    var i := YyPgoto(n) + s;
    if 0 <= i <= YYLAST && YyCheck(i) == s then YyTable(i) else YyDefgoto(n)
  }

  /** No state does anything for the error token: every error empties the stack. */
  lemma NoRecovery(i: int)
    ensures YyCheck(i) != YYTERROR
  {
  }

  // ----- one action -----

  /** What an action leaves: a semantic value and the remembered objects, or the end of the parse. */
  datatype Done = Done(sem: Sem, tags: Tags) | Finish(outcome: Outcome)

  datatype Outcome = Accepted(result: Option<Value>) | Rejected

  function Pop(stack: Stack, n: nat): Stack {
    if n == 0 || stack.Bottom? then stack else Pop(stack.below, n - 1)
  }

  /** The action of `rule`, where `stack` ends in the right-hand side of that rule. */
  function Action(rule: nat, stack: Stack, tags: Tags): (d: Done)
    requires Sound(stack) && stack.Push? && rule == YyDefact(stack.state) != 0
  {
    var v := stack.sem;
    assert Sound(stack.below) && (stack.below.Push? ==> Sound(stack.below.below));
    match rule
    // the whole input
    case 2 => Finish(Accepted(Some(v.value)))
    case 3 => Finish(Rejected)
    // dict, array and set
    case 4 =>
      KeyedItems(v.chain);
      var o := Dict(BuiltDict(OldestFirst(v.chain)));
      Done(Object(o), Remember(tags, v.idref, o))
    case 5 => var o := Array(Values(OldestFirst(v.chain))); Done(Object(o), Remember(tags, v.idref, o))
    case 6 => var o := Set(BuiltSet(OldestFirst(v.chain))); Done(Object(o), Remember(tags, v.idref, o))
    // string, data, number, boolean and idref
    case 7 => var o := Str(v.load.text); Done(Object(o), Remember(tags, v.load.idref, o))
    case 8 => var o := Data(v.load.bytes); Done(Object(o), Remember(tags, v.load.idref, o))
    case 9 => var o := BuiltNumber(v.load.size, v.load.number); Done(Object(o), Remember(tags, v.load.idref, o))
    case 10 => Done(Object(Bool(v.load.b)), tags)
    case 11 => if v.load.id in tags then Done(Object(tags[v.load.id]), tags) else Finish(Rejected)
    // brackets around nothing and around elements
    case 12 | 18 | 20 => Done(Group(stack.below.sem.load.idref, Nil), tags)
    case 13 | 19 | 21 => Done(Group(stack.below.below.sem.load.idref, stack.below.sem.items), tags)
    // pairs, keys and elements
    case 15 => Done(Chained(Link(v.items.item, stack.below.sem.items)), tags)
    case 16 => Done(Chained(Link(Item(Some(stack.below.sem.value.text), v.value), Nil)), tags)
    case 17 => var o := Str(v.load.text); Done(Object(o), Remember(tags, v.load.idref, o))
    case 22 => Done(Chained(Link(Item(None, v.value), Nil)), tags)
    case 23 => Done(Chained(Link(Item(None, v.value), stack.below.sem.items)), tags)
    // the value of the only symbol
    case _ => Done(v, tags)
  }

  // ----- steps and runs -----

  /** The tokens still to come; behind them the input has ended. */
  datatype Config = Config(stack: Stack, tokens: seq<Token>, tags: Tags)

  datatype Next = Go(config: Config) | Halt(outcome: Outcome)

  /** A new state is entered only while the stack has room. */
  function Enter(stack: Stack, tokens: seq<Token>, tags: Tags): Next {
    if Height(stack) >= YYMAXDEPTH then Halt(Rejected) else Go(Config(stack, tokens, tags))
  }

  /** A reduction by the default rule of the top state. */
  function Reduced(c: Config): Next
    requires Sound(c.stack) && c.stack.Push? && YyDefact(c.stack.state) != 0
  {
    var rule := YyDefact(c.stack.state) as nat;
    var d := Action(rule, c.stack, c.tags);
    if d.Finish? then Halt(d.outcome)
    else
      var base := Pop(c.stack, YyR2(rule) as nat);
      Enter(Push(base, Goto(Top(base), rule) as nat, d.sem), c.tokens, d.tags)
  }

  function Look(tokens: seq<Token>): Token {
    if tokens == [] then Token(YYEOF, Nothing) else tokens[0]
  }

  /** A step on the next token, in a state that has to see it. */
  function Seen(c: Config): Next
    requires Sound(c.stack)
  {
    var token := Look(c.tokens);
    var d := Decide(Top(c.stack), YyTranslate(token.code));
    if d.Shift? && c.tokens != [] then Enter(Push(c.stack, d.state, Leaf(token.load)), c.tokens[1..], c.tags)
    else if d == Reduce(1) then Halt(Accepted(None))
    else Halt(Rejected)
  }

  // ----- every run keeps the LR invariant and ends -----

  predicate AllFit(tokens: seq<Token>) {
    forall i :: 0 <= i < |tokens| ==> Fits(tokens[i]) && tokens[i].code != YYEOF
  }

  predicate Valid(c: Config) {
    Sound(c.stack) && AllFit(c.tokens)
  }

  lemma BeforeObjectShifts(s: nat, t: nat)
    requires BeforeObject(s) && Decide(s, t).Shift?
    ensures Above(s, Decide(s, t).state)
    ensures t in {4, 5, 6, 7, 8, 9, 10, 12, 13, 14, 15}
    ensures 4 <= t <= 9 ==> Decide(s, t).state == t - 3
    ensures t >= 10 ==> Decide(s, t).state in {7, 8, 9, 24, 27, 32, 34}
  {
  }

  lemma PairShifts(s: nat, t: nat)
    requires s in {7, 21} && Decide(s, t).Shift?
    ensures Above(s, Decide(s, t).state)
    ensures t in {3, 11}
    ensures if t == 3 then Decide(s, t).state == 19 else Decide(s, t).state in {20, 29}
  {
  }

  lemma ShiftSuits(s: nat, token: Token)
    requires Fits(token) && Decide(s, YyTranslate(token.code)).Shift?
    requires BeforeObject(s) || s in {7, 21}
    ensures Suits(Decide(s, YyTranslate(token.code)).state, Leaf(token.load))
    ensures Above(s, Decide(s, YyTranslate(token.code)).state)
  {
    if BeforeObject(s) {
      BeforeObjectShifts(s, YyTranslate(token.code));
    } else {
      PairShifts(s, YyTranslate(token.code));
    }
  }

  /** Among the states that reduce by a rule of one symbol, how many more such reductions follow. */
  function Rank(s: nat): nat {
    match s
    case 1 | 2 | 3 | 4 | 5 | 19 => 3
    case 11 | 12 | 13 | 14 | 15 | 16 | 17 | 18 | 22 => 2
    case 25 => 1
    case _ => 0
  }

  predicate Smaller(new': Stack, old': Stack) {
    Height(new') < Height(old') || (Height(new') == Height(old') && Rank(Top(new')) < Rank(Top(old')))
  }

  /** The state an object is read into. */
  function ObjectState(p: nat): nat {
    match p
    case 0 => 10
    case 23 => 31
    case 26 | 28 => 33
    case _ => 25
  }

  /** How many symbols the rule of a state takes away, and where it leads from the state below. */
  function Width(s: nat): nat {
    match s
    case 29 | 32 | 34 => 3
    case 20 | 24 | 27 | 30 | 31 | 33 => 2
    case _ => 1
  }

  function Lands(p: nat, s: nat): nat {
    match s
    case 1 => 14
    case 2 => 16
    case 3 => 15
    case 4 => 17
    case 5 => 18
    case 11 | 12 | 13 | 14 | 15 | 16 | 17 | 18 => ObjectState(p)
    case 19 => 23
    case 20 | 29 => 11
    case 24 | 32 => 12
    case 27 | 34 => 13
    case 31 => if p == 21 then 30 else 22
    case 22 | 30 => 21
    case _ => if p == 9 then 28 else 26
  }

  predicate Reduces(s: nat) {
    1 <= s <= 34 && s !in {6, 7, 8, 9, 10, 21, 23, 26, 28}
  }

  lemma ReducesIff(s: nat)
    ensures Reduces(s) <==> YyDefact(s) > 3
    ensures Reduces(s) ==> YyR2(YyDefact(s)) == Width(s)
  {
  }

  /** The rule of a state leads where the automaton says. */
  lemma GotoLands(stack: Stack)
    requires Sound(stack) && Reduces(Top(stack))
    ensures Pop(stack, Width(stack.state)).Push? || Top(Pop(stack, Width(stack.state))) == 0
    ensures Goto(Top(Pop(stack, Width(stack.state))), YyDefact(stack.state) as nat)
            == Lands(Top(Pop(stack, Width(stack.state))), stack.state)
  {
    BaseState(stack);
    GotoTable(Top(Pop(stack, Width(stack.state))), stack.state);
  }

  /** Which states may lie below the symbols of a rule. */
  predicate Base(p: nat, s: nat) {
    match s
    case 19 => p == 7 || p == 21
    case 22 | 30 => p == 7
    case 25 => p == 8 || p == 9
    case 31 => p == 7 || p == 21
    case 33 => p == 8 || p == 9
    case _ => BeforeObject(p)
  }

  lemma GotoTable(p: nat, s: nat)
    requires Reduces(s) && Base(p, s)
    ensures Goto(p, YyDefact(s) as nat) == Lands(p, s)
    ensures Above(p, Lands(p, s))
  {
  }

  lemma BaseState(stack: Stack)
    requires Sound(stack) && Reduces(Top(stack))
    ensures Base(Top(Pop(stack, Width(stack.state))), stack.state)
    ensures Sound(Pop(stack, Width(stack.state)))
    ensures Height(Pop(stack, Width(stack.state))) + Width(stack.state) == Height(stack)
  {
    var b := stack.below;
    assert Sound(b) && Height(stack) == 1 + Height(b);
    if Width(stack.state) == 1 {
      assert Pop(stack, 1) == b;
    } else {
      assert Sound(b.below) && Height(b) == 1 + Height(b.below);
      if Width(stack.state) == 2 {
        assert Pop(stack, 2) == Pop(b, 1) == b.below;
      } else {
        assert Sound(b.below.below) && Height(b.below) == 1 + Height(b.below.below);
        assert Pop(stack, 3) == Pop(b, 2) == Pop(b.below, 1) == b.below.below;
      }
    }
  }

  /** The stack after a reduction that leaves `sem`. */
  function Replaced(stack: Stack, sem: Sem): Stack
    requires Sound(stack) && Reduces(Top(stack))
  {
    var base := Pop(stack, Width(stack.state));
    Push(base, Lands(Top(base), stack.state), sem)
  }

  lemma ReducedIsReplaced(c: Config)
    requires Sound(c.stack) && Reduces(Top(c.stack))
    ensures var d := Action(YyDefact(c.stack.state) as nat, c.stack, c.tags);
            Reduced(c) == if d.Finish? then Halt(d.outcome) else Enter(Replaced(c.stack, d.sem), c.tokens, d.tags)
  {
    ReducesIff(c.stack.state);
    GotoLands(c.stack);
  }

  lemma ReplacedIsSmaller(stack: Stack, sem: Sem)
    requires Sound(stack) && Reduces(Top(stack))
    ensures Smaller(Replaced(stack, sem), stack)
  {
    BaseState(stack);
    RankFalls(Top(Pop(stack, Width(stack.state))), stack.state);
  }

  lemma RankFalls(p: nat, s: nat)
    requires Reduces(s) && Base(p, s)
    ensures Width(s) == 1 ==> Rank(Lands(p, s)) < Rank(s)
  {
  }

  lemma ObjectSuits(stack: Stack, tags: Tags, p: nat)
    requires Sound(stack) && stack.Push? && 11 <= stack.state <= 18
    ensures var d := Action(YyDefact(stack.state) as nat, stack, tags);
            d.Done? ==> d.sem.Object? && Suits(Lands(p, stack.state), d.sem)
  {
  }

  lemma UnitSuits(stack: Stack, tags: Tags, p: nat)
    requires Sound(stack) && stack.Push? && (1 <= stack.state <= 5 || stack.state in {19, 22, 25})
    ensures var d := Action(YyDefact(stack.state) as nat, stack, tags);
            d.Done? && Suits(Lands(p, stack.state), d.sem)
  {
  }

  lemma GroupSuits(stack: Stack, tags: Tags, p: nat)
    requires Sound(stack) && stack.Push? && stack.state in {20, 24, 27, 29, 32, 34}
    ensures var d := Action(YyDefact(stack.state) as nat, stack, tags);
            d.Done? && Suits(Lands(p, stack.state), d.sem)
  {
    var b := stack.below;
    assert Sound(b) && (b.Push? ==> Sound(b.below));
  }

  lemma JoinSuits(stack: Stack, tags: Tags, p: nat)
    requires Sound(stack) && stack.Push? && stack.state in {30, 31, 33}
    ensures var d := Action(YyDefact(stack.state) as nat, stack, tags);
            d.Done? && Suits(Lands(p, stack.state), d.sem)
  {
    assert Sound(stack.below);
  }

  /** What an action leaves suits the state the rule leads to. */
  lemma ActionSuits(stack: Stack, tags: Tags, p: nat)
    requires Sound(stack) && Reduces(Top(stack)) && Base(p, stack.state)
    ensures var d := Action(YyDefact(stack.state) as nat, stack, tags);
            d.Done? ==> Suits(Lands(p, stack.state), d.sem)
  {
    if 11 <= stack.state <= 18 {
      ObjectSuits(stack, tags, p);
    } else if stack.state in {20, 24, 27, 29, 32, 34} {
      GroupSuits(stack, tags, p);
    } else if stack.state in {30, 31, 33} {
      JoinSuits(stack, tags, p);
    } else {
      UnitSuits(stack, tags, p);
    }
  }

  lemma ReducedKeeps(c: Config)
    requires Valid(c) && Reduces(Top(c.stack))
    ensures Reduced(c).Go? ==> Valid(Reduced(c).config) && Reduced(c).config.tokens == c.tokens
    ensures Reduced(c).Go? ==> Smaller(Reduced(c).config.stack, c.stack)
  {
    ReducedIsReplaced(c);
    var d := Action(YyDefact(c.stack.state) as nat, c.stack, c.tags);
    if d.Done? {
      BaseState(c.stack);
      var p := Top(Pop(c.stack, Width(c.stack.state)));
      GotoTable(p, c.stack.state);
      ActionSuits(c.stack, c.tags, p);
      ReplacedIsSmaller(c.stack, d.sem);
    }
  }

  /** States that look at the next token. */
  predicate Looks(s: nat) {
    BeforeObject(s) || s == 7 || s == 21
  }

  lemma SeenKeeps(c: Config)
    requires Valid(c) && Looks(Top(c.stack))
    ensures Seen(c).Go? ==> Valid(Seen(c).config) && |Seen(c).config.tokens| < |c.tokens|
  {
    if Seen(c).Go? {
      ShiftSuits(Top(c.stack), Look(c.tokens));
    }
  }

  /** In every sound state there is something to do: look, reduce, end well or end in an error. */
  lemma EveryState(stack: Stack)
    requires Sound(stack)
    ensures Looks(Top(stack)) || Reduces(Top(stack)) || Top(stack) in {6, 10}
    ensures Looks(Top(stack)) <==> YyPact(Top(stack)) != YYFLAG
  {
  }

  function Step(c: Config): Next
    requires Sound(c.stack)
  {
    if YyPact(Top(c.stack)) != YYFLAG then Seen(c)
    else
      EveryState(c.stack);
      Reduced(c)
  }

  lemma StepKeeps(c: Config)
    requires Valid(c)
    ensures Step(c).Go? ==> Valid(Step(c).config)
    ensures Step(c).Go? ==> |Step(c).config.tokens| < |c.tokens|
                            || (Step(c).config.tokens == c.tokens && Smaller(Step(c).config.stack, c.stack))
  {
    EveryState(c.stack);
    if Looks(Top(c.stack)) {
      SeenKeeps(c);
    } else if Reduces(Top(c.stack)) {
      ReducedKeeps(c);
    }
  }

  /** A whole run: it always ends, and no step of it finds the stack unsound. */
  function Run(c: Config): Outcome
    requires Valid(c)
    decreases |c.tokens|, Height(c.stack), Rank(Top(c.stack))
  {
    StepKeeps(c);
    match Step(c)
    case Halt(outcome) => outcome
    case Go(d) => Run(d)
  }

  function Parse(text: string): Outcome {
    Run(Config(Bottom, LexAll(text), map[]))
  }
}
