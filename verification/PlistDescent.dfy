/** A recursive-descent parser of the same language, and that the table-driven one agrees with it on
    every input: it accepts what the grammar derives and nothing else. */
module PlistDescent {
  import opened Basics
  import opened PlistText
  import opened PlistValues
  import opened PlistLexer
  import opened PlistTables
  import opened PlistGrammar
  import opened PlistTrees
  import opened PlistParsing

  // ----- the reference parser -----

  /** The object at the front of the tokens, and the tokens behind it. */
  function ParseObject(ts: seq<Token>): (r: Option<(Tree, seq<Token>)>)
    requires AllFit(ts)
    ensures r.Some? ==> AllFit(r.value.1) && |r.value.1| < |ts|
    decreases |ts|, 1
  {
    if ts == [] then None
    else if IsAtom(ts[0]) then Some((Atom(ts[0]), ts[1..]))
    else if ts[0].code == 40 || ts[0].code == 91 then
      var r := ParseElements(ts[0].code == 91, ts[1..]);
      if r.None? then None
      else Some((Listing(ts[0].code == 91, ts[0].load.idref, r.value.0, r.value.1), r.value.2))
    else if ts[0].code == 123 then
      var r := ParsePairs(ts[1..]);
      if r.None? then None else Some((Pairing(ts[0].load.idref, r.value.0, r.value.1), r.value.2))
    else None
  }

  /** Elements up to the closing bracket, the id of that, and the tokens behind it. */
  function ParseElements(isSet: bool, ts: seq<Token>): (r: Option<(seq<Tree>, int, seq<Token>)>)
    requires AllFit(ts)
    ensures r.Some? ==> AllFit(r.value.2) && |r.value.2| < |ts|
    decreases |ts|, 2
  {
    if ts == [] then None
    else if ts[0].code == CloseToken(isSet, 0).code then Some(([], ts[0].load.idref, ts[1..]))
    else
      var first := ParseObject(ts);
      if first.None? then None
      else
        var more := ParseElements(isSet, first.value.1);
        if more.None? then None else Some(([first.value.0] + more.value.0, more.value.1, more.value.2))
  }

  function ParsePairs(ts: seq<Token>): (r: Option<(seq<Pair>, int, seq<Token>)>)
    requires AllFit(ts)
    ensures r.Some? ==> AllFit(r.value.2) && |r.value.2| < |ts|
    decreases |ts|, 2
  {
    if ts == [] then None
    else if ts[0].code == 125 then Some(([], ts[0].load.idref, ts[1..]))
    else if ts[0].code != KEY then None
    else
      var first := ParseObject(ts[1..]);
      if first.None? then None
      else
        var more := ParsePairs(first.value.1);
        if more.None? then None
        else
          var p := Pair(ts[0].load.idref, ts[0].load.text, first.value.0);
          Some(([p] + more.value.0, more.value.1, more.value.2))
  }

  // ----- it reads trees -----

  lemma {:induction false} TokensFirst(t: Tree, ts: seq<Tree>)
    ensures TokensAll([t] + ts) == Tokens(t) + TokensAll(ts)
    ensures WellFormed(t) && AllWellFormed(ts) ==> AllWellFormed([t] + ts)
  {
    var all := [t] + ts;
    if ts == [] {
      assert all == [t] && all[..0] == [];
    } else {
      var front, last := ts[..|ts| - 1], ts[|ts| - 1];
      TokensFirst(t, front);
      assert all[..|all| - 1] == [t] + front;
      Assoc(Tokens(t), TokensAll(front), Tokens(last));
    }
  }

  lemma {:induction false} PairTokensFirst(p: Pair, ps: seq<Pair>)
    ensures TokensPairs([p] + ps) == TokensPair(p) + TokensPairs(ps)
    ensures WellFormed(p.value) && PairsWellFormed(ps) ==> PairsWellFormed([p] + ps)
  {
    var all := [p] + ps;
    if ps == [] {
      assert all == [p] && all[..0] == [];
    } else {
      var front, last := ps[..|ps| - 1], ps[|ps| - 1];
      PairTokensFirst(p, front);
      assert all[..|all| - 1] == [p] + front;
      Assoc(TokensPair(p), TokensPairs(front), TokensPair(last));
    }
  }

  /** What it reads is a tree of the grammar, and its tokens are those that were read. */
  lemma {:induction false} ObjectIsTree(ts: seq<Token>)
    requires AllFit(ts)
    ensures var r := ParseObject(ts); r.Some? ==> WellFormed(r.value.0) && ts == Tokens(r.value.0) + r.value.1
    decreases |ts|, 1
  {
    var r := ParseObject(ts);
    if r.Some? && !IsAtom(ts[0]) {
      assert ts == [ts[0]] + ts[1..];
      if ts[0].code == 123 {
        PairsAreTrees(ts[1..]);
        var q := ParsePairs(ts[1..]).value;
        var close := [Token(125, Mark(q.1))];
        Assoc([ts[0]], TokensPairs(q.0) + close, q.2);
        Assoc(TokensPairs(q.0), close, q.2);
      } else {
        var isSet := ts[0].code == 91;
        ElementsAreTrees(isSet, ts[1..]);
        var q := ParseElements(isSet, ts[1..]).value;
        var close := [CloseToken(isSet, q.1)];
        Assoc([ts[0]], TokensAll(q.0) + close, q.2);
        Assoc(TokensAll(q.0), close, q.2);
      }
    }
  }

  lemma {:induction false} ElementsAreTrees(isSet: bool, ts: seq<Token>)
    requires AllFit(ts)
    ensures var r := ParseElements(isSet, ts);
            r.Some? ==>
              AllWellFormed(r.value.0) && ts == TokensAll(r.value.0) + ([CloseToken(isSet, r.value.1)] + r.value.2)
    decreases |ts|, 2
  {
    var r := ParseElements(isSet, ts);
    if r.Some? {
      if ts[0].code == CloseToken(isSet, 0).code {
        assert ts == [] + ([ts[0]] + ts[1..]);
      } else {
        ObjectIsTree(ts);
        var (t, rest) := ParseObject(ts).value;
        ElementsAreTrees(isSet, rest);
        var more := ParseElements(isSet, rest).value;
        TokensFirst(t, more.0);
        Assoc(Tokens(t), TokensAll(more.0), [CloseToken(isSet, more.1)] + more.2);
      }
    }
  }

  lemma {:induction false} PairsAreTrees(ts: seq<Token>)
    requires AllFit(ts)
    ensures var r := ParsePairs(ts);
            r.Some? ==>
              PairsWellFormed(r.value.0) && ts == TokensPairs(r.value.0) + ([Token(125, Mark(r.value.1))] + r.value.2)
    decreases |ts|, 2
  {
    var r := ParsePairs(ts);
    if r.Some? {
      assert ts == [ts[0]] + ts[1..];
      if ts[0].code != 125 {
        ObjectIsTree(ts[1..]);
        var (t, rest) := ParseObject(ts[1..]).value;
        PairsAreTrees(rest);
        var more := ParsePairs(rest).value;
        var p := Pair(ts[0].load.idref, ts[0].load.text, t);
        PairTokensFirst(p, more.0);
        Assoc([ts[0]], Tokens(t), rest);
        Assoc(TokensPair(p), TokensPairs(more.0), [Token(125, Mark(more.1))] + more.2);
      } else {
        assert ts == [] + ([ts[0]] + ts[1..]);
      }
    }
  }

  // ----- every tree is read -----

  /** Tokens that begin an object. */
  predicate Begins(t: Token) {
    NUMBER <= t.code <= BOOLEAN || t.code in {40, 91, 123}
  }

  lemma TreeBegins(t: Tree)
    requires WellFormed(t)
    ensures Tokens(t) != [] && Begins(Tokens(t)[0])
  {
  }

  /** The grammar is not ambiguous: the tokens of a tree are read as that tree. */
  lemma {:induction false} TreeIsRead(t: Tree, rest: seq<Token>)
    requires WellFormed(t) && AllFit(Tokens(t) + rest)
    ensures ParseObject(Tokens(t) + rest) == Some((t, rest))
    decreases t, 1
  {
    var ts := Tokens(t) + rest;
    match t
    case Atom(token) =>
      assert ts == [token] + rest && ts[1..] == rest;
    case Listing(isSet, open, elems, close) =>
      Assoc([OpenToken(isSet, open)], TokensAll(elems) + [CloseToken(isSet, close)], rest);
      Assoc(TokensAll(elems), [CloseToken(isSet, close)], rest);
      assert ts[1..] == TokensAll(elems) + ([CloseToken(isSet, close)] + rest);
      TreesAreRead(isSet, elems, close, rest);
    case Pairing(open, pairs, close) =>
      Assoc([Token(123, Mark(open))], TokensPairs(pairs) + [Token(125, Mark(close))], rest);
      Assoc(TokensPairs(pairs), [Token(125, Mark(close))], rest);
      assert ts[1..] == TokensPairs(pairs) + ([Token(125, Mark(close))] + rest);
      PairsAreRead(pairs, close, rest);
  }

  lemma {:induction false} TreesAreRead(isSet: bool, ts: seq<Tree>, close: int, rest: seq<Token>)
    requires AllWellFormed(ts) && AllFit(TokensAll(ts) + ([CloseToken(isSet, close)] + rest))
    ensures ParseElements(isSet, TokensAll(ts) + ([CloseToken(isSet, close)] + rest)) == Some((ts, close, rest))
    decreases ts, 0
  {
    var end := [CloseToken(isSet, close)] + rest;
    if ts == [] {
      assert TokensAll(ts) + end == end && end[1..] == rest;
    } else {
      FirstIsWellFormed(ts);
      TokensFirst(ts[0], ts[1..]);
      assert ts == [ts[0]] + ts[1..];
      Assoc(Tokens(ts[0]), TokensAll(ts[1..]), end);
      TreeBegins(ts[0]);
      FitParts(Tokens(ts[0]), TokensAll(ts[1..]) + end);
      TreeIsRead(ts[0], TokensAll(ts[1..]) + end);
      TreesAreRead(isSet, ts[1..], close, rest);
    }
  }

  lemma {:induction false} PairsAreRead(ps: seq<Pair>, close: int, rest: seq<Token>)
    requires PairsWellFormed(ps) && AllFit(TokensPairs(ps) + ([Token(125, Mark(close))] + rest))
    ensures ParsePairs(TokensPairs(ps) + ([Token(125, Mark(close))] + rest)) == Some((ps, close, rest))
    decreases ps, 0
  {
    var end := [Token(125, Mark(close))] + rest;
    if ps == [] {
      assert TokensPairs(ps) + end == end && end[1..] == rest;
    } else {
      var p, more := ps[0], TokensPairs(ps[1..]) + end;
      FirstPairIsWellFormed(ps);
      PairTokensFirst(p, ps[1..]);
      assert ps == [p] + ps[1..];
      Assoc(TokensPair(p), TokensPairs(ps[1..]), end);
      Assoc([Token(KEY, Text(p.id, p.key))], Tokens(p.value), more);
      var ts := [Token(KEY, Text(p.id, p.key))] + (Tokens(p.value) + more);
      assert ts[1..] == Tokens(p.value) + more;
      FitParts([Token(KEY, Text(p.id, p.key))], Tokens(p.value) + more);
      FitParts(Tokens(p.value), more);
      TreeIsRead(p.value, more);
      PairsAreRead(ps[1..], close, rest);
    }
  }

  lemma FitParts(a: seq<Token>, b: seq<Token>)
    requires AllFit(a + b)
    ensures AllFit(a) && AllFit(b)
  {
    assert forall i :: 0 <= i < |a| ==> a[i] == (a + b)[i];
    assert forall i :: 0 <= i < |b| ==> b[i] == (a + b)[|a| + i];
  }

  lemma {:induction false} FirstIsWellFormed(ts: seq<Tree>)
    requires AllWellFormed(ts) && ts != []
    ensures WellFormed(ts[0]) && AllWellFormed(ts[1..])
  {
    if |ts| > 1 {
      FirstIsWellFormed(ts[..|ts| - 1]);
      assert ts[1..][..|ts| - 2] == ts[..|ts| - 1][1..];
    }
  }

  lemma {:induction false} FirstPairIsWellFormed(ps: seq<Pair>)
    requires PairsWellFormed(ps) && ps != []
    ensures WellFormed(ps[0].value) && PairsWellFormed(ps[1..])
  {
    if |ps| > 1 {
      FirstPairIsWellFormed(ps[..|ps| - 1]);
      assert ps[1..][..|ps| - 2] == ps[..|ps| - 1][1..];
    }
  }

  predicate NoError(ts: seq<Token>) {
    forall i :: 0 <= i < |ts| ==> ts[i].code != SYNTAX_ERROR && ts[i].code != YYEOF && Fits(ts[i])
  }

  lemma {:induction false} TreeHasNoError(t: Tree)
    requires WellFormed(t)
    ensures NoError(Tokens(t))
    decreases t, 1
  {
    match t
    case Atom(_) =>
    case Listing(_, _, elems, _) => TreesHaveNoError(elems);
    case Pairing(_, pairs, _) => PairsHaveNoError(pairs);
  }

  lemma {:induction false} TreesHaveNoError(ts: seq<Tree>)
    requires AllWellFormed(ts)
    ensures NoError(TokensAll(ts))
    decreases ts, 0
  {
    if ts != [] {
      TreesHaveNoError(ts[..|ts| - 1]);
      TreeHasNoError(ts[|ts| - 1]);
    }
  }

  lemma {:induction false} PairsHaveNoError(ps: seq<Pair>)
    requires PairsWellFormed(ps)
    ensures NoError(TokensPairs(ps))
    decreases ps, 0
  {
    if ps != [] {
      PairsHaveNoError(ps[..|ps| - 1]);
      TreeHasNoError(ps[|ps| - 1].value);
    }
  }

  /** Tokens that break off inside a tree begin with no other tree either. */
  lemma BrokenTreeIsNoTree(t: Tree, k: nat)
    requires WellFormed(t) && k < |Tokens(t)|
    ensures AllFit(Tokens(t)[..k] + [ERROR_TOKEN]) && ParseObject(Tokens(t)[..k] + [ERROR_TOKEN]).None?
  {
    TreeHasNoError(t);
    var ts := Tokens(t)[..k] + [ERROR_TOKEN];
    if ParseObject(ts).Some? {
      ObjectIsTree(ts);
      var (s, rest) := ParseObject(ts).value;
      TreeHasNoError(s);
      var n := |Tokens(s)|;
      assert ts[k] == ERROR_TOKEN && forall i :: 0 <= i < n ==> ts[i] == Tokens(s)[i];
      assert n <= k;
      assert Tokens(s) == ts[..n] == Tokens(t)[..n];
      assert Tokens(t) == Tokens(s) + Tokens(t)[n..] && Tokens(t) == Tokens(t) + [];
      TreeIsRead(s, Tokens(t)[n..]);
      TreeIsRead(t, []);
      assert false;
    }
  }

  // ----- where it fails, the tables fail -----

  lemma RunStops(c: Config)
    requires Ready(c) && Looks(Top(c.stack)) && Top(c.stack) != 0
    requires c.tokens == [] || !Decide(Top(c.stack), YyTranslate(c.tokens[0].code)).Shift?
    ensures Run(c) == Rejected
  {
    EveryState(c.stack);
    NoDefault(Top(c.stack), YyTranslate(Look(c.tokens).code));
  }

  lemma NoDefault(s: nat, t: nat)
    requires Looks(s) && s != 0
    ensures Decide(s, t) != Reduce(1)
  {
  }

  lemma NotBegun(s: nat, t: Token)
    requires BeforeObject(s) && s != 0 && !Begins(t)
    requires s in {8, 26} ==> t.code != 41
    requires s in {9, 28} ==> t.code != 93
    ensures !Decide(s, YyTranslate(t.code)).Shift?
  {
  }

  lemma NoPair(s: nat, t: Token)
    requires s in {7, 21} && t.code != KEY && t.code != 125
    ensures !Decide(s, YyTranslate(t.code)).Shift?
  {
  }

  /** States in which an object must come next, or may. */
  predicate Wants(c: Config) {
    && Ready(c) && BeforeObject(Top(c.stack)) && Top(c.stack) != 0
    && (c.tokens != [] ==> !(Top(c.stack) in {8, 26} && c.tokens[0].code == 41)
                           && !(Top(c.stack) in {9, 28} && c.tokens[0].code == 93))
  }

  /** Without an object at the front of the tokens, every run is rejected. */
  lemma {:induction false} NoObjectNoParse(c: Config)
    requires Ready(c) && BeforeObject(Top(c.stack)) && ParseObject(c.tokens).None?
    requires Wants(c) || (c.tokens != [] && Begins(c.tokens[0]))
    ensures Run(c) == Rejected
    decreases |c.tokens|, 1
  {
    if c.tokens == [] {
      RunStops(c);
    } else if !Begins(c.tokens[0]) {
      NotBegun(Top(c.stack), c.tokens[0]);
      RunStops(c);
    } else if c.tokens[0].code == 123 {
      BraceShift(Top(c.stack));
      RunShift(c, 7);
      if Height(c.stack) + 1 < YYMAXDEPTH {
        var header := Push(c.stack, 7, Leaf(c.tokens[0].load));
        NoPairsNoParse(Config(header, c.tokens[1..], c.tags), header, []);
      }
    } else {
      var isSet := c.tokens[0].code == 91;
      OpenShift(Top(c.stack), isSet, 0);
      RunShift(c, OpenState(isSet));
      if Height(c.stack) + 1 < YYMAXDEPTH {
        var header := Push(c.stack, OpenState(isSet), Leaf(c.tokens[0].load));
        NoElementsNoParse(Config(header, c.tokens[1..], c.tags), header, isSet, []);
      }
    }
  }

  lemma {:induction false} NoElementsNoParse(c: Config, header: Stack, isSet: bool, items: seq<Item>)
    requires Ready(c) && Opened(header, isSet) && c.stack == WithElements(header, isSet, items)
    requires ParseElements(isSet, c.tokens).None?
    ensures Run(c) == Rejected
    decreases |c.tokens|, 2
  {
    if ParseObject(c.tokens).None? {
      NoObjectNoParse(c);
    } else {
      ObjectIsTree(c.tokens);
      var (t, rest) := ParseObject(c.tokens).value;
      NextElement(t, isSet, header, items, c, rest);
      if Height(c.stack) + Peak(t) < YYMAXDEPTH && Eval(t, c.tags).Some? {
        var i := Item(None, Eval(t, c.tags).value.0);
        var d := Config(WithElements(header, isSet, items + [i]), rest, Eval(t, c.tags).value.1);
        NoElementsNoParse(d, header, isSet, items + [i]);
      }
    }
  }

  lemma {:induction false} NoPairsNoParse(c: Config, header: Stack, items: seq<Item>)
    requires Ready(c) && Top(header) == 7 && c.stack == WithPairs(header, items)
    requires ParsePairs(c.tokens).None?
    ensures Run(c) == Rejected
    decreases |c.tokens|, 2
  {
    if c.tokens == [] {
      RunStops(c);
    } else if c.tokens[0].code != KEY {
      NoPair(Top(c.stack), c.tokens[0]);
      RunStops(c);
    } else {
      NoPairNoParse(c, header, items);
    }
  }

  lemma {:induction false} NoPairNoParse(c: Config, header: Stack, items: seq<Item>)
    requires Ready(c) && Top(header) == 7 && c.stack == WithPairs(header, items)
    requires ParsePairs(c.tokens).None? && c.tokens != [] && c.tokens[0].code == KEY
    ensures Run(c) == Rejected
    decreases |c.tokens|, 1
  {
    var key, rest := c.tokens[0].load, c.tokens[1..];
    assert c.tokens == [Token(KEY, Text(key.idref, key.text))] + rest;
    KeyIsParsed(c, key.idref, key.text, rest);
    if Height(c.stack) + 1 < YYMAXDEPTH {
      var d := Config(Push(c.stack, 23, Object(Str(key.text))), rest, Remember(c.tags, key.idref, Str(key.text)));
      if ParseObject(rest).None? {
        NoObjectNoParse(d);
      } else {
        ObjectIsTree(rest);
        var (t, rest') := ParseObject(rest).value;
        var p := Pair(key.idref, key.text, t);
        Assoc([c.tokens[0]], Tokens(t), rest');
        NextPair(p, header, items, c, rest');
        var e := Eval(t, d.tags);
        if Height(c.stack) + 1 + Peak(t) < YYMAXDEPTH && e.Some? {
          var i := Item(Some(p.key), e.value.0);
          NoPairsNoParse(Config(WithPairs(header, items + [i]), rest', e.value.1), header, items + [i]);
        }
      }
    }
  }

  // ----- the two parsers agree -----

  /** What the whole input comes to. Text that does not begin an object at all yields no object, but
      no error either, unless the lexer has already found one. */
  function Reference(ts: seq<Token>): Outcome
    requires AllFit(ts)
  {
    if ts == [] || !Begins(ts[0]) then
      if ts != [] && ts[0].code == SYNTAX_ERROR then Rejected else Accepted(None)
    else
      var r := ParseObject(ts);
      if r.None? then Rejected
      else
        ObjectIsTree(ts);
        var e := Eval(r.value.0, map[]);
        if 1 + Peak(r.value.0) >= YYMAXDEPTH || e.None? then Rejected else Accepted(Some(e.value.0))
  }

  /** The table-driven parser is the recursive-descent parser, for every token list. */
  lemma TablesAreTheGrammar(ts: seq<Token>)
    requires AllFit(ts)
    ensures Run(Config(Bottom, ts, map[])) == Reference(ts)
  {
    var c := Config(Bottom, ts, map[]);
    if ts == [] || !Begins(ts[0]) {
      NothingBegun(ts);
    } else if ParseObject(ts).None? {
      NoObjectNoParse(c);
    } else {
      ObjectIsTree(ts);
      var (t, rest) := ParseObject(ts).value;
      InputIsParsed(t, rest);
    }
  }

  lemma NothingBegun(ts: seq<Token>)
    requires AllFit(ts) && (ts == [] || !Begins(ts[0]))
    ensures Run(Config(Bottom, ts, map[]))
            == if ts != [] && ts[0].code == SYNTAX_ERROR then Rejected else Accepted(None)
  {
    var c := Config(Bottom, ts, map[]);
    FirstDecision(Look(ts));
    if ts != [] && ts[0].code == SYNTAX_ERROR {
      RunShift(c, 6);
    }
  }

  lemma FirstDecision(t: Token)
    requires !Begins(t)
    ensures Decide(0, YyTranslate(t.code)) == if t.code == SYNTAX_ERROR then Shift(6) else Reduce(1)
  {
  }
}
