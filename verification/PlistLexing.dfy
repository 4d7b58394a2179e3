/** The text written for a value is lexed into the tokens of its tree, up to the first string that
    has a NUL character. */
module PlistLexing {
  import opened Basics
  import opened PlistText
  import opened PlistValues
  import opened PlistLexer
  import opened PlistTokens
  import opened PlistGrammar
  import opened PlistTrees
  import opened PlistWriting
  import opened PlistSharing
  import opened PlistSpelling

  /** `ts` and then `more`, but an error in place of the first token that has a NUL character. */
  function Cut(ts: seq<Token>, more: seq<Token>): seq<Token> {
    if ts == [] then more
    else if IsCut(ts[0]) then [ERROR_TOKEN]
    else [ts[0]] + Cut(ts[1..], more)
  }

  lemma {:induction false} CutAppend(a: seq<Token>, b: seq<Token>, more: seq<Token>)
    ensures Cut(a + b, more) == Cut(a, Cut(b, more))
  {
    if a == [] {
      assert a + b == b;
    } else {
      CutAppend(a[1..], b, more);
      assert (a + b)[1..] == a[1..] + b;
    }
  }

  lemma {:induction false} NothingCut(ts: seq<Token>, more: seq<Token>)
    requires NulFree(ts)
    ensures Cut(ts, more) == ts + more
  {
    if ts == [] {
      assert ts + more == more;
    } else {
      NothingCut(ts[1..], more);
      assert ts == [ts[0]] + ts[1..];
      Assoc([ts[0]], ts[1..], more);
    }
  }

  lemma {:induction false} WhereCut(ts: seq<Token>, more: seq<Token>) returns (k: nat)
    requires !NulFree(ts)
    ensures k < |ts| && Cut(ts, more) == ts[..k] + [ERROR_TOKEN]
  {
    if IsCut(ts[0]) {
      k := 0;
    } else {
      OneNulFree(ts[0]);
      assert ts == [ts[0]] + ts[1..];
      NulFreeParts([ts[0]], ts[1..]);
      k := WhereCut(ts[1..], more);
      assert ts[..k + 1] == [ts[0]] + ts[1..][..k];
      Assoc([ts[0]], ts[1..][..k], [ERROR_TOKEN]);
      k := k + 1;
    }
  }

  // ----- one token -----

  lemma TokenIsLexed(s: string, t: Token, rest: string)
    requires Lex(s) == (if IsCut(t) then Lexed(ERROR_TOKEN, []) else Lexed(t, rest))
    requires t.code != YYEOF && t.code != SYNTAX_ERROR
    ensures LexAll(s) == Cut([t], LexAll(rest))
  {
    assert [t][1..] == [];
  }

  // ----- ids stay below the count -----

  ghost predicate Below(ids: Ids) {
    forall m :: m in ids.dict ==> ids.dict[m] < ids.count
  }

  ghost predicate Grown(new': Ids, old': Ids) {
    Below(new') && new'.count >= old'.count
  }

  lemma {:induction false} IdsGrow(v: Value, ids: Ids)
    requires Below(ids) && Written(v, ids).Some?
    ensures Grown(Written(v, ids).value.ids, ids)
    decreases v, 1
  {
    var ids' := Added(ids, Means(v));
    if !v.Bool? && Means(v) !in ids.dict {
      match v
      case Array(elems) => AllIdsGrow(elems, ids');
      case Set(members) => AllIdsGrow(members, ids');
      case Dict(entries) => EntryIdsGrow(entries, ids');
      case _ =>
    }
  }

  lemma {:induction false} AllIdsGrow(vs: seq<Value>, ids: Ids)
    requires Below(ids) && WrittenAll(vs, ids).Some?
    ensures Grown(WrittenAll(vs, ids).value.ids, ids)
    decreases vs, 0
  {
    if vs != [] {
      AllIdsGrow(vs[..|vs| - 1], ids);
      IdsGrow(vs[|vs| - 1], WrittenAll(vs[..|vs| - 1], ids).value.ids);
    }
  }

  lemma {:induction false} EntryIdsGrow(es: seq<Entry>, ids: Ids)
    requires Below(ids) && WrittenEntries(es, ids).Some?
    ensures Grown(WrittenEntries(es, ids).value.ids, ids)
    decreases es, 0
  {
    if es != [] {
      EntryIdsGrow(es[..|es| - 1], ids);
      IdsGrow(es[|es| - 1].value, WrittenEntries(es[..|es| - 1], ids).value.ids);
    }
  }

  // ----- a whole value -----

  const MOST_IDS: nat := 0x8000_0000

  /** Lexing the text of a value gives the tokens of its tree, whatever follows it. */
  lemma {:induction false} TextIsTokens(v: Value, ids: Ids, rest: string)
    requires IsObject(v) && Below(ids) && Written(v, ids).Some? && Written(v, ids).value.ids.count <= MOST_IDS
    ensures LexAll(Written(v, ids).value.text + rest) == Cut(Tokens(Written(v, ids).value.tree), LexAll(rest))
    decreases v, 1
  {
    IdsGrow(v, ids);
    if v.Bool? {
      LexTruth(v.b, rest);
      TokenIsLexed(TruthText(v.b) + rest, Token(BOOLEAN, Truth(v.b)), rest);
    } else if Means(v) in ids.dict {
      var id := ids.dict[Means(v)];
      LexRef(TagName(v), id, rest);
      TokenIsLexed(RefText(TagName(v), id) + rest, Token(IDREF, Ref(id)), rest);
    } else {
      match v
      case Array(elems) => ListIsTokens(v, false, elems, ids, rest);
      case Set(members) => ListIsTokens(v, true, members, ids, rest);
      case Dict(entries) => DictIsTokens(entries, ids, rest);
      case _ => LeafIsTokens(v, ids, rest);
    }
  }

  lemma LeafIsTokens(v: Value, ids: Ids, rest: string)
    requires (v.Str? || v.Data? || v.Num?) && Means(v) !in ids.dict
    requires IsObject(v) && Written(v, ids).Some? && ids.count < MOST_IDS
    ensures LexAll(Written(v, ids).value.text + rest) == Cut(Tokens(Written(v, ids).value.tree), LexAll(rest))
  {
    var id := ids.count;
    match v
    case Str(t) =>
      LexString(id, t, rest);
      TokenIsLexed(StringText(id, t) + rest, Token(STRING, Text(id, t)), rest);
    case Data(b) =>
      LexData(id, b, rest);
      TokenIsLexed(DataText(id, b) + rest, Token(DATA, Bytes(id, b)), rest);
    case Num(size, n) =>
      LexNumber(id, size, n, rest);
      TokenIsLexed(NumberText(id, size, n) + rest, Token(NUMBER, Number(id, size, Signed64(Printed(size, n)))), rest);
  }

  /** Contents between an opening and a closing tag. */
  lemma Between(open: string, contents: string, close: string, rest: string, first: Token, ts: seq<Token>, last: Token)
    requires Lex(open + (contents + (close + rest))) == Lexed(first, contents + (close + rest))
    requires Lex(close + rest) == Lexed(last, rest)
    requires first.load.Mark? && first.code < 256 && first.code != YYEOF
    requires last.load.Mark? && last.code < 256 && last.code != YYEOF
    requires LexAll(contents + (close + rest)) == Cut(ts, LexAll(close + rest))
    ensures LexAll(open + contents + close + rest) == Cut([first] + (ts + [last]), LexAll(rest))
  {
    Assoc(open + contents, close, rest);
    Assoc(open, contents, close + rest);
    TokenIsLexed(open + (contents + (close + rest)), first, contents + (close + rest));
    TokenIsLexed(close + rest, last, rest);
    CutAppend([first], ts + [last], LexAll(rest));
    CutAppend(ts, [last], LexAll(rest));
  }

  lemma {:induction false} ListIsTokens(v: Value, isSet: bool, elems: seq<Value>, ids: Ids, rest: string)
    requires v == if isSet then Set(elems) else Array(elems)
    requires AllObjects(elems) && Means(v) !in ids.dict
    requires Below(ids) && Written(v, ids).Some? && Written(v, ids).value.ids.count <= MOST_IDS
    ensures LexAll(Written(v, ids).value.text + rest) == Cut(Tokens(Written(v, ids).value.tree), LexAll(rest))
    decreases elems, 1
  {
    var name := if isSet then "set" else "array";
    var ids' := Added(ids, Means(v));
    var r := WrittenAll(elems, ids').value;
    AllIdsGrow(elems, ids');
    TextsAreTokens(elems, ids', EndText(name) + rest);
    ListingIsTokens(name, isSet, ids.count, r.text, r.trees, rest);
  }

  lemma ListingIsTokens(name: string, isSet: bool, id: nat, text: string, trees: seq<Tree>, rest: string)
    requires name == (if isSet then "set" else "array") && id < MOST_IDS
    requires LexAll(text + (EndText(name) + rest)) == Cut(TokensAll(trees), LexAll(EndText(name) + rest))
    ensures LexAll(StartText(name, id) + text + EndText(name) + rest)
            == Cut(Tokens(Listing(isSet, id, trees, -1)), LexAll(rest))
  {
    LexOpening(name, id, text + (EndText(name) + rest));
    LexClosing(name, rest);
    Between(StartText(name, id), text, EndText(name), rest, OpenToken(isSet, id), TokensAll(trees),
            CloseToken(isSet, -1));
  }

  lemma {:induction false} TextsAreTokens(vs: seq<Value>, ids: Ids, rest: string)
    requires AllObjects(vs) && Below(ids) && WrittenAll(vs, ids).Some?
      && WrittenAll(vs, ids).value.ids.count <= MOST_IDS
    ensures LexAll(WrittenAll(vs, ids).value.text + rest)
      == Cut(TokensAll(WrittenAll(vs, ids).value.trees), LexAll(rest))
    decreases vs, 0
  {
    if vs == [] {
      assert [] + rest == rest;
    } else {
      var front, last := vs[..|vs| - 1], vs[|vs| - 1];
      var r := WrittenAll(front, ids).value;
      AllIdsGrow(front, ids);
      IdsGrow(last, r.ids);
      var q := Written(last, r.ids).value;
      TextIsTokens(last, r.ids, rest);
      TextsAreTokens(front, ids, q.text + rest);
      Assoc(r.text, q.text, rest);
      assert (r.trees + [q.tree])[..|r.trees|] == r.trees;
      CutAppend(TokensAll(r.trees), Tokens(q.tree), LexAll(rest));
    }
  }

  lemma {:induction false} DictIsTokens(es: seq<Entry>, ids: Ids, rest: string)
    requires AllEntries(es) && Means(Dict(es)) !in ids.dict
    requires Below(ids) && Written(Dict(es), ids).Some? && Written(Dict(es), ids).value.ids.count <= MOST_IDS
    ensures LexAll(Written(Dict(es), ids).value.text + rest)
      == Cut(Tokens(Written(Dict(es), ids).value.tree), LexAll(rest))
    decreases es, 1
  {
    var ids' := Added(ids, Means(Dict(es)));
    var r := WrittenEntries(es, ids').value;
    EntryIdsGrow(es, ids');
    EntriesAreTokens(es, ids', EndText("dict") + rest);
    PairingIsTokens(ids.count, r.text, r.pairs, rest);
  }

  lemma PairingIsTokens(id: nat, text: string, pairs: seq<Pair>, rest: string)
    requires id < MOST_IDS
    requires LexAll(text + (EndText("dict") + rest)) == Cut(TokensPairs(pairs), LexAll(EndText("dict") + rest))
    ensures LexAll(StartText("dict", id) + text + EndText("dict") + rest)
            == Cut(Tokens(Pairing(id, pairs, -1)), LexAll(rest))
  {
    LexOpening("dict", id, text + (EndText("dict") + rest));
    LexClosing("dict", rest);
    Between(StartText("dict", id), text, EndText("dict"), rest, Token(123, Mark(id)), TokensPairs(pairs),
            Token(125, Mark(-1)));
  }

  lemma {:induction false} EntriesAreTokens(es: seq<Entry>, ids: Ids, rest: string)
    requires AllEntries(es) && Below(ids)
    requires WrittenEntries(es, ids).Some? && WrittenEntries(es, ids).value.ids.count <= MOST_IDS
    ensures LexAll(WrittenEntries(es, ids).value.text + rest)
            == Cut(TokensPairs(WrittenEntries(es, ids).value.pairs), LexAll(rest))
    decreases es, 0
  {
    if es == [] {
      assert [] + rest == rest;
    } else {
      var front, last := es[..|es| - 1], es[|es| - 1];
      var r := WrittenEntries(front, ids).value;
      EntryIdsGrow(front, ids);
      IdsGrow(last.value, r.ids);
      var q := Written(last.value, r.ids).value;
      TextIsTokens(last.value, r.ids, rest);
      KeyThenTokens(last.key, q.text + rest);
      EntriesAreTokens(front, ids, KeyText(last.key) + (q.text + rest));
      Assoc(r.text, KeyText(last.key) + q.text, rest);
      Assoc(KeyText(last.key), q.text, rest);
      var p := Pair(-1, last.key, q.tree);
      assert (r.pairs + [p])[..|r.pairs|] == r.pairs;
      CutAppend([Token(KEY, Text(-1, last.key))], Tokens(q.tree), LexAll(rest));
      CutAppend(TokensPairs(r.pairs), TokensPair(p), LexAll(rest));
    }
  }

  lemma KeyThenTokens(key: string, rest: string)
    ensures LexAll(KeyText(key) + rest) == Cut([Token(KEY, Text(-1, key))], LexAll(rest))
  {
    LexKey(key, rest);
    TokenIsLexed(KeyText(key) + rest, Token(KEY, Text(-1, key)), rest);
  }
}
