/** Which values can be written, and which texts can be read: those whose strings are ASCII, and
    those whose strings have no NUL character either. */
module PlistSpelling {
  import opened Basics
  import opened PlistText
  import opened PlistValues
  import opened PlistLexer
  import opened PlistTrees
  import opened PlistWriting
  import opened PlistSharing

  predicate InText(s: string, low: int) {
    forall i :: 0 <= i < |s| ==> low <= (s[i] as int) < 128
  }

  /** Every string and key inside, at any depth, has characters from `low` up to 127 only. */
  ghost predicate Spelt(m: Meaning, low: int) {
    match m
    case MDict(d) => forall k :: k in d ==> InText(k, low) && Spelt(d[k], low)
    case MArray(a) => forall i :: 0 <= i < |a| ==> Spelt(a[i], low)
    case MSet(s) => forall x :: x in s ==> Spelt(x, low)
    case MStr(t) => InText(t, low)
    case _ => true
  }

  ghost predicate AllSpelt(vs: seq<Value>, low: int) {
    forall i :: 0 <= i < |vs| ==> Spelt(Means(vs[i]), low)
  }

  ghost predicate EntriesSpelt(es: seq<Entry>, low: int) {
    forall i :: 0 <= i < |es| ==> InText(es[i].key, low) && Spelt(Means(es[i].value), low)
  }

  lemma ListSpelt(vs: seq<Value>, low: int)
    ensures Spelt(Means(Array(vs)), low) <==> AllSpelt(vs, low)
    ensures Spelt(Means(Set(vs)), low) <==> AllSpelt(vs, low)
  {
    var ms := MeansAll(vs);
    assert forall i :: 0 <= i < |vs| ==> ms[i] in Elements(ms);
  }

  lemma {:induction false} KeysAreThese(es: seq<Entry>, k: string) returns (i: int)
    requires k in MeansEntries(es)
    ensures 0 <= i < |es| && es[i].key == k && MeansEntries(es)[k] == Means(es[i].value)
  {
    var n := |es| - 1;
    if es[n].key == k { i := n; } else { i := KeysAreThese(es[..n], k); }
  }

  lemma DictSpelt(es: seq<Entry>, low: int)
    requires DistinctKeys(es)
    ensures Spelt(Means(Dict(es)), low) <==> EntriesSpelt(es, low)
  {
    var d := MeansEntries(es);
    forall i | 0 <= i < |es| ensures es[i].key in d && d[es[i].key] == Means(es[i].value) {
      EntryMeans(es, i);
    }
    forall k | k in d ensures exists i :: 0 <= i < |es| && es[i].key == k && d[k] == Means(es[i].value) {
      var i := KeysAreThese(es, k);
    }
  }

  // ----- NUL characters in tokens -----

  /** Tokens at which the lexer breaks off. */
  predicate IsCut(t: Token) {
    t.code in {KEY, STRING} && t.load.Text? && '\0' in t.load.text
  }

  predicate NulFree(ts: seq<Token>) {
    forall i :: 0 <= i < |ts| ==> !IsCut(ts[i])
  }

  lemma NulFreeParts(a: seq<Token>, b: seq<Token>)
    ensures NulFree(a + b) <==> NulFree(a) && NulFree(b)
  {
    assert forall i :: 0 <= i < |a| ==> a[i] == (a + b)[i];
    assert forall i :: 0 <= i < |b| ==> b[i] == (a + b)[|a| + i];
  }

  lemma OneNulFree(t: Token)
    ensures NulFree([t]) <==> !IsCut(t)
  {
    assert [t][0] == t;
  }

  lemma TextIsNulFree(s: string, low: int)
    requires low == 0 || low == 1
    ensures InText(s, low) <==> IsAscii(s) && (low == 1 ==> '\0' !in s)
  {
    assert forall i :: 0 <= i < |s| ==> s[i] in s;
    if low == 1 && '\0' in s {
      var i :| 0 <= i < |s| && s[i] == '\0';
    }
  }

  // ----- the correspondence -----

  /** What has been ended before is well spelt. */
  ghost predicate Known(ids: Ids, open: set<Meaning>, low: int) {
    forall m :: m in ids.dict && m !in open ==> Spelt(m, low)
  }

  /** Written without failure and, for `low` 1, without a NUL character. */
  predicate Good(v: Value, ids: Ids, low: int) {
    Written(v, ids).Some? && (low == 1 ==> NulFree(Tokens(Written(v, ids).value.tree)))
  }

  predicate GoodAll(vs: seq<Value>, ids: Ids, low: int) {
    WrittenAll(vs, ids).Some? && (low == 1 ==> NulFree(TokensAll(WrittenAll(vs, ids).value.trees)))
  }

  predicate GoodEntries(es: seq<Entry>, ids: Ids, low: int) {
    WrittenEntries(es, ids).Some? && (low == 1 ==> NulFree(TokensPairs(WrittenEntries(es, ids).value.pairs)))
  }

  /** A value is written exactly if all its strings are ASCII, and its tokens survive the lexer
      exactly if none of them has a NUL character; sharing hides nothing. */
  lemma {:induction false} GoodIffSpelt(v: Value, ids: Ids, open: set<Meaning>, low: int)
    requires IsObject(v) && (low == 0 || low == 1)
    requires Known(ids, open, low) && Around(open, Means(v))
    ensures Good(v, ids, low) <==> Spelt(Means(v), low)
    ensures Good(v, ids, low) ==> Known(Written(v, ids).value.ids, open, low)
    decreases v, 1
  {
    NotOpen(open, Means(v));
    if !v.Bool? && Means(v) !in ids.dict {
      match v
      case Str(t) =>
        TextIsNulFree(t, low);
        OneNulFree(Token(STRING, Text(ids.count, t)));
      case Array(elems) => ListGoodIffSpelt(v, false, elems, ids, open, low);
      case Set(members) => ListGoodIffSpelt(v, true, members, ids, open, low);
      case Dict(entries) => DictGoodIffSpelt(entries, ids, open, low);
      case _ =>
    }
  }

  lemma {:induction false} ListGoodIffSpelt(v: Value, isSet: bool, elems: seq<Value>, ids: Ids, open: set<Meaning>,
      low: int)
    requires v == if isSet then Set(elems) else Array(elems)
    requires AllObjects(elems) && (low == 0 || low == 1) && Means(v) !in ids.dict
    requires Known(ids, open, low) && Around(open, Means(v))
    ensures Good(v, ids, low) <==> Spelt(Means(v), low)
    ensures Good(v, ids, low) ==> Known(Written(v, ids).value.ids, open, low)
    decreases elems, 1
  {
    var m := Means(v);
    forall e | e in elems ensures Around(open + {m}, Means(e)) {
      ArrayContains(elems, e);
      AroundElement(open, m, Means(e));
    }
    var ids' := Added(ids, m);
    AllGoodIffSpelt(elems, ids', open + {m}, low);
    ListSpelt(elems, low);
    if WrittenAll(elems, ids').Some? {
      ListTokensNulFree(isSet, ids.count, WrittenAll(elems, ids').value.trees, -1);
    }
  }

  lemma ListTokensNulFree(isSet: bool, open: int, ts: seq<Tree>, close: int)
    ensures NulFree(Tokens(Listing(isSet, open, ts, close))) <==> NulFree(TokensAll(ts))
  {
    NulFreeParts([OpenToken(isSet, open)], TokensAll(ts) + [CloseToken(isSet, close)]);
    NulFreeParts(TokensAll(ts), [CloseToken(isSet, close)]);
  }

  lemma {:induction false} AllGoodIffSpelt(vs: seq<Value>, ids: Ids, open: set<Meaning>, low: int)
    requires AllObjects(vs) && (low == 0 || low == 1)
    requires Known(ids, open, low) && forall v :: v in vs ==> Around(open, Means(v))
    ensures GoodAll(vs, ids, low) <==> AllSpelt(vs, low)
    ensures GoodAll(vs, ids, low) ==> Known(WrittenAll(vs, ids).value.ids, open, low)
    decreases vs, 0
  {
    if vs != [] {
      var front, last := vs[..|vs| - 1], vs[|vs| - 1];
      assert AllSpelt(vs, low) <==> AllSpelt(front, low) && Spelt(Means(last), low);
      AllGoodIffSpelt(front, ids, open, low);
      if WrittenAll(front, ids).Some? {
        LastTokens(front, last, ids);
        if GoodAll(front, ids, low) {
          GoodIffSpelt(last, WrittenAll(front, ids).value.ids, open, low);
        }
      }
    }
  }

  lemma LastTokens(front: seq<Value>, last: Value, ids: Ids)
    requires WrittenAll(front, ids).Some?
    ensures var r := WrittenAll(front, ids).value;
            Written(last, r.ids).Some? ==>
              var t := Written(last, r.ids).value.tree;
              NulFree(TokensAll(r.trees + [t])) <==> NulFree(TokensAll(r.trees)) && NulFree(Tokens(t))
  {
    var r := WrittenAll(front, ids).value;
    if Written(last, r.ids).Some? {
      var t := Written(last, r.ids).value.tree;
      assert (r.trees + [t])[..|r.trees|] == r.trees;
      NulFreeParts(TokensAll(r.trees), Tokens(t));
    }
  }

  lemma {:induction false} DictGoodIffSpelt(es: seq<Entry>, ids: Ids, open: set<Meaning>, low: int)
    requires DistinctKeys(es) && AllEntries(es) && (low == 0 || low == 1) && Means(Dict(es)) !in ids.dict
    requires Known(ids, open, low) && Around(open, Means(Dict(es)))
    ensures Good(Dict(es), ids, low) <==> Spelt(Means(Dict(es)), low)
    ensures Good(Dict(es), ids, low) ==> Known(Written(Dict(es), ids).value.ids, open, low)
    decreases es, 1
  {
    var m := Means(Dict(es));
    forall i | 0 <= i < |es| ensures Around(open + {m}, Means(es[i].value)) {
      DictContains(es, i);
      AroundElement(open, m, Means(es[i].value));
    }
    var ids' := Added(ids, m);
    EntriesGoodIffSpelt(es, ids', open + {m}, low);
    DictSpelt(es, low);
    if WrittenEntries(es, ids').Some? {
      DictTokensNulFree(ids.count, WrittenEntries(es, ids').value.pairs, -1);
    }
  }

  lemma DictTokensNulFree(open: int, ps: seq<Pair>, close: int)
    ensures NulFree(Tokens(Pairing(open, ps, close))) <==> NulFree(TokensPairs(ps))
  {
    NulFreeParts([Token(123, Mark(open))], TokensPairs(ps) + [Token(125, Mark(close))]);
    NulFreeParts(TokensPairs(ps), [Token(125, Mark(close))]);
  }

  lemma {:induction false} EntriesGoodIffSpelt(es: seq<Entry>, ids: Ids, open: set<Meaning>, low: int)
    requires AllEntries(es) && (low == 0 || low == 1)
    requires Known(ids, open, low) && forall i :: 0 <= i < |es| ==> Around(open, Means(es[i].value))
    ensures GoodEntries(es, ids, low) <==> EntriesSpelt(es, low)
    ensures GoodEntries(es, ids, low) ==> Known(WrittenEntries(es, ids).value.ids, open, low)
    decreases es, 0
  {
    if es != [] {
      var front, last := es[..|es| - 1], es[|es| - 1];
      assert EntriesSpelt(es, low) <==>
             EntriesSpelt(front, low) && InText(last.key, low) && Spelt(Means(last.value), low);
      EntriesGoodIffSpelt(front, ids, open, low);
      TextIsNulFree(last.key, low);
      if WrittenEntries(front, ids).Some? {
        LastPairTokens(front, last, ids);
        if GoodEntries(front, ids, low) {
          GoodIffSpelt(last.value, WrittenEntries(front, ids).value.ids, open, low);
        }
      }
    }
  }

  lemma LastPairTokens(front: seq<Entry>, last: Entry, ids: Ids)
    requires WrittenEntries(front, ids).Some?
    ensures var r := WrittenEntries(front, ids).value;
            Written(last.value, r.ids).Some? ==>
              var t := Written(last.value, r.ids).value.tree;
              NulFree(TokensPairs(r.pairs + [Pair(-1, last.key, t)]))
              <==> NulFree(TokensPairs(r.pairs)) && '\0' !in last.key && NulFree(Tokens(t))
  {
    var r := WrittenEntries(front, ids).value;
    if Written(last.value, r.ids).Some? {
      var t := Written(last.value, r.ids).value.tree;
      var p := Pair(-1, last.key, t);
      assert (r.pairs + [p])[..|r.pairs|] == r.pairs;
      NulFreeParts(TokensPairs(r.pairs), TokensPair(p));
      NulFreeParts([Token(KEY, Text(-1, last.key))], Tokens(t));
      OneNulFree(Token(KEY, Text(-1, last.key)));
    }
  }
}
