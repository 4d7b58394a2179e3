/** Unserializing what was serialized: for which values it gives an equal value back. */
module PlistRoundTrip {
  import opened Basics
  import opened PlistText
  import opened PlistValues
  import opened PlistLexer
  import opened PlistTokens
  import opened PlistTables
  import opened PlistGrammar
  import opened PlistTrees
  import opened PlistDescent
  import opened PlistWriting
  import opened PlistSharing
  import opened PlistSpelling
  import opened PlistLexing

  const NUL: string := "\0"

  lemma NulEndsTheInput()
    ensures LexAll(NUL) == []
  {
    LexAtNul(NUL);
  }

  lemma NoTokensMore(ts: seq<Token>)
    ensures ts + [] == ts
  {
  }

  /** The tokens the parser gets to see. */
  lemma TokensOfWritten(v: Value)
    requires IsObject(v) && Written(v, NO_IDS).Some? && Written(v, NO_IDS).value.ids.count <= MOST_IDS
    ensures var r := Written(v, NO_IDS).value; LexAll(r.text + NUL) == Cut(Tokens(r.tree), [])
  {
    NulEndsTheInput();
    TextIsTokens(v, NO_IDS, NUL);
  }

  lemma GoodTree(t: Tree)
    requires WellFormed(t) && NulFree(Tokens(t)) && Eval(t, map[]).Some?
    ensures AllFit(Cut(Tokens(t), []))
    ensures Run(Config(Bottom, Cut(Tokens(t), []), map[]))
            == if 1 + Peak(t) >= YYMAXDEPTH then Rejected else Accepted(Some(Eval(t, map[]).value.0))
  {
    NothingCut(Tokens(t), []);
    NoTokensMore(Tokens(t));
    TreeHasNoError(t);
    TreeBegins(t);
    TreeIsRead(t, []);
    TablesAreTheGrammar(Tokens(t));
  }

  lemma CutTree(t: Tree)
    requires WellFormed(t) && !NulFree(Tokens(t))
    ensures AllFit(Cut(Tokens(t), []))
    ensures Run(Config(Bottom, Cut(Tokens(t), []), map[])) == Rejected
  {
    var k := WhereCut(Tokens(t), []);
    BrokenTreeIsNoTree(t, k);
    TreeBegins(t);
    TablesAreTheGrammar(Tokens(t)[..k] + [ERROR_TOKEN]);
  }

  /** A value can be serialized exactly if all of its strings and keys are ASCII. What was
      serialized unserializes to an equal value exactly if, besides, no string or key has a NUL
      character and the parser's stack has room for the nesting; otherwise it is rejected. Every
      reference on the way names an object that is already complete. */
  lemma RoundTrip(v: Value)
    requires IsObject(v)
    ensures Written(v, NO_IDS).Some? <==> Spelt(Means(v), 0)
    ensures Written(v, NO_IDS).Some? && Written(v, NO_IDS).value.ids.count <= MOST_IDS ==>
              var r := Written(v, NO_IDS).value;
              var o := Parse(r.text + NUL);
              if Spelt(Means(v), 1) && 1 + Peak(r.tree) < YYMAXDEPTH then
                o.Accepted? && o.result.Some? && Means(o.result.value) == Means(v)
              else o == Rejected
  {
    GoodIffSpelt(v, NO_IDS, {}, 0);
    GoodIffSpelt(v, NO_IDS, {}, 1);
    if Written(v, NO_IDS).Some? && Written(v, NO_IDS).value.ids.count <= MOST_IDS {
      var r := Written(v, NO_IDS).value;
      TokensOfWritten(v);
      TreeMeansValue(v, NO_IDS, {}, map[]);
      if NulFree(Tokens(r.tree)) {
        GoodTree(r.tree);
      } else {
        CutTree(r.tree);
      }
    }
  }

  // ----- a sufficient condition on the value alone -----

  function Nesting(v: Value): nat
    decreases v, 1
  {
    match v
    case Dict(entries) => 1 + NestingEntries(entries)
    case Array(elems) => 1 + NestingAll(elems)
    case Set(members) => 1 + NestingAll(members)
    case _ => 0
  }

  function NestingAll(vs: seq<Value>): nat
    decreases vs, 0
  {
    if vs == [] then 0 else Max(NestingAll(vs[..|vs| - 1]), Nesting(vs[|vs| - 1]))
  }

  function NestingEntries(es: seq<Entry>): nat
    decreases es, 0
  {
    if es == [] then 0 else Max(NestingEntries(es[..|es| - 1]), Nesting(es[|es| - 1].value))
  }

  lemma {:induction false} TreeIsNoDeeper(v: Value, ids: Ids)
    requires Written(v, ids).Some?
    ensures Depth(Written(v, ids).value.tree) <= Nesting(v)
    decreases v, 1
  {
    var ids' := Added(ids, Means(v));
    if !v.Bool? && Means(v) !in ids.dict {
      match v
      case Array(elems) => TreesAreNoDeeper(elems, ids');
      case Set(members) => TreesAreNoDeeper(members, ids');
      case Dict(entries) => PairsAreNoDeeper(entries, ids');
      case _ =>
    }
  }

  lemma {:induction false} TreesAreNoDeeper(vs: seq<Value>, ids: Ids)
    requires WrittenAll(vs, ids).Some?
    ensures DepthAll(WrittenAll(vs, ids).value.trees) <= NestingAll(vs)
    decreases vs, 0
  {
    if vs != [] {
      var r := WrittenAll(vs[..|vs| - 1], ids).value;
      TreesAreNoDeeper(vs[..|vs| - 1], ids);
      TreeIsNoDeeper(vs[|vs| - 1], r.ids);
      var t := Written(vs[|vs| - 1], r.ids).value.tree;
      assert (r.trees + [t])[..|r.trees|] == r.trees;
    }
  }

  lemma {:induction false} PairsAreNoDeeper(es: seq<Entry>, ids: Ids)
    requires WrittenEntries(es, ids).Some?
    ensures DepthPairs(WrittenEntries(es, ids).value.pairs) <= NestingEntries(es)
    decreases es, 0
  {
    if es != [] {
      var last := es[|es| - 1];
      var r := WrittenEntries(es[..|es| - 1], ids).value;
      PairsAreNoDeeper(es[..|es| - 1], ids);
      TreeIsNoDeeper(last.value, r.ids);
      var p := Pair(-1, last.key, Written(last.value, r.ids).value.tree);
      assert (r.pairs + [p])[..|r.pairs|] == r.pairs;
    }
  }

  /** Up to 3332 levels of nesting always fit, whatever the number of elements. */
  lemma ModestValuesSurvive(v: Value)
    requires IsObject(v) && Spelt(Means(v), 1) && Nesting(v) <= 3332
    ensures Written(v, NO_IDS).Some?
    ensures Written(v, NO_IDS).value.ids.count <= MOST_IDS ==>
              var o := Parse(Written(v, NO_IDS).value.text + NUL);
              o.Accepted? && o.result.Some? && Means(o.result.value) == Means(v)
  {
    GoodIffSpelt(v, NO_IDS, {}, 1);
    RoundTrip(v);
    TreeIsNoDeeper(v, NO_IDS);
    PeakIsNesting(Written(v, NO_IDS).value.tree);
  }
}
