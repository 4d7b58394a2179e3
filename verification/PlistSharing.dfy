/** References in the written text: every one names an object that is complete by then, so reading
    the tree back gives an equal value. */
module PlistSharing {
  import opened Basics
  import opened PlistText
  import opened PlistValues
  import opened PlistLexer
  import opened PlistTokens
  import opened PlistGrammar
  import opened PlistTrees
  import opened PlistWriting

  // ----- the containers that are open -----

  /** Containers begun and not yet ended all contain what is being written. */
  ghost predicate Around(open: set<Meaning>, m: Meaning) {
    forall o :: o in open ==> Contains(o, m)
  }

  /** Ids are distinct and below the next one. */
  ghost predicate DistinctIds(ids: Ids) {
    && (forall m :: m in ids.dict ==> ids.dict[m] < ids.count)
    && (forall m, n :: m in ids.dict && n in ids.dict && ids.dict[m] == ids.dict[n] ==> m == n)
  }

  /** Every object that has been ended is remembered under its id. */
  ghost predicate Remembered(ids: Ids, open: set<Meaning>, tags: Tags) {
    && DistinctIds(ids)
    && forall m :: m in ids.dict && m !in open ==> ids.dict[m] in tags && Means(tags[ids.dict[m]]) == m
  }

  lemma AroundElement(open: set<Meaning>, outer: Meaning, m: Meaning)
    requires Around(open, outer) && Contains(outer, m)
    ensures Around(open + {outer}, m)
  {
    forall o | o in open + {outer} ensures Contains(o, m) {
      if o != outer { ContainsTransitive(o, outer, m); }
    }
  }

  lemma NotOpen(open: set<Meaning>, m: Meaning)
    requires Around(open, m)
    ensures m !in open
  {
  }

  /** A new id leaves what is remembered in place. */
  lemma Begin(ids: Ids, open: set<Meaning>, tags: Tags, m: Meaning)
    requires Remembered(ids, open, tags) && m !in ids.dict
    ensures Remembered(Added(ids, m), open + {m}, tags)
  {
  }

  /** Remembering an object ends it. */
  lemma End(ids: Ids, open: set<Meaning>, tags: Tags, m: Meaning, w: Value)
    requires Remembered(ids, open + {m}, tags) && m in ids.dict && Means(w) == m
    ensures Remembered(ids, open, Remember(tags, ids.dict[m], w))
  {
  }

  /** What is written under an id stays so. */
  ghost predicate Extends(new': Ids, old': Ids) {
    forall m :: m in old'.dict ==> m in new'.dict && new'.dict[m] == old'.dict[m]
  }

  // ----- numbers -----

  /** The printed bits give the number back, whatever its type. */
  lemma NumberSurvives(size: Size, number: int)
    requires InRange(size, number)
    ensures BuiltNumber(size, Signed64(Printed(size, number))).number == number
  {
  }

  // ----- reading back -----

  ghost predicate ReadsBack(v: Value, r: Out, open: set<Meaning>, tags: Tags) {
    && WellFormed(r.tree)
    && var e := Eval(r.tree, tags);
       e.Some? && Means(e.value.0) == Means(v) && Remembered(r.ids, open, e.value.1)
  }

  /** The tree written for a value means that value, and no reference in it comes too early. */
  lemma {:induction false} TreeMeansValue(v: Value, ids: Ids, open: set<Meaning>, tags: Tags)
    requires IsObject(v) && Written(v, ids).Some?
    requires Remembered(ids, open, tags) && Around(open, Means(v))
    ensures Extends(Written(v, ids).value.ids, ids)
    ensures ReadsBack(v, Written(v, ids).value, open, tags)
    decreases v, 1
  {
    NotOpen(open, Means(v));
    if !v.Bool? && Means(v) !in ids.dict {
      var m := Means(v);
      Begin(ids, open, tags, m);
      match v
      case Num(_, _) => LeafMeansValue(v, ids, open, tags);
      case Str(_) => LeafMeansValue(v, ids, open, tags);
      case Data(_) => LeafMeansValue(v, ids, open, tags);
      case Array(elems) => ListMeansValue(v, false, elems, ids, open, tags);
      case Set(members) => ListMeansValue(v, true, members, ids, open, tags);
      case Dict(entries) => DictMeansValue(entries, ids, open, tags);
    }
  }

  lemma LeafMeansValue(v: Value, ids: Ids, open: set<Meaning>, tags: Tags)
    requires IsObject(v) && (v.Num? || v.Str? || v.Data?) && Written(v, ids).Some? && Means(v) !in ids.dict
    requires Remembered(ids, open, tags)
    ensures Extends(Written(v, ids).value.ids, ids)
    ensures ReadsBack(v, Written(v, ids).value, open, tags)
  {
    var m := Means(v);
    Begin(ids, open, tags, m);
    if v.Num? {
      NumberSurvives(v.size, v.number);
      End(Added(ids, m), open, tags, m, BuiltNumber(v.size, Signed64(Printed(v.size, v.number))));
    } else {
      End(Added(ids, m), open, tags, m, v);
    }
  }

  /** The contents of a list give back its meaning, as an array and as a set. */
  lemma ListFromItems(isSet: bool, elems: seq<Value>, items: seq<Item>)
    requires MeansAll(Values(items)) == MeansAll(elems)
    ensures Means(if isSet then Set(BuiltSet(items)) else Array(Values(items)))
            == Means(if isSet then Set(elems) else Array(elems))
  {
    BuiltSetMeans(items);
  }

  lemma ListReadsBack(v: Value, isSet: bool, name: string, m: Meaning, id: nat, all: OutAll, items: seq<Item>,
                      open: set<Meaning>, before: Tags, tags: Tags)
    requires AllWellFormed(all.trees) && EvalAll(all.trees, before) == Some((items, tags))
    requires Means(if isSet then Set(BuiltSet(items)) else Array(Values(items))) == Means(v) == m
    requires Remembered(all.ids, open + {m}, tags) && m in all.ids.dict && all.ids.dict[m] == id
    ensures ReadsBack(v, Enclosed(name, isSet, id, Some(all)).value, open, before)
  {
    End(all.ids, open, tags, m, if isSet then Set(BuiltSet(items)) else Array(Values(items)));
  }

  lemma {:induction false} ListMeansValue(v: Value, isSet: bool, elems: seq<Value>, ids: Ids, open: set<Meaning>,
      tags: Tags)
    requires v == if isSet then Set(elems) else Array(elems)
    requires AllObjects(elems) && Written(v, ids).Some? && Means(v) !in ids.dict
    requires Remembered(ids, open, tags) && Around(open, Means(v))
    ensures Extends(Written(v, ids).value.ids, ids)
    ensures ReadsBack(v, Written(v, ids).value, open, tags)
    decreases elems, 1
  {
    var m := Means(v);
    var ids' := Added(ids, m);
    Begin(ids, open, tags, m);
    forall e | e in elems ensures Around(open + {m}, Means(e)) {
      ArrayContains(elems, e);
      AroundElement(open, m, Means(e));
    }
    TreesMeanValues(elems, ids', open + {m}, tags);
    var r := WrittenAll(elems, ids').value;
    var e := EvalAll(r.trees, tags).value;
    ListFromItems(isSet, elems, e.0);
    ListReadsBack(v, isSet, if isSet then "set" else "array", m, ids.count, r, e.0, open, tags, e.1);
  }

  lemma {:induction false} BuiltSetMeans(items: seq<Item>)
    ensures Elements(MeansAll(BuiltSet(items))) == Elements(MeansAll(Values(items)))
  {
    if items != [] {
      var front, last := items[..|items| - 1], items[|items| - 1].obj;
      BuiltSetMeans(front);
      AddMemberMeans(BuiltSet(front), last);
      MeansAllAppend(Values(front), last);
      assert Elements(MeansAll(Values(front)) + [Means(last)]) == Elements(MeansAll(Values(front))) + {Means(last)};
    }
  }

  lemma {:induction false} TreesMeanValues(vs: seq<Value>, ids: Ids, open: set<Meaning>, tags: Tags)
    requires AllObjects(vs) && WrittenAll(vs, ids).Some?
    requires Remembered(ids, open, tags) && forall v :: v in vs ==> Around(open, Means(v))
    ensures var r := WrittenAll(vs, ids).value;
            && Extends(r.ids, ids) && AllWellFormed(r.trees)
            && var e := EvalAll(r.trees, tags);
               e.Some? && MeansAll(Values(e.value.0)) == MeansAll(vs) && Remembered(r.ids, open, e.value.1)
    decreases vs, 0
  {
    if vs != [] {
      var front, last := vs[..|vs| - 1], vs[|vs| - 1];
      TreesMeanValues(front, ids, open, tags);
      var r := WrittenAll(front, ids).value;
      var e := EvalAll(r.trees, tags).value;
      TreeMeansValue(last, r.ids, open, e.1);
      var q := Written(last, r.ids).value;
      assert (r.trees + [q.tree])[..|r.trees|] == r.trees;
      var i := Item(None, Eval(q.tree, e.1).value.0);
      assert (e.0 + [i])[..|e.0|] == e.0;
      MeansAllAppend(Values(e.0), i.obj);
    }
  }

  lemma DictReadsBack(v: Value, m: Meaning, id: nat, all: OutPairs, items: seq<Item>, text: string,
                      open: set<Meaning>, before: Tags, tags: Tags)
    requires PairsWellFormed(all.pairs) && EvalPairs(all.pairs, before) == Some((items, tags))
    requires (forall i :: 0 <= i < |items| ==> items[i].key.Some?) && Means(Dict(BuiltDict(items))) == Means(v) == m
    requires Remembered(all.ids, open + {m}, tags) && m in all.ids.dict && all.ids.dict[m] == id
    ensures ReadsBack(v, Out(text, Pairing(id, all.pairs, -1), all.ids), open, before)
  {
    End(all.ids, open, tags, m, Dict(BuiltDict(items)));
  }

  lemma {:induction false} DictMeansValue(es: seq<Entry>, ids: Ids, open: set<Meaning>, tags: Tags)
    requires DistinctKeys(es) && AllEntries(es) && Written(Dict(es), ids).Some? && Means(Dict(es)) !in ids.dict
    requires Remembered(ids, open, tags) && Around(open, Means(Dict(es)))
    ensures Extends(Written(Dict(es), ids).value.ids, ids)
    ensures ReadsBack(Dict(es), Written(Dict(es), ids).value, open, tags)
    decreases es, 1
  {
    var m := Means(Dict(es));
    var ids' := Added(ids, m);
    Begin(ids, open, tags, m);
    forall i | 0 <= i < |es| ensures Around(open + {m}, Means(es[i].value)) {
      DictContains(es, i);
      AroundElement(open, m, Means(es[i].value));
    }
    PairsMeanEntries(es, ids', open + {m}, tags);
    var r := WrittenEntries(es, ids').value;
    var e := EvalPairs(r.pairs, tags).value;
    DictReadsBack(Dict(es), m, ids.count, r, e.0, Written(Dict(es), ids).value.text, open, tags, e.1);
  }

  lemma {:induction false} PairsMeanEntries(es: seq<Entry>, ids: Ids, open: set<Meaning>, tags: Tags)
    requires AllEntries(es) && WrittenEntries(es, ids).Some?
    requires Remembered(ids, open, tags) && forall i :: 0 <= i < |es| ==> Around(open, Means(es[i].value))
    ensures var r := WrittenEntries(es, ids).value;
            && Extends(r.ids, ids) && PairsWellFormed(r.pairs)
            && var e := EvalPairs(r.pairs, tags);
               && e.Some? && (forall i :: 0 <= i < |e.value.0| ==> e.value.0[i].key.Some?)
               && MeansEntries(BuiltDict(e.value.0)) == MeansEntries(es) && Remembered(r.ids, open, e.value.1)
    decreases es, 0
  {
    if es != [] {
      var front, last := es[..|es| - 1], es[|es| - 1];
      PairsMeanEntries(front, ids, open, tags);
      var r := WrittenEntries(front, ids).value;
      var e := EvalPairs(r.pairs, tags).value;
      TreeMeansValue(last.value, r.ids, open, e.1);
      var q := Written(last.value, r.ids).value;
      var p := Pair(-1, last.key, q.tree);
      assert (r.pairs + [p])[..|r.pairs|] == r.pairs;
      var i := Item(Some(last.key), Eval(q.tree, e.1).value.0);
      assert (e.0 + [i])[..|e.0|] == e.0;
      SetEntryMeans(BuiltDict(e.0), last.key, i.obj);
    }
  }
}
