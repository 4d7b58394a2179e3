/** Property-list values as Core Foundation objects, and when two of them are equal. */
module PlistValues {
  import opened Basics

  /** The width of a number's type. */
  type Size = s: nat | s == 8 || s == 16 || s == 32 || s == 64 witness 32

  /** A Core Foundation object. Dictionaries and sets list their contents in the order in which
      CFDictionaryGetKeysAndValues and CFSetGetValues deliver them; numbers carry the bits of their
      type. */
  datatype Value =
    | Dict(entries: seq<Entry>)
    | Array(elems: seq<Value>)
    | Set(members: seq<Value>)
    | Str(text: string)
    | Data(bytes: seq<Byte>)
    | Num(size: Size, number: int)
    | Bool(b: bool)

  datatype Entry = Entry(key: string, value: Value)

  /** What a value is up to CFEqual: dictionaries as maps, sets as sets, and numbers by their
      numeric value whatever their type. */
  datatype Meaning =
    | MDict(m: map<string, Meaning>)
    | MArray(a: seq<Meaning>)
    | MSet(s: set<Meaning>)
    | MStr(t: string)
    | MData(d: seq<Byte>)
    | MNum(n: int)
    | MBool(v: bool)

  function Means(v: Value): Meaning
    decreases v, 1
  {
    match v
    case Dict(entries) => MDict(MeansEntries(entries))
    case Array(elems) => MArray(MeansAll(elems))
    case Set(members) => MSet(Elements(MeansAll(members)))
    case Str(text) => MStr(text)
    case Data(bytes) => MData(bytes)
    case Num(_, number) => MNum(number)
    case Bool(b) => MBool(b)
  }

  function MeansAll(vs: seq<Value>): (r: seq<Meaning>)
    ensures |r| == |vs|
    ensures forall i :: 0 <= i < |vs| ==> r[i] == Means(vs[i])
    decreases vs, 0
  {
    if vs == [] then [] else MeansAll(vs[..|vs| - 1]) + [Means(vs[|vs| - 1])]
  }

  /** A later entry with the same key replaces an earlier one. */
  function MeansEntries(es: seq<Entry>): map<string, Meaning>
    decreases es, 0
  {
    if es == [] then map[]
    else
      var e := es[|es| - 1];
      MeansEntries(es[..|es| - 1])[e.key := Means(e.value)]
  }

  /** CFDictionarySetValue on the entries of a dictionary. */
  function SetEntry(es: seq<Entry>, k: string, v: Value): (r: seq<Entry>)
  {
    if es == [] then [Entry(k, v)]
    else if es[|es| - 1].key == k then es[..|es| - 1] + [Entry(k, v)]
    else SetEntry(es[..|es| - 1], k, v) + [es[|es| - 1]]
  }

  lemma {:induction false} SetEntryMeans(es: seq<Entry>, k: string, v: Value)
    ensures MeansEntries(SetEntry(es, k, v)) == MeansEntries(es)[k := Means(v)]
  {
    if es == [] {
      assert SetEntry(es, k, v)[..0] == [];
    } else {
      var init, e := es[..|es| - 1], es[|es| - 1];
      if e.key == k {
        assert (init + [Entry(k, v)])[..|init|] == init;
      } else {
        SetEntryMeans(init, k, v);
        assert (SetEntry(init, k, v) + [e])[..|SetEntry(init, k, v)|] == SetEntry(init, k, v);
      }
    }
  }

  /** CFSetAddValue on the members of a set: an equal member keeps its place. */
  function AddMember(ms: seq<Value>, v: Value): seq<Value> {
    if Means(v) in MeansAll(ms) then ms else ms + [v]
  }

  lemma MeansAllAppend(vs: seq<Value>, v: Value)
    ensures MeansAll(vs + [v]) == MeansAll(vs) + [Means(v)]
  {
    assert (vs + [v])[..|vs|] == vs;
  }

  function Elements(ms: seq<Meaning>): set<Meaning> {
    set m | m in ms
  }

  lemma AddMemberMeans(ms: seq<Value>, v: Value)
    ensures Elements(MeansAll(AddMember(ms, v))) == Elements(MeansAll(ms)) + {Means(v)}
  {
    var before := MeansAll(ms);
    if Means(v) !in before {
      MeansAllAppend(ms, v);
      assert forall m :: m in before + [Means(v)] <==> m in before || m == Means(v);
    }
  }

  // ----- nesting -----

  /** `outer` properly contains `inner`, at any depth. */
  ghost predicate Contains(outer: Meaning, inner: Meaning) {
    outer decreases to inner
  }

  lemma ContainsTransitive(a: Meaning, b: Meaning, c: Meaning)
    requires Contains(a, b) && Contains(b, c)
    ensures Contains(a, c)
  {
  }

  /** A value contains what it is made of, so it never equals any of it. */
  lemma ArrayContains(vs: seq<Value>, v: Value)
    requires v in vs
    ensures Contains(Means(Array(vs)), Means(v)) && Contains(Means(Set(vs)), Means(v))
  {
    var i :| 0 <= i < |vs| && vs[i] == v;
    assert MeansAll(vs)[i] == Means(v);
    assert Means(v) in Elements(MeansAll(vs));
  }

  /** A dictionary contains its values, if its keys are distinct. */
  ghost predicate DistinctKeys(es: seq<Entry>) {
    forall i, j :: 0 <= i < j < |es| ==> es[i].key != es[j].key
  }

  lemma {:induction false} EntryMeans(es: seq<Entry>, i: int)
    requires DistinctKeys(es) && 0 <= i < |es|
    ensures es[i].key in MeansEntries(es) && MeansEntries(es)[es[i].key] == Means(es[i].value)
  {
    if i < |es| - 1 { EntryMeans(es[..|es| - 1], i); }
  }

  lemma DictContains(es: seq<Entry>, i: int)
    requires DistinctKeys(es) && 0 <= i < |es|
    ensures Contains(Means(Dict(es)), Means(es[i].value))
  {
    EntryMeans(es, i);
  }
}
