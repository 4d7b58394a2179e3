/** What the serializer writes for a value: text, and the parse tree that text stands for. */
module PlistWriting {
  import opened Basics
  import opened PlistText
  import opened PlistValues
  import opened Base64
  import opened PlistLexer
  import opened PlistTokens
  import opened PlistGrammar
  import opened PlistTrees

  /** idrefCount and idrefDict; the dictionary compares its keys by CFEqual. */
  datatype Ids = Ids(count: nat, dict: map<Meaning, nat>)

  const NO_IDS: Ids := Ids(0, map[])

  function Added(ids: Ids, m: Meaning): Ids {
    Ids(ids.count + 1, ids.dict[m := ids.count])
  }

  datatype Out = Out(text: string, tree: Tree, ids: Ids)
  datatype OutAll = OutAll(text: string, trees: seq<Tree>, ids: Ids)
  datatype OutPairs = OutPairs(text: string, pairs: seq<Pair>, ids: Ids)

  predicate IsAscii(s: string) {
    forall i :: 0 <= i < |s| ==> (s[i] as int) < 128
  }

  function TagName(v: Value): string {
    match v
    case Dict(_) => "dict"
    case Array(_) => "array"
    case Set(_) => "set"
    case Str(_) => "string"
    case Data(_) => "data"
    case Num(_, _) => "integer"
    case Bool(_) => "internal error"
  }

  /** What Core Foundation promises of an object: numbers fit their type and the keys of a
      dictionary differ. */
  ghost predicate IsObject(v: Value)
    decreases v, 1
  {
    match v
    case Dict(entries) => DistinctKeys(entries) && AllEntries(entries)
    case Array(elems) => AllObjects(elems)
    case Set(members) => AllObjects(members)
    case Num(size, number) => InRange(size, number)
    case _ => true
  }

  ghost predicate AllObjects(vs: seq<Value>)
    decreases vs, 0
  {
    vs == [] || (AllObjects(vs[..|vs| - 1]) && IsObject(vs[|vs| - 1]))
  }

  ghost predicate AllEntries(es: seq<Entry>)
    decreases es, 0
  {
    es == [] || (AllEntries(es[..|es| - 1]) && IsObject(es[|es| - 1].value))
  }

  predicate InRange(size: Size, number: int) {
    match size
    case 8 => -0x80 <= number < 0x80
    case 16 => -0x8000 <= number < 0x8000
    case 32 => -0x8000_0000 <= number < 0x8000_0000
    case _ => -0x8000_0000_0000_0000 <= number < 0x8000_0000_0000_0000
  }

  // ----- DoCFSerialize -----

  /** Nothing if a string cannot be converted to ASCII. Objects equal to one that was begun before
      become references to it; booleans never do. A container gets its id before its contents. */
  function Written(v: Value, ids: Ids): Option<Out>
    decreases v, 1
  {
    var id := ids.count;
    var ids' := Added(ids, Means(v));
    if v.Bool? then Some(Out(TruthText(v.b), Atom(Token(BOOLEAN, Truth(v.b))), ids))
    else if Means(v) in ids.dict then
      var old' := ids.dict[Means(v)];
      Some(Out(RefText(TagName(v), old'), Atom(Token(IDREF, Ref(old'))), ids))
    else
      match v
      case Num(size, n) =>
        Some(Out(NumberText(id, size, n), Atom(Token(NUMBER, Number(id, size, Signed64(Printed(size, n))))), ids'))
      case Str(t) =>
        if IsAscii(t) then Some(Out(StringText(id, t), Atom(Token(STRING, Text(id, t))), ids')) else None
      case Data(b) => Some(Out(DataText(id, b), Atom(Token(DATA, Bytes(id, b))), ids'))
      case Array(elems) => Enclosed("array", false, id, WrittenAll(elems, ids'))
      case Set(members) => Enclosed("set", true, id, WrittenAll(members, ids'))
      case Dict(entries) =>
        var r := WrittenEntries(entries, ids');
        if r.None? then None
        else Some(Out(StartText("dict", id) + r.value.text + EndText("dict"), Pairing(id, r.value.pairs, -1),
            r.value.ids))
  }

  function Enclosed(name: string, isSet: bool, id: nat, r: Option<OutAll>): Option<Out> {
    if r.None? then None
    else Some(Out(StartText(name, id) + r.value.text + EndText(name), Listing(isSet, id, r.value.trees, -1),
        r.value.ids))
  }

  function WrittenAll(vs: seq<Value>, ids: Ids): (r: Option<OutAll>)
    ensures r.Some? ==> |r.value.trees| == |vs|
    decreases vs, 0
  {
    if vs == [] then Some(OutAll([], [], ids))
    else
      var r := WrittenAll(vs[..|vs| - 1], ids);
      if r.None? then None
      else
        var e := Written(vs[|vs| - 1], r.value.ids);
        if e.None? then None
        else Some(OutAll(r.value.text + e.value.text, r.value.trees + [e.value.tree], e.value.ids))
  }

  function WrittenEntries(es: seq<Entry>, ids: Ids): (r: Option<OutPairs>)
    ensures r.Some? ==> |r.value.pairs| == |es|
    decreases es, 0
  {
    if es == [] then Some(OutPairs([], [], ids))
    else
      var r := WrittenEntries(es[..|es| - 1], ids);
      if r.None? then None
      else
        var last := es[|es| - 1];
        var e := Written(last.value, r.value.ids);
        if e.None? || !IsAscii(last.key) then None
        else
          Some(OutPairs(r.value.text + (KeyText(last.key) + e.value.text),
                        r.value.pairs + [Pair(-1, last.key, e.value.tree)], e.value.ids))
  }

  // ----- the text itself -----

  lemma OneAttrText(a: Attr)
    ensures AttrsText([a]) == AttrText(a)
  {
    assert [a][1..] == [];
    assert AttrText(a) + [] == AttrText(a);
  }

  lemma IdAttrText(name: string, value: string)
    ensures AttrText(Attr(name, value)) == " " + name + "=\"" + value + "\""
  {
  }

  lemma RefTextIs(name: string, n: nat)
    ensures RefText(name, n) == "<" + name + " IDREF=\"" + Numeral(n, 10) + "\"/>"
  {
    OneAttrText(Attr("IDREF", Numeral(n, 10)));
    IdAttrText("IDREF", Numeral(n, 10));
  }

  lemma StartTextIs(name: string, id: nat)
    ensures StartText(name, id) == "<" + name + " ID=\"" + Numeral(id, 10) + "\">"
  {
    OneAttrText(Attr("ID", Numeral(id, 10)));
    IdAttrText("ID", Numeral(id, 10));
  }

  lemma EndTextIs(name: string)
    ensures EndText(name) == "</" + name + ">"
  {
    assert AttrsText([]) == "";
  }

  /** The names of the elements. */
  predicate IsNameOf(v: Value, name: string) {
    && (v.Dict? ==> name == "dict") && (v.Array? ==> name == "array") && (v.Set? ==> name == "set")
    && (v.Str? ==> name == "string") && (v.Data? ==> name == "data") && (v.Num? ==> name == "integer")
  }

  /** An object equal to one that was begun before is written as an empty tag with its own element name
      and the id of that one. */
  lemma ReferenceText(v: Value, ids: Ids, name: string)
    requires !v.Bool? && Means(v) in ids.dict && IsNameOf(v, name)
    ensures Written(v, ids).Some? && Written(v, ids).value.ids == ids
    ensures Written(v, ids).value.text == "<" + name + " IDREF=\"" + Numeral(ids.dict[Means(v)], 10) + "\"/>"
  {
    RefTextIs(name, ids.dict[Means(v)]);
  }

  /** A new one is an element of that name with the next id, closed by its end tag. */
  lemma ElementText(v: Value, ids: Ids, name: string) returns (contents: string)
    requires (v.Dict? || v.Array? || v.Set? || v.Str? || v.Data?) && IsNameOf(v, name)
    requires Means(v) !in ids.dict && Written(v, ids).Some?
    ensures Written(v, ids).value.text
            == "<" + name + " ID=\"" + Numeral(ids.count, 10) + "\">" + contents + ("</" + name + ">")
    ensures v.Str? ==> contents == Escape(v.text)
    ensures v.Data? ==> contents == Encode(v.bytes)
  {
    StartTextIs(name, ids.count);
    EndTextIs(name);
    var ids' := Added(ids, Means(v));
    match v
    case Str(t) => contents := Escape(t); Assoc(StartText(name, ids.count), contents, EndText(name));
    case Data(b) => contents := Encode(b); Assoc(StartText(name, ids.count), contents, EndText(name));
    case Array(elems) => contents := WrittenAll(elems, ids').value.text;
    case Set(members) => contents := WrittenAll(members, ids').value.text;
    case Dict(entries) => contents := WrittenEntries(entries, ids').value.text;
  }

  /** A number carries its size, and is written in hexadecimal: the low 32 bits, or all 64. */
  lemma NumberElement(v: Value, ids: Ids)
    requires v.Num? && Means(v) !in ids.dict
    ensures Written(v, ids).Some?
    ensures Written(v, ids).value.text
            == "<integer ID=\"" + Numeral(ids.count, 10) + "\" size=\"" + Numeral(v.size, 10) + "\">" + "0x"
               + Numeral(if v.size <= 32 then v.number % 0x1_0000_0000 else v.number % 0x1_0000_0000_0000_0000, 16)
               + "</integer>"
  {
    var hex := Numeral(Printed(v.size, v.number), 16);
    NumberTagIs(Numeral(ids.count, 10), Numeral(v.size, 10));
    EndTextIs("integer");
    var tag := TagText(Start, "integer", NumberAttrs(ids.count, v.size));
    assert NumberText(ids.count, v.size, v.number) == tag + ("0x" + hex + "</integer>");
    Assoc(tag, "0x", hex);
    Assoc(tag, "0x" + hex, "</integer>");
  }

  lemma NumberTagIs(id: string, size: string)
    ensures TagText(Start, "integer", [Attr("ID", id), Attr("size", size)])
            == "<integer ID=\"" + id + "\" size=\"" + size + "\">"
  {
    var a, b := Attr("ID", id), Attr("size", size);
    assert [a, b][1..] == [b];
    OneAttrText(b);
    IdAttrText("ID", id);
    IdAttrText("size", size);
    assert TagText(Start, "integer", [a, b]) == "<" + ("integer" + ((AttrText(a) + AttrText(b)) + ">"));
  }
}
