/** The serializer as it runs: it appends to a buffer and numbers the objects it has begun. */
module PlistSerializer {
  import opened Basics
  import opened PlistText
  import opened PlistValues
  import opened Base64
  import opened PlistLexer
  import opened PlistTokens
  import opened PlistWriting

  // ----- the formats -----

  lemma AttrFormat(name: string, value: string)
    ensures " " + name + "=\"" + value + "\"" == AttrText(Attr(name, value))
  {
  }

  lemma TagFormat(kind: Kind, name: string, attrs: seq<Attr>)
    ensures (if kind == End then "</" else "<") + name + AttrsText(attrs) + (if kind == Empty then "/>" else ">")
            == TagText(kind, name, attrs)
  {
    var open, end := if kind == End then "</" else "<", if kind == Empty then "/>" else ">";
    Assoc(open, name, AttrsText(attrs));
    Assoc(open, name + AttrsText(attrs), end);
    Assoc(name, AttrsText(attrs), end);
  }

  lemma OneAttr(a: Attr)
    ensures AttrsText([a]) == AttrText(a)
  {
    assert [a][1..] == [];
    assert AttrText(a) + [] == AttrText(a);
  }

  lemma StartFormat(name: string, id: nat)
    ensures "<" + name + (" ID=\"" + Numeral(id, 10) + "\"") + ">" == StartText(name, id)
  {
    var a := Attr("ID", Numeral(id, 10));
    AttrFormat("ID", a.value);
    OneAttr(a);
    assert " ID=\"" == " " + "ID" + "=\"";
    TagFormat(Start, name, [a]);
  }

  lemma RefFormat(name: string, id: nat)
    ensures "<" + name + (" IDREF=\"" + Numeral(id, 10) + "\"") + "/>" == RefText(name, id)
  {
    var a := Attr("IDREF", Numeral(id, 10));
    AttrFormat("IDREF", a.value);
    OneAttr(a);
    assert " IDREF=\"" == " " + "IDREF" + "=\"";
    TagFormat(Empty, name, [a]);
  }

  lemma NumberFormat(id: nat, size: nat)
    ensures "<" + "integer" + (" ID=\"" + Numeral(id, 10) + "\"" + (" size=\"" + Numeral(size, 10) + "\"")) + ">"
            == TagText(Start, "integer", NumberAttrs(id, size))
  {
    var a, b := Attr("ID", Numeral(id, 10)), Attr("size", Numeral(size, 10));
    AttrFormat("ID", a.value);
    AttrFormat("size", b.value);
    OneAttr(b);
    assert " ID=\"" == " " + "ID" + "=\"" && " size=\"" == " " + "size" + "=\"";
    assert NumberAttrs(id, size)[1..] == [b];
    TagFormat(Start, "integer", NumberAttrs(id, size));
  }

  lemma EndFormat(name: string)
    ensures "</" + name + ">" == EndText(name)
  {
    TagFormat(End, name, []);
    assert "</" + name + [] == "</" + name;
  }

  lemma TruthFormat(b: bool)
    ensures (if b then "<true/>" else "<false/>") == TruthText(b)
  {
  }

  lemma KeyFormat(t: string)
    ensures "<key>" + Escape(t) + "</key>" == KeyText(t)
  {
    assert TagText(Start, "key", []) == "<key>" && EndText("key") == "</key>";
    Assoc("<key>", Escape(t), "</key>");
  }

  // ----- lists that were broken off -----

  lemma {:induction false} BrokenList(vs: seq<Value>, i: nat, ids: Ids)
    requires i <= |vs| && WrittenAll(vs[..i], ids).None?
    ensures WrittenAll(vs, ids).None?
    decreases |vs| - i
  {
    if i < |vs| {
      assert vs[..i + 1][..i] == vs[..i];
      BrokenList(vs, i + 1, ids);
    } else {
      assert vs[..i] == vs;
    }
  }

  lemma {:induction false} BrokenEntries(es: seq<Entry>, i: nat, ids: Ids)
    requires i <= |es| && WrittenEntries(es[..i], ids).None?
    ensures WrittenEntries(es, ids).None?
    decreases |es| - i
  {
    if i < |es| {
      assert es[..i + 1][..i] == es[..i];
      BrokenEntries(es, i + 1, ids);
    } else {
      assert es[..i] == es;
    }
  }

  class Serializer {
    var data: string
    var idrefCount: nat
    var idrefDict: map<Meaning, nat>

    constructor ()
      ensures data == [] && State() == NO_IDS
    {
      data, idrefCount, idrefDict := [], 0, map[];
    }

    function State(): Ids
      reads this
    {
      Ids(idrefCount, idrefDict)
    }

    /** The state after writing `r` on top of `before`. */
    predicate Wrote(before: string, r: Out)
      reads this
    {
      data == before + r.text && State() == r.ids
    }

    method AddString(s: string)
      modifies `data
      ensures data == old(data) + s
    {
      data := data + s;
    }

    method AddChar(c: char)
      modifies `data
      ensures data == old(data) + [c]
    {
      data := data + [c];
    }

    method PreviouslySerialized(v: Value) returns (found: bool)
      requires !v.Bool?
      modifies this
      ensures found == (Means(v) in old(idrefDict))
      ensures found ==> Written(v, old(State())).Some? && Wrote(old(data), Written(v, old(State())).value)
      ensures !found ==> data == old(data) && State() == Added(old(State()), Means(v))
    {
      if Means(v) in idrefDict {
        var id := idrefDict[Means(v)];
        AddString("<" + TagName(v) + (" IDREF=\"" + Numeral(id, 10) + "\"") + "/>");
        RefFormat(TagName(v), id);
        return true;
      }
      idrefDict := idrefDict[Means(v) := idrefCount];
      idrefCount := idrefCount + 1;
      return false;
    }

    method AddStartTag(v: Value, additionalTags: string)
      requires Means(v) in idrefDict
      modifies `data
      ensures data == old(data)
        + ("<" + TagName(v) + (" ID=\"" + Numeral(idrefDict[Means(v)], 10) + "\"" + additionalTags) + ">")
    {
      AddString("<" + TagName(v) + (" ID=\"" + Numeral(idrefDict[Means(v)], 10) + "\"" + additionalTags) + ">");
    }

    /** The same for the tags that have no further attributes. */
    method AddPlainStartTag(v: Value)
      requires Means(v) in idrefDict
      modifies `data
      ensures data == old(data) + StartText(TagName(v), idrefDict[Means(v)])
    {
      AddStartTag(v, "");
      var id := " ID=\"" + Numeral(idrefDict[Means(v)], 10) + "\"";
      assert id + "" == id;
      StartFormat(TagName(v), idrefDict[Means(v)]);
    }

    method AddEndTag(v: Value)
      modifies `data
      ensures data == old(data) + EndText(TagName(v))
    {
      AddString("</" + TagName(v) + ">");
      EndFormat(TagName(v));
    }

    method SerializeNumber(v: Value) returns (ok: bool)
      requires v.Num?
      modifies this
      ensures ok && Wrote(old(data), Written(v, old(State())).value)
    {
      ghost var before, id := data, idrefCount;
      var found := PreviouslySerialized(v);
      if found { return true; }
      AddStartTag(v, " size=\"" + Numeral(v.size, 10) + "\"");
      NumberFormat(id, v.size);
      ghost var start := TagText(Start, "integer", NumberAttrs(id, v.size));
      assert data == before + start;
      if v.size <= 32 {
        AddString("0x" + Numeral(v.number % TWO32, 16));
      } else {
        AddString("0x" + Numeral(v.number % TWO64, 16));
      }
      ghost var hex := "0x" + Numeral(Printed(v.size, v.number), 16);
      AddEndTag(v);
      Assoc(before + start, hex, EndText("integer"));
      Assoc(before, start, hex + EndText("integer"));
      ok := true;
    }

    method SerializeBoolean(v: Value) returns (ok: bool)
      requires v.Bool?
      modifies `data
      ensures ok && Wrote(old(data), Written(v, old(State())).value)
    {
      AddString(if v.b then "<true/>" else "<false/>");
      TruthFormat(v.b);
      ok := true;
    }

    /** The characters of a string or key, escaped; nothing is copied of a string that is not ASCII. */
    method AddEscaped(text: string) returns (ok: bool)
      modifies `data
      ensures ok == IsAscii(text)
      ensures ok ==> data == old(data) + Escape(text)
    {
      if !IsAscii(text) { return false; }
      var i := 0;
      while i < |text|
        invariant i <= |text|
        invariant data + Escape(text[i..]) == old(data) + Escape(text)
      {
        ghost var sofar := data;
        assert text[i..][1..] == text[i + 1..];
        if text[i] == '<' {
          AddString("&lt;");
        } else if text[i] == '>' {
          AddString("&gt;");
        } else if text[i] == '&' {
          AddString("&amp;");
        } else {
          AddChar(text[i]);
        }
        Assoc(sofar, EscapeChar(text[i]), Escape(text[i + 1..]));
        i := i + 1;
      }
      assert text[i..] == [] && data + [] == data;
      return true;
    }

    method SerializeString(v: Value) returns (ok: bool)
      requires v.Str?
      modifies this
      ensures ok == Written(v, old(State())).Some?
      ensures ok ==> Wrote(old(data), Written(v, old(State())).value)
    {
      ghost var before, start := data, StartText("string", idrefCount);
      var found := PreviouslySerialized(v);
      if found { return true; }
      AddPlainStartTag(v);
      ok := AddEscaped(v.text);
      if !ok { return; }
      AddEndTag(v);
      Assoc(before + start, Escape(v.text), EndText("string"));
      Assoc(before, start, Escape(v.text) + EndText("string"));
    }

    method SerializeKey(key: string) returns (ok: bool)
      modifies `data
      ensures ok == IsAscii(key)
      ensures ok ==> data == old(data) + KeyText(key)
    {
      ghost var before := data;
      AddString("<key>");
      ok := AddEscaped(key);
      if !ok { return; }
      AddString("</key>");
      KeyFormat(key);
      Assoc(before + "<key>", Escape(key), "</key>");
      Assoc(before, "<key>", Escape(key) + "</key>");
      Assoc("<key>", Escape(key), "</key>");
    }

    /** Base64: three bytes become four characters, and the last group is padded. */
    method AddEncoded(bytes: seq<Byte>)
      modifies `data
      ensures data == old(data) + Encode(bytes)
    {
      var i := 0;
      assert data + [] == data;
      while i < |bytes|
        invariant i <= |bytes|
        invariant data == old(data) + Stream(bytes, i)
      {
        ghost var sofar := data;
        AddDigits(bytes, i);
        Assoc(old(data), Stream(bytes, i), Emitted(bytes, i));
        i := i + 1;
      }
      ghost var sofar := data;
      if i % 3 == 1 {
        AddString([Letter(bytes[i - 1] % 4 * 16), '=', '=']);
      } else if i % 3 == 2 {
        AddString([Letter(bytes[i - 1] % 16 * 4), '=']);
      }
      assert data == sofar + Padding(bytes);
      Assoc(old(data), Stream(bytes, |bytes|), Padding(bytes));
    }

    method AddDigits(bytes: seq<Byte>, i: nat)
      requires i < |bytes|
      modifies `data
      ensures data == old(data) + Emitted(bytes, i)
    {
      if i % 3 == 0 {
        AddChar(Letter(bytes[i] / 4));
      } else if i % 3 == 1 {
        AddChar(Letter(Joined(bytes[i - 1], bytes[i]) / 16 % 64));
      } else {
        AddChar(Letter(Joined(bytes[i - 1], bytes[i]) / 64 % 64));
        AddChar(Letter(bytes[i] % 64));
      }
    }

    method SerializeData(v: Value) returns (ok: bool)
      requires v.Data?
      modifies this
      ensures ok && Wrote(old(data), Written(v, old(State())).value)
    {
      ghost var before, start := data, StartText("data", idrefCount);
      var found := PreviouslySerialized(v);
      if found { return true; }
      AddPlainStartTag(v);
      AddEncoded(v.bytes);
      AddEndTag(v);
      Assoc(before + start, Encode(v.bytes), EndText("data"));
      Assoc(before, start, Encode(v.bytes) + EndText("data"));
      ok := true;
    }

    /** The elements of an array, or the members of a set in the order in which they come. */
    method SerializeAll(vs: seq<Value>) returns (ok: bool)
      modifies this
      ensures ok == WrittenAll(vs, old(State())).Some?
      ensures ok ==> data == old(data) + WrittenAll(vs, old(State())).value.text
      ensures ok ==> State() == WrittenAll(vs, old(State())).value.ids
      decreases vs, 0
    {
      ghost var before, ids := data, State();
      ok := true;
      var i := 0;
      assert data + [] == data;
      while ok && i < |vs|
        invariant i <= |vs|
        invariant ok == WrittenAll(vs[..i], ids).Some?
        invariant ok ==> data == before + WrittenAll(vs[..i], ids).value.text
        invariant ok ==> State() == WrittenAll(vs[..i], ids).value.ids
      {
        ghost var r := WrittenAll(vs[..i], ids).value;
        assert vs[..i + 1][..i] == vs[..i];
        ok := Serialize(vs[i]);
        if ok { Assoc(before, r.text, Written(vs[i], r.ids).value.text); }
        i := i + 1;
      }
      assert vs[..|vs|] == vs;
      if !ok { BrokenList(vs, i, ids); }
    }

    method SerializeEntry(e: Entry) returns (ok: bool)
      modifies this
      ensures ok == (IsAscii(e.key) && Written(e.value, old(State())).Some?)
      ensures ok ==> data == old(data) + (KeyText(e.key) + Written(e.value, old(State())).value.text)
      ensures ok ==> State() == Written(e.value, old(State())).value.ids
      decreases e, 0
    {
      ghost var before, ids := data, State();
      ok := SerializeKey(e.key);
      if ok {
        ok := Serialize(e.value);
        if ok { Assoc(before, KeyText(e.key), Written(e.value, ids).value.text); }
      }
    }

    method SerializeEntries(es: seq<Entry>) returns (ok: bool)
      modifies this
      ensures ok == WrittenEntries(es, old(State())).Some?
      ensures ok ==> data == old(data) + WrittenEntries(es, old(State())).value.text
      ensures ok ==> State() == WrittenEntries(es, old(State())).value.ids
      decreases es, 0
    {
      ghost var before, ids := data, State();
      ok := true;
      var i := 0;
      assert data + [] == data;
      while ok && i < |es|
        invariant i <= |es|
        invariant ok == WrittenEntries(es[..i], ids).Some?
        invariant ok ==> data == before + WrittenEntries(es[..i], ids).value.text
        invariant ok ==> State() == WrittenEntries(es[..i], ids).value.ids
      {
        ghost var r := WrittenEntries(es[..i], ids).value;
        assert es[..i + 1][..i] == es[..i];
        ok := SerializeEntry(es[i]);
        if ok { Assoc(before, r.text, KeyText(es[i].key) + Written(es[i].value, r.ids).value.text); }
        i := i + 1;
      }
      assert es[..|es|] == es;
      if !ok { BrokenEntries(es, i, ids); }
    }

    method SerializeList(v: Value) returns (ok: bool)
      requires v.Array? || v.Set?
      modifies this
      ensures ok == Written(v, old(State())).Some?
      ensures ok ==> Wrote(old(data), Written(v, old(State())).value)
      decreases v, 0
    {
      ghost var before, ids, start := data, State(), StartText(TagName(v), idrefCount);
      var found := PreviouslySerialized(v);
      if found { return true; }
      AddPlainStartTag(v);
      var vs := if v.Array? then v.elems else v.members;
      ok := SerializeAll(vs);
      if !ok { return; }
      AddEndTag(v);
      ghost var text := WrittenAll(vs, Added(ids, Means(v))).value.text;
      Assoc(before, start, text);
      Assoc(before, start + text, EndText(TagName(v)));
    }

    method SerializeDictionary(v: Value) returns (ok: bool)
      requires v.Dict?
      modifies this
      ensures ok == Written(v, old(State())).Some?
      ensures ok ==> Wrote(old(data), Written(v, old(State())).value)
      decreases v, 0
    {
      ghost var before, ids, start := data, State(), StartText("dict", idrefCount);
      var found := PreviouslySerialized(v);
      if found { return true; }
      AddPlainStartTag(v);
      ok := SerializeEntries(v.entries);
      if !ok { return; }
      AddEndTag(v);
      ghost var text := WrittenEntries(v.entries, Added(ids, Means(v))).value.text;
      Assoc(before, start, text);
      Assoc(before, start + text, EndText("dict"));
    }

    method Serialize(v: Value) returns (ok: bool)
      modifies this
      ensures ok == Written(v, old(State())).Some?
      ensures ok ==> Wrote(old(data), Written(v, old(State())).value)
      decreases v, 1
    {
      match v
      case Num(_, _) => ok := SerializeNumber(v);
      case Bool(_) => ok := SerializeBoolean(v);
      case Str(_) => ok := SerializeString(v);
      case Data(_) => ok := SerializeData(v);
      case Array(_) => ok := SerializeList(v);
      case Set(_) => ok := SerializeList(v);
      case Dict(_) => ok := SerializeDictionary(v);
    }
  }

  /** IOCFSerialize: the text of a value and the NUL that ends it, or nothing. */
  method IOCFSerialize(v: Value, options: int) returns (text: Option<string>)
    ensures options != 0 || Written(v, NO_IDS).None? ==> text == None
    ensures options == 0 && Written(v, NO_IDS).Some? ==> text == Some(Written(v, NO_IDS).value.text + "\0")
  {
    if options != 0 { return None; }
    var state := new Serializer();
    var ok := state.Serialize(v);
    if !ok { return None; }
    state.AddChar('\0');
    assert [] + Written(v, NO_IDS).value.text == Written(v, NO_IDS).value.text;
    return Some(state.data);
  }
}
