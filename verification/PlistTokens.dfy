/** The token texts the serializer writes, and what the lexer makes of each of them. */
module PlistTokens {
  import opened Basics
  import opened PlistText
  import opened PlistValues
  import opened Base64
  import opened PlistLexer

  function IdAttr(id: nat): seq<Attr> {
    [Attr("ID", Numeral(id, 10))]
  }

  function StartText(name: string, id: nat): string {
    TagText(Start, name, IdAttr(id))
  }

  function EndText(name: string): string {
    TagText(End, name, [])
  }

  function RefText(name: string, id: nat): string {
    TagText(Empty, name, [Attr("IDREF", Numeral(id, 10))])
  }

  function TruthText(b: bool): string {
    TagText(Empty, if b then "true" else "false", [])
  }

  function StringText(id: nat, t: string): string {
    StartText("string", id) + (Escape(t) + EndText("string"))
  }

  function KeyText(t: string): string {
    TagText(Start, "key", []) + (Escape(t) + EndText("key"))
  }

  function DataText(id: nat, b: seq<Byte>): string {
    StartText("data", id) + (Encode(b) + EndText("data"))
  }

  /** The bits that are printed of a number: the low 32 of a type of up to 32 bits, else 64. */
  function Printed(size: int, number: int): nat {
    if size <= 32 then number % TWO32 else number % TWO64
  }

  function NumberAttrs(id: nat, size: nat): seq<Attr> {
    [Attr("ID", Numeral(id, 10)), Attr("size", Numeral(size, 10))]
  }

  function NumberText(id: nat, size: nat, number: int): string {
    TagText(Start, "integer", NumberAttrs(id, size)) + ("0x" + Numeral(Printed(size, number), 16) + EndText("integer"))
  }

  // ----- lexing -----

  /** The names the serializer writes. */
  predicate IsKnown(name: string) {
    name in {"array", "dict", "set", "data", "integer", "key", "string", "true", "false"}
  }

  lemma KnownIsName(name: string)
    requires IsKnown(name)
    ensures IsName(name) && name != [] && IsAlpha(name[0]) && name != "plist"
  {
  }

  lemma TagTextOpens(kind: Kind, name: string, attrs: seq<Attr>, rest: string)
    ensures Head(TagText(kind, name, attrs) + rest) == '<'
  {
  }

  lemma NumeralAttr(name: string, n: nat)
    requires IsName(name) && n < 0x8000_0000
    ensures IsAttr(Attr(name, Numeral(n, 10)))
  {
    DecimalIsShort(n);
  }

  lemma LexAtTag(s: string, tag: Tag)
    requires Head(s) == '<' && GetTag(s) == tag && tag.Tag? && tag.name != "plist"
    ensures Lex(s) == if tag.kind == Empty then EmptyTag(tag) else Tagged(tag)
  {
    BlanksEnd(s);
  }

  lemma LexAtNul(s: string)
    requires s != [] && s[0] == '\0'
    ensures Lex(s) == Lexed(Token(YYEOF, Nothing), s[1..])
  {
    BlanksEnd(s);
  }

  /** The first step of the lexer at a tag. */
  lemma LexTag(kind: Kind, name: string, attrs: seq<Attr>, rest: string)
    requires IsKnown(name) && AreAttrs(attrs)
    ensures Lex(TagText(kind, name, attrs) + rest)
            == (if kind == Empty then EmptyTag(Tag(kind, name, attrs, rest)) else Tagged(Tag(kind, name, attrs, rest)))
  {
    KnownIsName(name);
    TagIsRead(kind, name, attrs, rest);
    TagTextOpens(kind, name, attrs, rest);
    LexAtTag(TagText(kind, name, attrs) + rest, Tag(kind, name, attrs, rest));
  }

  lemma EndIsRead(name: string, rest: string, token: Token)
    requires IsKnown(name) && Fits(token)
    ensures Closed(name, token, EndText(name) + rest) == Lexed(token, rest)
  {
    KnownIsName(name);
    TagIsRead(End, name, [], rest);
  }

  lemma LexTruth(b: bool, rest: string)
    ensures Lex(TruthText(b) + rest) == Lexed(Token(BOOLEAN, Truth(b)), rest)
  {
    LexTag(Empty, if b then "true" else "false", [], rest);
  }

  lemma LexRef(name: string, id: nat, rest: string)
    requires IsKnown(name) && name != "true" && name != "false" && id < 0x8000_0000
    ensures Lex(RefText(name, id) + rest) == Lexed(Token(IDREF, Ref(id)), rest)
  {
    NumeralAttr("IDREF", id);
    DecimalIsRead(id);
    LexTag(Empty, name, [Attr("IDREF", Numeral(id, 10))], rest);
  }

  lemma IdIsFound(id: nat)
    requires id < 0x8000_0000
    ensures IdOf(IdAttr(id)) == id && AreAttrs(IdAttr(id))
  {
    NumeralAttr("ID", id);
    DecimalIsRead(id);
  }

  /** The bracket a container's tags stand for. */
  function Opening(name: string): char {
    if name == "array" then '(' else if name == "dict" then '{' else '['
  }

  function Closing(name: string): char {
    if name == "array" then ')' else if name == "dict" then '}' else ']'
  }

  lemma LexOpening(name: string, id: nat, rest: string)
    requires name in {"array", "dict", "set"} && id < 0x8000_0000
    ensures Lex(StartText(name, id) + rest) == Lexed(Token(Opening(name) as nat, Mark(id)), rest)
  {
    IdIsFound(id);
    LexTag(Start, name, IdAttr(id), rest);
  }

  lemma LexClosing(name: string, rest: string)
    requires name in {"array", "dict", "set"}
    ensures Lex(EndText(name) + rest) == Lexed(Token(Closing(name) as nat, Mark(-1)), rest)
  {
    LexTag(End, name, [], rest);
  }

  lemma TextTagIsRead(name: string, code: nat, id: int, t: string, rest: string)
    requires IsKnown(name) && (code == KEY || code == STRING)
    ensures TextTag(name, code, id, Escape(t) + (EndText(name) + rest))
            == if '\0' in t then Lexed(ERROR_TOKEN, []) else Lexed(Token(code, Text(id, t)), rest)
  {
    TagTextOpens(End, name, [], rest);
    StringIsRead(t, EndText(name) + rest);
    EndIsRead(name, rest, Token(code, Text(id, t)));
  }

  lemma LexString(id: nat, t: string, rest: string)
    requires id < 0x8000_0000
    ensures Lex(StringText(id, t) + rest)
            == if '\0' in t then Lexed(ERROR_TOKEN, []) else Lexed(Token(STRING, Text(id, t)), rest)
  {
    IdIsFound(id);
    Assoc(StartText("string", id), Escape(t) + EndText("string"), rest);
    Assoc(Escape(t), EndText("string"), rest);
    LexTag(Start, "string", IdAttr(id), Escape(t) + (EndText("string") + rest));
    TextTagIsRead("string", STRING, id, t, rest);
  }

  lemma LexKey(t: string, rest: string)
    ensures Lex(KeyText(t) + rest)
            == if '\0' in t then Lexed(ERROR_TOKEN, []) else Lexed(Token(KEY, Text(-1, t)), rest)
  {
    Assoc(TagText(Start, "key", []), Escape(t) + EndText("key"), rest);
    Assoc(Escape(t), EndText("key"), rest);
    LexTag(Start, "key", [], Escape(t) + (EndText("key") + rest));
    TextTagIsRead("key", KEY, -1, t, rest);
  }

  lemma LexData(id: nat, b: seq<Byte>, rest: string)
    requires id < 0x8000_0000
    ensures Lex(DataText(id, b) + rest) == Lexed(Token(DATA, Bytes(id, b)), rest)
  {
    var end := EndText("data") + rest;
    IdIsFound(id);
    Assoc(StartText("data", id), Encode(b) + EndText("data"), rest);
    Assoc(Encode(b), EndText("data"), rest);
    LexTag(Start, "data", IdAttr(id), Encode(b) + end);
    TagTextOpens(End, "data", [], rest);
    DataSurvives(b, end);
    EndIsRead("data", rest, Token(DATA, Bytes(id, b)));
  }

  lemma BehindAnother(a: Attr, b: Attr)
    requires a.name != b.name
    ensures LastOf([a, b], a.name) == Some(a.value) && LastOf([a, b], b.name) == Some(b.value)
  {
    assert [a, b][..1] == [a];
  }

  lemma NumberAttrsAreFound(id: nat, size: nat)
    requires id < 0x8000_0000 && size <= 64
    ensures IdOf(NumberAttrs(id, size)) == id && SizeOf(NumberAttrs(id, size)) == size
  {
    BehindAnother(Attr("ID", Numeral(id, 10)), Attr("size", Numeral(size, 10)));
    DecimalIsRead(id);
    DecimalIsRead(size);
  }

  lemma NumberAttrsAreAttrs(id: nat, size: nat)
    requires id < 0x8000_0000 && size <= 64
    ensures AreAttrs(NumberAttrs(id, size))
  {
    NumeralAttr("ID", id);
    NumeralAttr("size", size);
  }

  lemma HexNumberIsRead(id: nat, size: nat, n: nat, rest: string)
    requires n < TWO64
    ensures NumberTag(id, size, "0x" + Numeral(n, 16) + (EndText("integer") + rest))
            == Lexed(Token(NUMBER, Number(id, size, Signed64(n))), rest)
  {
    TagTextOpens(End, "integer", [], rest);
    HexIsRead(n, EndText("integer") + rest);
    EndIsRead("integer", rest, Token(NUMBER, Number(id, size, Signed64(n))));
  }

  lemma IntegerTag(attrs: seq<Attr>, rest: string)
    requires AreAttrs(attrs)
    ensures Lex(TagText(Start, "integer", attrs) + rest) == NumberTag(IdOf(attrs), SizeOf(attrs), rest)
  {
    LexTag(Start, "integer", attrs, rest);
  }

  lemma LexNumber(id: nat, size: nat, number: int, rest: string)
    requires id < 0x8000_0000 && size <= 64
    ensures Lex(NumberText(id, size, number) + rest)
            == Lexed(Token(NUMBER, Number(id, size, Signed64(Printed(size, number)))), rest)
  {
    var attrs := NumberAttrs(id, size);
    var hex := "0x" + Numeral(Printed(size, number), 16);
    NumberAttrsAreFound(id, size);
    NumberAttrsAreAttrs(id, size);
    Assoc(TagText(Start, "integer", attrs), hex + EndText("integer"), rest);
    Assoc(hex, EndText("integer"), rest);
    IntegerTag(attrs, hex + (EndText("integer") + rest));
    HexNumberIsRead(id, size, Printed(size, number), rest);
  }
}
