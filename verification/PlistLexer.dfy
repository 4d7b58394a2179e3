/** What the lexer makes of a text: tags, attributes and tokens. */
module PlistLexer {
  import opened Basics
  import opened PlistText
  import opened PlistValues
  import opened Base64

  const TAG_MAX_LENGTH := 32
  const TAG_MAX_ATTRIBUTES := 32

  datatype Attr = Attr(name: string, value: string)

  datatype Tag =
    | Bad
    | Comment(rest: string)
    | Tag(kind: Kind, name: string, attrs: seq<Attr>, rest: string)

  datatype Kind = Start | End | Empty

  function AfterBlanks(s: string): (r: string)
    ensures |r| <= |s|
    ensures Head(r) != ' ' && Head(r) != '\t'
    ensures !IsSpace(Head(s)) ==> r == s
  {
    s[Span(IsSpace, s)..]
  }

  predicate InComment(c: char) {
    c != '>' && c != '\0'
  }

  /** A quoted value that fits its buffer, and what follows the closing quote. */
  function Quoted(s: string): (r: Option<(string, string)>)
    ensures r.Some? ==> |r.value.1| < |s|
  {
    if Head(s) != '"' then None
    else
      var m := Span(NotQuote, s[1..]);
      if m == |s[1..]| || m >= TAG_MAX_LENGTH - 1 then None else Some((s[1..][..m], s[1..][m + 1..]))
  }

  /** A name and an equals sign, with blanks before them, and what follows. */
  function NameEquals(s: string): (r: Option<(string, string)>)
    ensures r.Some? ==> |r.value.1| < |s|
  {
    var t := AfterBlanks(s);
    var n := Span(IsAlphaNumeric, t);
    var u := AfterBlanks(t[n..]);
    if n >= TAG_MAX_LENGTH - 1 || Head(u) != '=' then None else Some((t[..n], Tail(u)))
  }

  /** One attribute, and what follows it. */
  function ReadAttr(s: string): (r: Option<(Attr, string)>)
    ensures r.Some? ==> |r.value.1| < |s|
  {
    var e := NameEquals(s);
    if e.None? then None
    else
      var q := Quoted(AfterBlanks(e.value.1));
      if q.None? then None else Some((Attr(e.value.0, q.value.0), q.value.1))
  }

  /** The attributes up to the end of a tag, put behind `attrs`; what follows starts with a slash
      or a bracket. */
  function Attributes(s: string, attrs: seq<Attr>): (r: (Option<seq<Attr>>, string))
    ensures |r.1| <= |s|
    ensures r.0.Some? ==> Head(r.1) in {'>', '/'}
    decreases |s|
  {
    if Head(s) in {'>', '/'} then (Some(attrs), s)
    else
      var a := ReadAttr(s);
      if a.None? || |attrs| + 1 >= TAG_MAX_ATTRIBUTES then (None, [])
      else Attributes(a.value.1, attrs + [a.value.0])
  }

  /** A tag from its name on. */
  function TagFrom(closing: bool, t: string): (r: Tag)
    ensures !r.Bad? ==> r.Tag? && |r.rest| < |t| && r.name != [] && IsAlpha(r.name[0])
  {
    var n := Span(IsAlphaNumeric, t);
    if !IsAlpha(Head(t)) || n >= TAG_MAX_LENGTH - 1 then Bad
    else
      var (attrs, u) := Attributes(t[n..], []);
      var slash := Head(u) == '/';
      var w := if slash then Tail(u) else u;
      if attrs.None? || Head(w) != '>' then Bad
      else Tag(if slash then Empty else if closing then End else Start, t[..n], attrs.value, Tail(w))
  }

  function GetTag(s: string): (r: Tag)
    ensures !r.Bad? ==> |r.rest| < |s|
    ensures r.Tag? ==> r.name != [] && IsAlpha(r.name[0])
  {
    if Head(s) != '<' then Bad
    else if Head(Tail(s)) in {'?', '!'} then
      var n := Span(InComment, s[2..]);
      if Head(s[2..][n..]) == '>' then Comment(s[2..][n + 1..]) else Bad
    else if Head(Tail(s)) == '/' then TagFrom(true, s[2..])
    else TagFrom(false, s[1..])
  }

  function FirstOf(attrs: seq<Attr>, name: string): Option<string> {
    if attrs == [] then None
    else if attrs[0].name == name then Some(attrs[0].value)
    else FirstOf(attrs[1..], name)
  }

  function LastOf(attrs: seq<Attr>, name: string): Option<string> {
    if attrs == [] then None
    else if attrs[|attrs| - 1].name == name then Some(attrs[|attrs| - 1].value)
    else LastOf(attrs[..|attrs| - 1], name)
  }

  // ----- tokens -----

  /** The token numbers of the grammar; the brackets stand for themselves. */
  const YYEOF: nat := 0
  const KEY: nat := 257
  const NUMBER: nat := 258
  const STRING: nat := 259
  const DATA: nat := 260
  const IDREF: nat := 261
  const BOOLEAN: nat := 262
  const SYNTAX_ERROR: nat := 263

  /** The fields of a token's object that its kind fills in. */
  datatype Payload =
    | Nothing
    | Mark(idref: int)
    | Text(idref: int, text: string)
    | Bytes(idref: int, bytes: seq<Byte>)
    | Number(idref: int, size: int, number: int)
    | Ref(id: int)
    | Truth(b: bool)

  datatype Token = Token(code: nat, load: Payload)

  /** A token's object has the fields its kind promises. */
  predicate Fits(t: Token) {
    match t.code
    case 257 | 259 => t.load.Text?
    case 258 => t.load.Number?
    case 260 => t.load.Bytes?
    case 261 => t.load.Ref?
    case 262 => t.load.Truth?
    case 40 | 41 | 91 | 93 | 123 | 125 => t.load.Mark?
    case _ => true
  }

  datatype Lexed = Lexed(token: Token, rest: string)

  const ERROR_TOKEN := Token(SYNTAX_ERROR, Nothing)

  function IdOf(attrs: seq<Attr>): int {
    var id := LastOf(attrs, "ID");
    if id.None? then -1 else Strtol(id.value)
  }

  function SizeOf(attrs: seq<Attr>): int {
    var size := LastOf(attrs, "size");
    if size.None? then 64 else Signed32(Strtoul(size.value))
  }

  /** `token` if the end tag of `name` comes next. */
  function Closed(name: string, token: Token, s: string): (r: Lexed)
    requires Fits(token)
    ensures Fits(r.token) && |r.rest| <= |s|
  {
    var tag := GetTag(s);
    if tag.Tag? && tag.kind == End && tag.name == name then Lexed(token, tag.rest) else Lexed(ERROR_TOKEN, [])
  }

  function EmptyTag(tag: Tag): (r: Lexed)
    requires tag.Tag?
    ensures Fits(r.token) && |r.rest| <= |tag.rest|
  {
    if tag.name == "true" || tag.name == "false" then Lexed(Token(BOOLEAN, Truth(tag.name == "true")), tag.rest)
    else
      var id := FirstOf(tag.attrs, "IDREF");
      if id.Some? then Lexed(Token(IDREF, Ref(Strtol(id.value))), tag.rest) else Lexed(ERROR_TOKEN, [])
  }

  function Bracket(kind: Kind, opening: char, closing: char, id: int, rest: string): (r: Lexed)
    requires opening in {'(', '{', '['} && closing in {')', '}', ']'}
    ensures Fits(r.token) && r.rest == rest
  {
    Lexed(Token((if kind == Start then opening else closing) as nat, Mark(id)), rest)
  }

  /** A token made of text up to the end tag; start and end tags are not told apart here. */
  function TextTag(name: string, code: nat, id: int, s: string): (r: Lexed)
    requires code == KEY || code == STRING
    ensures Fits(r.token) && |r.rest| <= |s|
  {
    var (text, rest) := GetString(s);
    if text.None? then Lexed(ERROR_TOKEN, []) else Closed(name, Token(code, Text(id, text.value)), rest)
  }

  function DataTag(id: int, s: string): (r: Lexed)
    ensures Fits(r.token) && |r.rest| <= |s|
  {
    var (data, rest) := GetData(s, START);
    Closed("data", Token(DATA, Bytes(id, if data.None? then [] else data.value)), rest)
  }

  function NumberTag(id: int, size: int, s: string): (r: Lexed)
    ensures Fits(r.token) && |r.rest| <= |s|
  {
    var (number, rest) := GetNumber(s);
    Closed("integer", Token(NUMBER, Number(id, size, Signed64(number))), rest)
  }

  /** A start or end tag other than plist. A name that is unknown, but starts with a letter that
      some known name starts with, reads as the end of the input. */
  function Tagged(tag: Tag): (r: Lexed)
    requires tag.Tag? && tag.name != []
    ensures Fits(r.token) && |r.rest| <= |tag.rest|
  {
    var id := IdOf(tag.attrs);
    if tag.name == "array" then Bracket(tag.kind, '(', ')', id, tag.rest)
    else if tag.name == "dict" then Bracket(tag.kind, '{', '}', id, tag.rest)
    else if tag.name == "set" then Bracket(tag.kind, '[', ']', id, tag.rest)
    else if tag.name == "data" then DataTag(id, tag.rest)
    else if tag.name == "integer" then NumberTag(id, SizeOf(tag.attrs), tag.rest)
    else if tag.name == "key" then TextTag("key", KEY, id, tag.rest)
    else if tag.name == "string" then TextTag("string", STRING, id, tag.rest)
    else if tag.name[0] in {'a', 'd', 'i', 'k', 'p', 's'} then Lexed(Token(YYEOF, Nothing), tag.rest)
    else Lexed(ERROR_TOKEN, [])
  }

  /** yylex: white space, comments and plist tags are skipped. */
  function Lex(s: string): (r: Lexed)
    ensures Fits(r.token)
    ensures s == [] ==> r.token.code == YYEOF
    ensures s != [] ==> |r.rest| < |s|
    decreases |s|
  {
    var t := AfterBlanks(s);
    if Head(t) == '\n' then Lex(Tail(t))
    else if Head(t) == '\0' then Lexed(Token(YYEOF, Nothing), Tail(t))
    else if Head(t) == ',' then Lexed(Token(',' as nat, Nothing), Tail(t))
    else
      var tag := GetTag(t);
      if tag.Bad? then Lexed(ERROR_TOKEN, [])
      else if tag.Comment? then Lex(tag.rest)
      else if tag.kind == Empty then EmptyTag(tag)
      else if tag.name == "plist" then Lex(tag.rest)
      else Tagged(tag)
  }

  /** All tokens up to the end of the input or the first error. */
  function LexAll(s: string): (r: seq<Token>)
    ensures forall i :: 0 <= i < |r| ==> Fits(r[i]) && r[i].code != YYEOF
    decreases |s|
  {
    var l := Lex(s);
    if l.token.code == YYEOF then []
    else if l.token.code == SYNTAX_ERROR then [l.token]
    else [l.token] + LexAll(l.rest)
  }

  // ----- tags are read as they are written -----

  function AttrText(a: Attr): string {
    " " + (a.name + ("=" + ("\"" + (a.value + "\""))))
  }

  function AttrsText(attrs: seq<Attr>): string {
    if attrs == [] then [] else AttrText(attrs[0]) + AttrsText(attrs[1..])
  }

  predicate IsName(name: string) {
    |name| < TAG_MAX_LENGTH - 1 && forall i :: 0 <= i < |name| ==> IsAlphaNumeric(name[i])
  }

  predicate IsAttr(a: Attr) {
    IsName(a.name) && |a.value| < TAG_MAX_LENGTH - 1 && forall i :: 0 <= i < |a.value| ==> NotQuote(a.value[i])
  }

  predicate AreAttrs(attrs: seq<Attr>) {
    |attrs| < TAG_MAX_ATTRIBUTES && forall i :: 0 <= i < |attrs| ==> IsAttr(attrs[i])
  }

  lemma BlanksEnd(s: string)
    requires !IsSpace(Head(s))
    ensures AfterBlanks(s) == s
  {
  }

  lemma ValueIsRead(value: string, rest: string)
    requires |value| < TAG_MAX_LENGTH - 1 && forall i :: 0 <= i < |value| ==> NotQuote(value[i])
    ensures Quoted("\"" + (value + ("\"" + rest))) == Some((value, rest))
  {
    var s := value + ("\"" + rest);
    assert ("\"" + s)[1..] == s;
    SpanStops(NotQuote, value, "\"" + rest);
    assert s[|value| + 1..] == rest;
  }

  lemma NameEqualsIsRead(name: string, rest: string)
    requires IsName(name)
    ensures NameEquals(" " + (name + ("=" + rest))) == Some((name, rest))
  {
    var value := "=" + rest;
    var t := name + value;
    StartsPlain(name, value);
    BlankFirst(t);
    SpanStops(IsAlphaNumeric, name, value);
    BlanksEnd(value);
    assert value[1..] == rest;
  }

  lemma StartsPlain(name: string, value: string)
    requires IsName(name) && Head(value) == '='
    ensures !IsSpace(Head(name + value))
  {
  }

  lemma NameIsRead(a: Attr, rest: string)
    requires IsAttr(a)
    ensures ReadAttr(" " + (a.name + ("=" + ("\"" + (a.value + ("\"" + rest)))))) == Some((a, rest))
  {
    var quoted := "\"" + (a.value + ("\"" + rest));
    NameEqualsIsRead(a.name, quoted);
    BlanksEnd(quoted);
    ValueIsRead(a.value, rest);
  }

  lemma OneAttrIsRead(a: Attr, rest: string, seen: seq<Attr>)
    requires IsAttr(a) && |seen| + 1 < TAG_MAX_ATTRIBUTES
    ensures Attributes(AttrText(a) + rest, seen) == Attributes(rest, seen + [a])
  {
    NameIsRead(a, rest);
    Assoc(a.value, "\"", rest);
    Assoc("\"", a.value + "\"", rest);
    Assoc("=", "\"" + (a.value + "\""), rest);
    Assoc(a.name, "=" + ("\"" + (a.value + "\"")), rest);
    Assoc(" ", a.name + ("=" + ("\"" + (a.value + "\""))), rest);
  }

  lemma BlankFirst(t: string)
    requires !IsSpace(Head(t))
    ensures AfterBlanks(" " + t) == t
  {
    if t == [] {
      SpanAll(IsSpace, " ");
      assert " " + t == " ";
    } else {
      SpanStops(IsSpace, " ", t);
    }
  }

  lemma {:induction false} AttrsAreRead(attrs: seq<Attr>, rest: string, seen: seq<Attr>)
    requires forall i :: 0 <= i < |attrs| ==> IsAttr(attrs[i])
    requires |seen| + |attrs| < TAG_MAX_ATTRIBUTES && Head(rest) in {'>', '/'}
    ensures Attributes(AttrsText(attrs) + rest, seen) == (Some(seen + attrs), rest)
    decreases |attrs|
  {
    if attrs == [] {
      assert AttrsText(attrs) + rest == rest && seen + attrs == seen;
    } else {
      var more := AttrsText(attrs[1..]) + rest;
      Assoc(AttrText(attrs[0]), AttrsText(attrs[1..]), rest);
      OneAttrIsRead(attrs[0], more, seen);
      AttrsAreRead(attrs[1..], rest, seen + [attrs[0]]);
      assert attrs == [attrs[0]] + attrs[1..];
      Assoc(seen, [attrs[0]], attrs[1..]);
    }
  }

  function TagText(kind: Kind, name: string, attrs: seq<Attr>): string {
    (if kind == End then "</" else "<") + (name + (AttrsText(attrs) + (if kind == Empty then "/>" else ">")))
  }

  lemma TagFromIsRead(kind: Kind, name: string, attrs: seq<Attr>, rest: string)
    requires IsName(name) && name != [] && IsAlpha(name[0]) && AreAttrs(attrs)
    ensures TagFrom(kind == End, name + (AttrsText(attrs) + ((if kind == Empty then "/>" else ">") + rest)))
            == Tag(kind, name, attrs, rest)
  {
    var end := (if kind == Empty then "/>" else ">") + rest;
    var body := AttrsText(attrs) + end;
    EndIsRead(kind, rest);
    assert Attributes(body, []) == (Some(attrs), end) by {
      AttrsAreRead(attrs, end, []);
      assert [] + attrs == attrs;
    }
    BodyStart(attrs, end);
    SpanStops(IsAlphaNumeric, name, body);
  }

  lemma EndIsRead(kind: Kind, rest: string)
    ensures var end := (if kind == Empty then "/>" else ">") + rest;
            && Head(end) == (if kind == Empty then '/' else '>')
            && (kind == Empty ==> Head(Tail(end)) == '>' && Tail(Tail(end)) == rest)
            && (kind != Empty ==> Tail(end) == rest)
  {
    assert (">" + rest)[1..] == rest && ("/>" + rest)[1..] == ">" + rest;
  }

  lemma TagOpens(closing: bool, t: string)
    requires t != [] && IsAlpha(t[0])
    ensures GetTag((if closing then "</" else "<") + t) == TagFrom(closing, t)
  {
    var s := (if closing then "</" else "<") + t;
    if closing {
      assert s[2..] == t && s[1] == '/';
    } else {
      assert s[1..] == t && s[1] == t[0];
    }
  }

  /** Reading undoes writing for every tag that fits the lexer's buffers. */
  lemma TagIsRead(kind: Kind, name: string, attrs: seq<Attr>, rest: string)
    requires IsName(name) && name != [] && IsAlpha(name[0]) && AreAttrs(attrs)
    ensures GetTag(TagText(kind, name, attrs) + rest) == Tag(kind, name, attrs, rest)
  {
    var end := if kind == Empty then "/>" else ">";
    var body := AttrsText(attrs) + (end + rest);
    TagFromIsRead(kind, name, attrs, rest);
    TagOpens(kind == End, name + body);
    Assoc(AttrsText(attrs), end, rest);
    Assoc(name, AttrsText(attrs) + end, rest);
    Assoc(if kind == End then "</" else "<", name + (AttrsText(attrs) + end), rest);
  }

  lemma BodyStart(attrs: seq<Attr>, end: string)
    requires Head(end) in {'>', '/'}
    ensures AttrsText(attrs) + end != [] && !IsAlphaNumeric((AttrsText(attrs) + end)[0])
  {
  }
}
