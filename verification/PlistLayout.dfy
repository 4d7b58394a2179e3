/** The layout of a property list does not matter: blanks inside tags, and blanks, newlines, comments
    and plist tags between tokens, change nothing of what is parsed. */
module PlistLayout {
  import opened Basics
  import opened PlistText
  import opened PlistValues
  import opened Base64
  import opened PlistLexer
  import opened PlistTokens
  import opened PlistTables
  import opened PlistGrammar
  import opened PlistTrees
  import opened PlistParsing

  // ----- blanks inside a tag -----

  predicate AreBlanks(b: string) {
    forall i :: 0 <= i < |b| ==> IsSpace(b[i])
  }

  lemma BlanksAreSkipped(b: string, t: string)
    requires AreBlanks(b)
    ensures AfterBlanks(b + t) == AfterBlanks(t)
    decreases |b|
  {
    if b == [] {
      assert b + t == t;
    } else {
      BlanksAreSkipped(b[1..], t);
      assert b + t == [b[0]] + (b[1..] + t);
      OneBlank(b[0], b[1..] + t);
    }
  }

  lemma OneBlank(c: char, t: string)
    requires IsSpace(c)
    ensures AfterBlanks([c] + t) == AfterBlanks(t)
  {
    assert ([c] + t)[1..] == t;
    assert ([c] + t)[1 + Span(IsSpace, t)..] == t[Span(IsSpace, t)..];
  }

  /** An attribute with blanks in front of its name, behind it, and in front of its value. */
  datatype Spaced = Spaced(before: string, attr: Attr, after: string, behind: string)

  predicate IsSpaced(s: Spaced) {
    AreBlanks(s.before) && IsAttr(s.attr) && s.attr.name != [] && AreBlanks(s.after) && AreBlanks(s.behind)
  }

  function SpacedText(s: Spaced): string {
    s.before + (s.attr.name + (s.after + ("=" + (s.behind + ("\"" + (s.attr.value + "\""))))))
  }

  function SpacedTexts(ss: seq<Spaced>): string {
    if ss == [] then [] else SpacedText(ss[0]) + SpacedTexts(ss[1..])
  }

  function AttrsOf(ss: seq<Spaced>): seq<Attr> {
    if ss == [] then [] else [ss[0].attr] + AttrsOf(ss[1..])
  }

  /** Attributes that fit the lexer's buffers; the first one does not run on from the tag's name. */
  predicate AreSpaced(ss: seq<Spaced>) {
    |ss| < TAG_MAX_ATTRIBUTES && (forall i :: 0 <= i < |ss| ==> IsSpaced(ss[i])) && (ss != [] ==> ss[0].before != [])
  }

  lemma NameThenBlanks(name: string, after: string, value: string)
    requires IsName(name) && name != [] && AreBlanks(after) && Head(value) == '='
    ensures var t := name + (after + value); AfterBlanks(t) == t
    ensures Span(IsAlphaNumeric, name + (after + value)) == |name|
    ensures (name + (after + value))[..|name|] == name && (name + (after + value))[|name|..] == after + value
  {
    var t := name + (after + value);
    assert t[0] == name[0];
    BlanksEnd(t);
    assert (after + value)[0] == if after == [] then '=' else after[0];
    SpanStops(IsAlphaNumeric, name, after + value);
  }

  lemma BlanksThenEquals(after: string, rest: string)
    requires AreBlanks(after)
    ensures AfterBlanks(after + ("=" + rest)) == "=" + rest && Tail("=" + rest) == rest
  {
    BlanksAreSkipped(after, "=" + rest);
    BlanksEnd("=" + rest);
    assert ("=" + rest)[1..] == rest;
  }

  lemma SpacedNameIsRead(s: Spaced, rest: string)
    requires IsSpaced(s)
    ensures NameEquals(s.before + (s.attr.name + (s.after + ("=" + rest)))) == Some((s.attr.name, rest))
  {
    NameThenBlanks(s.attr.name, s.after, "=" + rest);
    BlanksAreSkipped(s.before, s.attr.name + (s.after + ("=" + rest)));
    BlanksThenEquals(s.after, rest);
  }

  lemma SpacedIsRead(s: Spaced, rest: string)
    requires IsSpaced(s)
    ensures ReadAttr(SpacedText(s) + rest) == Some((s.attr, rest))
  {
    var quoted := "\"" + (s.attr.value + ("\"" + rest));
    SpacedParts(s, rest);
    SpacedNameIsRead(s, s.behind + quoted);
    BlanksAreSkipped(s.behind, quoted);
    BlanksEnd(quoted);
    ValueIsRead(s.attr.value, rest);
  }

  lemma SpacedParts(s: Spaced, rest: string)
    ensures SpacedText(s) + rest
      == s.before + (s.attr.name + (s.after + ("=" + (s.behind + ("\"" + (s.attr.value + ("\"" + rest)))))))
  {
    var quoted := "\"" + (s.attr.value + "\"");
    Assoc(s.attr.value, "\"", rest);
    Assoc("\"", s.attr.value + "\"", rest);
    Assoc(s.behind, quoted, rest);
    Assoc("=", s.behind + quoted, rest);
    Assoc(s.after, "=" + (s.behind + quoted), rest);
    Assoc(s.attr.name, s.after + ("=" + (s.behind + quoted)), rest);
    Assoc(s.before, s.attr.name + (s.after + ("=" + (s.behind + quoted))), rest);
  }

  lemma SpacedStart(s: Spaced, rest: string)
    requires IsSpaced(s)
    ensures SpacedText(s) + rest != [] && Head(SpacedText(s) + rest) !in {'>', '/'}
    ensures s.before != [] ==> !IsAlphaNumeric((SpacedText(s) + rest)[0])
  {
    SpacedParts(s, rest);
    var text := SpacedText(s) + rest;
    if s.before != [] { assert text[0] == s.before[0]; } else { assert text[0] == s.attr.name[0]; }
  }

  lemma OneSpacedIsRead(s: Spaced, rest: string, seen: seq<Attr>)
    requires IsSpaced(s)
    ensures Attributes(SpacedText(s) + rest, seen)
            == if |seen| + 1 >= TAG_MAX_ATTRIBUTES then (None, []) else Attributes(rest, seen + [s.attr])
  {
    SpacedIsRead(s, rest);
    SpacedStart(s, rest);
  }

  lemma {:induction false} SpacedAreRead(ss: seq<Spaced>, rest: string, seen: seq<Attr>)
    requires forall i :: 0 <= i < |ss| ==> IsSpaced(ss[i])
    requires |seen| + |ss| < TAG_MAX_ATTRIBUTES && Head(rest) in {'>', '/'}
    ensures Attributes(SpacedTexts(ss) + rest, seen) == (Some(seen + AttrsOf(ss)), rest)
    decreases |ss|
  {
    if ss == [] {
      assert SpacedTexts(ss) + rest == rest && seen + AttrsOf(ss) == seen;
    } else {
      var more := SpacedTexts(ss[1..]) + rest;
      Assoc(SpacedText(ss[0]), SpacedTexts(ss[1..]), rest);
      OneSpacedIsRead(ss[0], more, seen);
      SpacedAreRead(ss[1..], rest, seen + [ss[0].attr]);
      Assoc(seen, [ss[0].attr], AttrsOf(ss[1..]));
    }
  }

  function Close(kind: Kind): string {
    if kind == Empty then "/>" else ">"
  }

  function SpacedTag(kind: Kind, name: string, ss: seq<Spaced>): string {
    (if kind == End then "</" else "<") + (name + (SpacedTexts(ss) + Close(kind)))
  }

  predicate IsTagName(name: string) {
    IsName(name) && name != [] && IsAlpha(name[0])
  }

  lemma SpacedTagFrom(kind: Kind, name: string, ss: seq<Spaced>, rest: string)
    requires IsTagName(name) && AreSpaced(ss)
    ensures TagFrom(kind == End, name + (SpacedTexts(ss) + (Close(kind) + rest))) == Tag(kind, name, AttrsOf(ss), rest)
  {
    var body := SpacedTexts(ss) + (Close(kind) + rest);
    PlistLexer.EndIsRead(kind, rest);
    BodyIsRead(kind, ss, rest);
    SpanStops(IsAlphaNumeric, name, body);
  }

  lemma BodyIsRead(kind: Kind, ss: seq<Spaced>, rest: string)
    requires AreSpaced(ss)
    ensures var end := Close(kind) + rest; var body := SpacedTexts(ss) + end;
      && Head(end) in {'>', '/'} && Attributes(body, []) == (Some(AttrsOf(ss)), end)
      && body != [] && !IsAlphaNumeric(body[0])
  {
    var end := Close(kind) + rest;
    SpacedAreRead(ss, end, []);
    assert [] + AttrsOf(ss) == AttrsOf(ss);
    NameEnds(ss, end);
  }

  lemma NameEnds(ss: seq<Spaced>, end: string)
    requires AreSpaced(ss) && Head(end) in {'>', '/'}
    ensures SpacedTexts(ss) + end != [] && !IsAlphaNumeric((SpacedTexts(ss) + end)[0])
  {
    if ss != [] {
      Assoc(SpacedText(ss[0]), SpacedTexts(ss[1..]), end);
      SpacedStart(ss[0], SpacedTexts(ss[1..]) + end);
    } else {
      assert SpacedTexts(ss) + end == end;
    }
  }

  /** A tag is read as itself, whatever blanks are between the parts of its attributes. */
  lemma SpacedTagIsRead(kind: Kind, name: string, ss: seq<Spaced>, rest: string)
    requires IsTagName(name) && AreSpaced(ss)
    ensures GetTag(SpacedTag(kind, name, ss) + rest) == Tag(kind, name, AttrsOf(ss), rest)
  {
    var end := Close(kind);
    SpacedTagFrom(kind, name, ss, rest);
    TagOpens(kind == End, name + (SpacedTexts(ss) + (end + rest)));
    Assoc(SpacedTexts(ss), end, rest);
    Assoc(name, SpacedTexts(ss) + end, rest);
    Assoc(if kind == End then "</" else "<", name + (SpacedTexts(ss) + end), rest);
  }

  // ----- tags that do not fit -----

  /** A name of 31 characters or more is refused. */
  lemma LongNameIsBad(closing: bool, name: string, rest: string)
    requires |name| >= 31 && IsAlpha(name[0]) && forall i :: 0 <= i < |name| ==> IsAlphaNumeric(name[i])
    ensures GetTag((if closing then "</" else "<") + (name + rest)) == Bad
  {
    var t := name + rest;
    assert forall i :: 0 <= i < |name| ==> t[i] == name[i];
    assert Span(IsAlphaNumeric, t) >= |name|;
    TagOpens(closing, t);
  }

  /** So is a value of an attribute. */
  lemma LongValueIsBad(value: string, rest: string)
    requires |value| >= 31 && forall i :: 0 <= i < |value| ==> NotQuote(value[i])
    ensures Quoted("\"" + (value + rest)) == None
  {
    var t := value + rest;
    assert ("\"" + t)[1..] == t;
    assert forall i :: 0 <= i < |value| ==> t[i] == value[i];
    assert Span(NotQuote, t) >= |value|;
  }

  lemma {:induction false} NoRoomForMore(ss: seq<Spaced>, rest: string, seen: seq<Attr>)
    requires ss != [] && (forall i :: 0 <= i < |ss| ==> IsSpaced(ss[i])) && |seen| + |ss| >= 32
    ensures Attributes(SpacedTexts(ss) + rest, seen).0 == None
    decreases |ss|
  {
    var more := SpacedTexts(ss[1..]) + rest;
    Assoc(SpacedText(ss[0]), SpacedTexts(ss[1..]), rest);
    OneSpacedIsRead(ss[0], more, seen);
    if |seen| + 1 < 32 { NoRoomForMore(ss[1..], rest, seen + [ss[0].attr]); }
  }

  /** A tag with 32 attributes or more is refused. */
  lemma ManyAttributesAreBad(closing: bool, name: string, ss: seq<Spaced>, rest: string)
    requires IsTagName(name) && |ss| >= 32 && ss[0].before != [] && forall i :: 0 <= i < |ss| ==> IsSpaced(ss[i])
    ensures GetTag((if closing then "</" else "<") + (name + (SpacedTexts(ss) + rest))) == Bad
  {
    var body := SpacedTexts(ss) + rest;
    NoRoomForMore(ss, rest, []);
    Assoc(SpacedText(ss[0]), SpacedTexts(ss[1..]), rest);
    SpacedStart(ss[0], SpacedTexts(ss[1..]) + rest);
    SpanStops(IsAlphaNumeric, name, body);
    TagOpens(closing, name + body);
  }

  // ----- between tokens -----

  /** What may stand between two tokens. */
  datatype Filler =
    | Blank(c: char)
    | Remark(mark: char, text: string)
    | Plist(kind: Kind, attrs: seq<Spaced>)

  predicate IsFiller(f: Filler) {
    match f
    case Blank(c) => c == ' ' || c == '\t' || c == '\n'
    case Remark(mark, text) =>
      (mark == '?' || mark == '!') && forall i :: 0 <= i < |text| ==> text[i] != '>' && text[i] != '\0'
    case Plist(kind, attrs) => kind != Empty && AreSpaced(attrs)
  }

  predicate AreFillers(fs: seq<Filler>) {
    forall i :: 0 <= i < |fs| ==> IsFiller(fs[i])
  }

  function FillerText(f: Filler): string {
    match f
    case Blank(c) => [c]
    case Remark(mark, text) => ['<', mark] + (text + ">")
    case Plist(kind, attrs) => SpacedTag(kind, "plist", attrs)
  }

  function Gap(fs: seq<Filler>): string {
    if fs == [] then [] else FillerText(fs[0]) + Gap(fs[1..])
  }

  lemma BlankIsSkipped(c: char, s: string)
    requires IsFiller(Blank(c))
    ensures Lex([c] + s) == Lex(s)
  {
    assert ([c] + s)[1..] == s;
    if IsSpace(c) { OneBlank(c, s); } else { BlanksEnd([c] + s); }
  }

  lemma RemarkIsRead(mark: char, text: string, s: string)
    requires IsFiller(Remark(mark, text))
    ensures GetTag(FillerText(Remark(mark, text)) + s) == Comment(s)
  {
    var t := FillerText(Remark(mark, text)) + s;
    assert t[2..] == text + (">" + s);
    SpanStops(InComment, text, ">" + s);
    assert (">" + s)[1..] == s && (text + (">" + s))[|text| + 1..] == s;
  }

  lemma RemarkIsSkipped(s: string, rest: string)
    requires Head(s) == '<' && GetTag(s) == Comment(rest)
    ensures Lex(s) == Lex(rest)
  {
    BlanksEnd(s);
    assert Head(s) !in {'\n', '\0', ','};
  }

  lemma PlistIsSkipped(s: string, kind: Kind, attrs: seq<Attr>, rest: string)
    requires Head(s) == '<' && GetTag(s) == Tag(kind, "plist", attrs, rest) && kind != Empty
    ensures Lex(s) == Lex(rest)
  {
    BlanksEnd(s);
    assert Head(s) !in {'\n', '\0', ','};
    var tag := GetTag(AfterBlanks(s));
    assert tag.Tag? && tag.kind != Empty && tag.name == "plist" && tag.rest == rest;
  }

  lemma FillerIsSkipped(f: Filler, s: string)
    requires IsFiller(f)
    ensures Lex(FillerText(f) + s) == Lex(s)
  {
    match f
    case Blank(c) => BlankIsSkipped(c, s);
    case Remark(mark, text) =>
      RemarkIsRead(mark, text, s);
      RemarkIsSkipped(FillerText(f) + s, s);
    case Plist(kind, attrs) =>
      SpacedTagIsRead(kind, "plist", attrs, s);
      PlistIsSkipped(FillerText(f) + s, kind, AttrsOf(attrs), s);
  }

  /** The lexer runs over any number of blanks, newlines, comments and plist tags. */
  lemma {:induction false} GapIsSkipped(fs: seq<Filler>, s: string)
    requires AreFillers(fs)
    ensures Lex(Gap(fs) + s) == Lex(s)
    decreases |fs|
  {
    if fs == [] {
      assert Gap(fs) + s == s;
    } else {
      GapIsSkipped(fs[1..], s);
      Assoc(FillerText(fs[0]), Gap(fs[1..]), s);
      FillerIsSkipped(fs[0], Gap(fs[1..]) + s);
    }
  }

  // ----- a text in any layout -----

  /** A text that is read as this token, whatever follows it. */
  ghost predicate Spells(text: string, t: Token) {
    t.code != YYEOF && t.code != SYNTAX_ERROR && forall rest: string :: Lex(text + rest) == Lexed(t, rest)
  }

  /** A token in some spelling of it, and what stands in front. */
  datatype Piece = Piece(gap: seq<Filler>, text: string, token: Token)

  ghost predicate ArePieces(ps: seq<Piece>) {
    forall i :: 0 <= i < |ps| ==> AreFillers(ps[i].gap) && Spells(ps[i].text, ps[i].token)
  }

  function LaidOut(ps: seq<Piece>): string {
    if ps == [] then [] else Gap(ps[0].gap) + (ps[0].text + LaidOut(ps[1..]))
  }

  function TokensOf(ps: seq<Piece>): (ts: seq<Token>)
    ensures |ts| == |ps|
  {
    if ps == [] then [] else [ps[0].token] + TokensOf(ps[1..])
  }

  lemma LexedAlike(s: string, t: string)
    requires Lex(s) == Lex(t)
    ensures LexAll(s) == LexAll(t)
  {
  }

  lemma PieceIsLexed(p: Piece, rest: string)
    requires AreFillers(p.gap) && Spells(p.text, p.token)
    ensures LexAll(Gap(p.gap) + (p.text + rest)) == [p.token] + LexAll(rest)
  {
    GapIsSkipped(p.gap, p.text + rest);
    assert Lex(p.text + rest) == Lexed(p.token, rest);
  }

  lemma {:induction false} PiecesAreLexed(ps: seq<Piece>, rest: string)
    requires ArePieces(ps)
    ensures LexAll(LaidOut(ps) + rest) == TokensOf(ps) + LexAll(rest)
    decreases |ps|
  {
    if ps == [] {
      assert LaidOut(ps) + rest == rest && TokensOf(ps) + LexAll(rest) == LexAll(rest);
    } else {
      var more := LaidOut(ps[1..]);
      PiecesAreLexed(ps[1..], rest);
      Assoc(Gap(ps[0].gap), ps[0].text + more, rest);
      Assoc(ps[0].text, more, rest);
      PieceIsLexed(ps[0], more + rest);
      Assoc([ps[0].token], TokensOf(ps[1..]), LexAll(rest));
    }
  }

  /** Two texts made of the same tokens parse alike, whatever their spelling, whatever stands between
      the tokens, and whatever stands behind the last one. */
  lemma LayoutDoesNotMatter(ps: seq<Piece>, qs: seq<Piece>, end: seq<Filler>, rest: string)
    requires ArePieces(ps) && ArePieces(qs) && TokensOf(ps) == TokensOf(qs) && AreFillers(end)
    ensures Parse(LaidOut(ps) + (Gap(end) + rest)) == Parse(LaidOut(qs) + rest)
  {
    PiecesAreLexed(ps, Gap(end) + rest);
    PiecesAreLexed(qs, rest);
    GapIsSkipped(end, rest);
    LexedAlike(Gap(end) + rest, rest);
  }

  /** Every tree is parsed from its tokens in any layout into what it means, if the parser's stack has
      room for it and no reference comes too early. */
  lemma TreeInAnyLayout(t: Tree, ps: seq<Piece>, rest: string)
    requires WellFormed(t) && ArePieces(ps) && TokensOf(ps) == Tokens(t)
    ensures LexAll(LaidOut(ps) + rest) == Tokens(t) + LexAll(rest)
    ensures var e := Eval(t, map[]);
            Parse(LaidOut(ps) + rest)
            == if 1 + Peak(t) >= YYMAXDEPTH || e.None? then Rejected else Accepted(Some(e.value.0))
  {
    PiecesAreLexed(ps, rest);
    assert AllFit(LexAll(LaidOut(ps) + rest));
    InputIsParsed(t, LexAll(rest));
  }

  // ----- the spellings of a token -----

  /** Of several attributes of a name, the first one is taken for IDREF. */
  lemma {:induction false} FirstOfMeans(attrs: seq<Attr>, i: nat)
    requires i < |attrs| && forall j :: 0 <= j < i ==> attrs[j].name != attrs[i].name
    ensures FirstOf(attrs, attrs[i].name) == Some(attrs[i].value)
    decreases i
  {
    if i > 0 {
      assert attrs[1..][i - 1] == attrs[i];
      FirstOfMeans(attrs[1..], i - 1);
    }
  }

  /** And the last one for ID and size. */
  lemma {:induction false} LastOfMeans(attrs: seq<Attr>, i: nat)
    requires i < |attrs| && forall j :: i < j < |attrs| ==> attrs[j].name != attrs[i].name
    ensures LastOf(attrs, attrs[i].name) == Some(attrs[i].value)
    decreases |attrs|
  {
    if i < |attrs| - 1 { LastOfMeans(attrs[..|attrs| - 1], i); }
  }

  /** A tag without an ID has id -1, and one without a size means 64 bits. */
  lemma {:induction false} NoneOf(attrs: seq<Attr>, name: string)
    requires forall j :: 0 <= j < |attrs| ==> attrs[j].name != name
    ensures FirstOf(attrs, name) == None && LastOf(attrs, name) == None
    ensures name == "ID" ==> IdOf(attrs) == -1
    ensures name == "size" ==> SizeOf(attrs) == 64
    decreases |attrs|
  {
    if attrs != [] {
      NoneOf(attrs[1..], name);
      NoneOf(attrs[..|attrs| - 1], name);
    }
  }

  lemma LexSpaced(kind: Kind, name: string, ss: seq<Spaced>, rest: string)
    requires IsTagName(name) && name != "plist" && AreSpaced(ss)
    ensures var tag := Tag(kind, name, AttrsOf(ss), rest);
      Lex(SpacedTag(kind, name, ss) + rest) == if kind == Empty then EmptyTag(tag) else Tagged(tag)
  {
    SpacedTagIsRead(kind, name, ss, rest);
    LexAtTag(SpacedTag(kind, name, ss) + rest, Tag(kind, name, AttrsOf(ss), rest));
  }

  lemma LexEmpty(name: string, ss: seq<Spaced>, rest: string)
    requires IsTagName(name) && AreSpaced(ss)
    ensures Lex(SpacedTag(Empty, name, ss) + rest) == EmptyTag(Tag(Empty, name, AttrsOf(ss), rest))
  {
    SpacedTagIsRead(Empty, name, ss, rest);
    EmptyIsLexed(SpacedTag(Empty, name, ss) + rest, Tag(Empty, name, AttrsOf(ss), rest));
  }

  lemma EmptyIsLexed(s: string, tag: Tag)
    requires Head(s) == '<' && GetTag(s) == tag && tag.Tag? && tag.kind == Empty
    ensures Lex(s) == EmptyTag(tag)
  {
    BlanksEnd(s);
    assert Head(s) !in {'\n', '\0', ','};
    assert AfterBlanks(s) == s && GetTag(AfterBlanks(s)) == tag;
  }

  /** A tag with an unknown name ends the input if its name begins like a known one; otherwise it is an
      error. */
  lemma UnknownNames(kind: Kind, name: string, ss: seq<Spaced>, rest: string)
    requires IsTagName(name) && AreSpaced(ss) && kind != Empty
    requires name !in {"array", "dict", "set", "data", "integer", "key", "string", "plist"}
    ensures Lex(SpacedTag(kind, name, ss) + rest).token
            == if name[0] in "adikps" then Token(YYEOF, Nothing) else ERROR_TOKEN
  {
    LexSpaced(kind, name, ss, rest);
  }

  /** A comma is a token; the grammar has no place for it. */
  lemma CommaIsRead(rest: string)
    ensures Lex("," + rest) == Lexed(Token(',' as nat, Nothing), rest)
  {
    BlanksEnd("," + rest);
    assert ("," + rest)[1..] == rest;
  }

  /** Only the brackets of containers tell a start tag from an end tag: an end tag opens a text, data
      or an integer just as well. */
  lemma EndTagOpensToo(name: string, ss: seq<Spaced>, rest: string)
    requires IsTagName(name) && name !in {"array", "dict", "set", "plist"} && AreSpaced(ss)
    ensures Lex(SpacedTag(End, name, ss) + rest) == Lex(SpacedTag(Start, name, ss) + rest)
  {
    LexSpaced(Start, name, ss, rest);
    LexSpaced(End, name, ss, rest);
    KindsAlike(name, AttrsOf(ss), rest);
  }

  lemma KindsAlike(name: string, attrs: seq<Attr>, rest: string)
    requires IsTagName(name) && name !in {"array", "dict", "set"}
    ensures Tagged(Tag(End, name, attrs, rest)) == Tagged(Tag(Start, name, attrs, rest))
  {
  }

  /** The brackets of a container: their id is that of the last ID attribute, or -1. */
  lemma BracketSpells(kind: Kind, name: string, ss: seq<Spaced>)
    requires name in {"array", "dict", "set"} && kind != Empty && AreSpaced(ss)
    ensures Spells(SpacedTag(kind, name, ss),
      Token((if kind == Start then Opening(name) else Closing(name)) as nat, Mark(IdOf(AttrsOf(ss)))))
  {
    forall rest: string {
      LexSpaced(kind, name, ss, rest);
    }
  }

  lemma TruthSpells(b: bool, ss: seq<Spaced>)
    requires AreSpaced(ss)
    ensures Spells(SpacedTag(Empty, if b then "true" else "false", ss), Token(BOOLEAN, Truth(b)))
  {
    var name := if b then "true" else "false";
    forall rest: string ensures Lex(SpacedTag(Empty, name, ss) + rest) == Lexed(Token(BOOLEAN, Truth(b)), rest) {
      TruthName(name);
      LexSpaced(Empty, name, ss, rest);
    }
  }

  lemma TruthName(name: string)
    requires name == "true" || name == "false"
    ensures IsTagName(name) && name != "plist" && (name == "true" <==> name[0] == 't')
  {
  }

  /** An empty tag of any other name is the reference that its first IDREF attribute names. */
  lemma RefSpells(name: string, ss: seq<Spaced>)
    requires IsTagName(name) && name !in {"true", "false"} && AreSpaced(ss)
    requires FirstOf(AttrsOf(ss), "IDREF").Some?
    ensures Spells(SpacedTag(Empty, name, ss), Token(IDREF, Ref(Strtol(FirstOf(AttrsOf(ss), "IDREF").value))))
  {
    forall rest: string {
      LexEmpty(name, ss, rest);
    }
  }

  /** An element with text in it, up to its end tag. */
  function Element(name: string, ss: seq<Spaced>, text: string, es: seq<Spaced>): string {
    SpacedTag(Start, name, ss) + (text + SpacedTag(End, name, es))
  }

  lemma ElementOpens(name: string, ss: seq<Spaced>, text: string, es: seq<Spaced>, rest: string, t: Token)
    requires IsTagName(name) && name != "plist" && AreSpaced(ss) && AreSpaced(es) && Fits(t)
    ensures var end := SpacedTag(End, name, es) + rest;
      && Lex(Element(name, ss, text, es) + rest) == Tagged(Tag(Start, name, AttrsOf(ss), text + end))
      && Head(end) == '<'
      && Closed(name, t, end) == Lexed(t, rest)
  {
    var end := SpacedTag(End, name, es);
    Assoc(SpacedTag(Start, name, ss), text + end, rest);
    Assoc(text, end, rest);
    LexSpaced(Start, name, ss, text + (end + rest));
    SpacedTagIsRead(End, name, es, rest);
  }

  predicate IsTextTag(name: string, code: nat) {
    (name == "string" && code == STRING) || (name == "key" && code == KEY)
  }

  lemma TaggedText(name: string, code: nat, attrs: seq<Attr>, s: string)
    requires IsTextTag(name, code)
    ensures IsTagName(name) && name != "plist"
    ensures Tagged(Tag(Start, name, attrs, s)) == TextTag(name, code, IdOf(attrs), s)
  {
  }

  /** A string or a key reads as its text with the entities replaced. */
  lemma TextSpells(name: string, code: nat, ss: seq<Spaced>, text: string, es: seq<Spaced>)
    requires IsTextTag(name, code) && AreSpaced(ss) && AreSpaced(es)
    requires (forall i :: 0 <= i < |text| ==> InString(text[i])) && Unescape(text).Some?
    ensures Spells(Element(name, ss, text, es), Token(code, Text(IdOf(AttrsOf(ss)), Unescape(text).value)))
  {
    var t := Token(code, Text(IdOf(AttrsOf(ss)), Unescape(text).value));
    forall rest: string ensures Lex(Element(name, ss, text, es) + rest) == Lexed(t, rest) {
      var end := SpacedTag(End, name, es) + rest;
      TaggedText(name, code, AttrsOf(ss), text + end);
      ElementOpens(name, ss, text, es, rest, t);
      TextReads(name, code, IdOf(AttrsOf(ss)), text, end);
    }
  }

  lemma TextReads(name: string, code: nat, id: int, text: string, end: string)
    requires (forall i :: 0 <= i < |text| ==> InString(text[i])) && Unescape(text).Some?
    requires Head(end) == '<' && (code == KEY || code == STRING)
    ensures TextTag(name, code, id, text + end) == Closed(name, Token(code, Text(id, Unescape(text).value)), end)
  {
    SpanStops(InString, text, end);
  }

  /** Data reads as the bytes coded, with characters that are not letters put in anywhere but between
      the padding characters. */
  lemma DataSpells(ss: seq<Spaced>, b: seq<Byte>, text: string, es: seq<Spaced>)
    requires AreSpaced(ss) && AreSpaced(es) && WithoutForeign(text) == Encode(b) && !PaddingBroken(text)
    ensures Spells(Element("data", ss, text, es), Token(DATA, Bytes(IdOf(AttrsOf(ss)), b)))
  {
    var t := Token(DATA, Bytes(IdOf(AttrsOf(ss)), b));
    forall rest: string ensures Lex(Element("data", ss, text, es) + rest) == Lexed(t, rest) {
      var end := SpacedTag(End, "data", es) + rest;
      TaggedData(AttrsOf(ss), text + end);
      ElementOpens("data", ss, text, es, rest, t);
      DataWithForeign(b, text, end);
    }
  }

  lemma TaggedData(attrs: seq<Attr>, s: string)
    ensures IsTagName("data") && Tagged(Tag(Start, "data", attrs, s)) == DataTag(IdOf(attrs), s)
  {
  }

  lemma TaggedInteger(attrs: seq<Attr>, s: string)
    ensures IsTagName("integer") && Tagged(Tag(Start, "integer", attrs, s)) == NumberTag(IdOf(attrs), SizeOf(attrs), s)
  {
  }

  predicate AreDigits(digits: string) {
    digits != [] && forall i :: 0 <= i < |digits| ==> IsDigit(digits[i])
  }

  /** A decimal integer reads as the number its digits denote, modulo 2^64, with leading zeros or
      without: a leading zero does not make it octal. */
  lemma DecimalIsNumber(digits: string, rest: string)
    requires AreDigits(digits) && Head(rest) == '<'
    ensures GetNumber(digits + rest) == (Reading(digits, 10) % 0x1_0000_0000_0000_0000, rest)
  {
    var s := digits + rest;
    SpanStops(IsDigit, digits, rest);
    assert Head(s) == digits[0] && s[1..] == digits[1..] + rest;
    assert Head(Tail(s)) != 'x' by {
      if |digits| > 1 { assert Tail(s)[0] == digits[1]; } else { assert Tail(s) == rest; }
    }
  }

  lemma DecimalSpells(ss: seq<Spaced>, digits: string, es: seq<Spaced>)
    requires AreSpaced(ss) && AreSpaced(es) && AreDigits(digits)
    ensures Spells(Element("integer", ss, digits, es),
      Token(NUMBER, Number(IdOf(AttrsOf(ss)), SizeOf(AttrsOf(ss)), Signed64(Reading(digits, 10)))))
  {
    var t := Token(NUMBER, Number(IdOf(AttrsOf(ss)), SizeOf(AttrsOf(ss)), Signed64(Reading(digits, 10))));
    SignedOfLow(Reading(digits, 10));
    forall rest: string ensures Lex(Element("integer", ss, digits, es) + rest) == Lexed(t, rest) {
      var end := SpacedTag(End, "integer", es) + rest;
      TaggedInteger(AttrsOf(ss), digits + end);
      ElementOpens("integer", ss, digits, es, rest, t);
      DecimalIsNumber(digits, end);
    }
  }

  predicate AreHexDigits(digits: string) {
    forall i :: 0 <= i < |digits| ==> '0' <= digits[i] <= '9' || 'a' <= digits[i] <= 'f'
  }

  /** A hexadecimal one, of small letters only; without any digit it is 0. */
  lemma HexIsNumber(digits: string, rest: string)
    requires AreHexDigits(digits) && Head(rest) == '<'
    ensures GetNumber("0x" + (digits + rest)) == (Reading(digits, 16) % 0x1_0000_0000_0000_0000, rest)
  {
    var s := "0x" + (digits + rest);
    SpanStops(IsHexDigit, digits, rest);
    assert Head(s) == '0' && s[1..][0] == 'x' && s[2..] == digits + rest;
  }

  lemma HexSpells(ss: seq<Spaced>, digits: string, es: seq<Spaced>)
    requires AreSpaced(ss) && AreSpaced(es) && AreHexDigits(digits)
    ensures Spells(Element("integer", ss, "0x" + digits, es),
      Token(NUMBER, Number(IdOf(AttrsOf(ss)), SizeOf(AttrsOf(ss)), Signed64(Reading(digits, 16)))))
  {
    var t := Token(NUMBER, Number(IdOf(AttrsOf(ss)), SizeOf(AttrsOf(ss)), Signed64(Reading(digits, 16))));
    SignedOfLow(Reading(digits, 16));
    forall rest: string ensures Lex(Element("integer", ss, "0x" + digits, es) + rest) == Lexed(t, rest) {
      var end := SpacedTag(End, "integer", es) + rest;
      TaggedInteger(AttrsOf(ss), "0x" + digits + end);
      ElementOpens("integer", ss, "0x" + digits, es, rest, t);
      Assoc("0x", digits, end);
      HexIsNumber(digits, end);
    }
  }

  /** An integer without digits is 0. */
  lemma EmptyIntegerSpells(ss: seq<Spaced>, es: seq<Spaced>)
    requires AreSpaced(ss) && AreSpaced(es)
    ensures Spells(Element("integer", ss, [], es), Token(NUMBER, Number(IdOf(AttrsOf(ss)), SizeOf(AttrsOf(ss)), 0)))
  {
    var t := Token(NUMBER, Number(IdOf(AttrsOf(ss)), SizeOf(AttrsOf(ss)), 0));
    forall rest: string ensures Lex(Element("integer", ss, [], es) + rest) == Lexed(t, rest) {
      var end := SpacedTag(End, "integer", es) + rest;
      TaggedInteger(AttrsOf(ss), end);
      assert [] + end == end;
      ElementOpens("integer", ss, [], es, rest, t);
    }
  }

  /** Digits followed by anything but a tag, or a sign in front of them, are an error. */
  lemma IntegerWithOtherTextIsAnError(ss: seq<Spaced>, digits: string, rest: string)
    requires AreSpaced(ss) && (digits == [] || AreDigits(digits))
    requires Head(rest) != '<' && !IsDigit(Head(rest)) && !(digits == "0" && Head(rest) == 'x')
    ensures Lex(SpacedTag(Start, "integer", ss) + (digits + rest)).token == ERROR_TOKEN
  {
    var s := digits + rest;
    TaggedInteger(AttrsOf(ss), s);
    LexSpaced(Start, "integer", ss, s);
    assert GetNumber(s).1 == rest by { DigitsEnd(digits, rest); }
    assert GetTag(rest) == Bad;
  }

  lemma DigitsEnd(digits: string, rest: string)
    requires digits == [] || AreDigits(digits)
    requires !IsDigit(Head(rest)) && !(digits == "0" && Head(rest) == 'x')
    ensures GetNumber(digits + rest).1 == rest
  {
    var s := digits + rest;
    if digits == [] {
      assert s == rest;
    } else {
      if rest == [] { SpanAll(IsDigit, s); } else { SpanStops(IsDigit, digits, rest); }
      assert Head(s) == digits[0] && s[1..] == digits[1..] + rest;
      assert !(Head(s) == '0' && Head(Tail(s)) == 'x') by {
        if |digits| > 1 { assert Tail(s)[0] == digits[1]; } else { assert Tail(s) == rest && digits == [digits[0]]; }
      }
    }
  }

  lemma SignedOfLow(n: int)
    ensures Signed64(n % TWO64) == Signed64(n)
  {
  }

  // ----- every token has a spelling -----

  predicate IsId(id: int) {
    -1 <= id < 0x8000_0000
  }

  /** The tokens of trees that can be written: ids and sizes in range, no NUL in a text. */
  predicate Writable(t: Token) {
    match t.load
    case Mark(id) => t.code in {40, 41, 91, 93, 123, 125} && IsId(id)
    case Text(id, s) => (t.code == KEY || t.code == STRING) && IsId(id) && '\0' !in s
    case Bytes(id, _) => t.code == DATA && IsId(id)
    case Number(id, size, n) => t.code == NUMBER && IsId(id) && 0 <= size < 0x8000_0000 && n == Signed64(n)
    case Ref(id) => t.code == IDREF && 0 <= id && IsId(id)
    case Truth(_) => t.code == BOOLEAN
    case Nothing => false
  }

  function Plain(name: string, n: nat): Spaced {
    Spaced(" ", Attr(name, Numeral(n, 10)), "", "")
  }

  function SpacedId(id: int): seq<Spaced> {
    if id < 0 then [] else [Plain("ID", id)]
  }

  function ContainerName(code: nat): string {
    if code in {40, 41} then "array" else if code in {91, 93} then "set" else "dict"
  }

  function Spelling(t: Token): string
    requires Writable(t)
  {
    match t.load
    case Mark(id) => SpacedTag(if IsOpening(t.code) then Start else End, ContainerName(t.code), SpacedId(id))
    case Text(id, s) => Element(if t.code == KEY then "key" else "string", SpacedId(id), Escape(s), [])
    case Bytes(id, b) => Element("data", SpacedId(id), Encode(b), [])
    case Number(id, size, n) =>
      Element("integer", SpacedId(id) + [Plain("size", size)], Numeral(n % TWO64, 10), [])
    case Ref(id) => SpacedTag(Empty, "dict", [Plain("IDREF", id)])
    case Truth(b) => SpacedTag(Empty, if b then "true" else "false", [])
  }

  lemma PlainIsSpaced(name: string, n: nat)
    requires name in {"ID", "IDREF", "size"} && n < 0x8000_0000
    ensures IsSpaced(Plain(name, n)) && AreSpaced([Plain(name, n)])
  {
    NumeralAttr(name, n);
  }

  lemma SpacedIdReads(id: int)
    requires IsId(id)
    ensures AreSpaced(SpacedId(id)) && IdOf(AttrsOf(SpacedId(id))) == id
  {
    if id >= 0 {
      PlainIsSpaced("ID", id);
      DecimalIsRead(id);
      assert AttrsOf(SpacedId(id)) == [Attr("ID", Numeral(id, 10))];
    }
  }

  lemma AttrsOfTwo(a: Spaced, b: Spaced)
    ensures AttrsOf([a]) == [a.attr] && AttrsOf([a, b]) == [a.attr, b.attr]
  {
    assert [a, b][1..] == [b] && [b][1..] == [] && [a][1..] == [];
  }

  lemma IdAndSize(id: nat, size: nat)
    requires id < 0x8000_0000 && size < 0x8000_0000
    ensures var attrs := AttrsOf([Plain("ID", id), Plain("size", size)]); IdOf(attrs) == id && SizeOf(attrs) == size
  {
    AttrsOfTwo(Plain("ID", id), Plain("size", size));
    BehindAnother(Plain("ID", id).attr, Plain("size", size).attr);
    DecimalIsRead(id);
    DecimalIsRead(size);
  }

  lemma SizeAlone(size: nat)
    requires size < 0x8000_0000
    ensures var attrs := AttrsOf([Plain("size", size)]); IdOf(attrs) == -1 && SizeOf(attrs) == size
  {
    var size' := Attr("size", Numeral(size, 10));
    AttrsOfTwo(Plain("size", size), Plain("size", size));
    assert [size'][..0] == [];
    assert LastOf([size'], "ID") == None;
    DecimalIsRead(size);
  }

  lemma SpacedSizeReads(id: int, size: nat)
    requires IsId(id) && size < 0x8000_0000
    ensures var ss := SpacedId(id) + [Plain("size", size)];
      AreSpaced(ss) && IdOf(AttrsOf(ss)) == id && SizeOf(AttrsOf(ss)) == size
  {
    PlainIsSpaced("size", size);
    if id >= 0 {
      PlainIsSpaced("ID", id);
      IdAndSize(id, size);
      assert [Plain("ID", id)] + [Plain("size", size)] == [Plain("ID", id), Plain("size", size)];
    } else {
      SizeAlone(size);
      assert [] + [Plain("size", size)] == [Plain("size", size)];
    }
  }

  predicate IsOpening(code: nat) {
    code in {40, 91, 123}
  }

  lemma BracketCode(code: nat)
    requires code in {40, 41, 91, 93, 123, 125}
    ensures var name := ContainerName(code);
      name in {"array", "dict", "set"} && (if IsOpening(code) then Opening(name) else Closing(name)) as nat == code
  {
  }

  lemma MarkSpelling(t: Token)
    requires Writable(t) && t.load.Mark?
    ensures Spells(Spelling(t), t)
  {
    BracketCode(t.code);
    SpacedIdReads(t.load.idref);
    BracketSpells(if IsOpening(t.code) then Start else End, ContainerName(t.code), SpacedId(t.load.idref));
  }

  lemma TextSpelling(t: Token)
    requires Writable(t) && t.load.Text?
    ensures Spells(Spelling(t), t)
  {
    var s := t.load.text;
    SpacedIdReads(t.load.idref);
    EscapeHides(s);
    EscapesAreUndone(s);
    assert forall i :: 0 <= i < |Escape(s)| ==> Escape(s)[i] in Escape(s);
    TextSpells(if t.code == KEY then "key" else "string", t.code, SpacedId(t.load.idref), Escape(s), []);
  }

  lemma DataSpelling(t: Token)
    requires Writable(t) && t.load.Bytes?
    ensures Spells(Spelling(t), t)
  {
    SpacedIdReads(t.load.idref);
    EncodedSpells(SpacedId(t.load.idref), t.load.bytes);
  }

  lemma EncodedSpells(ss: seq<Spaced>, b: seq<Byte>)
    requires AreSpaced(ss)
    ensures Spells(Element("data", ss, Encode(b), []), Token(DATA, Bytes(IdOf(AttrsOf(ss)), b)))
  {
    var t := Token(DATA, Bytes(IdOf(AttrsOf(ss)), b));
    forall rest: string ensures Lex(Element("data", ss, Encode(b), []) + rest) == Lexed(t, rest) {
      var end := SpacedTag(End, "data", []) + rest;
      TaggedData(AttrsOf(ss), Encode(b) + end);
      ElementOpens("data", ss, Encode(b), [], rest, t);
      DataSurvives(b, end);
    }
  }

  lemma NumberSpelling(t: Token)
    requires Writable(t) && t.load.Number?
    ensures Spells(Spelling(t), t)
  {
    var ss, n := SpacedId(t.load.idref) + [Plain("size", t.load.size)], t.load.number % TWO64;
    SpacedSizeReads(t.load.idref, t.load.size);
    NumeralIsDecimal(n);
    NumeralReads(n, 10);
    DecimalSpells(ss, Numeral(n, 10), []);
    SignedOfLow(t.load.number);
  }

  lemma NumeralIsDecimal(n: nat)
    ensures AreDigits(Numeral(n, 10))
  {
    assert forall c: char :: DigitValue(c) < 10 ==> IsDigit(c);
  }

  /** Every token a tree is made of has a text that is read as it. */
  lemma EveryTokenIsSpelt(t: Token)
    requires Writable(t)
    ensures Spells(Spelling(t), t)
  {
    match t.load
    case Mark(_) => MarkSpelling(t);
    case Text(_, _) => TextSpelling(t);
    case Bytes(_, _) => DataSpelling(t);
    case Number(_, _, _) => NumberSpelling(t);
    case Ref(id) =>
      PlainIsSpaced("IDREF", id);
      DecimalIsRead(id);
      RefSpells("dict", [Plain("IDREF", id)]);
    case Truth(b) => TruthSpells(b, []);
  }

  /** The tokens with these gaps in front of them. */
  function Spread(ts: seq<Token>, gaps: seq<seq<Filler>>): (ps: seq<Piece>)
    requires |gaps| == |ts| && forall i :: 0 <= i < |ts| ==> Writable(ts[i])
    ensures |ps| == |ts|
    ensures forall i :: 0 <= i < |ts| ==> ps[i] == Piece(gaps[i], Spelling(ts[i]), ts[i])
  {
    if ts == [] then []
    else [Piece(gaps[0], Spelling(ts[0]), ts[0])] + Spread(ts[1..], gaps[1..])
  }

  lemma {:induction false} SpreadTokens(ts: seq<Token>, gaps: seq<seq<Filler>>)
    requires |gaps| == |ts| && forall i :: 0 <= i < |ts| ==> Writable(ts[i])
    ensures TokensOf(Spread(ts, gaps)) == ts
  {
    if ts != [] { SpreadTokens(ts[1..], gaps[1..]); }
  }

  /** For every tree: with any gaps between its tokens, and any behind them, its text is read as its
      tokens and parsed into what it means. */
  lemma TreeWithAnyGaps(t: Tree, gaps: seq<seq<Filler>>, end: seq<Filler>)
    requires WellFormed(t) && |gaps| == |Tokens(t)| && forall i :: 0 <= i < |gaps| ==> AreFillers(gaps[i])
    requires AreFillers(end) && forall i :: 0 <= i < |Tokens(t)| ==> Writable(Tokens(t)[i])
    ensures var text, e := LaidOut(Spread(Tokens(t), gaps)) + (Gap(end) + "\0"), Eval(t, map[]);
      && LexAll(text) == Tokens(t)
      && Parse(text) == if 1 + Peak(t) >= YYMAXDEPTH || e.None? then Rejected else Accepted(Some(e.value.0))
  {
    var ps := Spread(Tokens(t), gaps);
    SpreadTokens(Tokens(t), gaps);
    forall i | 0 <= i < |ps| ensures AreFillers(ps[i].gap) && Spells(ps[i].text, ps[i].token) {
      EveryTokenIsSpelt(Tokens(t)[i]);
    }
    TreeInAnyLayout(t, ps, Gap(end) + "\0");
    NothingBehind(end);
  }

  lemma NothingBehind(end: seq<Filler>)
    requires AreFillers(end)
    ensures LexAll(Gap(end) + "\0") == []
  {
    GapIsSkipped(end, "\0");
    LexAtNul("\0");
  }
}
