/** The lexer as it runs: an index into the text, and buffers of fixed size. */
module PlistReader {
  import opened Basics
  import Cycle
  import opened PlistText
  import opened PlistValues
  import opened Base64
  import opened PlistLexer

  // ----- one character at a time -----

  /** What remains of a text, behind its end too. */
  function Drop(s: string, n: nat): string {
    if n <= |s| then s[n..] else []
  }

  lemma DropNext(s: string, n: nat)
    ensures Tail(Drop(s, n)) == Drop(s, n + 1)
    ensures n < |s| ==> Head(Drop(s, n)) == s[n]
    ensures n >= |s| ==> Head(Drop(s, n)) == '\0'
  {
  }

  lemma BlankSkipped(s: string)
    requires IsSpace(Head(s))
    ensures AfterBlanks(s) == AfterBlanks(Tail(s)) && |Tail(s)| < |s|
  {
    assert s[1..][Span(IsSpace, s[1..])..] == s[1 + Span(IsSpace, s[1..])..];
  }

  /** A prefix that satisfies `p` and the character that ends it fix the span. */
  lemma SpanIs(p: char -> bool, s: string, n: nat)
    requires n <= |s| && forall i :: 0 <= i < n ==> p(s[i])
    ensures Span(p, s) >= n
    ensures n < |s| && !p(s[n]) ==> Span(p, s) == n
  {
  }

  /** A run of characters goes on just where the next one belongs to it. */
  lemma SpanGoesOn(p: char -> bool, s: string, k: nat)
    requires k <= Span(p, s)
    ensures k < Span(p, s) <==> k < |s| && p(s[k])
    ensures Tail(s[k..]) == if k < |s| then s[k + 1..] else []
    ensures k < |s| ==> Head(s[k..]) == s[k]
    ensures k == |s| ==> Head(s[k..]) == '\0'
  {
  }

  // ----- arithmetic of the integer reader -----

  lemma LowStep(x: nat, base: nat, d: nat, n: nat, y: nat)
    requires n == Low64(x) && y == x * base + d
    ensures Low64(n * base + d) == Low64(y)
  {
    var q := x / TWO64;
    assert x == TWO64 * q + n;
    assert y == n * base + d + TWO64 * (q * base) by { Regroup(TWO64, q, n, base); }
    Cycle.ModShift(n * base + d, TWO64, q * base);
  }

  function HexUpTo(s: string, k: nat): nat
    requires k <= Span(IsHexDigit, s)
  {
    Reading(s[..k], 16)
  }

  function DecimalUpTo(s: string, k: nat): nat
    requires k <= Span(IsDigit, s)
  {
    Reading(s[..k], 10)
  }

  /** One digit more. */
  method OneHex(n: nat, c: char, ghost s: string, ghost k: nat) returns (r: nat)
    requires k < Span(IsHexDigit, s) && c == s[k] && n == Low64(HexUpTo(s, k))
    ensures r == Low64(HexUpTo(s, k + 1))
  {
    r := Low64(n * 16 + DigitValue(c));
    AfterHex(s, k, n);
  }

  lemma AfterHex(s: string, k: nat, n: nat)
    requires k < Span(IsHexDigit, s) && n == Low64(HexUpTo(s, k))
    ensures Low64(n * 16 + DigitValue(s[k])) == Low64(HexUpTo(s, k + 1))
  {
    var x, y, d := HexUpTo(s, k), HexUpTo(s, k + 1), DigitValue(s[k]);
    assert y == x * 16 + d by {
      assert s[..k + 1] == s[..k] + [s[k]];
      ReadingAppend(s[..k], s[k], 16);
    }
    LowStep(x, 16, d, n, y);
  }

  /** One digit more. */
  method OneDecimal(n: nat, c: char, ghost s: string, ghost k: nat) returns (r: nat)
    requires k < Span(IsDigit, s) && c == s[k] && n == Low64(DecimalUpTo(s, k))
    ensures r == Low64(DecimalUpTo(s, k + 1))
  {
    r := Low64(n * 10 + DigitValue(c));
    AfterDecimal(s, k, n);
  }

  lemma AfterDecimal(s: string, k: nat, n: nat)
    requires k < Span(IsDigit, s) && n == Low64(DecimalUpTo(s, k))
    ensures Low64(n * 10 + DigitValue(s[k])) == Low64(DecimalUpTo(s, k + 1))
  {
    var x, y, d := DecimalUpTo(s, k), DecimalUpTo(s, k + 1), DigitValue(s[k]);
    assert y == x * 10 + d by {
      assert s[..k + 1] == s[..k] + [s[k]];
      ReadingAppend(s[..k], s[k], 10);
    }
    LowStep(x, 10, d, n, y);
  }

  lemma Regroup(m: nat, q: nat, r: nat, base: nat)
    ensures (m * q + r) * base == r * base + m * (q * base)
  {
    assert (m * q + r) * base == (m * q) * base + r * base;
    assert (m * q) * base == m * (q * base);
  }

  lemma PrependTwice(a: string, b: string, s: Option<string>)
    ensures Prepend(a, Prepend(b, s)) == Prepend(a + b, s)
  {
    if s.Some? { Assoc(a, b, s.value); }
  }

  lemma PrependNothing(s: Option<string>, a: string)
    ensures Prepend([], s) == s && Prepend(a, Some([])) == Some(a)
  {
    if s.Some? { assert [] + s.value == s.value; }
    assert a + [] == a;
  }

  class Reader {
    const parseBuffer: string
    var parseBufferIndex: nat

    constructor (buffer: string)
      ensures parseBuffer == buffer && parseBufferIndex == 0 && Rest() == buffer
    {
      parseBuffer, parseBufferIndex := buffer, 0;
    }

    function Rest(): string
      reads this
    {
      Drop(parseBuffer, parseBufferIndex)
    }

    function CurrentChar(): (c: char)
      reads this
      ensures c == Head(Rest())
    {
      if parseBufferIndex < |parseBuffer| then parseBuffer[parseBufferIndex] else '\0'
    }

    method NextChar() returns (c: char)
      modifies this
      ensures Rest() == Tail(old(Rest())) && c == Head(Rest())
      ensures parseBufferIndex == old(parseBufferIndex) + 1
    {
      DropNext(parseBuffer, parseBufferIndex);
      parseBufferIndex := parseBufferIndex + 1;
      c := CurrentChar();
    }

    method SkipBlanks() returns (c: char)
      modifies this
      ensures Rest() == AfterBlanks(old(Rest())) && c == Head(Rest())
    {
      c := CurrentChar();
      while IsSpace(c)
        invariant AfterBlanks(Rest()) == AfterBlanks(old(Rest())) && c == Head(Rest())
        decreases |Rest()|
      {
        BlankSkipped(Rest());
        c := NextChar();
      }
    }

    /** Copies a name; it must leave room for the NUL behind it. */
    method CopyName(buffer: array<char>) returns (ok: bool, length: nat)
      requires buffer.Length == TAG_MAX_LENGTH
      modifies this, buffer
      ensures ok == (Span(IsAlphaNumeric, old(Rest())) < TAG_MAX_LENGTH - 1)
      ensures ok ==> length == Span(IsAlphaNumeric, old(Rest())) && buffer[..length] == old(Rest())[..length]
      ensures ok ==> Rest() == old(Rest())[length..]
    {
      ghost var start := Rest();
      var c := CurrentChar();
      length := 0;
      while IsAlphaNumeric(c)
        invariant length <= Span(IsAlphaNumeric, start) && length < TAG_MAX_LENGTH - 1
        invariant Rest() == start[length..] && c == Head(Rest()) && buffer[..length] == start[..length]
        decreases |start| - length
      {
        SpanGoesOn(IsAlphaNumeric, start, length);
        buffer[length] := c;
        assert buffer[..length + 1] == start[..length + 1];
        length := length + 1;
        c := NextChar();
        if length >= TAG_MAX_LENGTH - 1 { return false, length; }
      }
      SpanGoesOn(IsAlphaNumeric, start, length);
      buffer[length] := '\0';
      return true, length;
    }

    /** Copies a value up to its closing quote. */
    method CopyValue(buffer: array<char>) returns (ok: bool, length: nat)
      requires buffer.Length == TAG_MAX_LENGTH
      modifies this, buffer
      ensures var m := Span(NotQuote, old(Rest())); ok == (m < |old(Rest())| && m < TAG_MAX_LENGTH - 1)
      ensures ok ==> length == Span(NotQuote, old(Rest())) && buffer[..length] == old(Rest())[..length]
      ensures ok ==> Rest() == old(Rest())[length + 1..]
    {
      ghost var start := Rest();
      var c := CurrentChar();
      length := 0;
      while c != '"'
        invariant length < TAG_MAX_LENGTH - 1
        invariant Rest() == Drop(start, length) && c == Head(Rest())
        invariant forall i :: 0 <= i < length && i < |start| ==> buffer[i] == start[i] && NotQuote(start[i])
        decreases TAG_MAX_LENGTH - length
      {
        DropNext(start, length);
        buffer[length] := c;
        length := length + 1;
        if length >= TAG_MAX_LENGTH - 1 {
          SpanIs(NotQuote, start, if length <= |start| then length else |start|);
          return false, length;
        }
        c := NextChar();
      }
      DropNext(start, length);
      SpanIs(NotQuote, start, length);
      buffer[length] := '\0';
      var _ := NextChar();
      return true, length;
    }

    method ReadName(buffer: array<char>) returns (r: Option<string>)
      requires buffer.Length == TAG_MAX_LENGTH
      modifies this, buffer
      ensures r.None? == NameEquals(old(Rest())).None?
      ensures r.Some? ==> Some((r.value, Rest())) == NameEquals(old(Rest()))
    {
      var c := SkipBlanks();
      var ok, n := CopyName(buffer);
      if !ok { return None; }
      var name := buffer[..n];
      c := SkipBlanks();
      if c != '=' { return None; }
      c := NextChar();
      return Some(name);
    }

    method ReadQuoted(buffer: array<char>) returns (r: Option<string>)
      requires buffer.Length == TAG_MAX_LENGTH
      modifies this, buffer
      ensures r.None? == Quoted(old(Rest())).None?
      ensures r.Some? ==> Some((r.value, Rest())) == Quoted(old(Rest()))
    {
      if CurrentChar() != '"' { return None; }
      var _ := NextChar();
      var ok, n := CopyValue(buffer);
      if !ok { return None; }
      return Some(buffer[..n]);
    }

    /** One attribute: its name, an equals sign and its value, with blanks between them. */
    method ReadAttribute(attribute: array<char>, value: array<char>) returns (r: Option<Attr>)
      requires attribute.Length == TAG_MAX_LENGTH && value.Length == TAG_MAX_LENGTH
      modifies this, attribute, value
      ensures r.None? == ReadAttr(old(Rest())).None?
      ensures r.Some? ==> Some((r.value, Rest())) == ReadAttr(old(Rest()))
    {
      var name := ReadName(attribute);
      if name.None? { return None; }
      var _ := SkipBlanks();
      var text := ReadQuoted(value);
      if text.None? { return None; }
      return Some(Attr(name.value, text.value));
    }

    method ReadAttributes() returns (r: Option<seq<Attr>>)
      modifies this
      ensures r == Attributes(old(Rest()), []).0
      ensures r.Some? ==> Rest() == Attributes(old(Rest()), []).1
    {
      var attribute, value := new char[TAG_MAX_LENGTH], new char[TAG_MAX_LENGTH];
      var attributes: seq<Attr> := [];
      while CurrentChar() != '>' && CurrentChar() != '/'
        invariant Attributes(Rest(), attributes) == Attributes(old(Rest()), [])
        invariant attribute.Length == TAG_MAX_LENGTH && value.Length == TAG_MAX_LENGTH
        decreases |Rest()|
      {
        var a := ReadAttribute(attribute, value);
        if a.None? { return None; }
        if |attributes| + 1 >= TAG_MAX_ATTRIBUTES { return None; }
        attributes := attributes + [a.value];
      }
      return Some(attributes);
    }

    /** A comment or processing instruction, from behind its first two characters. */
    method SkipComment() returns (ended: bool)
      modifies this
      ensures var n := Span(InComment, old(Rest()));
              && ended == (Head(old(Rest())[n..]) == '>')
              && (ended ==> Rest() == old(Rest())[n + 1..])
    {
      ghost var start := Rest();
      var c := CurrentChar();
      ghost var n: nat := 0;
      while c != '\0' && c != '>'
        invariant n <= |start| && Rest() == start[n..] && c == Head(Rest())
        invariant forall i :: 0 <= i < n ==> InComment(start[i])
        decreases |start| - n
      {
        c := NextChar();
        n := n + 1;
      }
      SpanIs(InComment, start, n);
      ended := c == '>';
      if ended { var _ := NextChar(); }
    }

    /** The rest of a tag, from its name on. */
    method ReadTag(closing: bool) returns (tag: Tag)
      modifies this
      ensures tag == TagFrom(closing, old(Rest()))
      ensures !tag.Bad? ==> Rest() == tag.rest
    {
      ghost var start := Rest();
      var buffer := new char[TAG_MAX_LENGTH];
      if !IsAlpha(CurrentChar()) { return Bad; }
      var ok, n := CopyName(buffer);
      if !ok { return Bad; }
      var name := buffer[..n];
      var attributes := ReadAttributes();
      if attributes.None? { return Bad; }
      var kind := if closing then End else Start;
      if CurrentChar() == '/' {
        var _ := NextChar();
        kind := Empty;
      }
      if CurrentChar() != '>' { return Bad; }
      var _ := NextChar();
      return Tag(kind, name, attributes.value, Rest());
    }

    method GetTag() returns (tag: Tag)
      modifies this
      ensures tag == PlistLexer.GetTag(old(Rest()))
      ensures !tag.Bad? ==> Rest() == tag.rest
    {
      ghost var start := Rest();
      if CurrentChar() != '<' { return Bad; }
      var c := NextChar();
      if c == '?' || c == '!' {
        var _ := NextChar();
        assert Rest() == start[2..];
        var ended := SkipComment();
        return if ended then Comment(Rest()) else Bad;
      }
      var closing := c == '/';
      if closing { var _ := NextChar(); }
      assert Rest() == if closing then start[2..] else start[1..];
      tag := ReadTag(closing);
    }

    // ----- strings -----

    /** What follows an ampersand: the character it stands for and the index behind it. */
    method ReadEntity(start: nat, i: nat, length: nat) returns (c: Option<char>, next: nat)
      requires i < length && start + length <= |parseBuffer| && parseBuffer[start + i] == '&'
      ensures var raw := parseBuffer[start..start + length];
              if c.None? then Unescape(raw[i..]) == None
              else i < next <= length && Unescape(raw[i..]) == Prepend([c.value], Unescape(raw[next..]))
    {
      ghost var raw := parseBuffer[start..start + length];
      ghost var s := raw[i..];
      EntityMeans(s);
      next := i + 1;
      if next + 3 > length { return None, next; }
      var d := parseBuffer[start + next];
      next := next + 1;
      if d == 'l' || d == 'g' {
        if parseBuffer[start + next] != 't' { return None, next; }
        next := next + 1;
        if parseBuffer[start + next] != ';' { return None, next; }
        next := next + 1;
        assert raw[next..] == s[4..];
        return Some(if d == 'l' then '<' else '>'), next;
      }
      if next + 3 > length { return None, next; }
      if d != 'a' { return None, next; }
      if parseBuffer[start + next] != 'm' { return None, next; }
      next := next + 1;
      if parseBuffer[start + next] != 'p' { return None, next; }
      next := next + 1;
      if parseBuffer[start + next] != ';' { return None, next; }
      next := next + 1;
      assert raw[next..] == s[5..];
      return Some('&'), next;
    }

    /** Copies a string out of the text and resolves its escapes. */
    method CopyString(start: nat, length: nat) returns (r: Option<string>)
      requires start + length <= |parseBuffer|
      ensures r == Unescape(parseBuffer[start..start + length])
    {
      ghost var raw := parseBuffer[start..start + length];
      var tempString := new char[length + 1];
      var i, j := 0, 0;
      assert raw[0..] == raw && tempString[..0] == [];
      PrependNothing(Unescape(raw), []);
      while i < length
        invariant j <= i <= length
        invariant Unescape(raw) == Prepend(tempString[..j], Unescape(raw[i..]))
      {
        var c := parseBuffer[start + i];
        ghost var s, front := raw[i..], tempString[..j];
        if c != '&' {
          assert s[0] == c && s[1..] == raw[i + 1..];
          i := i + 1;
        } else {
          var entity, next := ReadEntity(start, i, length);
          if entity.None? { return None; }
          c, i := entity.value, next;
        }
        PrependTwice(front, [c], Unescape(raw[i..]));
        tempString[j] := c;
        j := j + 1;
        assert tempString[..j] == front + [c];
      }
      assert raw[i..] == [];
      PrependNothing(None, tempString[..j]);
      tempString[j] := '\0';
      return Some(tempString[..j]);
    }

    method GetString() returns (r: Option<string>)
      modifies this
      ensures r == PlistText.GetString(old(Rest())).0
      ensures r.Some? ==> Rest() == PlistText.GetString(old(Rest())).1
    {
      ghost var s := Rest();
      var start := parseBufferIndex;
      var c := CurrentChar();
      ghost var k: nat := 0;
      while c != '\0' && c != '<'
        invariant k <= |s| && Rest() == s[k..] && c == Head(Rest()) && parseBufferIndex == start + k
        invariant forall i :: 0 <= i < k ==> InString(s[i])
        decreases |s| - k
      {
        c := NextChar();
        k := k + 1;
      }
      SpanIs(InString, s, k);
      if c != '<' { return None; }
      assert parseBuffer[start..start + k] == s[..k];
      r := CopyString(start, parseBufferIndex - start);
    }

    // ----- numbers -----

    /** Decimal digits, added up modulo 2^64. */
    method ReadDecimal() returns (n: nat)
      modifies this
      ensures n == Low64(DecimalPrefix(old(Rest()))) && Rest() == old(Rest())[Span(IsDigit, old(Rest()))..]
    {
      ghost var s := Rest();
      var c := CurrentChar();
      n := 0;
      ghost var k: nat := 0;
      while IsDigit(c)
        invariant k <= Span(IsDigit, s) && Rest() == s[k..] && c == Head(Rest())
        invariant n == Low64(DecimalUpTo(s, k))
        decreases |s| - k
      {
        SpanGoesOn(IsDigit, s, k);
        n := OneDecimal(n, c, s, k);
        c := NextChar();
        k := k + 1;
      }
      SpanGoesOn(IsDigit, s, k);
    }

    /** Lower-case hexadecimal digits, added up modulo 2^64. */
    method ReadHex() returns (n: nat)
      modifies this
      ensures n == Low64(HexPrefix(old(Rest()))) && Rest() == old(Rest())[Span(IsHexDigit, old(Rest()))..]
    {
      ghost var s := Rest();
      var c := CurrentChar();
      n := 0;
      ghost var k: nat := 0;
      while IsHexDigit(c)
        invariant k <= Span(IsHexDigit, s) && Rest() == s[k..] && c == Head(Rest())
        invariant n == Low64(HexUpTo(s, k))
        decreases |s| - k
      {
        SpanGoesOn(IsHexDigit, s, k);
        n := OneHex(n, c, s, k);
        c := NextChar();
        k := k + 1;
      }
      SpanGoesOn(IsHexDigit, s, k);
    }

    method GetNumber() returns (n: nat)
      modifies this
      ensures (n, Rest()) == PlistText.GetNumber(old(Rest()))
    {
      ghost var s := Rest();
      var c := CurrentChar();
      if !IsDigit(c) { return 0; }
      if c == '0' {
        c := NextChar();
        if c == 'x' {
          c := NextChar();
          assert Rest() == s[2..];
          n := ReadHex();
        } else {
          LeadingZero(s);
          n := ReadDecimal();
        }
      } else {
        n := ReadDecimal();
      }
    }

    // ----- data -----

    /** Decodes up to the next tag into a buffer that grows by CFDATA_ALLOC_SIZE. */
    method GetData() returns (r: Option<seq<Byte>>)
      modifies this
      ensures (r, Rest()) == Base64.GetData(old(Rest()), START)
    {
      var numeq, acc, cntr, tmpbufpos, tmpbuflen := 0, 0, 0, 0, 0;
      var tmpbuf := new Byte[CFDATA_ALLOC_SIZE];
      var c := CurrentChar();
      while c != '<'
        invariant c == Head(Rest()) && tmpbufpos <= tmpbuflen <= tmpbuf.Length
        invariant fresh(tmpbuf)
        invariant Base64.GetData(Rest(), Decoder(cntr, acc, numeq, tmpbuf[..tmpbufpos]))
          == Base64.GetData(old(Rest()), START)
        decreases |Rest()|
      {
        c := Low7(c);
        if c == '\0' { return None; }
        assert Rest() != [];
        ghost var d := Decoder(cntr, acc, numeq, tmpbuf[..tmpbufpos]);
        if c == '=' { numeq := numeq + 1; } else { numeq := 0; }
        if Decoded(c) >= 0 {
          cntr := cntr + 1;
          acc := Accumulate(acc, Decoded(c));
          if cntr % 4 == 0 {
            tmpbuf, tmpbuflen := Grown(tmpbuf, tmpbufpos, tmpbuflen);
            tmpbufpos := PutBytes(tmpbuf, tmpbufpos, acc, numeq);
          }
        }
        assert Decoder(cntr, acc, numeq, tmpbuf[..tmpbufpos]) == Feed(d, c);
        c := NextChar();
      }
      return Some(tmpbuf[..tmpbufpos]);
    }

    /** Room for three more bytes. */
    static method Grown(tmpbuf: array<Byte>, tmpbufpos: nat, tmpbuflen: nat) returns (buf: array<Byte>, len: nat)
      requires tmpbufpos <= tmpbuflen <= tmpbuf.Length
      ensures tmpbufpos + 2 < len <= buf.Length && buf[..tmpbufpos] == old(tmpbuf[..tmpbufpos])
      ensures buf == tmpbuf || fresh(buf)
    {
      if tmpbufpos + 2 < tmpbuflen { return tmpbuf, tmpbuflen; }
      len := tmpbuflen + CFDATA_ALLOC_SIZE;
      buf := new Byte[len];
      var i := 0;
      while i < tmpbufpos
        invariant i <= tmpbufpos && buf[..i] == old(tmpbuf[..i])
      {
        buf[i] := tmpbuf[i];
        i := i + 1;
      }
    }

    /** Writes the bytes that four digits complete; padding leaves some of them out. */
    static method PutBytes(tmpbuf: array<Byte>, tmpbufpos: nat, acc: nat, numeq: nat) returns (pos: nat)
      requires tmpbufpos + 2 < tmpbuf.Length
      modifies tmpbuf
      ensures tmpbufpos <= pos <= tmpbufpos + 3
      ensures tmpbuf[..pos] == old(tmpbuf[..tmpbufpos]) + Completed(acc, numeq)
    {
      pos := tmpbufpos;
      tmpbuf[pos] := acc / 0x1_0000 % 256;
      pos := pos + 1;
      if numeq < 2 {
        tmpbuf[pos] := acc / 0x100 % 256;
        pos := pos + 1;
      }
      if numeq < 1 {
        tmpbuf[pos] := acc % 256;
        pos := pos + 1;
      }
    }

    // ----- tokens -----

    method EndTag(name: string) returns (ok: bool)
      modifies this
      ensures var tag := PlistLexer.GetTag(old(Rest()));
              && ok == (tag.Tag? && tag.kind == End && tag.name == name)
              && (ok ==> Rest() == tag.rest)
    {
      var tag := GetTag();
      ok := tag.Tag? && tag.kind == End && tag.name == name;
    }

    /** The last attribute of a name counts, as for ID and size. */
    static method FindLast(attrs: seq<Attr>, name: string) returns (r: Option<string>)
      ensures r == LastOf(attrs, name)
    {
      r := None;
      for i := 0 to |attrs|
        invariant r == LastOf(attrs[..i], name)
      {
        assert attrs[..i + 1][..i] == attrs[..i];
        if attrs[i].name == name { r := Some(attrs[i].value); }
      }
      assert attrs[..|attrs|] == attrs;
    }

    /** The first one counts for IDREF. */
    static method FindFirst(attrs: seq<Attr>, name: string) returns (r: Option<string>)
      ensures r == FirstOf(attrs, name)
    {
      for i := 0 to |attrs|
        invariant FirstOf(attrs[i..], name) == FirstOf(attrs, name)
      {
        assert attrs[i..][1..] == attrs[i + 1..];
        if attrs[i].name == name { return Some(attrs[i].value); }
      }
      return None;
    }

    /** The token of a start or end tag that is not plist. */
    method ReadTagged(tag: Tag) returns (token: Token)
      requires tag.Tag? && tag.name != [] && Rest() == tag.rest
      modifies this
      ensures token == Tagged(tag).token
      ensures token.code != SYNTAX_ERROR ==> Rest() == Tagged(tag).rest
    {
      var given := FindLast(tag.attrs, "ID");
      var id := if given.None? then -1 else Strtol(given.value);
      var start := tag.kind == Start;
      if tag.name == "array" { return Token(if start then 40 else 41, Mark(id)); }
      if tag.name == "dict" { return Token(if start then 123 else 125, Mark(id)); }
      if tag.name == "set" { return Token(if start then 91 else 93, Mark(id)); }
      if tag.name == "data" {
        token := ReadData(id);
      } else if tag.name == "integer" {
        var size := FindLast(tag.attrs, "size");
        token := ReadInteger(id, if size.None? then 64 else Signed32(Strtoul(size.value)));
      } else if tag.name == "key" {
        token := ReadText("key", KEY, id);
      } else if tag.name == "string" {
        token := ReadText("string", STRING, id);
      } else if tag.name[0] in {'a', 'd', 'i', 'k', 'p', 's'} {
        token := Token(YYEOF, Nothing);
      } else {
        token := ERROR_TOKEN;
      }
    }

    method ReadText(name: string, code: nat, id: int) returns (token: Token)
      requires code == KEY || code == STRING
      modifies this
      ensures token == TextTag(name, code, id, old(Rest())).token
      ensures token.code != SYNTAX_ERROR ==> Rest() == TextTag(name, code, id, old(Rest())).rest
    {
      var text := GetString();
      if text.None? { return ERROR_TOKEN; }
      var ok := EndTag(name);
      return if ok then Token(code, Text(id, text.value)) else ERROR_TOKEN;
    }

    method ReadData(id: int) returns (token: Token)
      modifies this
      ensures token == DataTag(id, old(Rest())).token
      ensures token.code != SYNTAX_ERROR ==> Rest() == DataTag(id, old(Rest())).rest
    {
      var data := GetData();
      var ok := EndTag("data");
      return if ok then Token(DATA, Bytes(id, if data.None? then [] else data.value)) else ERROR_TOKEN;
    }

    method ReadInteger(id: int, size: int) returns (token: Token)
      modifies this
      ensures token == NumberTag(id, size, old(Rest())).token
      ensures token.code != SYNTAX_ERROR ==> Rest() == NumberTag(id, size, old(Rest())).rest
    {
      var number := GetNumber();
      var ok := EndTag("integer");
      return if ok then Token(NUMBER, Number(id, size, Signed64(number))) else ERROR_TOKEN;
    }

    /** The token of an empty tag. */
    method ReadEmpty(tag: Tag) returns (token: Token)
      requires tag.Tag?
      ensures token == EmptyTag(tag).token
    {
      if tag.name == "true" || tag.name == "false" { return Token(BOOLEAN, Truth(tag.name == "true")); }
      var id := FindFirst(tag.attrs, "IDREF");
      return if id.Some? then Token(IDREF, Ref(Strtol(id.value))) else ERROR_TOKEN;
    }

    method Yylex() returns (token: Token)
      modifies this
      ensures token == Lex(old(Rest())).token
      ensures token.code != SYNTAX_ERROR ==> Rest() == Lex(old(Rest())).rest
    {
      while true
        invariant Lex(Rest()) == Lex(old(Rest()))
        decreases |Rest()|
      {
        var c := SkipBlanks();
        if c == '\n' {
          c := NextChar();
          continue;
        }
        if c == '\0' || c == ',' {
          var _ := NextChar();
          return Token(if c == ',' then 44 else YYEOF, Nothing);
        }
        var tag := GetTag();
        if tag.Bad? { return ERROR_TOKEN; }
        if tag.Comment? { continue; }
        if tag.kind == Empty {
          token := ReadEmpty(tag);
          return;
        }
        if tag.name == "plist" { continue; }
        token := ReadTagged(tag);
        return;
      }
    }
  }

  const CFDATA_ALLOC_SIZE: nat := 4096

  /** A leading zero counts nothing. */
  lemma LeadingZero(s: string)
    requires s != [] && s[0] == '0'
    ensures DecimalPrefix(s) == DecimalPrefix(s[1..])
    ensures s[Span(IsDigit, s)..] == s[1..][Span(IsDigit, s[1..])..]
  {
    var k := Span(IsDigit, s[1..]);
    ZeroFirst(s[1..][..k]);
    assert s[..1 + k] == ['0'] + s[1..][..k];
  }

  lemma {:induction false} ZeroFirst(s: string)
    requires forall i :: 0 <= i < |s| ==> DigitValue(s[i]) < 10
    ensures Reading(['0'] + s, 10) == Reading(s, 10)
  {
    var t := ['0'] + s;
    if s == [] {
      ReadingAppend([], '0', 10);
      assert t == [] + ['0'];
    } else {
      ZeroFirst(s[..|s| - 1]);
      assert t[..|t| - 1] == ['0'] + s[..|s| - 1];
    }
  }
}
