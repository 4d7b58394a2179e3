/** Characters, digits and escapes of the property-list text.

    A text is the memory the parser reads. What lies behind its end reads as NUL, so `Head` and
    `Tail` are total, as the parser's currentChar and nextChar are. */
module PlistText {
  import opened Basics

  function Head(s: string): char {
    if s == [] then '\0' else s[0]
  }

  function Tail(s: string): string {
    if s == [] then [] else s[1..]
  }

  lemma Assoc<T>(a: seq<T>, b: seq<T>, c: seq<T>)
    ensures (a + b) + c == a + (b + c)
  {
  }

  predicate IsSpace(c: char) {
    c == ' ' || c == '\t'
  }

  predicate IsAlpha(c: char) {
    'A' <= c <= 'Z' || 'a' <= c <= 'z'
  }

  predicate IsDigit(c: char) {
    '0' <= c <= '9'
  }

  predicate IsHexDigit(c: char) {
    IsDigit(c) || 'a' <= c <= 'f'
  }

  predicate IsAlphaNumeric(c: char) {
    IsAlpha(c) || IsDigit(c) || c == '-'
  }

  predicate NotQuote(c: char) {
    c != '"'
  }

  /** How many characters at the front of `s` satisfy `p`. */
  function Span(p: char -> bool, s: string): (n: nat)
    ensures n <= |s|
    ensures forall i :: 0 <= i < n ==> p(s[i])
    ensures n < |s| ==> !p(s[n])
  {
    if s != [] && p(s[0]) then 1 + Span(p, s[1..]) else 0
  }

  lemma {:induction false} SpanStops(p: char -> bool, a: string, b: string)
    requires forall i :: 0 <= i < |a| ==> p(a[i])
    requires b != [] && !p(b[0])
    ensures Span(p, a + b) == |a| && (a + b)[..|a|] == a && (a + b)[|a|..] == b
  {
    assert forall i :: 0 <= i < |a| ==> (a + b)[i] == a[i];
    assert (a + b)[|a|] == b[0];
  }

  // ----- numerals -----

  predicate IsBase(base: nat) {
    base == 8 || base == 10 || base == 16
  }

  function DigitChar(d: nat): char
    requires d < 16
  {
    "0123456789abcdef"[d]
  }

  /** What a digit is worth, or 99 if the character is no digit; strtol takes both cases of a
      hexadecimal digit. */
  function DigitValue(c: char): nat {
    if '0' <= c <= '9' then (c as int) - ('0' as int)
    else if 'a' <= c <= 'f' then (c as int) - ('a' as int) + 10
    else if 'A' <= c <= 'F' then (c as int) - ('A' as int) + 10
    else 99
  }

  /** printf's %ld and %qx of a non-negative number: no leading zeros. */
  function Numeral(n: nat, base: nat): (s: string)
    requires IsBase(base)
    ensures s != []
    ensures forall i :: 0 <= i < |s| ==> DigitValue(s[i]) < base && IsHexDigit(s[i])
  {
    if n < base then [DigitChar(n)]
    else Smaller(n, base); Numeral(n / base, base) + [DigitChar(n % base)]
  }

  lemma Smaller(n: nat, base: nat)
    requires IsBase(base) && n >= base
    ensures 0 < n / base < n && n == (n / base) * base + n % base
  {
  }

  lemma {:induction false} NumeralLeads(n: nat, base: nat)
    requires IsBase(base)
    ensures Numeral(n, base)[0] == '0' <==> n == 0
    ensures n == 0 ==> Numeral(n, base) == "0"
  {
    if n >= base {
      Smaller(n, base);
      NumeralLeads(n / base, base);
    }
  }

  lemma {:induction false} NumeralLength(n: nat, base: nat, k: nat)
    requires IsBase(base) && base >= 10 && n < Power10(k) && k > 0
    ensures |Numeral(n, base)| <= k
  {
    if n >= base {
      Smaller(n, base);
      assert k > 1;
      Quotient(n, base, Power10(k - 1));
      NumeralLength(n / base, base, k - 1);
    }
  }

  lemma Quotient(n: nat, base: nat, p: nat)
    requires IsBase(base) && base >= 10 && n < 10 * p
    ensures n / base < p
  {
  }

  function Power10(k: nat): nat {
    if k == 0 then 1 else 10 * Power10(k - 1)
  }

  /** The number a run of digits denotes. */
  function Reading(s: string, base: nat): (r: nat)
    requires forall i :: 0 <= i < |s| ==> DigitValue(s[i]) < base
    decreases |s|
  {
    if s == [] then 0
    else Reading(s[..|s| - 1], base) * base + DigitValue(s[|s| - 1])
  }

  lemma DigitsAgree(d: nat)
    requires d < 16
    ensures DigitValue(DigitChar(d)) == d
  {
    assert d in {0, 1, 2, 3, 4, 5, 6, 7, 8, 9, 10, 11, 12, 13, 14, 15};
  }

  lemma ReadingAppend(s: string, c: char, base: nat)
    requires forall i :: 0 <= i < |s| ==> DigitValue(s[i]) < base
    requires DigitValue(c) < base
    ensures Reading(s + [c], base) == Reading(s, base) * base + DigitValue(c)
  {
    assert (s + [c])[..|s|] == s;
  }

  lemma {:induction false} NumeralReads(n: nat, base: nat)
    requires IsBase(base)
    ensures Reading(Numeral(n, base), base) == n
  {
    if n < base {
      DigitsAgree(n);
      ReadingAppend([], DigitChar(n), base);
      assert Numeral(n, base) == [] + [DigitChar(n)];
    } else {
      Smaller(n, base);
      NumeralReads(n / base, base);
      DigitsAgree(n % base);
      ReadingAppend(Numeral(n / base, base), DigitChar(n % base), base);
    }
  }

  // ----- the parser's own integer reader -----

  const TWO32: nat := 0x1_0000_0000
  const TWO64: nat := 0x1_0000_0000_0000_0000

  /** The value of the low bits of `n`, read as a signed integer. */
  function Signed32(n: int): (r: int)
    ensures -0x8000_0000 <= r < 0x8000_0000
    ensures -0x8000_0000 <= n < 0x8000_0000 ==> r == n
    ensures (r - n) % TWO32 == 0
  {
    if n % TWO32 < 0x8000_0000 then n % TWO32 else n % TWO32 - TWO32
  }

  function Signed64(n: int): (r: int)
    ensures -0x8000_0000_0000_0000 <= r < 0x8000_0000_0000_0000
    ensures -0x8000_0000_0000_0000 <= n < 0x8000_0000_0000_0000 ==> r == n
    ensures (r - n) % TWO64 == 0
  {
    if n % TWO64 < 0x8000_0000_0000_0000 then n % TWO64 else n % TWO64 - TWO64
  }

  /** getNumber: decimal, or lower-case hexadecimal after 0x, modulo 2^64; the number and what
      follows it. */
  function GetNumber(s: string): (r: (nat, string))
    ensures |r.1| <= |s|
  {
    if !IsDigit(Head(s)) then (0, s)
    else if Head(s) == '0' && Head(Tail(s)) == 'x' then
      (Low64(HexPrefix(s[2..])), s[2..][Span(IsHexDigit, s[2..])..])
    else
      (Low64(DecimalPrefix(s)), s[Span(IsDigit, s)..])
  }

  function Low64(n: nat): nat {
    n % TWO64
  }

  function HexPrefix(s: string): nat {
    Reading(s[..Span(IsHexDigit, s)], 16)
  }

  function DecimalPrefix(s: string): nat {
    Reading(s[..Span(IsDigit, s)], 10)
  }

  lemma HexIsRead(n: nat, rest: string)
    requires n < TWO64 && Head(rest) == '<'
    ensures GetNumber("0x" + Numeral(n, 16) + rest) == (n, rest)
  {
    var digits := Numeral(n, 16);
    var s := "0x" + digits + rest;
    assert s[2..] == digits + rest;
    SpanStops(IsHexDigit, digits, rest);
    assert HexPrefix(digits + rest) == n by { NumeralReads(n, 16); }
    assert Low64(n) == n;
  }

  // ----- strtol and strtoul with base 0, for a 32-bit long -----

  predicate IsWhite(c: char) {
    c == ' ' || '\U{0009}' <= c <= '\U{000d}'
  }

  predicate IsOctal(c: char) {
    DigitValue(c) < 8
  }

  predicate IsAnyHex(c: char) {
    DigitValue(c) < 16
  }

  function Magnitude(s: string): nat {
    if Head(s) == '0' && Head(Tail(s)) in {'x', 'X'} && IsAnyHex(Head(Tail(Tail(s)))) then
      Reading(s[2..][..Span(IsAnyHex, s[2..])], 16)
    else if Head(s) == '0' then
      Reading(s[..Span(IsOctal, s)], 8)
    else
      DecimalPrefix(s)
  }

  function AfterWhite(s: string): string {
    s[Span(IsWhite, s)..]
  }

  function AfterSign(s: string): string {
    if Head(s) in {'-', '+'} then Tail(s) else s
  }

  function Strtol(s: string): (r: int)
    ensures -0x8000_0000 <= r < 0x8000_0000
  {
    var t := AfterWhite(s);
    var n := Magnitude(AfterSign(t));
    if Head(t) == '-' then (if n > 0x8000_0000 then -0x8000_0000 else -(n as int))
    else if n >= 0x8000_0000 then 0x7fff_ffff else n
  }

  function Strtoul(s: string): (r: nat)
    ensures r < TWO32
  {
    var t := AfterWhite(s);
    var n := Magnitude(AfterSign(t));
    if n >= TWO32 then TWO32 - 1 else if Head(t) == '-' then (TWO32 - n) % TWO32 else n
  }

  lemma DecimalIsRead(n: nat)
    requires n < 0x8000_0000
    ensures Strtol(Numeral(n, 10)) == n && Strtoul(Numeral(n, 10)) == n
  {
    var s := Numeral(n, 10);
    DigitsOnly(s);
    assert AfterWhite(s) == s && AfterSign(s) == s;
    DecimalMagnitude(n);
  }

  lemma DecimalMagnitude(n: nat)
    ensures Magnitude(Numeral(n, 10)) == n
  {
    NumeralLeads(n, 10);
    if n == 0 {
      ZeroIsOctal();
    } else {
      DecimalPrefixReads(n);
    }
  }

  lemma ZeroIsOctal()
    ensures Magnitude("0") == 0
  {
    SpanAll(IsOctal, "0");
    ReadingAppend([], '0', 8);
    assert "0"[..1] == [] + ['0'];
  }

  lemma DecimalPrefixReads(n: nat)
    ensures DecimalPrefix(Numeral(n, 10)) == n
  {
    var s := Numeral(n, 10);
    DigitsOnly(s);
    SpanAll(IsDigit, s);
    assert s[..|s|] == s;
    NumeralReads(n, 10);
  }

  lemma DigitsOnly(s: string)
    requires forall i :: 0 <= i < |s| ==> DigitValue(s[i]) < 10
    ensures forall i :: 0 <= i < |s| ==> IsDigit(s[i])
  {
  }

  lemma DecimalIsShort(n: nat)
    requires n < 0x8000_0000
    ensures |Numeral(n, 10)| <= 10
  {
    assert Power10(5) == 100_000;
    assert Power10(10) == 10_000_000_000;
    NumeralLength(n, 10, 10);
  }

  lemma SpanAll(p: char -> bool, s: string)
    requires forall i :: 0 <= i < |s| ==> p(s[i])
    ensures Span(p, s) == |s|
  {
  }

  // ----- escapes -----

  function EscapeChar(c: char): string {
    if c == '<' then "&lt;" else if c == '>' then "&gt;" else if c == '&' then "&amp;" else [c]
  }

  function Escape(s: string): string {
    if s == [] then [] else EscapeChar(s[0]) + Escape(s[1..])
  }

  function Prepend(front: string, s: Option<string>): Option<string> {
    if s.None? then None else Some(front + s.value)
  }

  /** What the copying loop of getString makes of the characters before the next tag. */
  function Unescape(s: string): Option<string> {
    if s == [] then Some([])
    else if s[0] != '&' then Prepend([s[0]], Unescape(s[1..]))
    else if |s| >= 4 && s[1..4] == "lt;" then Prepend("<", Unescape(s[4..]))
    else if |s| >= 4 && s[1..4] == "gt;" then Prepend(">", Unescape(s[4..]))
    else if |s| >= 5 && s[1..5] == "amp;" then Prepend("&", Unescape(s[5..]))
    else None
  }

  /** What follows an ampersand, character by character. */
  lemma EntityMeans(s: string)
    requires s != [] && s[0] == '&'
    ensures |s| < 4 ==> Unescape(s) == None
    ensures |s| >= 4 && s[1] in {'l', 'g'} ==>
      Unescape(s) == if s[2] == 't' && s[3] == ';' then Prepend([if s[1] == 'l' then '<' else '>'], Unescape(s[4..]))
                     else None
    ensures |s| >= 4 && s[1] !in {'l', 'g'} ==>
      Unescape(s) == if |s| >= 5 && s[1] == 'a' && s[2] == 'm' && s[3] == 'p' && s[4] == ';'
                     then Prepend(['&'], Unescape(s[5..])) else None
  {
    if |s| >= 4 { assert s[1..4] == [s[1], s[2], s[3]]; }
    if |s| >= 5 { assert s[1..5] == [s[1], s[2], s[3], s[4]]; }
  }

  lemma {:induction false} EscapesAreUndone(s: string)
    ensures Unescape(Escape(s)) == Some(s)
  {
    if s != [] {
      EscapesAreUndone(s[1..]);
      var e := EscapeChar(s[0]) + Escape(s[1..]);
      assert e[|EscapeChar(s[0])|..] == Escape(s[1..]);
      assert s == [s[0]] + s[1..];
      if s[0] == '&' {
        assert e[1..5] == "amp;";
        assert e[1..4] == "amp";
      } else if s[0] in {'<', '>'} {
        assert e[1..4] == EscapeChar(s[0])[1..4];
      }
    }
  }

  /** Characters getString runs over before it looks for a tag. */
  predicate InString(c: char) {
    c != '<' && c != '\0'
  }

  function GetString(s: string): (r: (Option<string>, string))
    ensures |r.1| <= |s|
  {
    var k := Span(InString, s);
    if Head(s[k..]) != '<' then (None, s[k..]) else (Unescape(s[..k]), s[k..])
  }

  /** No bracket is left in an escaped text. */
  lemma {:induction false} EscapeHides(s: string)
    ensures '<' !in Escape(s) && '>' !in Escape(s) && ('\0' in Escape(s) <==> '\0' in s)
  {
    if s != [] {
      EscapeHides(s[1..]);
      assert s == [s[0]] + s[1..];
    }
  }

  /** A string survives exactly when it has no NUL character. */
  lemma StringIsRead(t: string, rest: string)
    requires Head(rest) == '<'
    ensures '\0' !in t ==> GetString(Escape(t) + rest) == (Some(t), rest)
    ensures '\0' in t ==> GetString(Escape(t) + rest).0 == None
  {
    var s, k := Escape(t) + rest, Span(InString, Escape(t) + rest);
    EscapeHides(t);
    if '\0' !in t {
      assert forall i :: 0 <= i < |Escape(t)| ==> Escape(t)[i] in Escape(t);
      SpanStops(InString, Escape(t), rest);
      EscapesAreUndone(t);
    } else {
      var z :| 0 <= z < |Escape(t)| && Escape(t)[z] == '\0';
      assert s[z] == '\0';
      assert k <= z && s[k] == Escape(t)[k];
      assert Escape(t)[k] in Escape(t);
    }
  }
}
