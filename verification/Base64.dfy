/** The base64 coding of data: the encoder's stream of characters, the decoder's accumulator, and
    the 24-bit groups of section 6.8 of RFC 2045 that both of them implement. */
module Base64 {
  import opened Basics
  import Cycle
  import opened PlistText
  import opened PlistValues

  // ----- the alphabet (the two tables, as ranges) -----

  function Letter(d: nat): (c: char)
    requires d < 64
    ensures c != '=' && c != '<' && c != '\0' && (c as int) < 128
  {
    if d < 26 then (('A' as int) + d) as char
    else if d < 52 then (('a' as int) + (d - 26)) as char
    else if d < 62 then (('0' as int) + (d - 52)) as char
    else if d == 62 then '+'
    else '/'
  }

  /** The decode table: -1 outside the alphabet, 0 for the padding character. */
  function Decoded(c: char): (d: int)
    ensures -1 <= d < 64
  {
    if 'A' <= c <= 'Z' then (c as int) - ('A' as int)
    else if 'a' <= c <= 'z' then (c as int) - ('a' as int) + 26
    else if '0' <= c <= '9' then (c as int) - ('0' as int) + 52
    else if c == '+' then 62
    else if c == '/' then 63
    else if c == '=' then 0
    else -1
  }

  lemma LetterDecodes(d: nat)
    requires d < 64
    ensures Decoded(Letter(d)) == d
  {
  }

  // ----- the reference: groups of 24 bits -----

  function Digits(n: nat, count: nat): (s: string)
    requires n < 0x100_0000 && count <= 4
    ensures |s| == count
  {
    [Letter(n / 0x4_0000), Letter(n / 0x1000 % 64), Letter(n / 64 % 64), Letter(n % 64)][..count]
  }

  function Group(x: Byte, y: Byte, z: Byte): nat {
    x * 0x1_0000 + y * 0x100 + z
  }

  /** The first `k` whole groups. */
  function Groups(b: seq<Byte>, k: nat): string
    requires 3 * k <= |b|
  {
    if k == 0 then []
    else var i := 3 * (k - 1); Groups(b, k - 1) + Digits(Group(b[i], b[i + 1], b[i + 2]), 4)
  }

  /** A last group of one or two bytes: filled up with zero bits and marked with the padding
      character. */
  function Remainder(t: seq<Byte>): string {
    if |t| == 1 then Digits(Group(t[0], 0, 0), 2) + "=="
    else if |t| == 2 then Digits(Group(t[0], t[1], 0), 3) + "="
    else []
  }

  /** Section 6.8 of RFC 2045. */
  function Coded(b: seq<Byte>): string {
    var k := |b| / 3;
    Groups(b, k) + Remainder(b[3 * k..])
  }

  /** The alphabet of table 1 in section 6.8 of RFC 2045. */
  lemma AlphabetIs(d: nat)
    requires d < 64
    ensures Letter(0) == 'A' && Letter(25) == 'Z' && Letter(26) == 'a' && Letter(51) == 'z'
    ensures Letter(52) == '0' && Letter(61) == '9' && Letter(62) == '+' && Letter(63) == '/'
    ensures d < 61 && d != 25 && d != 51 ==> Letter(d + 1) as int == Letter(d) as int + 1
  {
  }

  // ----- the encoder -----

  /** What the loop adds for byte `i`. */
  function Emitted(b: seq<Byte>, i: nat): string
    requires i < |b|
  {
    if i % 3 == 0 then [Letter(b[i] / 4)]
    else if i % 3 == 1 then [Letter(Joined(b[i - 1], b[i]) / 16 % 64)]
    else [Letter(Joined(b[i - 1], b[i]) / 64 % 64), Letter(b[i] % 64)]
  }

  function Joined(x: Byte, y: Byte): nat {
    x * 256 + y
  }

  function Stream(b: seq<Byte>, n: nat): string
    requires n <= |b|
  {
    if n == 0 then [] else Stream(b, n - 1) + Emitted(b, n - 1)
  }

  /** What follows the loop. */
  function Padding(b: seq<Byte>): string {
    var n := |b|;
    if n % 3 == 0 then []
    else if n % 3 == 1 then [Letter(b[n - 1] % 4 * 16), '=', '=']
    else [Letter(b[n - 1] % 16 * 4), '=']
  }

  function Encode(b: seq<Byte>): string {
    Stream(b, |b|) + Padding(b)
  }

  lemma Split(n: nat, k: nat, q: nat, r: nat)
    requires k > 0 && n == q * k + r && r < k
    ensures n / k == q && n % k == r
  {
    Cycle.ModUnique(n, k, q, r);
  }

  /** The four digits of a group, as pieces of its bytes. */
  lemma GroupDigits(x: Byte, y: Byte, z: Byte)
    ensures Group(x, y, z) / 0x4_0000 == x / 4
    ensures Group(x, y, z) / 0x1000 % 64 == x % 4 * 16 + y / 16
    ensures Group(x, y, z) / 64 % 64 == y % 16 * 4 + z / 64
    ensures Group(x, y, z) % 64 == z % 64
  {
    var n := Group(x, y, z);
    Split(n, 0x4_0000, x / 4, x % 4 * 0x1_0000 + y * 0x100 + z);
    Split(n, 0x1000, x * 16 + y / 16, y % 16 * 0x100 + z);
    Split(x * 16 + y / 16, 64, x / 4, x % 4 * 16 + y / 16);
    Split(n, 64, x * 0x400 + y * 4 + z / 64, z % 64);
    Split(x * 0x400 + y * 4 + z / 64, 64, x * 16 + y / 16, y % 16 * 4 + z / 64);
  }

  lemma JoinedDigits(x: Byte, y: Byte)
    ensures Joined(x, y) / 16 % 64 == x % 4 * 16 + y / 16
    ensures Joined(x, y) / 64 % 64 == x % 16 * 4 + y / 64
  {
    Split(Joined(x, y), 16, x * 16 + y / 16, y % 16);
    Split(x * 16 + y / 16, 64, x / 4, x % 4 * 16 + y / 16);
    Split(Joined(x, y), 64, x * 4 + y / 64, y % 64);
    Split(x * 4 + y / 64, 64, x / 16, x % 16 * 4 + y / 64);
  }

  /** A whole group, letter by letter. */
  function Letters(x: Byte, y: Byte, z: Byte): string {
    [Letter(x / 4), Letter(x % 4 * 16 + y / 16), Letter(y % 16 * 4 + z / 64), Letter(z % 64)]
  }

  lemma DigitsAreLetters(x: Byte, y: Byte, z: Byte)
    ensures Digits(Group(x, y, z), 4) == Letters(x, y, z)
    ensures Digits(Group(x, y, z), 3) == Letters(x, y, z)[..3]
    ensures Digits(Group(x, y, z), 2) == Letters(x, y, z)[..2]
  {
    GroupDigits(x, y, z);
  }

  /** Three bytes, two and one in this coding: the first digit is the six high bits of the first byte. */
  lemma ShortCodings(x: Byte, y: Byte, z: Byte)
    ensures Coded([x, y, z])
            == [Letter(x / 4), Letter(x % 4 * 16 + y / 16), Letter(y % 16 * 4 + z / 64), Letter(z % 64)]
    ensures Coded([x, y]) == [Letter(x / 4), Letter(x % 4 * 16 + y / 16), Letter(y % 16 * 4), '=']
    ensures Coded([x]) == [Letter(x / 4), Letter(x % 4 * 16), '=', '=']
  {
    DigitsAreLetters(x, y, z);
    DigitsAreLetters(x, y, 0);
    DigitsAreLetters(x, 0, 0);
    assert Groups([x, y, z], 1) == Groups([x, y, z], 0) + Letters(x, y, z);
  }

  lemma FirstEmitted(b: seq<Byte>, k: nat)
    requires 3 * k < |b|
    ensures Emitted(b, 3 * k) == [Letter(b[3 * k] / 4)]
  {
  }

  lemma SecondEmitted(b: seq<Byte>, k: nat)
    requires 3 * k + 1 < |b|
    ensures Emitted(b, 3 * k + 1) == [Letter(b[3 * k] % 4 * 16 + b[3 * k + 1] / 16)]
  {
    assert (3 * k + 1) % 3 == 1;
    JoinedDigits(b[3 * k], b[3 * k + 1]);
  }

  lemma ThirdEmitted(b: seq<Byte>, k: nat)
    requires 3 * k + 2 < |b|
    ensures Emitted(b, 3 * k + 2) == [Letter(b[3 * k + 1] % 16 * 4 + b[3 * k + 2] / 64), Letter(b[3 * k + 2] % 64)]
  {
    assert (3 * k + 2) % 3 == 2;
    JoinedDigits(b[3 * k + 1], b[3 * k + 2]);
  }

  lemma StreamOfThree(b: seq<Byte>, n: nat)
    requires n + 3 <= |b|
    ensures Stream(b, n + 3) == Stream(b, n) + (Emitted(b, n) + Emitted(b, n + 1) + Emitted(b, n + 2))
  {
    assert Stream(b, n + 3) == Stream(b, n + 2) + Emitted(b, n + 2);
    assert Stream(b, n + 2) == Stream(b, n + 1) + Emitted(b, n + 1);
    assert Stream(b, n + 1) == Stream(b, n) + Emitted(b, n);
  }

  lemma StreamOfGroup(b: seq<Byte>, k: nat)
    requires 3 * k + 3 <= |b|
    ensures Stream(b, 3 * k + 3) == Stream(b, 3 * k) + Digits(Group(b[3 * k], b[3 * k + 1], b[3 * k + 2]), 4)
  {
    FirstEmitted(b, k);
    SecondEmitted(b, k);
    ThirdEmitted(b, k);
    StreamOfThree(b, 3 * k);
    DigitsAreLetters(b[3 * k], b[3 * k + 1], b[3 * k + 2]);
  }

  lemma OneGroupMore(b: seq<Byte>, k: nat)
    requires 3 * k + 3 <= |b|
    ensures Groups(b, k + 1) == Groups(b, k) + Digits(Group(b[3 * k], b[3 * k + 1], b[3 * k + 2]), 4)
  {
  }

  lemma {:induction false} StreamIsGroups(b: seq<Byte>, k: nat)
    requires 3 * k <= |b|
    ensures Stream(b, 3 * k) == Groups(b, k)
  {
    if k > 0 {
      var j := k - 1;
      StreamIsGroups(b, j);
      OneGroupMore(b, j);
      StreamOfGroup(b, j);
      assert 3 * k == 3 * j + 3;
    }
  }

  lemma PaddingOne(b: seq<Byte>, k: nat)
    requires |b| == 3 * k + 1
    ensures Padding(b) == [Letter(b[3 * k] % 4 * 16), '=', '=']
  {
  }

  lemma PaddingTwo(b: seq<Byte>, k: nat)
    requires |b| == 3 * k + 2
    ensures Padding(b) == [Letter(b[3 * k + 1] % 16 * 4), '=']
  {
  }

  lemma EndsInOne(b: seq<Byte>, k: nat)
    requires |b| == 3 * k + 1
    ensures Stream(b, |b|) + Padding(b) == Stream(b, 3 * k) + Remainder(b[3 * k..])
  {
    FirstEmitted(b, k);
    PaddingOne(b, k);
    DigitsAreLetters(b[3 * k], 0, 0);
    var e0 := Emitted(b, 3 * k);
    assert Stream(b, |b|) == Stream(b, 3 * k) + e0;
    assert e0 + Padding(b) == Remainder(b[3 * k..]);
  }

  lemma EndsInTwo(b: seq<Byte>, k: nat)
    requires |b| == 3 * k + 2
    ensures Stream(b, |b|) + Padding(b) == Stream(b, 3 * k) + Remainder(b[3 * k..])
  {
    FirstEmitted(b, k);
    SecondEmitted(b, k);
    PaddingTwo(b, k);
    DigitsAreLetters(b[3 * k], b[3 * k + 1], 0);
    var e0, e1 := Emitted(b, 3 * k), Emitted(b, 3 * k + 1);
    assert Stream(b, 3 * k + 1) == Stream(b, 3 * k) + e0;
    assert Stream(b, |b|) == Stream(b, 3 * k) + e0 + e1;
    assert e0 + e1 + Padding(b) == Remainder(b[3 * k..]);
  }

  lemma EndsInNone(b: seq<Byte>, k: nat)
    requires |b| == 3 * k
    ensures Padding(b) == [] == Remainder(b[3 * k..])
  {
  }

  /** The encoder produces the coding of RFC 2045. */
  lemma EncodeIsCoded(b: seq<Byte>)
    ensures Encode(b) == Coded(b)
  {
    var k := |b| / 3;
    StreamIsGroups(b, k);
    if |b| == 3 * k + 1 {
      EndsInOne(b, k);
    } else if |b| == 3 * k + 2 {
      EndsInTwo(b, k);
    } else {
      EndsInNone(b, k);
    }
  }

  // ----- the decoder -----

  /** cntr, acc, numeq and the bytes written so far; acc holds 32 bits. */
  datatype Decoder = Decoder(cntr: nat, acc: nat, numeq: nat, out: seq<Byte>)

  const START: Decoder := Decoder(0, 0, 0, [])

  function Accumulate(acc: nat, d: nat): nat {
    acc * 64 % TWO32 + d
  }

  /** The bytes that every fourth digit completes. */
  function Completed(acc: nat, numeq: nat): seq<Byte> {
    [acc / 0x1_0000 % 256]
    + (if numeq < 2 then [acc / 0x100 % 256] else [])
    + (if numeq < 1 then [acc % 256] else [])
  }

  function Feed(s: Decoder, c: char): Decoder {
    var numeq := if c == '=' then s.numeq + 1 else 0;
    if Decoded(c) < 0 then s.(numeq := numeq)
    else
      var acc := Accumulate(s.acc, Decoded(c));
      Decoder(s.cntr + 1, acc, numeq,
              if (s.cntr + 1) % 4 == 0 then s.out + Completed(acc, numeq) else s.out)
  }

  /** The characters of the buffer are taken modulo 128. */
  function Low7(c: char): char {
    ((c as int) % 128) as char
  }

  /** getData from a text on: the bytes, unless a NUL comes before the next tag, and what follows. */
  function GetData(s: string, d: Decoder): (r: (Option<seq<Byte>>, string))
    ensures |r.1| <= |s|
  {
    if Head(s) == '<' then (Some(d.out), s)
    else if Low7(Head(s)) == '\0' then (None, s)
    else GetData(Tail(s), Feed(d, Low7(Head(s))))
  }

  function FeedAll(d: Decoder, s: string): Decoder {
    if s == [] then d else Feed(FeedAll(d, s[..|s| - 1]), s[|s| - 1])
  }

  lemma {:induction false} FeedAppend(d: Decoder, s: string, t: string)
    ensures FeedAll(d, s + t) == FeedAll(FeedAll(d, s), t)
  {
    if t == [] {
      assert s + t == s;
    } else {
      FeedAppend(d, s, t[..|t| - 1]);
      assert (s + t)[..|s + t| - 1] == s + t[..|t| - 1];
    }
  }

  /** Characters the decoder runs over. */
  predicate InData(s: string) {
    forall i :: 0 <= i < |s| ==> s[i] != '<' && s[i] != '\0' && (s[i] as int) < 128
  }

  lemma {:induction false} FeedFirst(d: Decoder, s: string)
    requires s != []
    ensures FeedAll(d, s) == FeedAll(Feed(d, s[0]), s[1..])
  {
    assert [s[0]] + s[1..] == s;
    FeedAppend(d, [s[0]], s[1..]);
    assert [s[0]][..0] == [];
  }

  lemma OneIsRead(s: string, d: Decoder)
    requires s != [] && s[0] != '<' && s[0] != '\0' && (s[0] as int) < 128
    ensures GetData(s, d) == GetData(Tail(s), Feed(d, s[0]))
  {
  }

  lemma {:induction false} DataIsRead(s: string, rest: string, d: Decoder)
    requires InData(s) && Head(rest) == '<'
    ensures GetData(s + rest, d) == (Some(FeedAll(d, s).out), rest)
    decreases |s|
  {
    if s == [] {
      assert s + rest == rest;
    } else {
      OneIsRead(s + rest, d);
      assert Head(s + rest) == s[0] && Tail(s + rest) == s[1..] + rest;
      FeedFirst(d, s);
      DataIsRead(s[1..], rest, Feed(d, s[0]));
    }
  }

  /** The highest bit of a character does not matter, but for finding the tag: a text is read as the
      one whose characters are those modulo 128. */
  lemma {:induction false} HighBitIsDropped(s: string, low: string, rest: string, d: Decoder)
    requires |low| == |s| && Head(rest) == '<'
    requires forall i :: 0 <= i < |s| ==> s[i] != '<' && low[i] as int == s[i] as int % 128 && low[i] != '\0'
    ensures GetData(s + rest, d) == (Some(FeedAll(d, low).out), rest)
    decreases |s|
  {
    if s == [] {
      assert s + rest == rest;
    } else {
      assert Head(s + rest) == s[0] && Tail(s + rest) == s[1..] + rest && Low7(s[0]) == low[0];
      FeedFirst(d, low);
      HighBitIsDropped(s[1..], low[1..], rest, Feed(d, low[0]));
    }
  }

  /** A NUL in front of the next tag ends the data, and there are no bytes. */
  lemma {:induction false} NulEndsData(s: string, i: nat, d: Decoder)
    requires i < |s| && s[i] as int % 128 == 0 && forall j :: 0 <= j < i ==> s[j] != '<'
    ensures GetData(s, d).0 == None
    decreases i
  {
    if i > 0 && Low7(s[0]) != '\0' { NulEndsData(s[1..], i - 1, Feed(d, Low7(s[0]))); }
  }

  // ----- four digits -----

  lemma Accumulated(acc: nat, d: nat)
    requires d < 64
    ensures Accumulate(acc, d) == acc % 0x400_0000 * 64 + d
  {
    Split(acc * 64, TWO32, acc / 0x400_0000, acc % 0x400_0000 * 64);
  }

  /** After four digits the low 24 bits of acc are those digits. */
  lemma FourAccumulated(acc: nat, d1: nat, d2: nat, d3: nat, d4: nat) returns (h: nat)
    requires d1 < 64 && d2 < 64 && d3 < 64 && d4 < 64
    ensures Accumulate(Accumulate(Accumulate(Accumulate(acc, d1), d2), d3), d4)
            == h * 0x100_0000 + d1 * 0x4_0000 + d2 * 0x1000 + d3 * 64 + d4
  {
    Accumulated(acc, d1);
    var h1 := acc % 0x400_0000;
    Accumulated(h1 * 64 + d1, d2);
    Split(h1 * 64 + d1, 0x400_0000, h1 / 0x10_0000, h1 % 0x10_0000 * 64 + d1);
    var h2 := h1 % 0x10_0000;
    var a2 := h2 * 0x1000 + d1 * 64 + d2;
    Accumulated(a2, d3);
    Split(a2, 0x400_0000, h2 / 0x4000, h2 % 0x4000 * 0x1000 + d1 * 64 + d2);
    var h3 := h2 % 0x4000;
    var a3 := h3 * 0x4_0000 + d1 * 0x1000 + d2 * 64 + d3;
    Accumulated(a3, d4);
    Split(a3, 0x400_0000, h3 / 0x100, h3 % 0x100 * 0x4_0000 + d1 * 0x1000 + d2 * 64 + d3);
    h := h3 % 0x100;
  }

  lemma BytesOfGroup(h: nat, x: Byte, y: Byte, z: Byte)
    ensures Completed(h * 0x100_0000 + Group(x, y, z), 0) == [x, y, z]
    ensures Completed(h * 0x100_0000 + Group(x, y, z), 1) == [x, y]
    ensures Completed(h * 0x100_0000 + Group(x, y, z), 2) == [x]
  {
    var acc := h * 0x100_0000 + Group(x, y, z);
    Split(acc, 0x1_0000, h * 0x100 + x, y * 0x100 + z);
    Split(h * 0x100 + x, 0x100, h, x);
    Split(acc, 0x100, h * 0x1_0000 + x * 0x100 + y, z);
    Split(h * 0x1_0000 + x * 0x100 + y, 0x100, h * 0x100 + x, y);
  }

  /** Where the decoder is between two groups. */
  predicate AtGroup(d: Decoder) {
    d.cntr % 4 == 0 && d.numeq == 0
  }

  /** How many padding characters end the four. */
  function Padded(c: string): nat
    requires |c| == 4
  {
    if c[3] != '=' then 0 else if c[2] != '=' then 1 else 2
  }

  lemma FeedFour(d: Decoder, c: string)
    requires |c| == 4
    ensures FeedAll(d, c) == Feed(Feed(Feed(Feed(d, c[0]), c[1]), c[2]), c[3])
  {
    FeedFirst(d, c);
    FeedFirst(Feed(d, c[0]), c[1..]);
    FeedFirst(Feed(Feed(d, c[0]), c[1]), c[2..]);
    FeedFirst(Feed(Feed(Feed(d, c[0]), c[1]), c[2]), c[3..]);
    assert c[1..][1..] == c[2..] && c[2..][1..] == c[3..] && c[3..][1..] == [];
  }

  /** Between two groups nothing is written for the first three digits. */
  lemma FeedOne(d: Decoder, c: char)
    requires Decoded(c) >= 0 && d.cntr % 4 != 3
    ensures Feed(d, c) == Decoder(d.cntr + 1, Accumulate(d.acc, Decoded(c)), if c == '=' then d.numeq + 1 else 0, d.out)
    ensures (d.cntr + 1) % 4 == d.cntr % 4 + 1
  {
  }

  /** With the fourth one the bytes are written. */
  lemma FeedLast(d: Decoder, c: char)
    requires Decoded(c) >= 0 && d.cntr % 4 == 3
    ensures var r, numeq := Feed(d, c), if c == '=' then d.numeq + 1 else 0;
      && r.cntr % 4 == 0 && r.numeq == numeq
      && r.out == d.out + Completed(Accumulate(d.acc, Decoded(c)), numeq)
  {
    assert (d.cntr + 1) % 4 == 0;
  }

  /** The decoder after three digits of a group. */
  lemma ThreeDigitsFed(d: Decoder, c: string)
    requires AtGroup(d) && |c| == 4 && forall i :: 0 <= i < 4 ==> Decoded(c[i]) >= 0
    requires c[1] != '='
    ensures var r := Feed(Feed(Feed(d, c[0]), c[1]), c[2]);
      && r.cntr % 4 == 3 && r.numeq == (if c[2] == '=' then 1 else 0) && r.out == d.out
      && r.acc == Accumulate(Accumulate(Accumulate(d.acc, Decoded(c[0])), Decoded(c[1])), Decoded(c[2]))
  {
    FeedOne(d, c[0]);
    FeedOne(Feed(d, c[0]), c[1]);
    FeedOne(Feed(Feed(d, c[0]), c[1]), c[2]);
  }

  lemma FourFed(d: Decoder, c: string)
    requires AtGroup(d) && |c| == 4
    requires forall i :: 0 <= i < 4 ==> Decoded(c[i]) >= 0
    requires c[1] != '=' && (c[2] == '=' ==> c[3] == '=')
    ensures FeedAll(d, c).cntr % 4 == 0 && FeedAll(d, c).numeq == Padded(c)
    ensures FeedAll(d, c).out == d.out + Completed(
              Accumulate(Accumulate(Accumulate(Accumulate(d.acc, Decoded(c[0])), Decoded(c[1])), Decoded(c[2])),
                         Decoded(c[3])),
              Padded(c))
  {
    FeedFour(d, c);
    ThreeDigitsFed(d, c);
    FeedLast(Feed(Feed(Feed(d, c[0]), c[1]), c[2]), c[3]);
  }

  /** Four characters that carry the digits of a group yield its bytes; one or two of them may be
      padding, and then as many bytes are left out. */
  lemma GroupIsFed(d: Decoder, x: Byte, y: Byte, z: Byte, c: string)
    requires AtGroup(d) && |c| == 4
    requires Decoded(c[0]) == x / 4 && Decoded(c[1]) == x % 4 * 16 + y / 16
    requires Decoded(c[2]) == y % 16 * 4 + z / 64 && Decoded(c[3]) == z % 64
    requires c[1] != '=' && (c[2] == '=' ==> c[3] == '=')
    ensures FeedAll(d, c).out == d.out + [x, y, z][..3 - Padded(c)]
    ensures Padded(c) == 0 ==> AtGroup(FeedAll(d, c))
  {
    FourFed(d, c);
    var h := FourAccumulated(d.acc, x / 4, x % 4 * 16 + y / 16, y % 16 * 4 + z / 64, z % 64);
    BytesOfGroup(h, x, y, z);
  }

  lemma WholeGroupIsFed(d: Decoder, x: Byte, y: Byte, z: Byte)
    requires AtGroup(d)
    ensures AtGroup(FeedAll(d, Digits(Group(x, y, z), 4)))
    ensures FeedAll(d, Digits(Group(x, y, z), 4)).out == d.out + [x, y, z]
  {
    DigitsAreLetters(x, y, z);
    GroupIsFed(d, x, y, z, Letters(x, y, z));
  }

  /** The decoder has turned `s` into `done` and waits for the next group. */
  predicate Fed(s: string, done: seq<Byte>) {
    AtGroup(FeedAll(START, s)) && FeedAll(START, s).out == done
  }

  lemma NextGroupIsFed(s: string, done: seq<Byte>, x: Byte, y: Byte, z: Byte)
    requires Fed(s, done)
    ensures Fed(s + Digits(Group(x, y, z), 4), done + [x, y, z])
  {
    WholeGroupIsFed(FeedAll(START, s), x, y, z);
    FeedAppend(START, s, Digits(Group(x, y, z), 4));
  }

  lemma {:induction false} GroupsAreFed(b: seq<Byte>, k: nat)
    requires 3 * k <= |b|
    ensures Fed(Groups(b, k), b[..3 * k])
  {
    if k > 0 {
      var i := 3 * (k - 1);
      var done := b[..i];
      assert b[..3 * k] == done + [b[i], b[i + 1], b[i + 2]];
      GroupsAreFed(b, k - 1);
      NextGroupIsFed(Groups(b, k - 1), done, b[i], b[i + 1], b[i + 2]);
    }
  }

  lemma OneLeftIsFed(d: Decoder, x: Byte)
    requires AtGroup(d)
    ensures FeedAll(d, Remainder([x])).out == d.out + [x]
  {
    DigitsAreLetters(x, 0, 0);
    GroupIsFed(d, x, 0, 0, Remainder([x]));
  }

  lemma TwoLeftAreFed(d: Decoder, x: Byte, y: Byte)
    requires AtGroup(d)
    ensures FeedAll(d, Remainder([x, y])).out == d.out + [x, y]
  {
    var c := [Letter(x / 4), Letter(x % 4 * 16 + y / 16), Letter(y % 16 * 4), '='];
    assert Remainder([x, y]) == c by { DigitsAreLetters(x, y, 0); }
    GroupIsFed(d, x, y, 0, c);
  }

  lemma RemainderIsFed(d: Decoder, t: seq<Byte>)
    requires AtGroup(d) && |t| < 3
    ensures FeedAll(d, Remainder(t)).out == d.out + t
  {
    if |t| == 1 {
      assert t == [t[0]];
      OneLeftIsFed(d, t[0]);
    } else if |t| == 2 {
      assert t == [t[0], t[1]];
      TwoLeftAreFed(d, t[0], t[1]);
    }
  }

  lemma RemainderAfter(s: string, done: seq<Byte>, t: seq<Byte>)
    requires Fed(s, done) && |t| < 3
    ensures FeedAll(START, s + Remainder(t)).out == done + t
  {
    RemainderIsFed(FeedAll(START, s), t);
    FeedAppend(START, s, Remainder(t));
  }

  /** Decoding undoes encoding, for every byte string. */
  lemma DecodeCoded(b: seq<Byte>)
    ensures FeedAll(START, Coded(b)).out == b
  {
    var k := |b| / 3;
    var done, t := b[..3 * k], b[3 * k..];
    assert b == done + t;
    GroupsAreFed(b, k);
    RemainderAfter(Groups(b, k), done, t);
  }

  lemma {:induction false} CodedIsInData(b: seq<Byte>)
    ensures InData(Encode(b))
  {
    StreamIsInData(b, |b|);
  }

  lemma {:induction false} StreamIsInData(b: seq<Byte>, n: nat)
    requires n <= |b|
    ensures InData(Stream(b, n))
  {
    if n > 0 { StreamIsInData(b, n - 1); }
  }

  /** getData returns exactly the bytes that were written. */
  lemma DataSurvives(b: seq<Byte>, rest: string)
    requires Head(rest) == '<'
    ensures GetData(Encode(b) + rest, START) == (Some(b), rest)
  {
    EncodeIsCoded(b);
    DecodeCoded(b);
    CodedIsInData(b);
    DataIsRead(Encode(b), rest, START);
  }

  // ----- foreign characters -----

  /** 7-bit characters outside the alphabet that end neither the data nor the padding. */
  predicate IsForeign(c: char) {
    Decoded(c) < 0 && c != '<' && c != '\0' && (c as int) < 128
  }

  function WithoutForeign(s: string): string {
    if s == [] then []
    else WithoutForeign(s[..|s| - 1]) + (if IsForeign(s[|s| - 1]) then [] else [s[|s| - 1]])
  }

  lemma {:induction false} ForeignIsSkipped(d: Decoder, s: string)
    requires d.numeq == 0 && '=' !in s
    ensures FeedAll(d, s) == FeedAll(d, WithoutForeign(s)) && FeedAll(d, s).numeq == 0
  {
    if s != [] {
      var front, last := s[..|s| - 1], s[|s| - 1];
      assert s == front + [last];
      assert forall c :: c in front ==> c in s;
      ForeignIsSkipped(d, front);
      if !IsForeign(last) {
        assert (WithoutForeign(front) + [last])[..|WithoutForeign(front)|] == WithoutForeign(front);
      } else {
        assert WithoutForeign(s) == WithoutForeign(front);
      }
    }
  }

  /** Characters outside the alphabet, put anywhere before the padding, change nothing. */
  lemma ForeignIsHarmless(s: string, t: string, pad: string)
    requires '=' !in s && '=' !in t && WithoutForeign(s) == WithoutForeign(t)
    ensures FeedAll(START, s + pad) == FeedAll(START, t + pad)
  {
    ForeignIsSkipped(START, s);
    ForeignIsSkipped(START, t);
    FeedAppend(START, s, pad);
    FeedAppend(START, t, pad);
  }

  // ----- foreign characters in the padding -----

  lemma {:induction false} ForeignKeeps(s: string)
    ensures forall c :: c in s ==> IsForeign(c) || c in WithoutForeign(s)
  {
    if s != [] {
      assert s == s[..|s| - 1] + [s[|s| - 1]];
      ForeignKeeps(s[..|s| - 1]);
    }
  }

  /** Where the last character that counts stands. */
  lemma {:induction false} LastThatCounts(s: string, u: string, c: char) returns (front: string, foreign: string)
    requires WithoutForeign(s) == u + [c]
    ensures s == front + [c] + foreign && WithoutForeign(front) == u
    ensures forall x :: x in foreign ==> IsForeign(x)
  {
    var init, last := s[..|s| - 1], s[|s| - 1];
    if IsForeign(last) {
      assert WithoutForeign(init) == u + [c];
      front, foreign := LastThatCounts(init, u, c);
      foreign := foreign + [last];
      assert s == front + [c] + foreign;
    } else {
      assert WithoutForeign(init) + [last] == u + [c];
      assert u == (u + [c])[..|u|] == (WithoutForeign(init) + [last])[..|WithoutForeign(init)|];
      front, foreign := init, [];
    }
  }

  /** Characters outside the alphabet end a row of padding characters, and do nothing else. */
  lemma {:induction false} ForeignEndsPadding(d: Decoder, foreign: string)
    requires forall x :: x in foreign ==> IsForeign(x)
    ensures FeedAll(d, foreign) == if foreign == [] then d else d.(numeq := 0)
  {
    if foreign != [] {
      assert foreign[|foreign| - 1] in foreign;
      ForeignEndsPadding(d, foreign[..|foreign| - 1]);
    }
  }

  /** The decoder after the digits of one byte and a first padding character. */
  function AtPadding(d: Decoder, x: Byte): (e: Decoder) {
    var acc := Accumulate(Accumulate(Accumulate(d.acc, x / 4), x % 4 * 16), 0);
    Decoder(d.cntr + 3, acc, 1, d.out)
  }

  lemma ThreeFed(d: Decoder, x: Byte)
    requires AtGroup(d)
    ensures FeedAll(d, [Letter(x / 4), Letter(x % 4 * 16), '=']) == AtPadding(d, x)
  {
    var l1, l2 := Letter(x / 4), Letter(x % 4 * 16);
    FeedFirst(d, [l1, l2, '=']);
    FeedFirst(Feed(d, l1), [l2, '=']);
    FeedFirst(Feed(Feed(d, l1), l2), ['=']);
    assert [l1, l2, '='][1..] == [l2, '='] && [l2, '='][1..] == ['='] && ['='][1..] == [];
    LetterDecodes(x / 4);
    LetterDecodes(x % 4 * 16);
    FeedOne(d, l1);
    FeedOne(Feed(d, l1), l2);
    FeedOne(Feed(Feed(d, l1), l2), '=');
  }

  /** A second padding character: if the row was broken, the decoder takes it for the only one and
      adds a byte. */
  lemma PaddingIsFed(d: Decoder, x: Byte)
    requires AtGroup(d)
    ensures Feed(AtPadding(d, x), '=').out == d.out + [x]
    ensures Feed(AtPadding(d, x).(numeq := 0), '=').out == d.out + [x, 0]
  {
    var acc := Accumulate(AtPadding(d, x).acc, 0);
    assert Completed(acc, 2) == [x] && Completed(acc, 1) == [x, 0] by {
      var h := FourAccumulated(d.acc, x / 4, x % 4 * 16, 0, 0);
      assert x == x / 4 * 4 + x % 4;
      BytesOfGroup(h, x, 0, 0);
    }
    assert (AtPadding(d, x).cntr + 1) % 4 == 0;
  }

  lemma {:induction false} StreamHasNoPadding(b: seq<Byte>, n: nat)
    requires n <= |b|
    ensures '=' !in Stream(b, n)
  {
    if n > 0 { StreamHasNoPadding(b, n - 1); }
  }

  /** Two padding characters with something between them. */
  predicate PaddingBroken(s: string) {
    exists i, j :: 0 <= i && i + 1 < j < |s| && s[i] == '=' && s[j] == '='
  }

  lemma BrokenIff(front: string, between: string, behind: string)
    requires '=' !in front && '=' !in between && '=' !in behind
    ensures PaddingBroken(front + ['='] + between + ['='] + behind) <==> between != []
  {
    var s := front + ['='] + between + ['='] + behind;
    var i, j := |front|, |front| + 1 + |between|;
    assert s[..i] == front && s[i] == '=' && s[i + 1..j] == between && s[j] == '=' && s[j + 1..] == behind;
    forall k | 0 <= k < |s| && k != i && k != j ensures s[k] != '=' {
      if k < i { assert s[k] == front[k]; }
      else if k < j { assert s[k] == between[k - i - 1]; }
      else { assert s[k] == behind[k - j - 1]; }
    }
  }

  lemma UnbrokenWithOne(front: string, behind: string)
    requires '=' !in front && '=' !in behind
    ensures !PaddingBroken(front + ['='] + behind)
  {
    var s := front + ['='] + behind;
    forall k | 0 <= k < |s| && k != |front| ensures s[k] != '=' {
      if k < |front| { assert s[k] == front[k]; } else { assert s[k] == behind[k - |front| - 1]; }
    }
  }

  lemma OnePaddingFed(front: string, u: string)
    requires WithoutForeign(front) == u && '=' !in front
    ensures FeedAll(START, front + ['=']) == FeedAll(START, u + ['='])
  {
    ForeignIsSkipped(START, front);
    FeedAppend(START, front, ['=']);
    FeedAppend(START, u, ['=']);
  }

  lemma PaddingsFed(front: string, between: string, behind: string)
    requires forall x :: x in between || x in behind ==> IsForeign(x)
    ensures var e := FeedAll(START, front);
      FeedAll(START, front + between + ['='] + behind).out
      == Feed(if between == [] then e else e.(numeq := 0), '=').out
  {
    FeedAppend(START, front + between + ['='], behind);
    FeedAppend(START, front + between, ['=']);
    FeedAppend(START, front, between);
    ForeignEndsPadding(FeedAll(START, front), between);
    ForeignEndsPadding(FeedAll(START, front + between + ['=']), behind);
    assert ['='][..0] == [];
  }

  lemma DropTwo(u: string, v: string)
    requires u + "==" == v + "=="
    ensures u == v
  {
    assert u == (u + "==")[..|u|] && v == (v + "==")[..|v|];
  }

  /** What is written for a rest of one byte: digits, and then two padding characters. */
  lemma EndsWithTwo(b: seq<Byte>, k: nat) returns (u: string)
    requires |b| == 3 * k + 1
    ensures var x := b[3 * k]; u == Groups(b, k) + [Letter(x / 4), Letter(x % 4 * 16)]
    ensures Encode(b) == u + "==" && '=' !in u
  {
    var x := b[3 * k];
    var stream := Stream(b, |b|);
    Split(|b|, 3, k, 1);
    u := stream + [Letter(x % 4 * 16)];
    assert Encode(b) == u + "==" by { assert Padding(b) == [Letter(x % 4 * 16)] + "=="; }
    assert '=' !in u by { StreamHasNoPadding(b, |b|); }
    var v := Groups(b, k) + [Letter(x / 4), Letter(x % 4 * 16)];
    assert Coded(b) == v + "==" by {
      assert b[3 * k..] == [x];
      DigitsAreLetters(x, 0, 0);
      assert Remainder([x]) == [Letter(x / 4), Letter(x % 4 * 16)] + "==";
    }
    assert u == v by { EncodeIsCoded(b); DropTwo(u, v); }
  }

  /** The digits of a rest of one byte and its first padding character are fed. */
  lemma PaddingAhead(s: string, x: Byte)
    requires AtGroup(FeedAll(START, s))
    ensures FeedAll(START, s + [Letter(x / 4), Letter(x % 4 * 16), '=']) == AtPadding(FeedAll(START, s), x)
  {
    FeedAppend(START, s, [Letter(x / 4), Letter(x % 4 * 16), '=']);
    ThreeFed(FeedAll(START, s), x);
  }

  lemma FirstPaddingFed(b: seq<Byte>, k: nat, u: string, e: Decoder)
    requires |b| == 3 * k + 1 && u == Groups(b, k) + [Letter(b[3 * k] / 4), Letter(b[3 * k] % 4 * 16)]
    requires e == FeedAll(START, u + ['='])
    ensures Feed(e, '=').out == b && Feed(e.(numeq := 0), '=').out == b + [0]
  {
    var d, x := FeedAll(START, Groups(b, k)), b[3 * k];
    assert AtGroup(d) && d.out == b[..3 * k] by { GroupsAreFed(b, k); }
    assert u + ['='] == Groups(b, k) + [Letter(x / 4), Letter(x % 4 * 16), '='];
    PaddingAhead(Groups(b, k), x);
    PaddingIsFed(d, x);
    assert b == b[..3 * k] + [x] && b + [0] == b[..3 * k] + [x, 0];
  }

  /** A rest of one byte: the padding characters may be apart. */
  lemma TwoPaddings(b: seq<Byte>, k: nat, s: string)
    requires |b| == 3 * k + 1 && WithoutForeign(s) == Encode(b)
    ensures FeedAll(START, s).out == if PaddingBroken(s) then b + [0] else b
  {
    var u := EndsWithTwo(b, k);
    assert u + "==" == u + ['='] + ['='];
    var s2, behind := LastThatCounts(s, u + ['='], '=');
    var front, between := LastThatCounts(s2, u, '=');
    ForeignKeeps(front);
    PaddingsApart(front, between, behind);
    OnePaddingFed(front, u);
    FirstPaddingFed(b, k, u, FeedAll(START, u + ['=']));
  }

  lemma PaddingsApart(front: string, between: string, behind: string)
    requires '=' !in front && forall x :: x in between || x in behind ==> IsForeign(x)
    ensures var e, s := FeedAll(START, front + ['=']), front + ['='] + between + ['='] + behind;
      && FeedAll(START, s).out == Feed(if between == [] then e else e.(numeq := 0), '=').out
      && (PaddingBroken(s) <==> between != [])
  {
    BrokenIff(front, between, behind);
    PaddingsFed(front + ['='], between, behind);
  }

  /** Whole groups have no padding. */
  lemma NoPadding(b: seq<Byte>, k: nat, s: string)
    requires |b| == 3 * k && WithoutForeign(s) == Encode(b)
    ensures FeedAll(START, s).out == b && !PaddingBroken(s)
  {
    Split(|b|, 3, k, 0);
    assert Encode(b) == Stream(b, |b|) by { assert Padding(b) == []; }
    StreamHasNoPadding(b, |b|);
    ForeignKeeps(s);
    ForeignIsSkipped(START, s);
    EncodeIsCoded(b);
    DecodeCoded(b);
  }

  /** What is written for a rest of two bytes: digits, and then one padding character. */
  lemma EndsWithOne(b: seq<Byte>, k: nat) returns (u: string)
    requires |b| == 3 * k + 2
    ensures Encode(b) == u + ['='] && '=' !in u
  {
    Split(|b|, 3, k, 2);
    var last := Letter(b[|b| - 1] % 16 * 4);
    u := Stream(b, |b|) + [last];
    assert Padding(b) == [last] + ['='];
    StreamHasNoPadding(b, |b|);
  }

  /** A rest of two bytes: one padding character is never broken. */
  lemma OnePadding(b: seq<Byte>, k: nat, s: string)
    requires |b| == 3 * k + 2 && WithoutForeign(s) == Encode(b)
    ensures FeedAll(START, s).out == b && !PaddingBroken(s)
  {
    var u := EndsWithOne(b, k);
    var front, behind := LastThatCounts(s, u, '=');
    ForeignKeeps(front);
    UnbrokenWithOne(front, behind);
    OnePaddingFed(front, u);
    FeedAppend(START, front + ['='], behind);
    ForeignEndsPadding(FeedAll(START, front + ['=']), behind);
    EncodeIsCoded(b);
    DecodeCoded(b);
  }

  /** For every byte string and characters outside the alphabet wherever they stand: the decoder
      gives the bytes, unless one of them breaks the padding, and then one zero byte more. */
  lemma ForeignAddsAByteIff(b: seq<Byte>, s: string)
    requires WithoutForeign(s) == Encode(b)
    ensures FeedAll(START, s).out == b <==> !PaddingBroken(s)
    ensures PaddingBroken(s) ==> FeedAll(START, s).out == b + [0] && |b| % 3 == 1
  {
    var k := |b| / 3;
    if |b| == 3 * k {
      NoPadding(b, k, s);
    } else if |b| == 3 * k + 1 {
      TwoPaddings(b, k, s);
    } else {
      OnePadding(b, k, s);
    }
    assert |b + [0]| != |b|;
  }

  /** The same for getData. */
  lemma DataWithForeign(b: seq<Byte>, s: string, rest: string)
    requires WithoutForeign(s) == Encode(b) && Head(rest) == '<'
    ensures GetData(s + rest, START) == (Some(if PaddingBroken(s) then b + [0] else b), rest)
  {
    ForeignAddsAByteIff(b, s);
    CodedIsInData(b);
    ForeignKeeps(s);
    forall i | 0 <= i < |s| ensures s[i] != '<' && s[i] != '\0' && (s[i] as int) < 128 {
      assert s[i] in s;
    }
    DataIsRead(s, rest, START);
  }

  /** An input for which it happens: a line break between the padding characters. */
  lemma ForeignInPaddingAddsAByte()
    ensures FeedAll(START, "AA==").out == [0] && FeedAll(START, "AA=\n=").out == [0, 0]
  {
    var e := AtPadding(START, 0);
    assert FeedAll(START, "AA=") == e by {
      ThreeFed(START, 0);
      assert "AA=" == [Letter(0), Letter(0), '='];
    }
    PaddingIsFed(START, 0);
    assert "AA=="[..3] == "AA=" && "AA=\n="[..4] == "AA=\n" && "AA=\n"[..3] == "AA=";
  }
}
