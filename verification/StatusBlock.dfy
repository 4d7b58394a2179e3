/** The server's status block when support for TCP is announced: room is made behind the header and
    in front of the icon, and the offsets in the block are moved along. */
module StatusBlock {
  import opened Basics

  /** Sizes of the packet header, the server information, the TCP information and an address. */
  const PACKET: nat := 16
  const SVRINFO: nat := 10
  const TCPINFO: nat := 4
  const ADDRESS: nat := 8
  const SIG_LEN: nat := 16
  const QUANTUM: nat := 4624

  /** A 16-bit field. */
  function Field(b: seq<Byte>, at: nat): nat
    requires at + 1 < |b|
  {
    Word(b[at], b[at + 1])
  }

  function Word(high: nat, low: nat): nat {
    256 * high + low
  }

  /** What such a field can hold of a number. */
  function Low16(n: nat): nat {
    n % 0x1_0000
  }

  /** Length of the server information with the name behind it. */
  function HeaderLength(block: seq<Byte>): nat
    requires |block| > SVRINFO
  {
    SVRINFO + 1 + block[SVRINFO]
  }

  /** Where the icon starts; at the end, if there is none. */
  function IconStart(block: seq<Byte>): nat
    requires |block| > SVRINFO
  {
    if Field(block, 6) == 0 then |block| else Field(block, 6)
  }

  /** How far what is behind the header moves: the TCP information starts at an even offset. */
  function Gap(block: seq<Byte>): nat
    requires |block| > SVRINFO
  {
    HeaderLength(block) % 2 + TCPINFO
  }

  /** Signature, number of addresses and addresses. */
  predicate IsTcpData(sig: seq<Byte>, addrs: seq<Byte>) {
    |sig| == SIG_LEN && |addrs| % ADDRESS == 0 && |addrs| / ADDRESS < 256
  }

  function TcpData(sig: seq<Byte>, addrs: seq<Byte>): (data: seq<Byte>)
    requires IsTcpData(sig, addrs)
    ensures |data| == SIG_LEN + 1 + |addrs|
  {
    sig + Addresses(addrs)
  }

  function Addresses(addrs: seq<Byte>): (a: seq<Byte>)
    requires |addrs| / ADDRESS < 256
    ensures |a| == 1 + |addrs|
  {
    [|addrs| / ADDRESS] + addrs
  }

  /** A block that the size check lets through, with its icon last. */
  predicate WellFormed(block: seq<Byte>, sig: seq<Byte>, addrs: seq<Byte>) {
    && SVRINFO < |block| <= QUANTUM && HeaderLength(block) <= IconStart(block) <= |block|
    && IsTcpData(sig, addrs)
  }

  /** The buffer has room for the new block. */
  predicate Fits(block: seq<Byte>, sig: seq<Byte>, addrs: seq<Byte>)
    requires WellFormed(block, sig, addrs)
  {
    |block| + Gap(block) + |TcpData(sig, addrs)| <= QUANTUM
  }

  /** An offset that is in use moves, in its 16 bits. */
  function Moved(offset: nat, gap: nat): nat {
    if offset == 0 then 0 else Low16(offset + gap)
  }

  /** Bits 4 and 5 say that signature and TCP data are there. */
  function Announced(flags: nat): nat {
    flags - flags / 16 % 4 * 16 + 48
  }

  /** Where the parts of the old block are in the new one: what is between header and icon moves by
      `gap`, and the icon also by the data in front of it. */
  predicate PartsMoved(block: seq<Byte>, s: seq<Byte>, len: nat, icon: nat, gap: nat, data: seq<Byte>)
    requires SVRINFO <= len <= icon <= |block|
  {
    && |s| == |block| + gap + |data|
    && s[SVRINFO..len] == block[SVRINFO..len]
    && s[len + gap..icon + gap] == block[len..icon]
    && s[icon + gap..icon + gap + |data|] == data
    && s[icon + gap + |data|..] == block[icon..]
  }

  /** What the fields of the header become. */
  datatype Fields = Fields(machine: nat, versions: nat, methods: nat, icon: nat, flags: nat)

  function MovedFields(block: seq<Byte>, gap: nat, size: nat): Fields
    requires |block| >= SVRINFO
  {
    Fields(Moved(Field(block, 0), gap), Moved(Field(block, 2), gap), Moved(Field(block, 4), gap),
           Moved(Field(block, 6), gap + size), Low16(Announced(Field(block, 8))))
  }

  /** The fields are in `b` from `p` on. */
  predicate HasFields(b: seq<Byte>, p: nat, f: Fields) {
    && p + SVRINFO <= |b|
    && Field(b, p) == f.machine && Field(b, p + 2) == f.versions && Field(b, p + 4) == f.methods
    && Field(b, p + 6) == f.icon && Field(b, p + 8) == f.flags
  }

  predicate FieldsMoved(block: seq<Byte>, s: seq<Byte>, gap: nat, size: nat)
    requires |block| >= SVRINFO
  {
    HasFields(s, 0, MovedFields(block, gap, size))
  }

  /** The new block, byte by byte; only the byte that evens the header out is not determined. */
  predicate IsRelocated(block: seq<Byte>, sig: seq<Byte>, addrs: seq<Byte>, s: seq<Byte>)
    requires WellFormed(block, sig, addrs)
  {
    var len, icon, gap, data := HeaderLength(block), IconStart(block), Gap(block), TcpData(sig, addrs);
    && PartsMoved(block, s, len, icon, gap, data) && FieldsMoved(block, s, gap, |data|)
    && Field(s, len + gap - 4) == icon + gap && Field(s, len + gap - 2) == icon + gap + SIG_LEN
  }

  // ----- what the offsets denote -----

  lemma BodyByte(block: seq<Byte>, s: seq<Byte>, len: nat, icon: nat, gap: nat, data: seq<Byte>, o: nat)
    requires SVRINFO <= len <= o < icon <= |block| && PartsMoved(block, s, len, icon, gap, data)
    ensures s[o + gap] == block[o]
  {
    assert s[len + gap..icon + gap][o - len] == block[len..icon][o - len];
  }

  lemma DataByte(block: seq<Byte>, s: seq<Byte>, len: nat, icon: nat, gap: nat, data: seq<Byte>, k: nat)
    requires SVRINFO <= len <= icon <= |block| && k < |data| && PartsMoved(block, s, len, icon, gap, data)
    ensures s[icon + gap + k] == data[k]
  {
    assert s[icon + gap..icon + gap + |data|][k] == data[k];
  }

  lemma IconByte(block: seq<Byte>, s: seq<Byte>, len: nat, icon: nat, gap: nat, data: seq<Byte>, o: nat)
    requires SVRINFO <= len <= icon <= o < |block| && PartsMoved(block, s, len, icon, gap, data)
    ensures s[o + gap + |data|] == block[o]
  {
    assert s[icon + gap + |data|..][o - icon] == block[icon..][o - icon];
  }

  lemma NoWrap(n: nat)
    requires n < 0x1_0000
    ensures Low16(n) == n
  {
  }

  /** Every field that pointed at the body points at the same bytes, up to the icon. */
  lemma BodyOffsetsStillDenote(block: seq<Byte>, sig: seq<Byte>, addrs: seq<Byte>, s: seq<Byte>, at: nat, i: nat)
    requires WellFormed(block, sig, addrs) && IsRelocated(block, sig, addrs, s) && at in {0, 2, 4}
    requires HeaderLength(block) <= Field(block, at) && Field(block, at) + i < IconStart(block)
    ensures Field(s, at) + i < |s| && s[Field(s, at) + i] == block[Field(block, at) + i]
  {
    NoWrap(Field(block, at) + Gap(block));
    BodyByte(block, s, HeaderLength(block), IconStart(block), Gap(block), TcpData(sig, addrs), Field(block, at) + i);
  }

  /** So does the field for the icon, if there is one. */
  lemma IconOffsetStillDenotes(block: seq<Byte>, sig: seq<Byte>, addrs: seq<Byte>, s: seq<Byte>, i: nat)
    requires WellFormed(block, sig, addrs) && IsRelocated(block, sig, addrs, s)
    requires Field(block, 6) != 0 && Field(block, 6) + i < |block|
    ensures Field(s, 6) + i < |s| && s[Field(s, 6) + i] == block[Field(block, 6) + i]
  {
    NoWrap(Field(block, 6) + Gap(block) + |TcpData(sig, addrs)|);
    IconByte(block, s, HeaderLength(block), IconStart(block), Gap(block), TcpData(sig, addrs), Field(block, 6) + i);
  }

  /** The first even offset behind the name of the server, where the two new fields are. */
  function AfterName(block: seq<Byte>): nat
    requires |block| > 10
  {
    var n: nat := block[10];
    11 + n + (11 + n) % 2
  }

  lemma FieldsBehindName(block: seq<Byte>)
    requires |block| > 10
    ensures HeaderLength(block) + Gap(block) == AfterName(block) + 4
  {
  }

  lemma PartStays(a: seq<Byte>, b: seq<Byte>, low: nat, from: nat, high: nat)
    requires low <= from <= high <= |a| && high <= |b| && a[low..high] == b[low..high]
    ensures a[from..high] == b[from..high] && (low < from ==> a[from - 1] == b[from - 1])
  {
    assert a[from..high] == a[low..high][from - low..];
    assert b[from..high] == b[low..high][from - low..];
    if low < from { assert a[from - 1] == a[low..high][from - 1 - low] == b[from - 1]; }
  }

  /** The name of the server stays where it is. */
  lemma NameStays(block: seq<Byte>, sig: seq<Byte>, addrs: seq<Byte>, s: seq<Byte>)
    requires WellFormed(block, sig, addrs) && IsRelocated(block, sig, addrs, s)
    ensures var n: nat := block[10]; 11 + n <= |s| && s[10] == n && s[11..11 + n] == block[11..11 + n]
  {
    PartStays(s, block, SVRINFO, 11, HeaderLength(block));
  }

  lemma Quotient(n: nat, d: nat, q: nat, r: nat)
    requires r < d && n == d * q + r
    ensures n / d == q && n % d == r
  {
    if n / d < q {
      Times(d, n / d + 1, q);
    } else if q < n / d {
      Times(d, q + 1, n / d);
    }
  }

  lemma Times(d: nat, a: nat, b: nat)
    requires a <= b
    ensures d * a <= d * b
  {
  }

  lemma Sixteenths(n: nat, high: nat, mid: nat, low: nat)
    requires mid < 4 && low < 16 && n == 64 * high + 16 * mid + low
    ensures n / 64 == high && n / 16 % 4 == mid && n % 16 == low
    ensures mid == 3 ==> n / 16 % 2 == 1 && n / 32 % 2 == 1
  {
    Quotient(n, 64, high, 16 * mid + low);
    Quotient(n, 16, 4 * high + mid, low);
    Quotient(4 * high + mid, 4, high, mid);
    if mid == 3 {
      Quotient(n, 32, 2 * high + 1, 16 + low);
      Quotient(4 * high + 3, 2, 2 * high + 1, 1);
      Quotient(2 * high + 1, 2, high, 1);
    }
  }

  /** Bits 4 and 5 of the flags are set, and the others are as before. */
  lemma FlagsAnnounceTcp(block: seq<Byte>, sig: seq<Byte>, addrs: seq<Byte>, s: seq<Byte>)
    requires WellFormed(block, sig, addrs) && IsRelocated(block, sig, addrs, s)
    ensures Field(s, 8) / 16 % 2 == 1 && Field(s, 8) / 32 % 2 == 1
    ensures Field(s, 8) % 16 == Field(block, 8) % 16 && Field(s, 8) / 64 == Field(block, 8) / 64
  {
    BitsAreSet(Field(block, 8), Field(s, 8));
  }

  lemma BitsAreSet(was: nat, now: nat)
    requires was < 0x1_0000 && now == Low16(Announced(was))
    ensures now / 16 % 2 == 1 && now / 32 % 2 == 1
    ensures now % 16 == was % 16 && now / 64 == was / 64
  {
    var high, mid, low := was / 64, was % 64 / 16, was % 16;
    Sixteenths(was, high, mid, low);
    Sixteenths(Announced(was), high, 3, low);
    NoWrap(Announced(was));
  }

  /** The first new field denotes the signature. */
  lemma SignatureIsFound(block: seq<Byte>, sig: seq<Byte>, addrs: seq<Byte>, s: seq<Byte>)
    requires WellFormed(block, sig, addrs) && IsRelocated(block, sig, addrs, s)
    ensures AfterName(block) + 4 <= |s|
    ensures var o := Field(s, AfterName(block)); o + 16 <= |s| && s[o..o + 16] == sig
  {
    FieldsBehindName(block);
    DataPart(block, s, HeaderLength(block), IconStart(block), Gap(block), TcpData(sig, addrs), 0, SIG_LEN);
    Behind(sig, Addresses(addrs));
  }

  lemma SliceOfSlice(s: seq<Byte>, low: nat, high: nat, k: nat, n: nat)
    requires low + k + n <= high <= |s|
    ensures s[low + k..low + k + n] == s[low..high][k..k + n]
  {
    var part := s[low..high];
    var a, b := s[low + k..low + k + n], part[k..k + n];
    forall i | 0 <= i < n ensures a[i] == b[i] {
      assert a[i] == s[low + k + i] == part[k + i];
    }
  }

  lemma DataPart(block: seq<Byte>, s: seq<Byte>, len: nat, icon: nat, gap: nat, data: seq<Byte>, k: nat, n: nat)
    requires SVRINFO <= len <= icon <= |block| && k + n <= |data| && PartsMoved(block, s, len, icon, gap, data)
    ensures s[icon + gap + k..icon + gap + k + n] == data[k..k + n]
  {
    SliceOfSlice(s, icon + gap, icon + gap + |data|, k, n);
  }

  /** The second one denotes the number of addresses, of eight bytes each, and the addresses behind it. */
  lemma AddressesAreFound(block: seq<Byte>, sig: seq<Byte>, addrs: seq<Byte>, s: seq<Byte>)
    requires WellFormed(block, sig, addrs) && IsRelocated(block, sig, addrs, s)
    ensures AfterName(block) + 4 <= |s|
    ensures var o := Field(s, AfterName(block) + 2);
      o + 1 + |addrs| <= |s| && s[o] == |addrs| / 8 && s[o + 1..o + 1 + |addrs|] == addrs
  {
    var data, a := TcpData(sig, addrs), Addresses(addrs);
    FieldsBehindName(block);
    DataPart(block, s, HeaderLength(block), IconStart(block), Gap(block), data, SIG_LEN, 1 + |addrs|);
    Behind(sig, a);
    var o := Field(s, AfterName(block) + 2);
    CountAndRest(s, o, a);
  }

  lemma CountAndRest(s: seq<Byte>, o: nat, a: seq<Byte>)
    requires a != [] && o + |a| <= |s| && s[o..o + |a|] == a
    ensures s[o] == a[0] && s[o + 1..o + |a|] == a[1..]
  {
    assert s[o] == s[o..o + |a|][0];
    assert s[o + 1..o + |a|] == s[o..o + |a|][1..];
  }

  lemma Behind(a: seq<Byte>, b: seq<Byte>)
    ensures (a + b)[..|a|] == a && (a + b)[|a|..|a| + |b|] == b
  {
  }

  /** Where a byte of the old block is in the new one. */
  function NewPlace(block: seq<Byte>, sig: seq<Byte>, addrs: seq<Byte>, o: nat): nat
    requires WellFormed(block, sig, addrs)
  {
    if o < HeaderLength(block) then o
    else if o < IconStart(block) then o + Gap(block)
    else o + Gap(block) + |TcpData(sig, addrs)|
  }

  /** All that is behind the fields of the header is at its new place. */
  lemma BytesAreAtTheirPlaces(block: seq<Byte>, sig: seq<Byte>, addrs: seq<Byte>, s: seq<Byte>, o: nat)
    requires WellFormed(block, sig, addrs) && IsRelocated(block, sig, addrs, s) && SVRINFO <= o < |block|
    ensures NewPlace(block, sig, addrs, o) < |s| && s[NewPlace(block, sig, addrs, o)] == block[o]
  {
    var len, icon, gap, data := HeaderLength(block), IconStart(block), Gap(block), TcpData(sig, addrs);
    if o < len {
      assert s[SVRINFO..len][o - SVRINFO] == block[SVRINFO..len][o - SVRINFO];
    } else if o < icon {
      BodyByte(block, s, len, icon, gap, data, o);
    } else {
      IconByte(block, s, len, icon, gap, data, o);
    }
  }

  /** A field for machine type, versions or methods is right in the new block if and only if it
      pointed at the body: neither into the header nor at the icon. */
  lemma OffsetIsRightIff(block: seq<Byte>, sig: seq<Byte>, addrs: seq<Byte>, s: seq<Byte>, at: nat)
    requires WellFormed(block, sig, addrs) && IsRelocated(block, sig, addrs, s)
    requires at in {0, 2, 4} && 0 < Field(block, at) < |block|
    ensures Field(s, at) == NewPlace(block, sig, addrs, Field(block, at))
            <==> HeaderLength(block) <= Field(block, at) < IconStart(block)
  {
    NoWrap(Field(block, at) + Gap(block));
  }

  /** One that pointed at the icon does not move far enough: it comes to denote a byte of the new
      data, or an earlier byte of the icon. */
  lemma OffsetsIntoTheIconGoWrong(block: seq<Byte>, sig: seq<Byte>, addrs: seq<Byte>, s: seq<Byte>, at: nat)
    requires WellFormed(block, sig, addrs) && IsRelocated(block, sig, addrs, s)
    requires at in {0, 2, 4} && IconStart(block) <= Field(block, at) < |block|
    ensures var data, k := TcpData(sig, addrs), Field(block, at) - IconStart(block);
      && Field(s, at) < |s|
      && s[Field(s, at)] == if k < |data| then data[k] else block[Field(block, at) - |data|]
  {
    var len, icon, gap, data := HeaderLength(block), IconStart(block), Gap(block), TcpData(sig, addrs);
    var f := Field(block, at);
    NoWrap(f + gap);
    if f - icon < |data| {
      DataByte(block, s, len, icon, gap, data, f - icon);
    } else {
      IconByte(block, s, len, icon, gap, data, f - |data|);
    }
  }

  /** A block of the size that is still accepted, for which the buffer has no room. */
  lemma AcceptedWithoutRoom() returns (block: seq<Byte>, sig: seq<Byte>)
    ensures WellFormed(block, sig, []) && !Fits(block, sig, [])
  {
    block := seq(QUANTUM, i => 0);
    sig := seq(SIG_LEN, i => 0);
  }

  // ----- SPNewStatus -----

  /** `src` is in `b` at `at`. */
  predicate Lies(b: seq<Byte>, at: nat, src: seq<Byte>) {
    at + |src| <= |b| && b[at..at + |src|] == src
  }

  /** Nothing but the bytes from `low` up to `high` has changed. */
  predicate OnlyBetween(before: seq<Byte>, b: seq<Byte>, low: nat, high: nat) {
    |b| == |before| && forall i :: 0 <= i < |b| && !(low <= i < high) ==> b[i] == before[i]
  }

  lemma StillLies(before: seq<Byte>, b: seq<Byte>, low: nat, high: nat, at: nat, src: seq<Byte>)
    requires Lies(before, at, src) && OnlyBetween(before, b, low, high) && (at + |src| <= low || high <= at)
    ensures Lies(b, at, src)
  {
    assert forall i :: at <= i < at + |src| ==> b[i] == before[i];
  }

  /** memcpy into the block. */
  method Copy(blk: array<Byte>, at: nat, src: seq<Byte>)
    requires at + |src| <= blk.Length
    modifies blk
    ensures Lies(blk[..], at, src) && OnlyBetween(old(blk[..]), blk[..], at, at + |src|)
  {
    var i := 0;
    while i < |src|
      invariant i <= |src| && blk[at..at + i] == src[..i]
      invariant forall j :: 0 <= j < blk.Length && !(at <= j < at + i) ==> blk[j] == old(blk[j])
    {
      blk[at + i] := src[i];
      i := i + 1;
    }
    assert src[..i] == src;
    assert blk[..][at..at + i] == blk[at..at + i];
  }

  function Bytes(w: nat): (b: seq<Byte>)
    ensures |b| == 2 && Word(b[0], b[1]) == Low16(w)
  {
    [Low16(w) / 256, Low16(w) % 256]
  }

  /** Stores a number in a field of the new block. */
  method Put(blk: array<Byte>, at: nat, w: nat)
    requires PACKET + at + 1 < blk.Length
    modifies blk
    ensures Field(blk[..], PACKET + at) == Low16(w)
    ensures OnlyBetween(old(blk[..]), blk[..], PACKET + at, PACKET + at + 2)
  {
    Copy(blk, PACKET + at, Bytes(w));
    assert blk[PACKET + at] == blk[..][PACKET + at..PACKET + at + 2][0];
    assert blk[PACKET + at + 1] == blk[..][PACKET + at..PACKET + at + 2][1];
  }

  /** The same for a number that fits. */
  method PutSmall(blk: array<Byte>, at: nat, w: nat)
    requires PACKET + at + 1 < blk.Length && w < 0x1_0000
    modifies blk
    ensures Field(blk[..], PACKET + at) == w
    ensures OnlyBetween(old(blk[..]), blk[..], PACKET + at, PACKET + at + 2)
  {
    NoWrap(w);
    Put(blk, at, w);
  }

  /** An offset in the header moves if it is in use. */
  method MoveField(offset: nat, moved: nat, blk: array<Byte>, at: nat)
    requires PACKET + at + 1 < blk.Length && Field(blk[..], PACKET + at) == offset
    requires moved < 0x1_0000 && (offset == 0 ==> moved == 0)
    modifies blk
    ensures Field(blk[..], PACKET + at) == moved
    ensures OnlyBetween(old(blk[..]), blk[..], PACKET + at, PACKET + at + 2)
  {
    if offset != 0 { PutSmall(blk, at, moved); }
  }

  function FieldsOf(block: seq<Byte>): Fields
    requires |block| >= SVRINFO
  {
    Fields(Field(block, 0), Field(block, 2), Field(block, 4), Field(block, 6), Field(block, 8))
  }

  /** The moved fields fit their places, and those that are not in use stay so. */
  predicate Suits(o: Fields, f: Fields) {
    && f.machine < 0x1_0000 && (o.machine == 0 ==> f.machine == 0)
    && f.versions < 0x1_0000 && (o.versions == 0 ==> f.versions == 0)
    && f.methods < 0x1_0000 && (o.methods == 0 ==> f.methods == 0)
    && f.icon < 0x1_0000 && (o.icon == 0 ==> f.icon == 0)
    && f.flags < 0x1_0000
  }

  lemma MovedFieldsSuit(block: seq<Byte>, gap: nat, size: nat)
    requires |block| >= SVRINFO
    ensures Suits(FieldsOf(block), MovedFields(block, gap, size))
  {
  }

  lemma Unmoved(before: seq<Byte>, b: seq<Byte>, low: nat, high: nat, at: nat)
    requires OnlyBetween(before, b, low, high) && at + 1 < |b| && (at + 2 <= low || high <= at)
    ensures Field(b, at) == Field(before, at)
  {
  }

  method MoveFields(o: Fields, f: Fields, blk: array<Byte>)
    requires HasFields(blk[..], PACKET, o) && Suits(o, f)
    modifies blk
    ensures HasFields(blk[..], PACKET, f)
    ensures OnlyBetween(old(blk[..]), blk[..], PACKET, PACKET + SVRINFO)
  {
    ghost var b0 := blk[..];
    MoveField(o.machine, f.machine, blk, 0);
    ghost var b1 := blk[..];
    Unmoved(b0, b1, PACKET, PACKET + 2, PACKET + 2);
    MoveField(o.versions, f.versions, blk, 2);
    ghost var b2 := blk[..];
    Unmoved(b0, b2, PACKET, PACKET + 4, PACKET + 4);
    MoveField(o.methods, f.methods, blk, 4);
    ghost var b3 := blk[..];
    Unmoved(b0, b3, PACKET, PACKET + 6, PACKET + 6);
    MoveField(o.icon, f.icon, blk, 6);
    ghost var b4 := blk[..];
    PutSmall(blk, 8, f.flags);
    StayedInOrder(b1, b2, b3, b4, blk[..], f);
  }

  lemma StayedInOrder(b1: seq<Byte>, b2: seq<Byte>, b3: seq<Byte>, b4: seq<Byte>, b5: seq<Byte>, f: Fields)
    requires |b1| == |b2| == |b3| == |b4| == |b5| >= PACKET + SVRINFO
    requires OnlyBetween(b1, b2, PACKET + 2, PACKET + 4) && OnlyBetween(b2, b3, PACKET + 4, PACKET + 6)
    requires OnlyBetween(b3, b4, PACKET + 6, PACKET + 8) && OnlyBetween(b4, b5, PACKET + 8, PACKET + 10)
    requires Field(b1, PACKET) == f.machine && Field(b2, PACKET + 2) == f.versions
    requires Field(b3, PACKET + 4) == f.methods && Field(b4, PACKET + 6) == f.icon && Field(b5, PACKET + 8) == f.flags
    ensures HasFields(b5, PACKET, f)
  {
    assert forall i :: PACKET <= i < PACKET + 2 ==> b5[i] == b1[i];
    assert forall i :: PACKET + 2 <= i < PACKET + 4 ==> b5[i] == b2[i];
    assert forall i :: PACKET + 4 <= i < PACKET + 6 ==> b5[i] == b3[i];
    assert forall i :: PACKET + 6 <= i < PACKET + 8 ==> b5[i] == b4[i];
  }

  lemma FieldsCopied(block: seq<Byte>, b: seq<Byte>)
    requires |block| >= SVRINFO && |b| >= PACKET + SVRINFO
    requires forall i :: 0 <= i < SVRINFO ==> b[PACKET + i] == block[i]
    ensures HasFields(b, PACKET, FieldsOf(block))
  {
    assert forall i :: 0 <= i < SVRINFO ==> b[PACKET + i] == block[i];
    assert b[PACKET + 0] == block[0];
  }

  /** The header of the new block: the old one with the name, and the fields for the new data, which is
      to be at `at`. */
  method PutHeader(block: seq<Byte>, f: Fields, at: nat, blk: array<Byte>, len: nat, pad: nat)
    requires SVRINFO < len <= |block| && PACKET + len + pad + TCPINFO <= blk.Length
    requires Suits(FieldsOf(block), f) && at + SIG_LEN < 0x1_0000
    modifies blk
    ensures HasFields(blk[..], PACKET, f)
    ensures Lies(blk[..], PACKET + SVRINFO, block[SVRINFO..len])
    ensures Field(blk[..], PACKET + len + pad) == at && Field(blk[..], PACKET + len + pad + 2) == at + SIG_LEN
    ensures OnlyBetween(old(blk[..]), blk[..], PACKET, PACKET + len + pad + TCPINFO)
  {
    Copy(blk, PACKET, block[..len]);
    ghost var copied := blk[..];
    CopiedBytes(copied, block, len);
    PutSmall(blk, len + pad, at);
    ghost var b1 := blk[..];
    PutSmall(blk, len + pad + 2, at + SIG_LEN);
    ghost var b2 := blk[..];
    Unmoved(b1, b2, PACKET + len + pad + 2, PACKET + len + pad + 4, PACKET + len + pad);
    FieldsCopied(block, b2);
    MoveFields(FieldsOf(block), f, blk);
    Unmoved(b2, blk[..], PACKET, PACKET + SVRINFO, PACKET + len + pad);
    Unmoved(b2, blk[..], PACKET, PACKET + SVRINFO, PACKET + len + pad + 2);
    StillLies(copied, b2, PACKET + len + pad, PACKET + len + pad + 4, PACKET + SVRINFO, block[SVRINFO..len]);
    StillLies(b2, blk[..], PACKET, PACKET + SVRINFO, PACKET + SVRINFO, block[SVRINFO..len]);
  }

  lemma CopiedBytes(copied: seq<Byte>, block: seq<Byte>, len: nat)
    requires SVRINFO < len <= |block| && Lies(copied, PACKET, block[..len])
    ensures Lies(copied, PACKET + SVRINFO, block[SVRINFO..len])
    ensures forall i :: 0 <= i < SVRINFO ==> copied[PACKET + i] == block[i]
  {
    forall i | 0 <= i < len ensures copied[PACKET + i] == block[i] {
      assert copied[PACKET..PACKET + len][i] == block[..len][i];
    }
    forall i | 0 <= i < len - SVRINFO ensures copied[PACKET + SVRINFO + i] == block[SVRINFO..len][i] {
      assert copied[PACKET + (SVRINFO + i)] == block[SVRINFO + i];
    }
  }

  /** What ends the new block: its icon, or the data if there is no icon. */
  function LastByte(block: seq<Byte>, sig: seq<Byte>, addrs: seq<Byte>): Byte
    requires WellFormed(block, sig, addrs)
  {
    var data := TcpData(sig, addrs);
    if IconStart(block) < |block| then block[|block| - 1] else data[|data| - 1]
  }

  lemma EndsWithLastByte(block: seq<Byte>, sig: seq<Byte>, addrs: seq<Byte>, s: seq<Byte>)
    requires WellFormed(block, sig, addrs) && IsRelocated(block, sig, addrs, s)
    ensures s[|s| - 1] == LastByte(block, sig, addrs)
  {
    var len, icon, gap, data := HeaderLength(block), IconStart(block), Gap(block), TcpData(sig, addrs);
    if icon < |block| {
      IconByte(block, s, len, icon, gap, data, |block| - 1);
    } else {
      DataByte(block, s, len, icon, gap, data, |data| - 1);
    }
  }

  /** What the call says: the block is too long, or what was made of it has this length. */
  datatype Outcome = SizeError | Sent(size: nat)

  /** SPNewStatus. `memory` is the buffer and what lies behind it; `sig` and `addrs` are what
      GetSigInfo and GetTCPInfo find out. Nothing behind the buffer is written exactly if the new
      block fits; otherwise the end of the block goes there. */
  method SPNewStatus(block: seq<Byte>, sig: seq<Byte>, addrs: seq<Byte>, memory: array<Byte>)
      returns (outcome: Outcome)
    requires |block| <= QUANTUM ==> WellFormed(block, sig, addrs)
    requires memory.Length >= PACKET + |block| + TCPINFO + 1 + |sig| + 1 + |addrs|
    modifies memory
    ensures outcome == SizeError <==> |block| > QUANTUM
    ensures outcome == SizeError ==> memory[..] == old(memory[..])
    ensures outcome.Sent? ==>
      && outcome.size == |block| + Gap(block) + |TcpData(sig, addrs)|
      && IsRelocated(block, sig, addrs, memory[PACKET..PACKET + outcome.size])
      && OnlyBetween(old(memory[..]), memory[..], PACKET, PACKET + outcome.size)
      && if Fits(block, sig, addrs) then OnlyBetween(old(memory[..]), memory[..], 0, PACKET + QUANTUM)
         else outcome.size > QUANTUM && memory[PACKET + outcome.size - 1] == LastByte(block, sig, addrs)
  {
    if |block| > QUANTUM { return SizeError; }
    var size := MakeBlock(block, sig, addrs, memory);
    EndsWithLastByte(block, sig, addrs, memory[PACKET..PACKET + size]);
    outcome := Sent(size);
  }

  method MakeBlock(block: seq<Byte>, sig: seq<Byte>, addrs: seq<Byte>, blk: array<Byte>) returns (size: nat)
    requires WellFormed(block, sig, addrs)
    requires blk.Length >= PACKET + |block| + Gap(block) + |TcpData(sig, addrs)|
    modifies blk
    ensures size == |block| + Gap(block) + |TcpData(sig, addrs)|
    ensures IsRelocated(block, sig, addrs, blk[PACKET..PACKET + size])
    ensures OnlyBetween(old(blk[..]), blk[..], PACKET, PACKET + size)
  {
    var len, icon, gap, data := HeaderLength(block), IconStart(block), Gap(block), TcpData(sig, addrs);
    size := |block| + gap + |data|;
    MovedFieldsSuit(block, gap, |data|);
    ghost var first := Assemble(block, MovedFields(block, gap, |data|), blk, len, icon, gap, data);
    AllInPlace(block, sig, addrs, first, blk[..], blk[PACKET..PACKET + size]);
  }

  /** The header was made first, and then the parts behind it. */
  predicate Assembled(block: seq<Byte>, f: Fields, first: seq<Byte>, b: seq<Byte>, len: nat, icon: nat, gap: nat,
      data: seq<Byte>)
    requires SVRINFO < len <= icon <= |block| && TCPINFO <= gap
    requires |first| == |b| >= PACKET + |block| + gap + |data|
  {
    && OnlyBetween(first, b, PACKET + len + gap, PACKET + |block| + gap + |data|)
    && HasFields(first, PACKET, f)
    && Lies(first, PACKET + SVRINFO, block[SVRINFO..len])
    && Field(first, PACKET + len + gap - 4) == icon + gap
    && Field(first, PACKET + len + gap - 2) == icon + gap + SIG_LEN
    && Lies(b, PACKET + len + gap, block[len..icon]) && Lies(b, PACKET + icon + gap, data)
    && Lies(b, PACKET + icon + gap + |data|, block[icon..])
  }

  method Assemble(block: seq<Byte>, f: Fields, blk: array<Byte>, len: nat, icon: nat, gap: nat, data: seq<Byte>)
      returns (ghost first: seq<Byte>)
    requires SVRINFO < len <= icon <= |block| && TCPINFO <= gap
    requires Suits(FieldsOf(block), f) && icon + gap + SIG_LEN < 0x1_0000
    requires blk.Length >= PACKET + |block| + gap + |data|
    modifies blk
    ensures |first| == blk.Length && Assembled(block, f, first, blk[..], len, icon, gap, data)
    ensures OnlyBetween(old(blk[..]), blk[..], PACKET, PACKET + |block| + gap + |data|)
  {
    PutHeader(block, f, icon + gap, blk, len, gap - TCPINFO);
    first := blk[..];
    PutParts(block, blk, len, icon, gap, data);
  }

  /** The parts behind the header; the icon only if there is one. */
  method PutParts(block: seq<Byte>, blk: array<Byte>, len: nat, icon: nat, gap: nat, data: seq<Byte>)
    requires len <= icon <= |block| && PACKET + |block| + gap + |data| <= blk.Length
    modifies blk
    ensures Lies(blk[..], PACKET + len + gap, block[len..icon])
    ensures Lies(blk[..], PACKET + icon + gap, data)
    ensures Lies(blk[..], PACKET + icon + gap + |data|, block[icon..])
    ensures OnlyBetween(old(blk[..]), blk[..], PACKET + len + gap, PACKET + |block| + gap + |data|)
  {
    Copy(blk, PACKET + icon + gap, data);
    ghost var b1 := blk[..];
    Copy(blk, PACKET + icon + gap + |data|, block[icon..]);
    ghost var b2 := blk[..];
    StillLies(b1, b2, PACKET + icon + gap + |data|, PACKET + |block| + gap + |data|, PACKET + icon + gap, data);
    Copy(blk, PACKET + len + gap, block[len..icon]);
    StillLies(b2, blk[..], PACKET + len + gap, PACKET + icon + gap, PACKET + icon + gap, data);
    StillLies(b2, blk[..], PACKET + len + gap, PACKET + icon + gap, PACKET + icon + gap + |data|, block[icon..]);
  }

  /** A part of the array as a part of the new block. */
  lemma PartOf(b: seq<Byte>, s: seq<Byte>, at: nat, src: seq<Byte>)
    requires PACKET + |s| <= |b| && s == b[PACKET..PACKET + |s|]
    requires Lies(b, PACKET + at, src) && at + |src| <= |s|
    ensures s[at..at + |src|] == src
  {
    assert s[at..at + |src|] == b[PACKET + at..PACKET + at + |src|];
  }

  lemma AllInPlace(block: seq<Byte>, sig: seq<Byte>, addrs: seq<Byte>, first: seq<Byte>, b: seq<Byte>, s: seq<Byte>)
    requires WellFormed(block, sig, addrs)
    requires var len, icon, gap, data := HeaderLength(block), IconStart(block), Gap(block), TcpData(sig, addrs);
             && |s| == |block| + gap + |data| && |first| == |b| >= PACKET + |s| && s == b[PACKET..PACKET + |s|]
             && Assembled(block, MovedFields(block, gap, |data|), first, b, len, icon, gap, data)
    ensures IsRelocated(block, sig, addrs, s)
  {
    var len, icon, gap, data := HeaderLength(block), IconStart(block), Gap(block), TcpData(sig, addrs);
    InPlace(block, MovedFields(block, gap, |data|), first, b, s, len, icon, gap, data);
  }

  lemma InPlace(block: seq<Byte>, f: Fields, first: seq<Byte>, b: seq<Byte>, s: seq<Byte>, len: nat, icon: nat,
      gap: nat, data: seq<Byte>)
    requires SVRINFO < len <= icon <= |block| && TCPINFO <= gap
    requires |s| == |block| + gap + |data| && |first| == |b| >= PACKET + |s| && s == b[PACKET..PACKET + |s|]
    requires Assembled(block, f, first, b, len, icon, gap, data)
    ensures PartsMoved(block, s, len, icon, gap, data) && HasFields(s, 0, f)
    ensures Field(s, len + gap - 4) == icon + gap && Field(s, len + gap - 2) == icon + gap + SIG_LEN
  {
    PartsInPlace(block, f, first, b, s, len, icon, gap, data);
    HeaderInPlace(block, f, first, b, s, len, icon, gap, data);
  }

  lemma PartsInPlace(block: seq<Byte>, f: Fields, first: seq<Byte>, b: seq<Byte>, s: seq<Byte>, len: nat, icon: nat,
      gap: nat, data: seq<Byte>)
    requires SVRINFO < len <= icon <= |block| && TCPINFO <= gap
    requires |s| == |block| + gap + |data| && |first| == |b| >= PACKET + |s| && s == b[PACKET..PACKET + |s|]
    requires Assembled(block, f, first, b, len, icon, gap, data)
    ensures PartsMoved(block, s, len, icon, gap, data)
  {
    StillLies(first, b, PACKET + len + gap, PACKET + |s|, PACKET + SVRINFO, block[SVRINFO..len]);
    PartOf(b, s, SVRINFO, block[SVRINFO..len]);
    PartOf(b, s, len + gap, block[len..icon]);
    PartOf(b, s, icon + gap, data);
    PartOf(b, s, icon + gap + |data|, block[icon..]);
    assert s[icon + gap + |data|..] == s[icon + gap + |data|..|s|];
  }

  lemma HeaderInPlace(block: seq<Byte>, f: Fields, first: seq<Byte>, b: seq<Byte>, s: seq<Byte>, len: nat, icon: nat,
      gap: nat, data: seq<Byte>)
    requires SVRINFO < len <= icon <= |block| && TCPINFO <= gap
    requires |s| == |block| + gap + |data| && |first| == |b| >= PACKET + |s| && s == b[PACKET..PACKET + |s|]
    requires Assembled(block, f, first, b, len, icon, gap, data)
    ensures HasFields(s, 0, f)
    ensures Field(s, len + gap - 4) == icon + gap && Field(s, len + gap - 2) == icon + gap + SIG_LEN
  {
    assert forall i :: 0 <= i < len + gap ==> s[i] == first[PACKET + i];
    FieldsInPlace(first, s, f);
  }

  lemma FieldsInPlace(first: seq<Byte>, s: seq<Byte>, f: Fields)
    requires HasFields(first, PACKET, f) && |s| >= SVRINFO
    requires forall i :: 0 <= i < SVRINFO ==> s[i] == first[PACKET + i]
    ensures HasFields(s, 0, f)
  {
  }
}
