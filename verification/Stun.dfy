/**
  The STUN binding exchange of section 6, 15, 15.1 and 15.2 of RFC 5389: building a
  request and parsing the mapped address out of a response.  Bytes and fixed-width
  words are integers in range; where the source computes in 16 bits, so does the model.
 */
module Stun {
  import opened Basics

  type Byte = b: int | 0 <= b < 0x100
  type Bytes = seq<Byte>
  type Word16 = w: int | 0 <= w < 0x1_0000
  type Word32 = w: int | 0 <= w < 0x1_0000_0000

  const MAGIC_COOKIE: Word32 := 0x2112_A442
  const COOKIE_HIGH: Word16 := 0x2112
  const BINDING_REQUEST: Word16 := 0x0001
  const BINDING_SUCCESS: Word16 := 0x0101
  const ATTR_MAPPED: Word16 := 0x0001
  const ATTR_XOR_MAPPED: Word16 := 0x0020
  const FAMILY_IPV4: Byte := 0x01
  const FAMILY_IPV6: Byte := 0x02

  // ---------------------------------------------------------------------------
  // Fixed-width arithmetic.
  // ---------------------------------------------------------------------------

  function Pow2(n: nat): nat { if n == 0 then 1 else 2 * Pow2(n - 1) }

  /** Exclusive or of the low n bits. */
  function XorBits(n: nat, a: nat, b: nat): nat {
    if n == 0 then 0 else 2 * XorBits(n - 1, a / 2, b / 2) + (a % 2 + b % 2) % 2
  }

  lemma HalfAndBit(half: nat, bit: nat)
    requires bit < 2
    ensures (2 * half + bit) / 2 == half && (2 * half + bit) % 2 == bit
  {
  }

  /** The lowest bit of an exclusive or, and the bits above it. */
  lemma XorDigits(n: nat, a: nat, b: nat)
    requires n > 0
    ensures XorBits(n, a, b) / 2 == XorBits(n - 1, a / 2, b / 2)
    ensures XorBits(n, a, b) % 2 == (a % 2 + b % 2) % 2
  {
    HalfAndBit(XorBits(n - 1, a / 2, b / 2), (a % 2 + b % 2) % 2);
  }

  lemma BitInverts(a: nat, b: nat)
    requires a < 2 && b < 2
    ensures ((a + b) % 2 + b) % 2 == a
  {
  }

  lemma SameDigits(a: nat, b: nat)
    requires a / 2 == b / 2 && a % 2 == b % 2
    ensures a == b
  {
  }

  lemma HalfBounded(n: nat, a: nat)
    requires n > 0 && a < Pow2(n)
    ensures a / 2 < Pow2(n - 1)
  {
  }

  lemma {:induction false} XorInverts(n: nat, a: nat, b: nat)
    requires a < Pow2(n)
    ensures XorBits(n, XorBits(n, a, b), b) == a
  {
    if n > 0 {
      var x := XorBits(n, a, b);
      HalfBounded(n, a);
      XorInverts(n - 1, a / 2, b / 2);
      XorDigits(n, a, b);
      XorDigits(n, x, b);
      BitInverts(a % 2, b % 2);
      SameDigits(XorBits(n, x, b), a);
    }
  }

  lemma {:induction false} XorBounded(n: nat, a: nat, b: nat)
    ensures XorBits(n, a, b) < Pow2(n)
  {
    if n > 0 {
      XorBounded(n - 1, a / 2, b / 2);
    }
  }

  lemma Widths()
    ensures Pow2(8) == 0x100 && Pow2(16) == 0x1_0000 && Pow2(32) == 0x1_0000_0000
  {
    assert Pow2(4) == 16;
    assert Pow2(8) == 256;
    assert Pow2(12) == 4096;
    assert Pow2(16) == 65536;
    assert Pow2(20) == 16 * Pow2(16);
    assert Pow2(24) == 16 * Pow2(20);
    assert Pow2(28) == 16 * Pow2(24);
    assert Pow2(32) == 16 * Pow2(28);
  }

  function Xor8(a: Byte, b: Byte): Byte {
    XorBounded(8, a, b); Widths(); XorBits(8, a, b)
  }

  function Xor16(a: Word16, b: Word16): Word16 {
    XorBounded(16, a, b); Widths(); XorBits(16, a, b)
  }

  function Xor32(a: Word32, b: Word32): Word32 {
    XorBounded(32, a, b); Widths(); XorBits(32, a, b)
  }

  lemma Xor8Inverts(a: Byte, b: Byte)
    ensures Xor8(Xor8(a, b), b) == a
  {
    Widths();
    XorInverts(8, a, b);
  }

  lemma Xor16Inverts(a: Word16, b: Word16)
    ensures Xor16(Xor16(a, b), b) == a
  {
    Widths();
    XorInverts(16, a, b);
  }

  /** Big-endian words. */
  function Get16(b: Bytes): Word16
    requires |b| == 2
  {
    b[0] as int * 0x100 + b[1] as int
  }

  function Put16(w: Word16): (b: Bytes)
    ensures |b| == 2
  {
    [w / 0x100, w % 0x100]
  }

  function Get32(b: Bytes): Word32
    requires |b| == 4
  {
    Get16(b[..2]) as int * 0x1_0000 + Get16(b[2..]) as int
  }

  function Put32(w: Word32): (b: Bytes)
    ensures |b| == 4
  {
    Put16(w / 0x1_0000) + Put16(w % 0x1_0000)
  }

  lemma Words16(w: Word16, b: Bytes)
    requires |b| == 2
    ensures Get16(Put16(w)) == w
    ensures Put16(Get16(b)) == b
  {
  }

  lemma Get32Put32(w: Word32)
    ensures Get32(Put32(w)) == w
  {
  }

  lemma Put32Get32(b: Bytes)
    requires |b| == 4
    ensures Put32(Get32(b)) == b
  {
    var high: int, low: int := Get16(b[..2]), Get16(b[2..]);
    assert (high * 0x1_0000 + low) / 0x1_0000 == high && (high * 0x1_0000 + low) % 0x1_0000 == low;
    Words16(0, b[..2]);
    Words16(0, b[2..]);
    assert b == b[..2] + b[2..];
  }

  // ---------------------------------------------------------------------------
  // Addresses.
  // ---------------------------------------------------------------------------

  /** A transport address; the IP is its 4 or 16 bytes. */
  datatype PublicAddr = PublicAddr(ip: Bytes, port: Word16)

  predicate ValidAddr(a: PublicAddr) { |a.ip| == 4 || |a.ip| == 16 }

  /** The mask of section 15.2: the magic cookie followed by the transaction ID. */
  function Mask(txid: Bytes): Bytes { Put32(MAGIC_COOKIE) + txid }

  function XorAll(a: Bytes, mask: Bytes): (r: Bytes)
    requires |a| <= |mask|
    ensures |r| == |a|
  {
    seq(|a|, i requires 0 <= i < |a| => Xor8(a[i], mask[i]))
  }

  function ParseXorMapped(val: Bytes, txid: Bytes): Option<PublicAddr> {
    if |val| < 4 then None
    else if val[1] == FAMILY_IPV4 then
      if |val| < 8 then None
      else Some(PublicAddr(Put32(Xor32(Get32(val[4..8]), MAGIC_COOKIE)), Xor16(Get16(val[2..4]), COOKIE_HIGH)))
    else if val[1] == FAMILY_IPV6 then
      if |val| < 20 || |txid| != 12 then None
      else Some(PublicAddr(XorAll(val[4..20], Mask(txid)), Xor16(Get16(val[2..4]), COOKIE_HIGH)))
    else None
  }

  function ParseMapped(val: Bytes): Option<PublicAddr> {
    if |val| < 4 then None
    else if val[1] == FAMILY_IPV4 then
      if |val| < 8 then None else Some(PublicAddr(val[4..8], Get16(val[2..4])))
    else if val[1] == FAMILY_IPV6 then
      if |val| < 20 then None else Some(PublicAddr(val[4..20], Get16(val[2..4])))
    else None
  }

  function FamilyOf(a: PublicAddr): Byte { if |a.ip| == 4 then FAMILY_IPV4 else FAMILY_IPV6 }

  /** MAPPED-ADDRESS, section 15.1. */
  function EncodeMapped(a: PublicAddr): Bytes { [0, FamilyOf(a)] + Put16(a.port) + a.ip }

  /** XOR-MAPPED-ADDRESS, section 15.2: port and address bytes, each XORed with the mask from its start. */
  function EncodeXorMapped(a: PublicAddr, txid: Bytes): Bytes
    requires ValidAddr(a) && |txid| == 12
  {
    [0, FamilyOf(a)] + XorAll(Put16(a.port), Mask(txid)) + XorAll(a.ip, Mask(txid))
  }

  lemma {:induction false} XorAllInverts(a: Bytes, mask: Bytes)
    requires |a| <= |mask|
    ensures XorAll(XorAll(a, mask), mask) == a
  {
    forall i | 0 <= i < |a| ensures XorAll(XorAll(a, mask), mask)[i] == a[i] {
      Xor8Inverts(a[i], mask[i]);
    }
  }

  /** The number whose low n bits are those of `low` and whose other bits are `high`. */
  function Glue(n: nat, high: nat, low: nat): nat {
    if n == 0 then high else 2 * Glue(n - 1, high, low / 2) + low % 2
  }

  lemma GlueDigits(n: nat, high: nat, low: nat)
    requires n > 0
    ensures Glue(n, high, low) / 2 == Glue(n - 1, high, low / 2) && Glue(n, high, low) % 2 == low % 2
  {
    HalfAndBit(Glue(n - 1, high, low / 2), low % 2);
  }

  lemma {:induction false} GlueMeaning(n: nat, high: nat, low: nat)
    requires low < Pow2(n)
    ensures Glue(n, high, low) == high * Pow2(n) + low
  {
    if n > 0 {
      HalfBounded(n, low);
      GlueMeaning(n - 1, high, low / 2);
      Doubled(high, Pow2(n - 1));
    }
  }

  lemma Doubled(x: nat, half: nat)
    ensures x * (2 * half) == 2 * (x * half)
  {
  }

  /** XOR of a word is the XOR of its parts. */
  lemma {:induction false} XorSplit(n: nat, m: nat, high: nat, low: nat, high': nat, low': nat)
    ensures XorBits(n + m, Glue(n, high, low), Glue(n, high', low')) ==
            Glue(n, XorBits(m, high, high'), XorBits(n, low, low'))
    decreases n
  {
    if n > 0 {
      var a, b := Glue(n, high, low), Glue(n, high', low');
      var x, y := XorBits(n + m, a, b), Glue(n, XorBits(m, high, high'), XorBits(n, low, low'));
      XorDigits(n, low, low');
      assert x / 2 == XorBits(n - 1 + m, Glue(n - 1, high, low / 2), Glue(n - 1, high', low' / 2))
             && x % 2 == (low % 2 + low' % 2) % 2 by {
        GlueDigits(n, high, low);
        GlueDigits(n, high', low');
        XorDigits(n + m, a, b);
      }
      assert y / 2 == Glue(n - 1, XorBits(m, high, high'), XorBits(n - 1, low / 2, low' / 2))
             && y % 2 == (low % 2 + low' % 2) % 2 by {
        GlueDigits(n, XorBits(m, high, high'), XorBits(n, low, low'));
      }
      XorSplit(n - 1, m, high, low / 2, high', low' / 2);
      SameDigits(x, y);
    }
  }

  /** The same in place-value notation. */
  lemma XorOfParts(n: nat, m: nat, high: nat, low: nat, high': nat, low': nat)
    requires low < Pow2(n) && low' < Pow2(n)
    ensures XorBits(n + m, high * Pow2(n) + low, high' * Pow2(n) + low') ==
            XorBits(m, high, high') * Pow2(n) + XorBits(n, low, low')
  {
    XorSplit(n, m, high, low, high', low');
    XorBounded(n, low, low');
    GlueMeaning(n, high, low);
    GlueMeaning(n, high', low');
    GlueMeaning(n, XorBits(m, high, high'), XorBits(n, low, low'));
  }

  lemma XorOf16(a: Byte, b: Byte, c: Byte, d: Byte)
    ensures Xor16(Get16([a, b]), Get16([c, d])) == Get16([Xor8(a, c), Xor8(b, d)])
  {
    Widths();
    XorOfParts(8, 8, a, b, c, d);
  }

  /** Unmasking an IPv4 address as one 32-bit word is unmasking it byte by byte. */
  lemma Xor32IsBytewise(b: Bytes, c: Bytes)
    requires |b| == 4 && |c| == 4
    ensures Put32(Xor32(Get32(b), Get32(c))) == XorAll(b, c)
  {
    var r := XorAll(b, c);
    assert r[..2] == [Xor8(b[0], c[0]), Xor8(b[1], c[1])] && r[2..] == [Xor8(b[2], c[2]), Xor8(b[3], c[3])];
    assert b[..2] == [b[0], b[1]] && b[2..] == [b[2], b[3]];
    assert c[..2] == [c[0], c[1]] && c[2..] == [c[2], c[3]];
    XorOf16(b[0], b[1], c[0], c[1]);
    XorOf16(b[2], b[3], c[2], c[3]);
    Xor32OfHalves(Get16(b[..2]), Get16(b[2..]), Get16(c[..2]), Get16(c[2..]));
    Put32Get32(r);
  }

  lemma Xor32OfHalves(high: Word16, low: Word16, high': Word16, low': Word16)
    ensures Xor32(high as int * 0x1_0000 + low as int, high' as int * 0x1_0000 + low' as int) as int
            == Xor16(high, high') as int * 0x1_0000 + Xor16(low, low') as int
  {
    Widths();
    XorOfParts(16, 16, high, low, high', low');
  }

  /** The port is masked with the first two bytes of the mask, its most significant ones. */
  lemma CookieHighIsMaskStart(txid: Bytes)
    ensures Put16(COOKIE_HIGH) == Mask(txid)[..2] == [0x21, 0x12]
    ensures Mask(txid)[..4] == [0x21, 0x12, 0xA4, 0x42]
  {
    assert Put16(0x2112) == [0x21, 0x12] && Put16(0xA442) == [0xA4, 0x42];
    assert Put32(MAGIC_COOKIE) == Put16(0x2112) + Put16(0xA442);
  }

  /** Unmasking the port as a word is unmasking it byte by byte. */
  lemma PortIsBytewise(port: Word16, txid: Bytes)
    ensures Put16(Xor16(port, COOKIE_HIGH)) == XorAll(Put16(port), Mask(txid))
  {
    var b := Put16(port);
    CookieHighIsMaskStart(txid);
    assert Mask(txid)[0] == Mask(txid)[..2][0] && Mask(txid)[1] == Mask(txid)[..2][1];
    XorOf16(b[0], b[1], 0x21, 0x12);
    Words16(port, [Xor8(b[0], 0x21), Xor8(b[1], 0x12)]);
    assert Get16([0x21, 0x12]) == COOKIE_HIGH && b == [b[0], b[1]];
  }

  /** Section 15.1 round trip. */
  lemma MappedRoundTrip(a: PublicAddr, trailing: Bytes)
    requires ValidAddr(a)
    ensures ParseMapped(EncodeMapped(a) + trailing) == Some(a)
  {
  }

  lemma XorAllPrefix(a: Bytes, mask: Bytes, mask': Bytes)
    requires |a| <= |mask| && mask <= mask'
    ensures XorAll(a, mask) == XorAll(a, mask')
  {
  }

  /** Section 15.2 round trip: for every address, port and transaction ID. */
  lemma XorMappedRoundTrip(a: PublicAddr, txid: Bytes, trailing: Bytes)
    requires ValidAddr(a) && |txid| == 12
    ensures ParseXorMapped(EncodeXorMapped(a, txid) + trailing, txid) == Some(a)
  {
    var val := EncodeXorMapped(a, txid) + trailing;
    var masked := XorAll(a.ip, Mask(txid));
    PortIsBytewise(a.port, txid);
    assert val[2..4] == Put16(Xor16(a.port, COOKIE_HIGH));
    assert val[4..4 + |a.ip|] == masked;
    Words16(Xor16(a.port, COOKIE_HIGH), Put16(0));
    Xor16Inverts(a.port, COOKIE_HIGH);
    XorAllInverts(a.ip, Mask(txid));
    if |a.ip| == 4 {
      var cookie := Put32(MAGIC_COOKIE);
      Get32Put32(MAGIC_COOKIE);
      Xor32IsBytewise(masked, cookie);
      XorAllPrefix(masked, cookie, Mask(txid));
    }
  }

  // ---------------------------------------------------------------------------
  // The attribute walk.
  // ---------------------------------------------------------------------------

  function Padding(n: nat): nat { if n % 4 == 0 then 0 else 4 - n % 4 }

  /** Attributes are padded to the next multiple of four. */
  lemma PaddingMeaning(n: nat)
    ensures Padding(n) < 4 && (n + Padding(n)) % 4 == 0
  {
  }

  /** What one attribute does to the address found so far. */
  function Absorb(found: Option<PublicAddr>, kind: Word16, val: Bytes, txid: Bytes): Option<PublicAddr> {
    if kind == ATTR_XOR_MAPPED then
      var a := ParseXorMapped(val, txid);
      if a.Some? then a else found
    else if kind == ATTR_MAPPED && found.None? then ParseMapped(val)
    else found
  }

  function Walk(body: Bytes, txid: Bytes, found: Option<PublicAddr>): Option<PublicAddr>
    decreases |body|
  {
    if |body| < 4 then found
    else
      var kind, len := Get16(body[0..2]), Get16(body[2..4]) as int;
      if len + 4 > |body| then found
      else
        var found' := Absorb(found, kind, body[4..4 + len], txid);
        var padded := len + Padding(len);
        if padded + 4 > |body| then found' else Walk(body[4 + padded..], txid, found')
  }

  function ParseResponse(data: Bytes, txid: Bytes): Option<PublicAddr> {
    if |data| < 20 then None
    else if Get32(data[4..8]) != MAGIC_COOKIE || Get16(data[0..2]) != BINDING_SUCCESS || data[8..20] != txid then None
    else
      var body := data[20..];
      var declared := Get16(data[2..4]) as int;
      Walk(body[..if declared > |body| then |body| else declared], data[8..20], None)
  }

  /** The upper slice bound of an attribute's value, computed in 16 bits. */
  function SliceEnd(attrLen: Word16): Word16 { (4 + attrLen as int) % 0x1_0000 }

  /** The slice bound is right for every attribute that fits exactly when bodies are clipped to 16 bits. */
  lemma SliceEndRightIffClipped(size: nat)
    ensures (forall len: Word16 :: len as int + 4 <= size ==> SliceEnd(len) as int == len as int + 4) <==> size < 0x1_0000
  {
    var longest: Word16 := 0xFFFC;
    assert SliceEnd(longest) == 0;
  }

  /** The declared length of the attribute at the head of a body. */
  function AttrLength(body: Bytes): nat
    requires |body| >= 4
  {
    Get16(body[2..4])
  }

  function PaddedLength(attrLen: Word16): nat {
    if attrLen % 4 != 0 then attrLen + (4 - attrLen % 4) else attrLen
  }

  /** The walk ends in front of an attribute that does not fit. */
  lemma WalkStops(body: Bytes, txid: Bytes, found: Option<PublicAddr>)
    requires |body| < 4 || AttrLength(body) + 4 > |body|
    ensures Walk(body, txid, found) == found
  {
  }

  /** The walk goes on behind the padding of an attribute that fits with it. */
  lemma WalkStep(body: Bytes, txid: Bytes, found: Option<PublicAddr>, found': Option<PublicAddr>)
    requires |body| >= 4 && AttrLength(body) + 4 <= |body|
    requires found' == Absorb(found, Get16(body[0..2]), body[4..4 + AttrLength(body)], txid)
    ensures var padded := PaddedLength(AttrLength(body));
            Walk(body, txid, found) == if padded + 4 > |body| then found' else Walk(body[4 + padded..], txid, found')
  {
    assert PaddedLength(AttrLength(body)) == AttrLength(body) + Padding(AttrLength(body));
  }

  /** The switch of the loop. */
  method AbsorbAttribute(found: Option<PublicAddr>, attrType: Word16, val: Bytes, txid: Bytes)
    returns (mapped: Option<PublicAddr>)
    ensures mapped == Absorb(found, attrType, val, txid)
  {
    mapped := found;
    if attrType == ATTR_XOR_MAPPED {
      var a := ParseXorMappedAddress(val, txid);
      if a.Some? {
        mapped := a;
      }
    } else if attrType == ATTR_MAPPED {
      if mapped.None? {
        mapped := ParseMapped(val);
      }
    }
  }

  /** One round of the loop: the address so far and, if the walk goes on, the rest of the body. */
  method ReadAttribute(body: Bytes, txid: Bytes, found: Option<PublicAddr>)
    returns (mapped: Option<PublicAddr>, rest: Option<Bytes>)
    requires 4 <= |body| < 0x1_0000
    ensures rest.Some? ==> |rest.value| < |body|
    ensures Walk(body, txid, found) == if rest.None? then mapped else Walk(rest.value, txid, mapped)
  {
    var attrType := Get16(body[0..2]);
    var attrLen := Get16(body[2..4]);
    if attrLen as int + 4 > |body| {
      return found, None;
    }
    // A 16-bit sum in the source; it does not wrap here.
    var end := SliceEnd(attrLen);
    mapped := AbsorbAttribute(found, attrType, body[4..end], txid);
    WalkStep(body, txid, found, mapped);
    var padded := PaddedLength(attrLen);
    rest := if padded + 4 > |body| then None else Some(body[4 + padded..]);
  }

  /** The loop of parseMappedAttribute.  Its caller clips the body to a 16-bit length. */
  method ParseMappedAttribute(input: Bytes, txid: Bytes) returns (mapped: Option<PublicAddr>)
    requires |input| < 0x1_0000
    ensures mapped == Walk(input, txid, None)
  {
    var body := input;
    mapped := None;
    while |body| >= 4
      invariant |body| < 0x1_0000
      invariant Walk(body, txid, mapped) == Walk(input, txid, None)
      decreases |body|
    {
      var rest;
      mapped, rest := ReadAttribute(body, txid, mapped);
      if rest.None? {
        return;
      }
      body := rest.value;
    }
    WalkStops(body, txid, mapped);
  }

  /** parseXorMappedAddress; the IPv6 branch unmasks in place, byte by byte. */
  method ParseXorMappedAddress(val: Bytes, txid: Bytes) returns (addr: Option<PublicAddr>)
    ensures addr == ParseXorMapped(val, txid)
  {
    if |val| < 4 {
      return None;
    }
    if val[1] == FAMILY_IPV4 {
      if |val| < 8 {
        return None;
      }
      return Some(PublicAddr(Put32(Xor32(Get32(val[4..8]), MAGIC_COOKIE)), Xor16(Get16(val[2..4]), COOKIE_HIGH)));
    }
    if val[1] != FAMILY_IPV6 || |val| < 20 || |txid| != 12 {
      return None;
    }
    var mask := Put32(MAGIC_COOKIE) + txid;
    var raw := new Byte[16];
    for i := 0 to 16
      invariant forall k :: 0 <= k < i ==> raw[k] == Xor8(val[4 + k], mask[k])
    {
      raw[i] := Xor8(val[4 + i], mask[i]);
    }
    assert raw[..] == XorAll(val[4..20], Mask(txid));
    return Some(PublicAddr(raw[..], Xor16(Get16(val[2..4]), COOKIE_HIGH)));
  }

  /** parseBindingResponse on any byte string and a 12-byte transaction ID. */
  method ParseBindingResponse(data: Bytes, expected: Bytes) returns (addr: Option<PublicAddr>)
    requires |expected| == 12
    ensures addr == ParseResponse(data, expected)
  {
    if |data| < 20 {
      return None;
    }
    var txid := data[8..20];
    if Get32(data[4..8]) != MAGIC_COOKIE || Get16(data[0..2]) != BINDING_SUCCESS {
      return None;
    }
    for i := 0 to 12
      invariant forall k :: 0 <= k < i ==> txid[k] == expected[k]
    {
      if txid[i] != expected[i] {
        return None;
      }
    }
    assert txid == expected;
    var body := data[20..];
    var declared := Get16(data[2..4]) as int;
    if declared > |body| {
      declared := |body|;
    }
    addr := ParseMappedAttribute(body[..declared], txid);
  }

  function RequestHeader(kind: Word16, length: Word16, txid: Bytes): Bytes {
    Put16(kind) + Put16(length) + Put32(MAGIC_COOKIE) + txid
  }

  lemma HeaderBytes(kind: Word16, txid: Bytes)
    requires |txid| == 12
    ensures var h := RequestHeader(kind, 0, txid);
            && |h| == 20 && h[..8] == Put16(kind) + [0, 0] + Put32(MAGIC_COOKIE)
            && forall k :: 0 <= k < 12 ==> h[8 + k] == txid[k]
  {
    assert Put16(0) == [0, 0];
  }

  /** buildBindingRequest fills a 20-byte buffer. */
  method BuildBindingRequest(txid: Bytes) returns (packet: array<Byte>)
    requires |txid| == 12
    ensures fresh(packet) && packet[..] == RequestHeader(BINDING_REQUEST, 0, txid)
  {
    packet := new Byte[20](_ => 0);
    var kind, cookie := Put16(BINDING_REQUEST), Put32(MAGIC_COOKIE);
    packet[0], packet[1] := kind[0], kind[1];
    packet[4], packet[5], packet[6], packet[7] := cookie[0], cookie[1], cookie[2], cookie[3];
    ghost var header := RequestHeader(BINDING_REQUEST, 0, txid);
    HeaderBytes(BINDING_REQUEST, txid);
    assert packet[..8] == header[..8];
    for i := 0 to 12
      invariant packet[..8 + i] == header[..8 + i]
    {
      packet[8 + i] := txid[i];
      assert packet[..8 + i] == header[..8 + i];
    }
    assert packet[..] == packet[..20] && header[..20] == header;
  }

  // ---------------------------------------------------------------------------
  // The meaning of a response.
  // ---------------------------------------------------------------------------

  /** An attribute with the padding bytes that follow its value; their content is free. */
  datatype Attr = Attr(kind: Word16, val: Bytes, pad: Bytes)

  predicate WellFormed(a: Attr) { |a.val| < 0x1_0000 && |a.pad| == Padding(|a.val|) }

  function EncodeAttr(a: Attr): Bytes
    requires WellFormed(a)
  {
    Put16(a.kind) + Put16(|a.val|) + a.val + a.pad
  }

  function EncodeAttrs(attrs: seq<Attr>): Bytes
    requires forall i :: 0 <= i < |attrs| ==> WellFormed(attrs[i])
  {
    if attrs == [] then [] else EncodeAttr(attrs[0]) + EncodeAttrs(attrs[1..])
  }

  function XorAddress(a: Attr, txid: Bytes): Option<PublicAddr> {
    if a.kind == ATTR_XOR_MAPPED then ParseXorMapped(a.val, txid) else None
  }

  function MappedAddress(a: Attr): Option<PublicAddr> {
    if a.kind == ATTR_MAPPED then ParseMapped(a.val) else None
  }

  function LastXor(attrs: seq<Attr>, txid: Bytes): Option<PublicAddr> {
    if attrs == [] then None
    else
      var a := XorAddress(attrs[|attrs| - 1], txid);
      if a.Some? then a else LastXor(attrs[..|attrs| - 1], txid)
  }

  function FirstMapped(attrs: seq<Attr>): Option<PublicAddr> {
    if attrs == [] then None
    else
      var a := MappedAddress(attrs[0]);
      if a.Some? then a else FirstMapped(attrs[1..])
  }

  /** The last decodable XOR-MAPPED-ADDRESS, else the first decodable MAPPED-ADDRESS. */
  function Meaning(attrs: seq<Attr>, txid: Bytes): Option<PublicAddr> {
    var x := LastXor(attrs, txid);
    if x.Some? then x else FirstMapped(attrs)
  }

  lemma {:induction false} LastXorFromFront(attrs: seq<Attr>, txid: Bytes)
    requires attrs != []
    ensures LastXor(attrs, txid) ==
            (var x := LastXor(attrs[1..], txid); if x.Some? then x else XorAddress(attrs[0], txid))
    decreases |attrs|
  {
    var n := |attrs| - 1;
    if n > 0 {
      assert attrs[1..][n - 1] == attrs[n];
      assert attrs[1..][..n - 1] == attrs[..n][1..];
      LastXorFromFront(attrs[..n], txid);
    }
  }

  /** The walk consumes one well-formed attribute and goes on behind its padding. */
  lemma WalkOne(a: Attr, rest: Bytes, txid: Bytes, found: Option<PublicAddr>)
    requires WellFormed(a)
    ensures Walk(EncodeAttr(a) + rest, txid, found) == Walk(rest, txid, Absorb(found, a.kind, a.val, txid))
  {
    var body := EncodeAttr(a) + rest;
    assert body[0..2] == Put16(a.kind);
    assert body[2..4] == Put16(|a.val|);
    Words16(a.kind, Put16(0));
    Words16(|a.val|, Put16(0));
    assert body[4..4 + |a.val|] == a.val;
    assert body[4 + |a.val| + |a.pad|..] == rest;
  }

  lemma {:induction false} WalkMeaning(attrs: seq<Attr>, txid: Bytes, found: Option<PublicAddr>)
    requires forall i :: 0 <= i < |attrs| ==> WellFormed(attrs[i])
    ensures Walk(EncodeAttrs(attrs), txid, found) ==
            (var x := LastXor(attrs, txid);
             if x.Some? then x else if found.Some? then found else FirstMapped(attrs))
    decreases |attrs|
  {
    if attrs != [] {
      WalkOne(attrs[0], EncodeAttrs(attrs[1..]), txid, found);
      WalkMeaning(attrs[1..], txid, Absorb(found, attrs[0].kind, attrs[0].val, txid));
      LastXorFromFront(attrs, txid);
    }
  }

  /** The walk over well-formed attributes goes on with what follows them. */
  lemma {:induction false} WalkOver(attrs: seq<Attr>, tail: Bytes, txid: Bytes, found: Option<PublicAddr>)
    requires forall i :: 0 <= i < |attrs| ==> WellFormed(attrs[i])
    ensures Walk(EncodeAttrs(attrs) + tail, txid, found) == Walk(tail, txid, Walk(EncodeAttrs(attrs), txid, found))
    decreases |attrs|
  {
    if attrs == [] {
      assert EncodeAttrs(attrs) + tail == tail;
    } else {
      var rest := EncodeAttrs(attrs[1..]);
      var found' := Absorb(found, attrs[0].kind, attrs[0].val, txid);
      assert EncodeAttrs(attrs) + tail == EncodeAttr(attrs[0]) + (rest + tail);
      WalkOne(attrs[0], rest + tail, txid, found);
      WalkOne(attrs[0], rest, txid, found);
      WalkOver(attrs[1..], tail, txid, found');
    }
  }

  /** An attribute that is cut off at the end of a body does no harm to those before it. */
  lemma BrokenTail(attrs: seq<Attr>, tail: Bytes, txid: Bytes)
    requires forall i :: 0 <= i < |attrs| ==> WellFormed(attrs[i])
    requires |tail| < 4 || Get16(tail[2..4]) as int + 4 > |tail|
    ensures Walk(EncodeAttrs(attrs) + tail, txid, None) == Meaning(attrs, txid)
  {
    WalkOver(attrs, tail, txid, None);
    WalkMeaning(attrs, txid, None);
  }

  /** The last attribute counts even if its padding is missing. */
  lemma UnpaddedLast(attrs: seq<Attr>, kind: Word16, val: Bytes, txid: Bytes)
    requires forall i :: 0 <= i < |attrs| ==> WellFormed(attrs[i])
    requires |val| % 4 != 0 && |val| < 0x1_0000
    ensures Walk(EncodeAttrs(attrs) + (Put16(kind) + Put16(|val|) + val), txid, None) ==
            Absorb(Meaning(attrs, txid), kind, val, txid)
  {
    WalkOver(attrs, Put16(kind) + Put16(|val|) + val, txid, None);
    WalkMeaning(attrs, txid, None);
    OneUnpadded(kind, val, txid, Meaning(attrs, txid));
  }

  lemma UnpaddedSlices(kind: Word16, val: Bytes)
    requires |val| < 0x1_0000
    ensures var tail := Put16(kind) + Put16(|val|) + val;
            |tail| == |val| + 4 && tail[0..2] == Put16(kind) && tail[2..4] == Put16(|val|) && tail[4..4 + |val|] == val
  {
  }

  lemma OneUnpadded(kind: Word16, val: Bytes, txid: Bytes, found: Option<PublicAddr>)
    requires |val| % 4 != 0 && |val| < 0x1_0000
    ensures Walk(Put16(kind) + Put16(|val|) + val, txid, found) == Absorb(found, kind, val, txid)
  {
    UnpaddedSlices(kind, val);
    Words16(kind, Put16(0));
    Words16(|val|, Put16(0));
    WalkStep(Put16(kind) + Put16(|val|) + val, txid, found, Absorb(found, kind, val, txid));
  }

  /** Nothing is accepted but a success response with the cookie and the expected transaction ID. */
  lemma AcceptedResponse(data: Bytes, txid: Bytes)
    requires ParseResponse(data, txid).Some?
    ensures |data| >= 20 && data[0..2] == [0x01, 0x01] && data[4..8] == [0x21, 0x12, 0xa4, 0x42] && data[8..20] == txid
  {
    Words16(0x0101, data[0..2]);
    Put32Get32(data[4..8]);
    CookieHighIsMaskStart([]);
    assert Put16(0x0101) == [0x01, 0x01];
    assert Put32(MAGIC_COOKIE) == Mask([])[..4];
  }

  /** Which values can be decoded. */
  lemma DecodableIff(val: Bytes, txid: Bytes)
    ensures ParseMapped(val).Some? <==>
            (|val| >= 8 && val[1] == 0x01) || (|val| >= 20 && val[1] == 0x02)
    ensures ParseXorMapped(val, txid).Some? <==>
            (|val| >= 8 && val[1] == 0x01) || (|val| >= 20 && val[1] == 0x02 && |txid| == 12)
  {
  }

  /**
    The meaning of a response: for every well-formed attribute list and whatever
    follows it in the datagram, the parser returns the address the list stands for.
   */
  lemma ResponseMeaning(attrs: seq<Attr>, txid: Bytes, trailing: Bytes)
    requires |txid| == 12
    requires forall i :: 0 <= i < |attrs| ==> WellFormed(attrs[i])
    requires |EncodeAttrs(attrs)| < 0x1_0000
    ensures ParseResponse(RequestHeader(BINDING_SUCCESS, |EncodeAttrs(attrs)|, txid) + EncodeAttrs(attrs) + trailing, txid)
            == Meaning(attrs, txid)
  {
    var body := EncodeAttrs(attrs);
    var data := RequestHeader(BINDING_SUCCESS, |body|, txid) + body + trailing;
    HeaderSlices(BINDING_SUCCESS, |body|, txid, body, trailing);
    Words16(BINDING_SUCCESS, Put16(0));
    Words16(|body|, Put16(0));
    Get32Put32(MAGIC_COOKIE);
    WalkMeaning(attrs, txid, None);
  }

  /** A declared length beyond the end of the datagram is cut to it. */
  lemma OverlongMeaning(attrs: seq<Attr>, txid: Bytes, length: Word16)
    requires |txid| == 12 && forall i :: 0 <= i < |attrs| ==> WellFormed(attrs[i])
    requires |EncodeAttrs(attrs)| <= length as int
    ensures ParseResponse(RequestHeader(BINDING_SUCCESS, length, txid) + EncodeAttrs(attrs), txid) == Meaning(attrs, txid)
  {
    var body := EncodeAttrs(attrs);
    OverlongSlices(BINDING_SUCCESS, length, txid, body);
    Words16(BINDING_SUCCESS, Put16(0));
    Words16(length, Put16(0));
    Get32Put32(MAGIC_COOKIE);
    WalkMeaning(attrs, txid, None);
  }

  lemma OverlongSlices(kind: Word16, length: Word16, txid: Bytes, body: Bytes)
    requires |txid| == 12 && |body| <= length as int
    ensures var data := RequestHeader(kind, length, txid) + body;
            && |data| == 20 + |body|
            && data[0..2] == Put16(kind) && data[2..4] == Put16(length)
            && data[4..8] == Put32(MAGIC_COOKIE) && data[8..20] == txid
            && data[20..] == body && data[20..][..|body|] == body
  {
    var header := RequestHeader(kind, length, txid);
    assert |header| == 20;
    assert header[0..2] == Put16(kind) && header[2..4] == Put16(length);
    assert header[4..8] == Put32(MAGIC_COOKIE) && header[8..20] == txid;
    assert (header + body)[..20] == header;
  }

  lemma HeaderSlices(kind: Word16, length: Word16, txid: Bytes, body: Bytes, trailing: Bytes)
    requires |txid| == 12 && |body| == length as int
    ensures var data := RequestHeader(kind, length, txid) + body + trailing;
            && |data| >= 20 + |body|
            && data[0..2] == Put16(kind) && data[2..4] == Put16(length)
            && data[4..8] == Put32(MAGIC_COOKIE) && data[8..20] == txid
            && data[20..][..|body|] == body
  {
  }

  /** A server that answers with one XOR-MAPPED-ADDRESS gets its address across. */
  lemma ServerRoundTrip(a: PublicAddr, txid: Bytes, trailing: Bytes)
    requires ValidAddr(a) && |txid| == 12
    ensures var attr := Attr(ATTR_XOR_MAPPED, EncodeXorMapped(a, txid), []);
            && WellFormed(attr)
            && ParseResponse(RequestHeader(BINDING_SUCCESS, |EncodeAttr(attr)|, txid) + EncodeAttr(attr) + trailing, txid)
               == Some(a)
  {
    var attr := Attr(ATTR_XOR_MAPPED, EncodeXorMapped(a, txid), []);
    assert EncodeAttrs([attr]) == EncodeAttr(attr);
    ResponseMeaning([attr], txid, trailing);
    XorMappedRoundTrip(a, txid, []);
    assert EncodeXorMapped(a, txid) + [] == EncodeXorMapped(a, txid);
    assert LastXor([attr], txid) == Some(a);
  }

  // ---------------------------------------------------------------------------
  // Literal packets, byte by byte.
  // ---------------------------------------------------------------------------

  const SAMPLE_ID: Bytes := [0xb7, 0xe7, 0xa7, 0x01, 0xbc, 0x34, 0xd6, 0x86, 0xfa, 0x87, 0xdf, 0xae]

  /** A request is these twenty bytes. */
  lemma LiteralRequest()
    ensures RequestHeader(BINDING_REQUEST, 0, SAMPLE_ID) ==
            [0x00, 0x01, 0x00, 0x00, 0x21, 0x12, 0xa4, 0x42,
             0xb7, 0xe7, 0xa7, 0x01, 0xbc, 0x34, 0xd6, 0x86, 0xfa, 0x87, 0xdf, 0xae]
  {
    CookieHighIsMaskStart([]);
    assert Put16(BINDING_REQUEST) == [0, 1] && Put16(0) == [0, 0];
    assert Put32(MAGIC_COOKIE) == [0x21, 0x12, 0xA4, 0x42];
  }

  /** The header of a success response with a body of this many bytes below 256. */
  function SampleHeader(length: Byte): Bytes {
    [0x01, 0x01, 0x00, length, 0x21, 0x12, 0xa4, 0x42,
     0xb7, 0xe7, 0xa7, 0x01, 0xbc, 0x34, 0xd6, 0x86, 0xfa, 0x87, 0xdf, 0xae]
  }

  lemma SampleHeaderIs(length: Byte)
    ensures SampleHeader(length) == RequestHeader(BINDING_SUCCESS, length, SAMPLE_ID)
  {
    CookieHighIsMaskStart([]);
    assert Put16(BINDING_SUCCESS) == [1, 1] && Put16(length) == [0, length];
    assert Put32(MAGIC_COOKIE) == [0x21, 0x12, 0xA4, 0x42];
  }

  /** One more bit at the low end. */
  lemma XorPush(n: nat, x: nat, y: nat, p: nat, q: nat)
    requires p < 2 && q < 2
    ensures XorBits(n + 1, 2 * x + p, 2 * y + q) == 2 * XorBits(n, x, y) + (p + q) % 2
  {
    HalfAndBit(x, p);
    HalfAndBit(y, q);
  }

  lemma PushBit(n: nat, x: nat, y: nat, z: nat, p: nat, q: nat) returns (x': nat, y': nat, z': nat)
    requires p < 2 && q < 2 && XorBits(n, x, y) == z
    ensures x' == 2 * x + p && y' == 2 * y + q && z' == 2 * z + (p + q) % 2 && XorBits(n + 1, x', y') == z'
  {
    x', y', z' := 2 * x + p, 2 * y + q, 2 * z + (p + q) % 2;
    XorPush(n, x, y, p, q);
  }

  /** Exclusive or of two hexadecimal digits, bit by bit. */
  lemma HexDigits(a: nat, b: nat, c: nat, d: nat, e: nat, f: nat, g: nat, h: nat)
    requires a < 2 && b < 2 && c < 2 && d < 2 && e < 2 && f < 2 && g < 2 && h < 2
    ensures XorBits(4, 8 * a + 4 * b + 2 * c + d, 8 * e + 4 * f + 2 * g + h) ==
            8 * ((a + e) % 2) + 4 * ((b + f) % 2) + 2 * ((c + g) % 2) + (d + h) % 2
  {
    var x1, y1, z1 := PushBit(0, 0, 0, 0, a, e);
    var x2, y2, z2 := PushBit(1, x1, y1, z1, b, f);
    var x3, y3, z3 := PushBit(2, x2, y2, z2, c, g);
    var x4, y4, z4 := PushBit(3, x3, y3, z3, d, h);
  }

  /** Exclusive or of two bytes, from their hexadecimal digits. */
  lemma HexXor(h: nat, l: nat, h': nat, l': nat)
    requires h < 16 && l < 16 && h' < 16 && l' < 16
    ensures Xor8(16 * h + l, 16 * h' + l') == 16 * XorBits(4, h, h') + XorBits(4, l, l')
  {
    PowFour();
    XorOfParts(4, 4, h, l, h', l');
  }

  lemma PowFour()
    ensures Pow2(4) == 16
  {
  }

  lemma SamplePortXors()
    ensures Xor8(0x80, 0x21) == 0xa1 && Xor8(0x55, 0x12) == 0x47
  {
    HexXor(0x8, 0x0, 0x2, 0x1);
    HexDigits(1, 0, 0, 0, 0, 0, 1, 0);
    HexDigits(0, 0, 0, 0, 0, 0, 0, 1);
    HexXor(0x5, 0x5, 0x1, 0x2);
    HexDigits(0, 1, 0, 1, 0, 0, 0, 1);
    HexDigits(0, 1, 0, 1, 0, 0, 1, 0);
  }

  lemma SampleHighXors()
    ensures Xor8(0xc0, 0x21) == 0xe1 && Xor8(0x00, 0x12) == 0x12
  {
    HexXor(0xc, 0x0, 0x2, 0x1);
    HexDigits(1, 1, 0, 0, 0, 0, 1, 0);
    HexDigits(0, 0, 0, 0, 0, 0, 0, 1);
    HexXor(0x0, 0x0, 0x1, 0x2);
    HexDigits(0, 0, 0, 0, 0, 0, 1, 0);
  }

  lemma SampleLowXors()
    ensures Xor8(0x02, 0xa4) == 0xa6 && Xor8(0x01, 0x42) == 0x43
  {
    HexXor(0x0, 0x2, 0xa, 0x4);
    HexDigits(0, 0, 0, 0, 1, 0, 1, 0);
    HexDigits(0, 0, 1, 0, 0, 1, 0, 0);
    HexXor(0x0, 0x1, 0x4, 0x2);
    HexDigits(0, 0, 0, 0, 0, 1, 0, 0);
    HexDigits(0, 0, 0, 1, 0, 0, 1, 0);
  }

  /** The XOR-MAPPED-ADDRESS of 192.0.2.1, port 32853. */
  lemma SampleXorMapped4()
    ensures EncodeXorMapped(PublicAddr([192, 0, 2, 1], 32853), SAMPLE_ID) ==
            [0x00, 0x01, 0xa1, 0x47, 0xe1, 0x12, 0xa6, 0x43]
  {
    var a := PublicAddr([192, 0, 2, 1], 32853);
    var mask := Mask(SAMPLE_ID);
    CookieHighIsMaskStart(SAMPLE_ID);
    assert mask[0] == mask[..4][0] && mask[1] == mask[..4][1] && mask[2] == mask[..4][2] && mask[3] == mask[..4][3];
    SamplePortXors();
    SampleHighXors();
    SampleLowXors();
    assert Put16(a.port) == [0x80, 0x55];
    assert XorAll(Put16(a.port), mask) == [0xa1, 0x47];
    assert XorAll(a.ip, mask) == [0xe1, 0x12, 0xa6, 0x43];
  }

  /**
    A response with a five-byte SOFTWARE attribute, padded to eight, and an
    XOR-MAPPED-ADDRESS parses to 192.0.2.1, port 32853.
   */
  lemma LiteralResponse4()
    ensures ParseResponse(
              SampleHeader(24)
              + [0x80, 0x22, 0x00, 0x05, 0x6b, 0x6f, 0x72, 0x69, 0x6b, 0x20, 0x20, 0x20]
              + [0x00, 0x20, 0x00, 0x08, 0x00, 0x01, 0xa1, 0x47, 0xe1, 0x12, 0xa6, 0x43],
              SAMPLE_ID)
            == Some(PublicAddr([192, 0, 2, 1], 32853))
  {
    var addr := PublicAddr([192, 0, 2, 1], 32853);
    var software := Attr(0x8022, [0x6b, 0x6f, 0x72, 0x69, 0x6b], [0x20, 0x20, 0x20]);
    var mapped := Attr(ATTR_XOR_MAPPED, EncodeXorMapped(addr, SAMPLE_ID), []);
    SoftwareBytes(software);
    MappedBytes(mapped, addr);
    LiteralBy(software, mapped, addr, 24);
    SampleBytes(EncodeAttr(software), EncodeAttr(mapped));
  }

  lemma SoftwareBytes(a: Attr)
    requires a == Attr(0x8022, [0x6b, 0x6f, 0x72, 0x69, 0x6b], [0x20, 0x20, 0x20])
    ensures WellFormed(a)
    ensures EncodeAttr(a) == [0x80, 0x22, 0x00, 0x05, 0x6b, 0x6f, 0x72, 0x69, 0x6b, 0x20, 0x20, 0x20]
  {
    assert Put16(0x8022) == [0x80, 0x22] && Put16(5) == [0, 5];
  }

  lemma MappedBytes(a: Attr, addr: PublicAddr)
    requires addr == PublicAddr([192, 0, 2, 1], 32853)
    requires a == Attr(ATTR_XOR_MAPPED, EncodeXorMapped(addr, SAMPLE_ID), [])
    ensures WellFormed(a)
    ensures EncodeAttr(a) == [0x00, 0x20, 0x00, 0x08, 0x00, 0x01, 0xa1, 0x47, 0xe1, 0x12, 0xa6, 0x43]
  {
    SampleXorMapped4();
    assert Put16(0x0020) == [0x00, 0x20] && Put16(8) == [0, 8];
  }

  lemma SampleBytes(first: Bytes, second: Bytes)
    ensures SampleHeader(24) + first + second == SampleHeader(24) + (first + second) + []
  {
  }

  lemma TwoAttrs(first: Attr, second: Attr)
    requires WellFormed(first) && WellFormed(second)
    ensures EncodeAttrs([first, second]) == EncodeAttr(first) + EncodeAttr(second)
  {
    assert [first, second][1..] == [second] && [second][1..] == [];
    assert EncodeAttrs([second]) == EncodeAttr(second) + EncodeAttrs([]);
  }

  lemma SecondIsMeant(other: Attr, mapped: Attr, addr: PublicAddr)
    requires ValidAddr(addr) && mapped.kind == ATTR_XOR_MAPPED && mapped.val == EncodeXorMapped(addr, SAMPLE_ID)
    ensures Meaning([other, mapped], SAMPLE_ID) == Some(addr)
  {
    XorMappedRoundTrip(addr, SAMPLE_ID, []);
    assert mapped.val + [] == mapped.val;
    assert XorAddress(mapped, SAMPLE_ID) == Some(addr);
  }

  /** An attribute of no interest in front of an XOR-MAPPED-ADDRESS. */
  lemma LiteralBy(other: Attr, mapped: Attr, addr: PublicAddr, length: Byte)
    requires WellFormed(other) && WellFormed(mapped)
    requires ValidAddr(addr) && mapped.kind == ATTR_XOR_MAPPED && mapped.val == EncodeXorMapped(addr, SAMPLE_ID)
    requires |EncodeAttr(other)| + |EncodeAttr(mapped)| == length as int
    ensures ParseResponse(SampleHeader(length) + (EncodeAttr(other) + EncodeAttr(mapped)) + [], SAMPLE_ID) == Some(addr)
  {
    TwoAttrs(other, mapped);
    SampleHeaderIs(length);
    ResponseMeaning([other, mapped], SAMPLE_ID, []);
    SecondIsMeant(other, mapped, addr);
  }

  lemma {:induction false} XorWithNothing(n: nat, a: nat)
    requires a < Pow2(n)
    ensures XorBits(n, 0, a) == a && XorBits(n, a, a) == 0
  {
    if n > 0 {
      HalfBounded(n, a);
      XorWithNothing(n - 1, a / 2);
      XorDigits(n, 0, a);
      XorDigits(n, a, a);
      SameDigits(XorBits(n, 0, a), a);
      SameDigits(XorBits(n, a, a), 0);
    }
  }

  /**
    The IPv6 mask is the cookie followed by the transaction ID: masking four zero bytes and
    the transaction ID yields the cookie and twelve zero bytes, for every transaction ID.
   */
  lemma MaskIsCookieThenId(txid: Bytes)
    requires |txid| == 12
    ensures XorAll([0, 0, 0, 0] + txid, Mask(txid)) == [0x21, 0x12, 0xa4, 0x42] + [0, 0, 0, 0, 0, 0, 0, 0, 0, 0, 0, 0]
  {
    CookieHighIsMaskStart(txid);
    Widths();
    var plain, mask := [0, 0, 0, 0] + txid, Mask(txid);
    assert mask == mask[..4] + txid;
    var masked := XorAll(plain, mask);
    forall k | 0 <= k < 16 ensures masked[k] == if k < 4 then mask[k] else 0 {
      XorWithNothing(8, mask[k]);
    }
  }

  /** A MAPPED-ADDRESS of 192.0.2.1, port 32853, is not masked. */
  lemma LiteralMapped()
    ensures ParseMapped([0x00, 0x01, 0x80, 0x55, 0xc0, 0x00, 0x02, 0x01]) == Some(PublicAddr([192, 0, 2, 1], 32853))
    ensures Absorb(None, 0x0001, [0x00, 0x01, 0x80, 0x55, 0xc0, 0x00, 0x02, 0x01], []) == Some(PublicAddr([192, 0, 2, 1], 32853))
  {
    var val: Bytes := [0x00, 0x01, 0x80, 0x55, 0xc0, 0x00, 0x02, 0x01];
    assert val[2..4] == [0x80, 0x55] && val[4..8] == [192, 0, 2, 1];
  }
}
