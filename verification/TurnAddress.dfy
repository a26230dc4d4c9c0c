/** XOR-mapped addresses in TURN attributes. */
module TurnAddress {
  import opened Basics
  import opened TurnCodec
  import TurnIntegrity
  import Word64

  const COOKIE_BYTES: bytes := [0x21, 0x12, 0xa4, 0x42]

  /** A UDP address: the IP as a byte slice of any length, the port as Go's int. */
  datatype Address = Address(ip: bytes, port: int)

  datatype AddressError = InvalidAddress | InvalidIP | ShortAddress | ShortIPv6 | UnknownFamily | Missing | BadMessage
  datatype Decoded = Found(addr: Address) | Bad(error: AddressError)
  datatype Encoded = Value(value: bytes) | Unencodable(error: AddressError)

  /** Bitwise exclusive or of the n low bits. */
  function XorBits(n: nat, a: nat, b: nat): (r: nat)
    ensures r < Pow2(n)
  {
    if n == 0 then 0 else 2 * XorBits(n - 1, a / 2, b / 2) + (if a % 2 == b % 2 then 0 else 1)
  }

  lemma {:induction false} XorBitsTwice(n: nat, a: nat, b: nat)
    requires a < Pow2(n)
    ensures XorBits(n, XorBits(n, a, b), b) == a
  {
    if n > 0 {
      XorBitsTwice(n - 1, a / 2, b / 2);
    }
  }

  /** What the operation is: a bit of the result is set exactly when the operands differ there. */
  lemma {:induction false} XorBitsBit(n: nat, a: nat, b: nat, k: nat)
    ensures Word64.Bit(XorBits(n, a, b), k) <==> k < n && Word64.Bit(a, k) != Word64.Bit(b, k)
  {
    if n == 0 {
      Word64.ZeroHasNoBits(k);
    } else if k > 0 {
      assert XorBits(n, a, b) / 2 == XorBits(n - 1, a / 2, b / 2);
      XorBitsBit(n - 1, a / 2, b / 2, k - 1);
    }
  }

  function XorByte(a: byte, b: byte): byte {
    assert Pow2(8) == 2 * Pow2(7) == 4 * Pow2(6) == 8 * Pow2(5) == 16 * Pow2(4) == 32 * Pow2(3) == 256;
    XorBits(8, a, b)
  }

  lemma XorTwice(a: byte, b: byte)
    ensures XorByte(XorByte(a, b), b) == a
  {
    assert Pow2(8) == 2 * Pow2(7) == 4 * Pow2(6) == 8 * Pow2(5) == 16 * Pow2(4) == 32 * Pow2(3) == 256;
    XorBitsTwice(8, a, b);
  }

  /** Bit by bit, exclusive or of two bytes. */
  lemma XorByteBit(a: byte, b: byte, k: nat)
    requires k < 8
    ensures Word64.Bit(XorByte(a, b), k) <==> Word64.Bit(a, k) != Word64.Bit(b, k)
  {
    XorBitsBit(8, a, b, k);
  }

  /** XOR with the first bytes of the mask. */
  function XorBytes(s: bytes, mask: bytes): (r: bytes)
    requires |s| <= |mask|
    ensures |r| == |s|
  {
    seq(|s|, k requires 0 <= k < |s| => XorByte(s[k], mask[k]))
  }

  lemma XorBytesTwice(s: bytes, mask: bytes)
    requires |s| <= |mask|
    ensures XorBytes(XorBytes(s, mask), mask) == s
  {
    forall k | 0 <= k < |s| ensures XorBytes(XorBytes(s, mask), mask)[k] == s[k] {
      XorTwice(s[k], mask[k]);
    }
  }

  function MaskOf(tx: TransactionId): (mask: bytes)
    ensures |mask| == 16
  {
    COOKIE_BYTES + tx
  }

  /** net.IP.To4 and To16. */
  function To4(ip: bytes): Option<bytes> {
    if |ip| == 4 then Some(ip)
    else if |ip| == 16 && (forall k | 0 <= k < 10 :: ip[k] == 0) && ip[10] == 0xff && ip[11] == 0xff then Some(ip[12..])
    else None
  }

  /** Which addresses have a four-byte form: those of four bytes, and the IPv4-mapped ones of sixteen. */
  lemma FourByteForm(ip: bytes)
    ensures |ip| == 4 ==> To4(ip) == Some(ip)
    ensures |ip| != 4 ==>
              (To4(ip).Some? <==> |ip| == 16 && ip[..12] == [0, 0, 0, 0, 0, 0, 0, 0, 0, 0, 0xff, 0xff])
    ensures |ip| != 4 && To4(ip).Some? ==> To4(ip).value == ip[12..]
  {
  }

  /** The port keeps sixteen bits and is masked with the upper half of the cookie. */
  function XorPort(port: int): bytes {
    XorBytes(PutUint16(port % TWO_16), COOKIE_BYTES)
  }

  /** turnEncodeXORAddress */
  function EncodeAddress(a: Address, tx: TransactionId): Encoded {
    if a.port <= 0 then Unencodable(InvalidAddress)
    else if To4(a.ip).Some? then Value([0, 1] + XorPort(a.port) + XorBytes(To4(a.ip).value, MaskOf(tx)))
    else if |a.ip| == 16 then Value([0, 2] + XorPort(a.port) + XorBytes(a.ip, MaskOf(tx)))
    else Unencodable(InvalidIP)
  }

  /** turnDecodeXORAddress */
  function DecodeAddress(value: bytes, tx: TransactionId): Decoded {
    if |value| < 8 then Bad(ShortAddress)
    else
      var port := Uint16(XorBytes(value[2..4], COOKIE_BYTES));
      if value[1] == 1 then Found(Address(XorBytes(value[4..8], MaskOf(tx)), port))
      else if value[1] == 2 then
        if |value| < 20 then Bad(ShortIPv6) else Found(Address(XorBytes(value[4..20], MaskOf(tx)), port))
      else Bad(UnknownFamily)
  }

  /** The byte x is the byte a masked with b: bit by bit, they differ from each other where b has a bit. */
  ghost predicate Masked(x: byte, a: byte, b: byte) {
    forall k: nat | k < 8 :: Word64.Bit(x, k) <==> Word64.Bit(a, k) != Word64.Bit(b, k)
  }

  lemma XorByteMasks(a: byte, b: byte)
    ensures Masked(XorByte(a, b), a, b)
  {
    forall k: nat | k < 8 ensures Word64.Bit(XorByte(a, b), k) <==> Word64.Bit(a, k) != Word64.Bit(b, k) {
      XorByteBit(a, b, k);
    }
  }

  /** The IP as it is put on the wire: four bytes when it has a four-byte form. */
  function WireIP(ip: bytes): bytes { if To4(ip).Some? then To4(ip).value else ip }

  /**
   * Main result: what an encoded address consists of. A zero, the family, the two bytes of the port
   * masked with the upper half of the magic cookie, and the IP masked with the cookie followed by
   * the transaction ID.
   */
  lemma EncodedBytes(a: Address, tx: TransactionId)
    requires EncodeAddress(a, tx).Value?
    ensures var v, ip, port := EncodeAddress(a, tx).value, WireIP(a.ip), a.port % TWO_16;
            && |v| == 4 + |ip| && |ip| <= 16 && v[0] == 0 && v[1] == (if |ip| == 4 then 1 else 2)
            && Masked(v[2], port / 256, 0x21) && Masked(v[3], port % 256, 0x12)
            && (forall k | 0 <= k < |ip| ::
                  Masked(v[4 + k], ip[k], if k < 4 then [0x21, 0x12, 0xa4, 0x42][k] else tx[k - 4]))
  {
    hide XorByte;
    var v, ip, port := EncodeAddress(a, tx).value, WireIP(a.ip), a.port % TWO_16;
    assert XorPort(a.port)[0] == XorByte(port / 256, 0x21) && XorPort(a.port)[1] == XorByte(port % 256, 0x12);
    XorByteMasks(port / 256, 0x21);
    XorByteMasks(port % 256, 0x12);
    hide Masked;
    forall k | 0 <= k < |ip| ensures Masked(v[4 + k], ip[k], if k < 4 then [0x21, 0x12, 0xa4, 0x42][k] else tx[k - 4]) {
      assert v[4 + k] == XorBytes(ip, MaskOf(tx))[k] == XorByte(ip[k], MaskOf(tx)[k]);
      XorByteMasks(ip[k], MaskOf(tx)[k]);
    }
  }

  /** What a value is decoded to: the same masks the other way round, or the error of each malformed value. */
  lemma DecodedBytes(v: bytes, tx: TransactionId)
    ensures DecodeAddress(v, tx) == Bad(ShortAddress) <==> |v| < 8
    ensures DecodeAddress(v, tx) == Bad(ShortIPv6) <==> 8 <= |v| < 20 && v[1] == 2
    ensures DecodeAddress(v, tx) == Bad(UnknownFamily) <==> 8 <= |v| && v[1] != 1 && v[1] != 2
    ensures DecodeAddress(v, tx).Found? <==> (8 <= |v| && v[1] == 1) || (20 <= |v| && v[1] == 2)
    ensures DecodeAddress(v, tx).Found? ==>
              var a := DecodeAddress(v, tx).addr;
              && |a.ip| == (if v[1] == 1 then 4 else 16) && 0 <= a.port < TWO_16
              && Masked(a.port / 256, v[2], 0x21) && Masked(a.port % 256, v[3], 0x12)
              && (forall k | 0 <= k < |a.ip| ::
                    Masked(a.ip[k], v[4 + k], if k < 4 then [0x21, 0x12, 0xa4, 0x42][k] else tx[k - 4]))
  {
    hide XorByte;
    if DecodeAddress(v, tx).Found? {
      var a := DecodeAddress(v, tx).addr;
      var p := XorBytes(v[2..4], COOKIE_BYTES);
      assert p[0] == XorByte(v[2], 0x21) && p[1] == XorByte(v[3], 0x12);
      assert a.port / 256 == p[0] && a.port % 256 == p[1];
      XorByteMasks(v[2], 0x21);
      XorByteMasks(v[3], 0x12);
      hide Masked;
      forall k | 0 <= k < |a.ip| ensures Masked(a.ip[k], v[4 + k], if k < 4 then [0x21, 0x12, 0xa4, 0x42][k] else tx[k - 4]) {
        assert a.ip[k] == XorByte(v[4 + k], MaskOf(tx)[k]);
        XorByteMasks(v[4 + k], MaskOf(tx)[k]);
      }
    }
  }

  /** The address as the decoder shows it: an IPv4 address in its short form. */
  function Canonical(a: Address): Address {
    if To4(a.ip).Some? then a.(ip := To4(a.ip).value) else a
  }

  /** Main result: an address is encoded unless its port or IP is invalid, and comes back exactly when its port fits sixteen bits. */
  lemma AddressRoundTrip(a: Address, tx: TransactionId)
    ensures EncodeAddress(a, tx).Value? <==> a.port > 0 && |a.ip| in {4, 16}
    ensures EncodeAddress(a, tx).Value? ==>
              (DecodeAddress(EncodeAddress(a, tx).value, tx) == Found(Canonical(a)) <==> a.port < TWO_16)
  {
    hide XorByte, Pow2, XorBits;
    if a.port > 0 && |a.ip| in {4, 16} {
      var ip, value := Canonical(a).ip, EncodeAddress(a, tx).value;
      var port := PutUint16(a.port % TWO_16);
      XorBytesTwice(port, COOKIE_BYTES);
      XorBytesTwice(ip, MaskOf(tx));
      Uint16RoundTrip(a.port % TWO_16, []);
      assert port + [] == port;
      hide XorBytes, Uint16, PutUint16;
      assert value[2..4] == XorPort(a.port);
      assert value[4..4 + |ip|] == XorBytes(ip, MaskOf(tx));
    }
  }

  /** turnAddressAttribute on a message that carries its transaction ID in the header. */
  function AddressAttribute(message: bytes, wanted: u16): Decoded {
    if !Valid(message) then Bad(BadMessage)
    else
      var value := TurnIntegrity.FirstOfType(Walk(message).visits, wanted);
      if value.Some? then DecodeAddress(value.value, message[8..20])
      else if Walk(message).error.Some? then Bad(BadMessage)
      else Bad(Missing)
  }

  /** What the search for an address answers: the first attribute of the type decides, even before a cut one; else a cut is reported. */
  lemma AddressVerdict(message: bytes, wanted: u16)
    ensures var shown := Attributes(Walk(message).visits); var first := FirstValue(shown, wanted);
            var found := AddressAttribute(message, wanted);
            && (!Valid(message) ==> found == Bad(BadMessage))
            && (Valid(message) && first.Some? ==> found == DecodeAddress(first.value, message[8..20]))
            && (Valid(message) && first.None? ==> found == Bad(if Walk(message).error.Some? then BadMessage else Missing))
  {
    FirstOfTypeIsFirst(Walk(message).visits, wanted);
    hide DecodeAddress, Walk, FirstValue, Attributes;
  }

  /** The first attribute of a type, by its place. */
  lemma {:induction false} FirstValueAt(attrs: seq<Attribute>, typ: u16, k: nat)
    requires k < |attrs| && attrs[k].typ == typ && forall j | 0 <= j < k :: attrs[j].typ != typ
    ensures FirstValue(attrs, typ) == Some(attrs[k].value)
  {
    if k > 0 { FirstValueAt(attrs[1..], typ, k - 1); }
  }

  function FirstValue(attrs: seq<Attribute>, typ: u16): Option<bytes> {
    if attrs == [] then None
    else if attrs[0].typ == typ then Some(attrs[0].value)
    else FirstValue(attrs[1..], typ)
  }

  lemma {:induction false} FirstOfTypeIsFirst(visits: seq<Visit>, typ: u16)
    ensures TurnIntegrity.FirstOfType(visits, typ) == FirstValue(Attributes(visits), typ)
  {
    if visits != [] {
      FirstOfTypeIsFirst(visits[1..], typ);
      assert Attributes(visits)[1..] == Attributes(visits[1..]);
    }
  }

  lemma {:induction false} FirstAfter(before: seq<Attribute>, a: Attribute, rest: seq<Attribute>)
    requires forall k | 0 <= k < |before| :: before[k].typ != a.typ && before[k].typ != ATTR_INTEGRITY
    ensures FirstValue(Visible(before + [a] + rest), a.typ) == Some(a.value)
  {
    var all := before + [a] + rest;
    if before != [] {
      assert all[1..] == before[1..] + [a] + rest;
      FirstAfter(before[1..], a, rest);
    }
  }

  /** Main result: an address put into a message is the address read from it, at any position before a second one of its type. */
  lemma AddressTravels(typ: u16, tx: TransactionId, before: seq<Attribute>, wanted: u16, addr: Address, rest: seq<Attribute>)
    requires 0 < addr.port < TWO_16 && |addr.ip| in {4, 16}
    requires forall k | 0 <= k < |before| :: before[k].typ != wanted && before[k].typ != ATTR_INTEGRITY
    requires HEADER_SIZE + |EncodeAttributes(before + [Attribute(wanted, EncodeAddress(addr, tx).value)] + rest)| <= MAX_PACKET
    ensures AddressAttribute(BuildMessage(typ, tx, before + [Attribute(wanted, EncodeAddress(addr, tx).value)] + rest), wanted)
         == Found(Canonical(addr))
  {
    AddressRoundTrip(addr, tx);
    var a := Attribute(wanted, EncodeAddress(addr, tx).value);
    var attrs := before + [a] + rest;
    var m := BuildMessage(typ, tx, attrs);
    BuildThenWalk(typ, tx, attrs);
    BuiltIsValid(typ, tx, attrs);
    HeaderFields(typ, |EncodeAttributes(attrs)|, tx, EncodeAttributes(attrs));
    FirstAfter(before, a, rest);
    FirstOfTypeIsFirst(Walk(m).visits, wanted);
    hide EncodeAddress, DecodeAddress, Walk, Valid, EncodeAttributes, Visible, FirstValue, Header;
    assert m[8..20] == tx;
  }
}
