/** STUN/TURN messages: type bits, padded attributes and MESSAGE-INTEGRITY. */
module TurnCodec {
  import opened Basics

  const MAGIC_COOKIE: u32 := 0x2112a442
  const HEADER_SIZE := 20
  const MAX_PACKET := 65536
  const INTEGRITY_SIZE := 20

  const ATTR_USERNAME: u16 := 0x0006
  const ATTR_INTEGRITY: u16 := 0x0008
  const ATTR_ERROR_CODE: u16 := 0x0009
  const ATTR_LIFETIME: u16 := 0x000d
  const ATTR_REALM: u16 := 0x0014
  const ATTR_NONCE: u16 := 0x0015

  // ----- message type -----

  /** The method bits are split around the two class bits. */
  function TypeOf(verb: bv16, kind: bv16): bv16 {
    (verb & 0x000f) | ((verb & 0x0070) << 1) | ((verb & 0x0f80) << 2) | ((kind & 1) << 4) | ((kind & 2) << 7)
  }

  function DecodeType(typ: bv16): (bv16, bv16) {
    ((typ & 0x000f) | ((typ >> 1) & 0x0070) | ((typ >> 2) & 0x0f80), ((typ >> 4) & 1) | ((typ >> 7) & 2))
  }

  /** Exactly methods of 12 bits and classes of 2 bits survive; the code is onto the types with two leading zero bits. */
  lemma TypeRoundTrip(verb: bv16, kind: bv16, typ: bv16)
    ensures DecodeType(TypeOf(verb, kind)) == (verb, kind) <==> verb < 4096 && kind < 4
    ensures typ < 0x4000 <==> TypeOf(DecodeType(typ).0, DecodeType(typ).1) == typ
  {
  }

  /** Where each bit stands: four method bits, a class bit, three method bits, the other class bit, five method bits. */
  lemma TypeBits(verb: bv16, kind: bv16)
    ensures TypeOf(verb, kind) & 0x000f == verb & 0x000f
    ensures (TypeOf(verb, kind) >> 4) & 1 == kind & 1
    ensures (TypeOf(verb, kind) >> 5) & 7 == (verb >> 4) & 7
    ensures (TypeOf(verb, kind) >> 8) & 1 == (kind >> 1) & 1
    ensures (TypeOf(verb, kind) >> 9) & 31 == (verb >> 7) & 31
    ensures TypeOf(verb, kind) >> 14 == 0
    ensures TypeOf(1, 0) == 0x0001 && TypeOf(3, 2) == 0x0103 && TypeOf(8, 3) == 0x0118 && TypeOf(9, 1) == 0x0019
  {
  }

  // ----- attributes -----

  datatype Attribute = Attribute(typ: u16, value: bytes)

  function Padding(n: nat): (p: nat)
    ensures p < 4
  {
    (4 - n % 4) % 4
  }

  lemma PaddingAligns(n: nat)
    ensures (n + Padding(n)) % 4 == 0
  {
  }

  /** (n + 3) &^ 3 */
  function RoundUp4(n: nat): (r: nat)
    ensures n <= r < n + 4
  {
    (n + 3) / 4 * 4
  }

  lemma RoundUp4Aligned(n: nat)
    ensures RoundUp4(n) % 4 == 0
  {
  }

  lemma PaddingRoundsUp(n: nat)
    ensures n + Padding(n) == RoundUp4(n)
  {
  }

  function Zeros(n: nat): (b: bytes)
    ensures |b| == n
  {
    seq(n, _ => 0)
  }

  /** turnAppendAttribute: header, value, zero padding; the length field keeps sixteen bits. */
  function EncodeAttribute(a: Attribute): (b: bytes)
    ensures |b| == 4 + |a.value| + Padding(|a.value|)
  {
    PutUint16(a.typ) + PutUint16(|a.value| % TWO_16) + a.value + Zeros(Padding(|a.value|))
  }

  function EncodeAttributes(attrs: seq<Attribute>): bytes {
    if attrs == [] then [] else EncodeAttribute(attrs[0]) + EncodeAttributes(attrs[1..])
  }

  lemma AttributeAligned(a: Attribute)
    ensures |EncodeAttribute(a)| % 4 == 0
  {
    PaddingAligns(|a.value|);
  }

  lemma SumAligned(a: nat, b: nat)
    requires a % 4 == 0 && b % 4 == 0
    ensures (a + b) % 4 == 0
  {
  }

  lemma {:induction false} EncodedAligned(attrs: seq<Attribute>)
    ensures |EncodeAttributes(attrs)| % 4 == 0
  {
    if attrs != [] {
      EncodedAligned(attrs[1..]);
      AttributeAligned(attrs[0]);
      hide EncodeAttribute;
      SumAligned(|EncodeAttribute(attrs[0])|, |EncodeAttributes(attrs[1..])|);
    }
  }

  lemma {:induction false} EncodeAttributesAppend(a: seq<Attribute>, b: seq<Attribute>)
    ensures EncodeAttributes(a + b) == EncodeAttributes(a) + EncodeAttributes(b)
  {
    if a == [] {
      assert a + b == b;
    } else {
      assert (a + b)[1..] == a[1..] + b;
      EncodeAttributesAppend(a[1..], b);
    }
  }

  /** An encoded attribute byte by byte: type and length big-endian, the value, and zeros up to a multiple of four. */
  lemma AttributeBytes(a: Attribute)
    ensures var e, n := EncodeAttribute(a), |a.value|;
            && |e| % 4 == 0 && 4 + n <= |e| < 8 + n
            && e[0] as int * 256 + e[1] == a.typ && e[2] as int * 256 + e[3] == n % TWO_16
            && e[4..4 + n] == a.value && forall k | 4 + n <= k < |e| :: e[k] == 0
  {
    PaddingAligns(|a.value|);
    var e, n := EncodeAttribute(a), |a.value|;
    assert e[..2] == PutUint16(a.typ) && e[2..4] == PutUint16(n % TWO_16);
    assert e[0] == PutUint16(a.typ)[0] && e[1] == PutUint16(a.typ)[1];
    assert e[2] == PutUint16(n % TWO_16)[0] && e[3] == PutUint16(n % TWO_16)[1];
  }

  type TransactionId = tx: bytes | |tx| == 12 witness [0, 0, 0, 0, 0, 0, 0, 0, 0, 0, 0, 0]

  function Header(typ: u16, length: int, tx: TransactionId): (b: bytes)
    ensures |b| == HEADER_SIZE
  {
    PutUint16(typ) + PutUint16(length % TWO_16) + PutUint32(MAGIC_COOKIE) + tx
  }

  /** Overwrite the length field, as PutUint16 on bytes two and three. */
  function SetLength(message: bytes, length: int): (b: bytes)
    requires |message| >= 4
    ensures |b| == |message|
  {
    message[..2] + PutUint16(length % TWO_16) + message[4..]
  }

  /** turnMessage. */
  function BuildMessage(typ: u16, tx: TransactionId, attrs: seq<Attribute>): (b: bytes)
    ensures |b| == HEADER_SIZE + |EncodeAttributes(attrs)|
  {
    Header(typ, |EncodeAttributes(attrs)|, tx) + EncodeAttributes(attrs)
  }

  // ----- validation and the attribute walk -----

  /** turnValidateMessage. */
  predicate Valid(message: bytes) {
    && HEADER_SIZE <= |message| <= MAX_PACKET
    && Uint32(message[4..8]) == MAGIC_COOKIE
    && Uint16(message[2..4]) % 4 == 0
    && Uint16(message[2..4]) == |message| - HEADER_SIZE
  }

  /** A built message byte by byte: type, length of what follows the header, cookie and transaction ID. */
  lemma BuiltBytes(typ: u16, tx: TransactionId, attrs: seq<Attribute>)
    ensures var m := BuildMessage(typ, tx, attrs);
            && m[0] as int * 256 + m[1] == typ && m[2] as int * 256 + m[3] == (|m| - HEADER_SIZE) % TWO_16
            && m[4..8] == [0x21, 0x12, 0xa4, 0x42] && m[8..20] == tx && m[20..] == EncodeAttributes(attrs)
  {
    hide EncodeAttributes;
    var m, body := BuildMessage(typ, tx, attrs), EncodeAttributes(attrs);
    BigEndian(MAGIC_COOKIE, PutUint32(MAGIC_COOKIE));
    assert PutUint32(MAGIC_COOKIE) == [0x21, 0x12, 0xa4, 0x42];
    assert m[..2] == PutUint16(typ) && m[2..4] == PutUint16(|body| % TWO_16);
    assert m[4..8] == PutUint32(MAGIC_COOKIE);
    assert m[0] == PutUint16(typ)[0] && m[1] == PutUint16(typ)[1];
    assert m[2] == PutUint16(|body| % TWO_16)[0] && m[3] == PutUint16(|body| % TWO_16)[1];
  }

  /** Which messages are valid, byte by byte. */
  lemma ValidBytes(m: bytes)
    ensures Valid(m) <==>
              && 20 <= |m| <= 65536 && m[4..8] == [0x21, 0x12, 0xa4, 0x42]
              && m[2] as int * 256 + m[3] == |m| - 20 && |m| % 4 == 0
  {
    if 20 <= |m| <= 65536 {
      BigEndian(0, m[4..8]);
      BigEndian(0, m[2..4] + m[2..4]);
      assert Uint16(m[2..4]) == m[2] as int * 256 + m[3];
      assert m[4..8] == [m[4], m[5], m[6], m[7]];
      assert Uint32(m[4..8]) == m[4] as int * 0x100_0000 + m[5] as int * TWO_16 + m[6] as int * 256 + m[7];
      hide Uint16, Uint32;
    }
  }

  datatype Visit = Visit(attr: Attribute, off: nat)
  datatype WalkError = InvalidMessage | TruncatedHeader | TruncatedAttribute
  datatype Walked = Walked(visits: seq<Visit>, error: Option<WalkError>)

  /** One attribute and the offset of the next, or what stops the walk. */
  datatype Turn = Cut(error: WalkError) | Seen(visit: Visit, next: nat)

  function TurnAt(message: bytes, off: nat): (t: Turn)
    requires off < |message|
    ensures t.Seen? ==> off < t.next <= |message| + 3 && t.visit.off == off
  {
    if off + 4 > |message| then Cut(TruncatedHeader)
    else
      var typ := Uint16(message[off..off + 2]);
      var length := Uint16(message[off + 2..off + 4]);
      if off + 4 + length > |message| then Cut(TruncatedAttribute)
      else Seen(Visit(Attribute(typ, message[off + 4..off + 4 + length]), off), off + 4 + RoundUp4(length))
  }

  function Prepend(visit: Visit, rest: Walked): Walked {
    Walked([visit] + rest.visits, rest.error)
  }

  /** turnAttributes from one offset, with a visitor that never stops. */
  function WalkFrom(message: bytes, off: nat): Walked
    requires off <= |message| + 3
    decreases |message| + 3 - off
  {
    if off >= |message| then Walked([], None)
    else
      match TurnAt(message, off)
      case Cut(error) => Walked([], Some(error))
      case Seen(visit, next) =>
        if visit.attr.typ == ATTR_INTEGRITY then Walked([visit], None) else Prepend(visit, WalkFrom(message, next))
  }

  function Walk(message: bytes): Walked {
    if !Valid(message) then Walked([], Some(InvalidMessage)) else WalkFrom(message, HEADER_SIZE)
  }

  /** The attributes a reader sees: everything up to the first MESSAGE-INTEGRITY. */
  function Visible(attrs: seq<Attribute>): seq<Attribute> {
    if attrs == [] then []
    else if attrs[0].typ == ATTR_INTEGRITY then [attrs[0]]
    else [attrs[0]] + Visible(attrs[1..])
  }

  function Attributes(visits: seq<Visit>): seq<Attribute> {
    seq(|visits|, k requires 0 <= k < |visits| => visits[k].attr)
  }

  lemma AttributesPrepend(visit: Visit, rest: Walked)
    ensures Attributes(Prepend(visit, rest).visits) == [visit.attr] + Attributes(rest.visits)
  {
  }

  /** One encoded attribute at an offset is read back exactly. */
  lemma TurnOne(message: bytes, off: nat, a: Attribute, tail: bytes)
    requires off <= |message| && message[off..] == EncodeAttribute(a) + tail
    requires |a.value| < TWO_16
    ensures off < |message| && TurnAt(message, off) == Seen(Visit(a, off), off + |EncodeAttribute(a)|)
  {
    var e := EncodeAttribute(a);
    var m, n := message[off..], |a.value|;
    assert message[off..off + 2] == m[..2] == e[..2] == PutUint16(a.typ) + [];
    assert message[off + 2..off + 4] == m[2..4] == e[2..4] == PutUint16(n) + [];
    assert m[4..4 + n] == e[4..4 + n] == a.value;
    assert message[off + 4..off + 4 + n] == m[4..4 + n];
    Uint16RoundTrip(a.typ, []);
    Uint16RoundTrip(|a.value|, []);
    PaddingRoundsUp(|a.value|);
  }

  lemma WalkOne(message: bytes, off: nat, a: Attribute, tail: bytes)
    requires off <= |message| && message[off..] == EncodeAttribute(a) + tail
    requires |a.value| < TWO_16
    ensures WalkFrom(message, off) ==
            if a.typ == ATTR_INTEGRITY then Walked([Visit(a, off)], None)
            else Prepend(Visit(a, off), WalkFrom(message, off + |EncodeAttribute(a)|))
  {
    TurnOne(message, off, a, tail);
    hide TurnAt, EncodeAttribute;
  }

  lemma {:induction false} WalkEncoded(message: bytes, off: nat, attrs: seq<Attribute>)
    requires off <= |message| && message[off..] == EncodeAttributes(attrs)
    requires forall a | a in attrs :: |a.value| < TWO_16
    ensures WalkFrom(message, off).error == None
    ensures Attributes(WalkFrom(message, off).visits) == Visible(attrs)
    decreases |attrs|
  {
    if attrs == [] {
      hide TurnAt;
    } else {
      var e, tail := EncodeAttribute(attrs[0]), EncodeAttributes(attrs[1..]);
      assert EncodeAttributes(attrs) == e + tail;
      hide EncodeAttributes, EncodeAttribute, WalkFrom, Attributes;
      WalkOne(message, off, attrs[0], tail);
      if attrs[0].typ == ATTR_INTEGRITY {
        OneAttribute(Visit(attrs[0], off));
      } else {
        Suffix(message, off, e, tail);
        WalkEncoded(message, off + |e|, attrs[1..]);
        AttributesPrepend(Visit(attrs[0], off), WalkFrom(message, off + |e|));
      }
    }
  }

  lemma Suffix(message: bytes, off: nat, e: bytes, tail: bytes)
    requires off <= |message| && message[off..] == e + tail
    ensures off + |e| <= |message| && message[off + |e|..] == tail
  {
    assert |message| == off + |e| + |tail|;
    assert message[off + |e|..] == message[off..][|e|..];
  }

  lemma OneAttribute(visit: Visit)
    ensures Attributes([visit]) == [visit.attr]
  {
  }

  lemma {:induction false} ValuesFit(attrs: seq<Attribute>)
    ensures forall a | a in attrs :: 4 + |a.value| <= |EncodeAttributes(attrs)|
  {
    if attrs != [] { ValuesFit(attrs[1..]); }
  }

  lemma HeaderFields(typ: u16, length: int, tx: TransactionId, body: bytes)
    ensures var m := Header(typ, length, tx) + body;
            Uint16(m[2..4]) == length % TWO_16 && Uint32(m[4..8]) == MAGIC_COOKIE && Uint16(m[..2]) == typ && m[8..20] == tx
  {
    var m := Header(typ, length, tx) + body;
    assert m[..2] == PutUint16(typ) + [];
    assert m[2..4] == PutUint16(length % TWO_16) + [];
    assert m[4..8] == PutUint32(MAGIC_COOKIE) + [];
    assert m[8..20] == tx;
    Uint16RoundTrip(typ, []);
    Uint16RoundTrip(length % TWO_16, []);
    Uint32RoundTrip(MAGIC_COOKIE, []);
  }

  lemma BuiltIsValid(typ: u16, tx: TransactionId, attrs: seq<Attribute>)
    ensures Valid(BuildMessage(typ, tx, attrs)) <==> HEADER_SIZE + |EncodeAttributes(attrs)| <= MAX_PACKET
  {
    EncodedAligned(attrs);
    hide EncodeAttributes;
    HeaderFields(typ, |EncodeAttributes(attrs)|, tx, EncodeAttributes(attrs));
  }

  /** Main result: a built message is walked back to exactly the attributes put in, iff it fits one packet. */
  lemma BuildThenWalk(typ: u16, tx: TransactionId, attrs: seq<Attribute>)
    ensures var walked := Walk(BuildMessage(typ, tx, attrs));
            (walked.error == None && Attributes(walked.visits) == Visible(attrs))
            <==> HEADER_SIZE + |EncodeAttributes(attrs)| <= MAX_PACKET
  {
    hide Valid;
    BuiltIsValid(typ, tx, attrs);
    var m := BuildMessage(typ, tx, attrs);
    if Valid(m) {
      ValuesFit(attrs);
      assert m[HEADER_SIZE..] == EncodeAttributes(attrs);
      WalkEncoded(m, HEADER_SIZE, attrs);
    }
  }

  // ----- any input -----

  lemma TurnAligned(message: bytes, off: nat)
    requires off < |message| && |message| % 4 == 0 && off % 4 == 0
    ensures var t := TurnAt(message, off);
            && (t.Cut? ==> t.error == TruncatedAttribute)
            && (t.Seen? ==> t.next % 4 == 0 && t.next <= |message| && off + 4 + |t.visit.attr.value| <= |message|)
  {
    if TurnAt(message, off).Seen? {
      RoundUp4Aligned(|TurnAt(message, off).visit.attr.value|);
    }
  }

  /** On every input the walk ends, at offsets that are multiples of four inside the message, and never on a cut header. */
  lemma {:induction false} WalkStaysAligned(message: bytes, off: nat)
    requires off <= |message| && |message| % 4 == 0 && off % 4 == 0
    ensures var walked := WalkFrom(message, off);
            && walked.error != Some(TruncatedHeader)
            && (forall v | v in walked.visits :: v.off % 4 == 0 && off <= v.off && v.off + 4 + |v.attr.value| <= |message|)
            && (forall k | 0 <= k < |walked.visits| - 1 :: walked.visits[k].attr.typ != ATTR_INTEGRITY)
    decreases |message| - off
  {
    hide TurnAt;
    if off < |message| {
      TurnAligned(message, off);
      var t := TurnAt(message, off);
      if t.Seen? && t.visit.attr.typ != ATTR_INTEGRITY {
        WalkStaysAligned(message, t.next);
      }
    }
  }

  /** The attribute at an offset, read byte by byte. */
  ghost predicate Stands(message: bytes, v: Visit) {
    && v.off + 4 + |v.attr.value| <= |message|
    && v.attr.typ == message[v.off] as int * 256 + message[v.off + 1]
    && |v.attr.value| == message[v.off + 2] as int * 256 + message[v.off + 3]
    && v.attr.value == message[v.off + 4..v.off + 4 + |v.attr.value|]
  }

  /** Where the next attribute would start. */
  function After(v: Visit): nat { v.off + 4 + RoundUp4(|v.attr.value|) }

  /** Where a walk from `off` stopped looking. */
  function End(off: nat, visits: seq<Visit>): nat {
    if visits == [] then off else After(visits[|visits| - 1])
  }

  ghost predicate Consecutive(off: nat, visits: seq<Visit>) {
    && (visits != [] ==> visits[0].off == off)
    && (forall k | 0 <= k < |visits| - 1 :: visits[k + 1].off == After(visits[k]))
  }

  predicate AtIntegrity(visits: seq<Visit>) {
    visits != [] && visits[|visits| - 1].attr.typ == ATTR_INTEGRITY
  }

  lemma TurnStands(message: bytes, off: nat)
    requires off < |message|
    ensures var t := TurnAt(message, off);
            && (t.Seen? ==> Stands(message, t.visit) && t.visit.off == off && t.next == After(t.visit))
            && (t == Cut(TruncatedHeader) <==> off + 4 > |message|)
            && (t == Cut(TruncatedAttribute) <==>
                  off + 4 <= |message| && off + 4 + (message[off + 2] as int * 256 + message[off + 3]) > |message|)
            && (t.Cut? ==> t.error == TruncatedHeader || t.error == TruncatedAttribute)
  {
    if off + 4 <= |message| {
      assert Uint16(message[off..off + 2]) == message[off] as int * 256 + message[off + 1];
      assert Uint16(message[off + 2..off + 4]) == message[off + 2] as int * 256 + message[off + 3];
    }
  }

  /**
   * What a walk is, on any bytes: consecutive attributes as they stand in the message, up to the
   * first MESSAGE-INTEGRITY, or the end of the message, or the attribute that is cut, which is
   * reported.
   */
  lemma {:induction false} WalkExactly(message: bytes, off: nat)
    requires off <= |message| + 3
    ensures var walked := WalkFrom(message, off);
            var end := End(off, walked.visits);
            && (forall v | v in walked.visits :: Stands(message, v))
            && Consecutive(off, walked.visits)
            && (walked.error.None? ==> AtIntegrity(walked.visits) || end >= |message|)
            && (walked.error == Some(TruncatedHeader) ==> end < |message| < end + 4)
            && (walked.error == Some(TruncatedAttribute) ==>
                  end + 4 <= |message| < end + 4 + (message[end + 2] as int * 256 + message[end + 3]))
            && (walked.error.Some? ==> walked.error.value != InvalidMessage && !AtIntegrity(walked.visits))
    decreases |message| + 3 - off
  {
    hide TurnAt, RoundUp4, Stands;
    if off < |message| {
      TurnStands(message, off);
      var t := TurnAt(message, off);
      if t.Seen? && t.visit.attr.typ != ATTR_INTEGRITY {
        WalkExactly(message, t.next);
        var rest := WalkFrom(message, t.next);
        assert WalkFrom(message, off) == Prepend(t.visit, rest);
        assert End(off, [t.visit] + rest.visits) == End(t.next, rest.visits);
      }
    }
  }

  lemma TruncatedHeaderUnreachable(message: bytes)
    ensures Walk(message).error != Some(TruncatedHeader)
    ensures forall v | v in Walk(message).visits :: v.off % 4 == 0 && HEADER_SIZE <= v.off <= |message| - 4 - |v.attr.value|
    ensures forall k | 0 <= k < |Walk(message).visits| - 1 :: Walk(message).visits[k].attr.typ != ATTR_INTEGRITY
  {
    if Valid(message) { WalkStaysAligned(message, HEADER_SIZE); }
  }

  /** What the visitor saw so far, followed by the rest of the walk. */
  function Joined(visits: seq<Visit>, rest: Walked): Walked {
    Walked(visits + rest.visits, rest.error)
  }

  lemma JoinedStep(visits: seq<Visit>, visit: Visit, rest: Walked)
    ensures Joined(visits, Prepend(visit, rest)) == Joined(visits + [visit], rest)
    ensures Joined(visits, Walked([visit], None)) == Walked(visits + [visit], None)
  {
    assert visits + ([visit] + rest.visits) == (visits + [visit]) + rest.visits;
  }

  lemma JoinedDone(visits: seq<Visit>, rest: Walked)
    ensures rest.visits == [] ==> Joined(visits, rest) == Walked(visits, rest.error)
    ensures visits == [] ==> Joined(visits, rest) == rest
  {
  }

  /** turnAttributes as written: a loop over offsets, collecting what the visitor is shown. */
  method TurnAttributes(message: bytes) returns (visits: seq<Visit>, error: Option<WalkError>)
    ensures Walked(visits, error) == Walk(message)
  {
    visits, error := [], None;
    if !Valid(message) {
      return visits, Some(InvalidMessage);
    }
    var off := HEADER_SIZE;
    assert Walk(message) == WalkFrom(message, HEADER_SIZE);
    JoinedDone([], WalkFrom(message, HEADER_SIZE));
    hide Valid, Walk, TurnAt, Joined, Prepend;
    while off < |message|
      invariant off <= |message| + 3
      invariant Walk(message) == Joined(visits, WalkFrom(message, off))
      decreases |message| + 3 - off
    {
      JoinedDone(visits, WalkFrom(message, off));
      match TurnAt(message, off) {
        case Cut(reason) =>
          return visits, Some(reason);
        case Seen(visit, next) =>
          JoinedStep(visits, visit, WalkFrom(message, next));
          visits, off := visits + [visit], next;
          if visit.attr.typ == ATTR_INTEGRITY {
            return;
          }
      }
    }
    JoinedDone(visits, WalkFrom(message, off));
  }
}
