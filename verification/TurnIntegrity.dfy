/** MESSAGE-INTEGRITY over built, extended and competing messages, with HMAC-SHA1 as a parameter. */
module TurnIntegrity {
  import opened Basics
  import opened TurnCodec

  type Mac = (bytes, bytes) -> bytes

  ghost predicate TwentyBytes(hmac: Mac) {
    forall key, data :: |hmac(key, data)| == INTEGRITY_SIZE
  }

  function Credentials(username: bytes, realm: bytes, nonce: bytes): seq<Attribute> {
    [Attribute(ATTR_USERNAME, username), Attribute(ATTR_REALM, realm), Attribute(ATTR_NONCE, nonce)]
  }

  /** Username, realm and nonce follow the request's own attributes in this order, under their own types. */
  lemma CredentialsInOrder(attrs: seq<Attribute>, username: bytes, realm: bytes, nonce: bytes)
    ensures var all, n := attrs + Credentials(username, realm, nonce), |attrs|;
            && |all| == n + 3 && all[..n] == attrs
            && all[n] == Attribute(0x0006, username) && all[n + 1] == Attribute(0x0014, realm) && all[n + 2] == Attribute(0x0015, nonce)
  {
  }

  /** turnAuthenticatedMessage; the MAC covers the message with the length the finished one will have. */
  function BuildAuthenticated(hmac: Mac, typ: u16, tx: TransactionId, attrs: seq<Attribute>,
                              username: bytes, realm: bytes, nonce: bytes, key: bytes): bytes {
    var all := attrs + Credentials(username, realm, nonce);
    var b := BuildMessage(typ, tx, all);
    var patched := SetLength(b, |b| - HEADER_SIZE + 24);
    patched + EncodeAttribute(Attribute(ATTR_INTEGRITY, hmac(key, patched)))
  }

  /** turnVerifyIntegrity: the first MESSAGE-INTEGRITY of the right size is checked. */
  predicate Verify(hmac: Mac, message: bytes, key: bytes) {
    var visits := Walk(message).visits;
    |visits| > 0 &&
    var last := visits[|visits| - 1];
    && last.attr.typ == ATTR_INTEGRITY && |last.attr.value| == INTEGRITY_SIZE
    && last.off <= |message|
    && last.off >= 4
    && last.attr.value == hmac(key, Covered(message, last.off))
  }

  /** The bytes before an offset with the length field the message had when it was signed. */
  function Covered(message: bytes, off: nat): bytes
    requires 4 <= off <= |message|
  {
    SetLength(message[..off], off + 24 - HEADER_SIZE)
  }

  // ----- a built message verifies -----

  lemma {:induction false} VisibleWithoutIntegrity(attrs: seq<Attribute>, mac: Attribute)
    requires forall a | a in attrs :: a.typ != ATTR_INTEGRITY
    requires mac.typ == ATTR_INTEGRITY
    ensures Visible(attrs + [mac]) == attrs + [mac]
  {
    if attrs != [] {
      assert (attrs + [mac])[1..] == attrs[1..] + [mac];
      VisibleWithoutIntegrity(attrs[1..], mac);
    }
  }

  /** A walk that shows exactly `attrs` and then, at offset `last`, the integrity attribute. */
  ghost predicate Shows(walked: Walked, attrs: seq<Attribute>, mac: Attribute, last: nat) {
    && walked.error == None
    && |walked.visits| == |attrs| + 1
    && walked.visits[|attrs|] == Visit(mac, last)
    && Attributes(walked.visits) == attrs + [mac]
  }

  lemma ShowsOne(mac: Attribute, off: nat)
    ensures Shows(Walked([Visit(mac, off)], None), [], mac, off)
  {
    OneAttribute(Visit(mac, off));
  }

  lemma ShowsMore(visit: Visit, rest: Walked, attrs: seq<Attribute>, mac: Attribute, last: nat)
    requires attrs != [] && visit.attr == attrs[0] && Shows(rest, attrs[1..], mac, last)
    ensures Shows(Prepend(visit, rest), attrs, mac, last)
  {
    PrependAttributes(visit, rest, attrs, mac);
  }

  lemma EncodeHead(attrs: seq<Attribute>, e: bytes)
    requires attrs != []
    ensures EncodeAttributes(attrs) + e == EncodeAttribute(attrs[0]) + (EncodeAttributes(attrs[1..]) + e)
    ensures |EncodeAttributes(attrs)| == |EncodeAttribute(attrs[0])| + |EncodeAttributes(attrs[1..])|
  {
    hide EncodeAttribute;
  }

  /** Attributes that fit their length field and do not end a walk. */
  ghost predicate Plain(attrs: seq<Attribute>) {
    forall k | 0 <= k < |attrs| :: attrs[k].typ != ATTR_INTEGRITY && |attrs[k].value| < TWO_16
  }

  lemma PlainTail(attrs: seq<Attribute>)
    requires Plain(attrs) && attrs != []
    ensures attrs[0].typ != ATTR_INTEGRITY && |attrs[0].value| < TWO_16 && Plain(attrs[1..])
  {
  }

  /** The walk of an encoded list ends at the offset of its last attribute. */
  lemma {:induction false} LastVisit(message: bytes, off: nat, attrs: seq<Attribute>, mac: Attribute)
    requires off <= |message|
    requires message[off..] == EncodeAttributes(attrs) + EncodeAttribute(mac)
    requires Plain(attrs) && mac.typ == ATTR_INTEGRITY && |mac.value| < TWO_16
    ensures Shows(WalkFrom(message, off), attrs, mac, off + |EncodeAttributes(attrs)|)
    decreases |attrs|
  {
    hide WalkFrom, EncodeAttribute, EncodeAttributes, Shows, Prepend;
    if attrs == [] {
      LastIsFirst(message, off, mac);
    } else {
      var rest := attrs[1..];
      PlainTail(attrs);
      hide Plain;
      EncodeHead(attrs, EncodeAttribute(mac));
      FirstThenRest(message, off, attrs[0], EncodeAttributes(rest) + EncodeAttribute(mac));
      var next := off + |EncodeAttribute(attrs[0])|;
      LastVisit(message, next, rest, mac);
      ShowsMore(Visit(attrs[0], off), WalkFrom(message, next), attrs, mac, next + |EncodeAttributes(rest)|);
    }
  }

  lemma LastIsFirst(message: bytes, off: nat, mac: Attribute)
    requires off <= |message| && message[off..] == EncodeAttributes([]) + EncodeAttribute(mac)
    requires mac.typ == ATTR_INTEGRITY && |mac.value| < TWO_16
    ensures Shows(WalkFrom(message, off), [], mac, off + |EncodeAttributes([])|)
  {
    assert message[off..] == EncodeAttribute(mac) + [];
    hide WalkFrom, EncodeAttribute;
    WalkOne(message, off, mac, []);
    ShowsOne(mac, off);
  }

  lemma FirstThenRest(message: bytes, off: nat, a: Attribute, tail: bytes)
    requires off <= |message| && message[off..] == EncodeAttribute(a) + tail
    requires a.typ != ATTR_INTEGRITY && |a.value| < TWO_16
    ensures off + |EncodeAttribute(a)| <= |message| && message[off + |EncodeAttribute(a)|..] == tail
    ensures WalkFrom(message, off) == Prepend(Visit(a, off), WalkFrom(message, off + |EncodeAttribute(a)|))
  {
    hide WalkFrom, EncodeAttribute;
    WalkOne(message, off, a, tail);
    Suffix(message, off, EncodeAttribute(a), tail);
  }

  lemma PrependAttributes(visit: Visit, rest: Walked, attrs: seq<Attribute>, mac: Attribute)
    requires attrs != [] && visit.attr == attrs[0]
    requires Attributes(rest.visits) == attrs[1..] + [mac]
    ensures Attributes(Prepend(visit, rest).visits) == attrs + [mac]
    ensures |Prepend(visit, rest).visits| == |attrs| + 1
    ensures Prepend(visit, rest).visits[|attrs|] == rest.visits[|attrs| - 1]
  {
    assert |rest.visits| == |Attributes(rest.visits)| == |attrs|;
    assert Attributes(Prepend(visit, rest).visits) == [attrs[0]] + Attributes(rest.visits);
  }

  lemma AuthenticatedShape(hmac: Mac, typ: u16, tx: TransactionId, attrs: seq<Attribute>,
                           username: bytes, realm: bytes, nonce: bytes, key: bytes)
    requires TwentyBytes(hmac)
    ensures var all := attrs + Credentials(username, realm, nonce);
            var m := BuildAuthenticated(hmac, typ, tx, attrs, username, realm, nonce, key);
            var mac := Attribute(ATTR_INTEGRITY, hmac(key, SetLength(BuildMessage(typ, tx, all), |EncodeAttributes(all)| + 24)));
            && |m| == HEADER_SIZE + |EncodeAttributes(all)| + 24
            && m == Header(typ, |EncodeAttributes(all)| + 24, tx) + (EncodeAttributes(all) + EncodeAttribute(mac))
  {
    var all := attrs + Credentials(username, realm, nonce);
    var b := BuildMessage(typ, tx, all);
    var patched := SetLength(b, |b| - HEADER_SIZE + 24);
    assert |hmac(key, patched)| == INTEGRITY_SIZE;
    assert patched == Header(typ, |EncodeAttributes(all)| + 24, tx) + EncodeAttributes(all);
  }

  /**
   * Main result: a message built with credentials verifies under its key, and shows its reader
   * exactly the attributes signed, iff it fits one packet.
   */
  lemma AuthenticatedVerifies(hmac: Mac, typ: u16, tx: TransactionId, attrs: seq<Attribute>,
                              username: bytes, realm: bytes, nonce: bytes, key: bytes)
    requires TwentyBytes(hmac)
    requires forall a | a in attrs :: a.typ != ATTR_INTEGRITY
    ensures var all := attrs + Credentials(username, realm, nonce);
            var m := BuildAuthenticated(hmac, typ, tx, attrs, username, realm, nonce, key);
            && (Verify(hmac, m, key) <==> HEADER_SIZE + |EncodeAttributes(all)| + 24 <= MAX_PACKET)
            && (Verify(hmac, m, key) ==>
                  |Walk(m).visits| == |all| + 1 && Attributes(Walk(m).visits)[..|all|] == all)
  {
    var all := attrs + Credentials(username, realm, nonce);
    var body := EncodeAttributes(all);
    var m := BuildAuthenticated(hmac, typ, tx, attrs, username, realm, nonce, key);
    var mac := Attribute(ATTR_INTEGRITY, hmac(key, SetLength(BuildMessage(typ, tx, all), |body| + 24)));
    AuthenticatedShape(hmac, typ, tx, attrs, username, realm, nonce, key);
    SignedIsValid(typ, tx, all, mac, m);
    hide WalkFrom, Valid, Header, SetLength, EncodeAttributes, EncodeAttribute, BuildAuthenticated;
    if HEADER_SIZE + |body| + 24 <= MAX_PACKET {
      SignedWalk(typ, tx, all, mac, m);
    }
  }

  lemma SignedIsValid(typ: u16, tx: TransactionId, all: seq<Attribute>, mac: Attribute, m: bytes)
    requires |mac.value| == INTEGRITY_SIZE
    requires m == Header(typ, |EncodeAttributes(all)| + 24, tx) + (EncodeAttributes(all) + EncodeAttribute(mac))
    ensures Valid(m) <==> HEADER_SIZE + |EncodeAttributes(all)| + 24 <= MAX_PACKET
    ensures |m| == HEADER_SIZE + |EncodeAttributes(all)| + 24
  {
    var length := |EncodeAttributes(all)| + 24;
    EncodedAligned(all);
    HeaderFields(typ, length, tx, EncodeAttributes(all) + EncodeAttribute(mac));
    hide Header, EncodeAttributes, EncodeAttribute, Uint16, Uint32;
    assert |m| == HEADER_SIZE + length && length % 4 == 0;
    if HEADER_SIZE + length <= MAX_PACKET {
      assert length % TWO_16 == length;
    }
  }

  lemma SignedWalk(typ: u16, tx: TransactionId, all: seq<Attribute>, mac: Attribute, m: bytes)
    requires forall a | a in all :: a.typ != ATTR_INTEGRITY
    requires mac.typ == ATTR_INTEGRITY && |mac.value| == INTEGRITY_SIZE
    requires m == Header(typ, |EncodeAttributes(all)| + 24, tx) + (EncodeAttributes(all) + EncodeAttribute(mac))
    requires |m| <= MAX_PACKET
    ensures var walked := WalkFrom(m, HEADER_SIZE);
            var off := HEADER_SIZE + |EncodeAttributes(all)|;
            && |walked.visits| == |all| + 1
            && walked.visits[|all|] == Visit(mac, off)
            && Attributes(walked.visits)[..|all|] == all
            && Covered(m, off) == SetLength(BuildMessage(typ, tx, all), |EncodeAttributes(all)| + 24)
  {
    var body := EncodeAttributes(all);
    ValuesFit(all);
    assert m[HEADER_SIZE..] == body + EncodeAttribute(mac);
    LastVisit(m, HEADER_SIZE, all, mac);
    CoveredIsSigned(typ, tx, body, EncodeAttribute(mac), m);
    hide WalkFrom, EncodeAttribute, EncodeAttributes, Covered, SetLength, Attributes;
    assert (all + [mac])[..|all|] == all;
  }

  /** What the MAC covers is the message up to the integrity attribute with the final length in place. */
  lemma CoveredIsSigned(typ: u16, tx: TransactionId, body: bytes, e: bytes, m: bytes)
    requires m == Header(typ, |body| + 24, tx) + (body + e)
    ensures Covered(m, HEADER_SIZE + |body|) == SetLength(Header(typ, |body|, tx) + body, |body| + 24)
  {
    var off := HEADER_SIZE + |body|;
    var b := Header(typ, |body|, tx) + body;
    assert m[..off][..2] == b[..2] == PutUint16(typ);
    assert m[..off][4..] == b[4..];
  }

  // ----- the walk depends only on the bytes up to MESSAGE-INTEGRITY -----

  function Stop(v: Visit): nat {
    v.off + 4 + |v.attr.value|
  }

  predicate EndsAtIntegrity(walked: Walked) {
    |walked.visits| > 0 && walked.visits[|walked.visits| - 1].attr.typ == ATTR_INTEGRITY
  }

  /** The head of a walk reads only the bytes of that attribute. */
  lemma HeadAgrees(m1: bytes, m2: bytes, off: nat, stop: nat)
    requires off <= stop <= |m1| && stop <= |m2|
    requires |WalkFrom(m1, off).visits| > 0
    requires Stop(WalkFrom(m1, off).visits[0]) <= stop
    requires m1[off..stop] == m2[off..stop]
    ensures var visit := WalkFrom(m1, off).visits[0];
            var next := off + 4 + RoundUp4(|visit.attr.value|);
            && visit.off == off
            && (visit.attr.typ == ATTR_INTEGRITY ==>
                  WalkFrom(m1, off) == Walked([visit], None) && WalkFrom(m2, off) == Walked([visit], None))
            && (visit.attr.typ != ATTR_INTEGRITY ==>
                  next <= |m1| + 3 && WalkFrom(m1, off) == Prepend(visit, WalkFrom(m1, next))
                  && next <= |m2| + 3 && WalkFrom(m2, off) == Prepend(visit, WalkFrom(m2, next)))
  {
    SameTurn(m1, m2, off, stop);
    hide TurnAt;
  }

  lemma SameTurn(m1: bytes, m2: bytes, off: nat, stop: nat)
    requires off < |m1| && off <= stop <= |m1| && stop <= |m2|
    requires TurnAt(m1, off).Seen? && Stop(TurnAt(m1, off).visit) <= stop
    requires m1[off..stop] == m2[off..stop]
    ensures TurnAt(m2, off) == TurnAt(m1, off)
    ensures TurnAt(m1, off).next == off + 4 + RoundUp4(|TurnAt(m1, off).visit.attr.value|)
  {
    hide RoundUp4;
    SameSlice(m1, m2, off, stop, off, off + 2);
    SameSlice(m1, m2, off, stop, off + 2, off + 4);
    SameSlice(m1, m2, off, stop, off + 4, off + 4 + |TurnAt(m1, off).visit.attr.value|);
  }

  lemma {:induction false} WalkAgrees(m1: bytes, m2: bytes, off: nat, stop: nat)
    requires off <= stop <= |m1| && stop <= |m2|
    requires EndsAtIntegrity(WalkFrom(m1, off))
    requires Stop(WalkFrom(m1, off).visits[|WalkFrom(m1, off).visits| - 1]) <= stop
    requires m1[off..stop] == m2[off..stop]
    ensures WalkFrom(m2, off) == WalkFrom(m1, off)
    decreases |m1| + 3 - off
  {
    hide WalkFrom;
    WalkBounds(m1, off);
    HeadAgrees(m1, m2, off, stop);
    var visits := WalkFrom(m1, off).visits;
    if visits[0].attr.typ != ATTR_INTEGRITY {
      var next := off + 4 + RoundUp4(|visits[0].attr.value|);
      var rest := WalkFrom(m1, next);
      assert |rest.visits| > 0;
      assert rest.visits[|rest.visits| - 1] == visits[|visits| - 1];
      WalkBounds(m1, next);
      assert rest.visits[0] in rest.visits;
      SameSlice(m1, m2, off, stop, next, stop);
      WalkAgrees(m1, m2, next, stop);
    }
  }

  lemma SameSlice(m1: bytes, m2: bytes, off: nat, stop: nat, i: nat, j: nat)
    requires off <= i <= j <= stop <= |m1| && stop <= |m2|
    requires m1[off..stop] == m2[off..stop]
    ensures m1[i..j] == m2[i..j]
  {
    SliceOfSlice(m1, off, stop, i, j);
    SliceOfSlice(m2, off, stop, i, j);
  }

  /** Visits come in increasing order and stay inside the message. */
  lemma {:induction false} WalkBounds(m: bytes, off: nat)
    requires off <= |m| + 3
    ensures forall v | v in WalkFrom(m, off).visits :: off <= v.off && Stop(v) <= |m|
    ensures |WalkFrom(m, off).visits| > 0 ==>
              var visits := WalkFrom(m, off).visits;
              visits[0].off == off && Stop(visits[0]) <= Stop(visits[|visits| - 1])
    decreases |m| + 3 - off
  {
    var visits := WalkFrom(m, off).visits;
    if |visits| > 1 {
      var next := off + 4 + RoundUp4(Uint16(m[off + 2..off + 4]));
      WalkBounds(m, next);
      assert visits[1..] == WalkFrom(m, next).visits;
      assert visits[1].off == next;
      assert visits[|visits| - 1] == WalkFrom(m, next).visits[|visits| - 2];
      forall v | v in visits ensures off <= v.off && Stop(v) <= |m| {
        if v != visits[0] { assert v in visits[1..]; }
      }
    }
  }

  /** The message with more bytes appended and its length field corrected. */
  function Extend(message: bytes, extra: bytes): bytes
    requires |message| >= HEADER_SIZE
  {
    SetLength(message + extra, |message| + |extra| - HEADER_SIZE)
  }

  /**
   * Main result: once a message carries MESSAGE-INTEGRITY, whatever is appended behind it changes
   * neither what a reader is shown nor whether it verifies.
   */
  lemma TrailingBytesIgnored(hmac: Mac, message: bytes, extra: bytes, key: bytes)
    requires Valid(message) && EndsAtIntegrity(Walk(message))
    requires |extra| % 4 == 0 && |message| + |extra| <= MAX_PACKET
    ensures Walk(Extend(message, extra)) == Walk(message)
    ensures Verify(hmac, Extend(message, extra), key) == Verify(hmac, message, key)
  {
    var m2 := Extend(message, extra);
    ExtendedIsValid(message, extra);
    ExtendAgrees(message, extra);
    hide Valid, WalkFrom, Extend;
    var visits := Walk(message).visits;
    WalkBounds(message, HEADER_SIZE);
    var last := visits[|visits| - 1];
    assert last in visits;
    EqualSlices(m2, message, HEADER_SIZE, |message|);
    WalkAgrees(message, m2, HEADER_SIZE, |message|);
    SameCovered(message, m2, last.off);
  }

  lemma SameCovered(m1: bytes, m2: bytes, off: nat)
    requires 4 <= off <= |m1| && off <= |m2|
    requires m1[..2] == m2[..2] && forall k | 4 <= k < off :: m1[k] == m2[k]
    ensures Covered(m1, off) == Covered(m2, off)
  {
    EqualSlices(m1, m2, 4, off);
    assert m1[..off][..2] == m1[..2] && m2[..off][..2] == m2[..2];
    assert m1[..off][4..] == m1[4..off] && m2[..off][4..] == m2[4..off];
  }

  lemma ExtendAgrees(message: bytes, extra: bytes)
    requires |message| >= HEADER_SIZE
    ensures Extend(message, extra)[..2] == message[..2]
    ensures |Extend(message, extra)| == |message| + |extra|
    ensures forall k | 4 <= k < |message| :: Extend(message, extra)[k] == message[k]
  {
    var m2, whole := Extend(message, extra), message + extra;
    assert m2[..2] == whole[..2] == message[..2];
    forall k | 4 <= k < |message| ensures m2[k] == message[k] {
      assert m2[k] == whole[4..][k - 4];
    }
  }

  lemma ExtendedIsValid(message: bytes, extra: bytes)
    requires Valid(message) && |extra| % 4 == 0 && |message| + |extra| <= MAX_PACKET
    ensures Valid(Extend(message, extra))
  {
    hide Uint32;
    var m2 := Extend(message, extra);
    var length := |message| + |extra| - HEADER_SIZE;
    assert m2[2..4] == PutUint16(length % TWO_16) + [];
    Uint16RoundTrip(length % TWO_16, []);
    ExtendAgrees(message, extra);
    EqualSlices(m2, message, 4, 8);
  }

  // ----- what a MAC value commits to -----

  ghost predicate CollisionFree(hmac: Mac) {
    forall key, a, b :: hmac(key, a) == hmac(key, b) ==> a == b
  }

  function MacOf(message: bytes): bytes {
    var visits := Walk(message).visits;
    if |visits| == 0 then [] else visits[|visits| - 1].attr.value
  }

  /**
   * Main result: under one key and an ideal MAC, two messages that verify with the same MAC value
   * have the same type, the same transaction ID and show their readers the same attributes.
   */
  lemma MacCommitsToContent(hmac: Mac, m1: bytes, m2: bytes, key: bytes)
    requires CollisionFree(hmac)
    requires Verify(hmac, m1, key) && Verify(hmac, m2, key) && MacOf(m1) == MacOf(m2)
    ensures m1[..2] == m2[..2] && m1[8..HEADER_SIZE] == m2[8..HEADER_SIZE]
    ensures Walk(m1) == Walk(m2)
  {
    VerifiedShape(hmac, m1, key);
    VerifiedShape(hmac, m2, key);
    var off := LastOf(m1).off;
    assert Covered(m1, off) == Covered(m2, LastOf(m2).off);
    CoveredLength(m1, off);
    CoveredLength(m2, LastOf(m2).off);
    CoveredAgree(m1, m2, off);
    hide Walk, WalkFrom, Valid, Covered, Verify, CollisionFree, MacOf, LastOf;
    JoinSlices(m1, m2, HEADER_SIZE, off, off + 24);
    WalkAgrees(m1, m2, HEADER_SIZE, off + 24);
  }

  function LastOf(message: bytes): Visit
    requires |Walk(message).visits| > 0
  {
    Walk(message).visits[|Walk(message).visits| - 1]
  }

  /** A message that verifies is walked to a full-size MESSAGE-INTEGRITY over the bytes before it. */
  lemma VerifiedShape(hmac: Mac, m: bytes, key: bytes)
    requires Verify(hmac, m, key)
    ensures Walk(m) == WalkFrom(m, HEADER_SIZE) && |m| >= HEADER_SIZE && EndsAtIntegrity(WalkFrom(m, HEADER_SIZE))
    ensures var last := LastOf(m);
            && last == WalkFrom(m, HEADER_SIZE).visits[|WalkFrom(m, HEADER_SIZE).visits| - 1]
            && HEADER_SIZE <= last.off && last.off + 24 <= |m| && Stop(last) == last.off + 24
            && MacOf(m) == last.attr.value == hmac(key, Covered(m, last.off))
            && m[last.off..last.off + 24] == [0, 8, 0, 20] + last.attr.value
  {
    assert Walk(m) == WalkFrom(m, HEADER_SIZE);
    WalkBounds(m, HEADER_SIZE);
    MacBytes(m, HEADER_SIZE);
    hide WalkFrom, Walk, Covered;
    assert LastOf(m) in WalkFrom(m, HEADER_SIZE).visits;
  }

  lemma CoveredLength(m: bytes, off: nat)
    requires 4 <= off <= |m|
    ensures |Covered(m, off)| == off
  {
  }

  lemma JoinSlices(m1: bytes, m2: bytes, i: nat, j: nat, k: nat)
    requires i <= j <= k <= |m1| && k <= |m2|
    requires m1[i..j] == m2[i..j] && m1[j..k] == m2[j..k]
    ensures m1[i..k] == m2[i..k]
  {
    assert m1[i..k] == m1[i..j] + m1[j..k];
    assert m2[i..k] == m2[i..j] + m2[j..k];
  }

  lemma CoveredAgree(m1: bytes, m2: bytes, off: nat)
    requires HEADER_SIZE <= off <= |m1| && off <= |m2|
    requires Covered(m1, off) == Covered(m2, off)
    ensures m1[..2] == m2[..2] && m1[4..off] == m2[4..off]
    ensures m1[8..HEADER_SIZE] == m2[8..HEADER_SIZE] && m1[HEADER_SIZE..off] == m2[HEADER_SIZE..off]
  {
    var c1, c2 := Covered(m1, off), Covered(m2, off);
    assert c1[..2] == m1[..2] && c2[..2] == m2[..2];
    assert c1[4..] == m1[4..off] && c2[4..] == m2[4..off];
    SameSlice(m1, m2, 4, off, 8, HEADER_SIZE);
    SameSlice(m1, m2, 4, off, HEADER_SIZE, off);
  }

  /** The twenty-four bytes of a full-size MESSAGE-INTEGRITY are its fixed header and its value. */
  lemma {:induction false} MacBytes(m: bytes, off: nat)
    requires off <= |m| + 3 && EndsAtIntegrity(WalkFrom(m, off))
    requires |WalkFrom(m, off).visits[|WalkFrom(m, off).visits| - 1].attr.value| == INTEGRITY_SIZE
    ensures var last := WalkFrom(m, off).visits[|WalkFrom(m, off).visits| - 1];
            last.off + 24 <= |m| && m[last.off..last.off + 24] == [0, 8, 0, 20] + last.attr.value
    decreases |m| + 3 - off
  {
    var visits := WalkFrom(m, off).visits;
    if |visits| == 1 {
      var length := Uint16(m[off + 2..off + 4]);
      assert m[off] as int * 256 + m[off + 1] == 8 && m[off + 2] as int * 256 + m[off + 3] == 20;
      assert m[off..off + 24] == m[off..off + 4] + m[off + 4..off + 24];
      assert m[off..off + 4] == [0, 8, 0, 20];
    } else {
      var next := off + 4 + RoundUp4(Uint16(m[off + 2..off + 4]));
      assert visits[1..] == WalkFrom(m, next).visits;
      assert visits[|visits| - 1] == WalkFrom(m, next).visits[|visits| - 2];
      MacBytes(m, next);
    }
  }

  // ----- readers of attributes -----

  /** turnLifetime in seconds: the last well-formed LIFETIME shown, 600 without one. */
  function LastLifetime(visits: seq<Visit>): nat {
    if visits == [] then 600
    else
      var a := visits[|visits| - 1].attr;
      if a.typ == ATTR_LIFETIME && |a.value| == 4 then Uint32(a.value) else LastLifetime(visits[..|visits| - 1])
  }

  function Lifetime(message: bytes): nat {
    LastLifetime(Walk(message).visits)
  }

  datatype Challenge = Challenge(code: nat, realm: bytes, nonce: bytes)

  function ChallengeOf(visits: seq<Visit>): Challenge {
    if visits == [] then Challenge(0, [], [])
    else
      var c := ChallengeOf(visits[..|visits| - 1]);
      var a := visits[|visits| - 1].attr;
      if a.typ == ATTR_ERROR_CODE && |a.value| >= 4 then c.(code := (a.value[2] as int % 8) * 100 + a.value[3])
      else if a.typ == ATTR_REALM then c.(realm := a.value)
      else if a.typ == ATTR_NONCE then c.(nonce := a.value)
      else c
  }

  /** turnChallenge: None when the walk fails or a part is missing. */
  function ReadChallenge(message: bytes): Option<Challenge> {
    var walked := Walk(message);
    var c := ChallengeOf(walked.visits);
    if walked.error.Some? || c.code == 0 || c.realm == [] || c.nonce == [] then None else Some(c)
  }

  /** The first attribute of a type, as turnAddressAttribute looks it up; an error before it hides it. */
  function FirstOfType(visits: seq<Visit>, typ: u16): Option<bytes> {
    if visits == [] then None
    else if visits[0].attr.typ == typ then Some(visits[0].attr.value)
    else FirstOfType(visits[1..], typ)
  }

  predicate NamesLifetime(a: Attribute) { a.typ == ATTR_LIFETIME && |a.value| == 4 }

  /** The lifetime is that of the last well-formed LIFETIME attribute, big-endian, and 600 seconds without one. */
  lemma {:induction false} LifetimeIsLast(visits: seq<Visit>, k: int)
    requires -1 <= k < |visits| && (k >= 0 ==> NamesLifetime(visits[k].attr))
    requires forall j | k < j < |visits| :: !NamesLifetime(visits[j].attr)
    ensures LastLifetime(visits) ==
            if k < 0 then 600
            else var v := visits[k].attr.value; v[0] as int * 0x100_0000 + v[1] as int * TWO_16 + v[2] as int * 256 + v[3]
  {
    if visits != [] {
      var n := |visits| - 1;
      if k == n {
        BigEndian(0, visits[k].attr.value);
      } else {
        LifetimeIsLast(visits[..n], k);
      }
    }
  }

  predicate NamesCode(a: Attribute) { a.typ == ATTR_ERROR_CODE && |a.value| >= 4 }

  /** The last attribute with a property, or -1. */
  function LastWith(visits: seq<Visit>, p: Attribute -> bool): (k: int)
    ensures -1 <= k < |visits| && (k >= 0 ==> p(visits[k].attr))
    ensures forall j | k < j < |visits| :: !p(visits[j].attr)
  {
    if visits == [] then -1
    else if p(visits[|visits| - 1].attr) then |visits| - 1
    else LastWith(visits[..|visits| - 1], p)
  }

  function LastValue(visits: seq<Visit>, typ: u16): bytes {
    var k := LastWith(visits, (a: Attribute) => a.typ == typ);
    if k < 0 then [] else visits[k].attr.value
  }

  /** Each part of the challenge is that of the last attribute carrying it: code class and number, realm and nonce. */
  lemma {:induction false} ChallengeIsLast(visits: seq<Visit>)
    ensures ChallengeOf(visits).realm == LastValue(visits, ATTR_REALM)
    ensures ChallengeOf(visits).nonce == LastValue(visits, ATTR_NONCE)
    ensures var k := LastWith(visits, (a: Attribute) => NamesCode(a));
            ChallengeOf(visits).code == if k < 0 then 0 else (visits[k].attr.value[2] as int % 8) * 100 + visits[k].attr.value[3]
  {
    if visits != [] { ChallengeIsLast(visits[..|visits| - 1]); }
  }

  /** A challenge is reported exactly when the walk was clean and each part is there. */
  lemma ChallengeVerdict(message: bytes)
    ensures var visits := Walk(message).visits;
            ReadChallenge(message).Some? <==>
              && Walk(message).error.None? && ChallengeOf(visits).code != 0
              && LastValue(visits, ATTR_REALM) != [] && LastValue(visits, ATTR_NONCE) != []
    ensures ReadChallenge(message).Some? ==> ReadChallenge(message).value == ChallengeOf(Walk(message).visits)
  {
    ChallengeIsLast(Walk(message).visits);
  }

  /** Appending behind MESSAGE-INTEGRITY changes no value any reader extracts. */
  lemma TrailingBytesChangeNoReading(message: bytes, extra: bytes, typ: u16)
    requires Valid(message) && EndsAtIntegrity(Walk(message))
    requires |extra| % 4 == 0 && |message| + |extra| <= MAX_PACKET
    ensures Lifetime(Extend(message, extra)) == Lifetime(message)
    ensures ReadChallenge(Extend(message, extra)) == ReadChallenge(message)
    ensures FirstOfType(Walk(Extend(message, extra)).visits, typ) == FirstOfType(Walk(message).visits, typ)
  {
    TrailingBytesIgnored((k, d) => [], message, extra, []);
  }
}
