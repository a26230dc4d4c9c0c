/** The signed texts and the framing below the record connection, with HMAC-SHA256 text as a parameter. */
module ConsentTokens {
  import opened Basics
  import opened Text

  const CONSENT_DATA: byte := 0
  const CONSENT_REQUEST: byte := 1
  const CONSENT_RESPONSE: byte := 2
  const CONSENT_DATA_ACK: byte := 3

  function SignedText(session: string, kind: byte, token: string): string {
    session + [COLON] + FormatInt(kind) + [COLON] + token
  }

  /** controlPayloadWithKey */
  function ControlPayload(hmac: Mac, key: string, session: string, kind: byte, token: string): string {
    token + [COLON] + hmac(key, SignedText(session, kind, token))
  }

  /** Index of the first and of the last colon, or -1. */
  function FirstColon(s: string): (i: int)
    ensures -1 <= i < |s|
  {
    if s == [] then -1 else if s[0] == COLON then 0
    else var i := FirstColon(s[1..]); if i < 0 then -1 else i + 1
  }

  function LastColon(s: string): (i: int)
    ensures -1 <= i < |s|
  {
    if s == [] then -1 else if s[|s| - 1] == COLON then |s| - 1 else LastColon(s[..|s| - 1])
  }

  /** verifyControl: the nonce ends at the first colon. */
  function VerifyControl(hmac: Mac, key: string, session: string, kind: byte, payload: string): Option<string> {
    var i := FirstColon(payload);
    if i < 0 then None
    else
      var nonce := payload[..i];
      if nonce != "" && payload == ControlPayload(hmac, key, session, kind, nonce) then Some(nonce) else None
  }

  /** verifyControlWithKey: the token ends at the last colon. */
  function VerifyToken(hmac: Mac, key: string, session: string, kind: byte, payload: string): Option<string> {
    var i := LastColon(payload);
    if i <= 0 then None
    else if payload == ControlPayload(hmac, key, session, kind, payload[..i]) then Some(payload[..i]) else None
  }

  /** dataAckPayload; `salt` is the salt in hexadecimal. */
  function DataAckPayload(hmac: Mac, key: string, session: string, salt: string, sequence: u64): string {
    ControlPayload(hmac, key, session, CONSENT_DATA_ACK, salt + [COLON] + FormatInt(sequence))
  }

  /** verifyDataAck */
  function VerifyDataAck(hmac: Mac, key: string, session: string, payload: string): Option<u64> {
    var token := VerifyToken(hmac, key, session, CONSENT_DATA_ACK, payload);
    if token.None? then None
    else
      var i := LastColon(token.value);
      if i < 0 then None else ParseUint64(token.value[i + 1..])
  }

  lemma {:induction false} FirstColonAt(a: string, b: string)
    requires COLON !in a
    ensures FirstColon(a + [COLON] + b) == |a|
    decreases |a|
  {
    var s := a + [COLON] + b;
    if a != [] {
      assert s[1..] == a[1..] + [COLON] + b;
      FirstColonAt(a[1..], b);
    }
  }

  lemma {:induction false} FirstColonBefore(s: string)
    ensures FirstColon(s) >= 0 ==> s[FirstColon(s)] == COLON && COLON !in s[..FirstColon(s)]
  {
    if s != [] && s[0] != COLON {
      FirstColonBefore(s[1..]);
      var i := FirstColon(s[1..]);
      if i >= 0 { assert s[..i + 1] == [s[0]] + s[1..][..i]; }
    }
  }

  lemma {:induction false} LastColonAt(a: string, b: string)
    requires COLON !in b
    ensures LastColon(a + [COLON] + b) == |a|
    decreases |b|
  {
    var s := a + [COLON] + b;
    if b != [] {
      assert s[..|s| - 1] == a + [COLON] + b[..|b| - 1];
      LastColonAt(a, b[..|b| - 1]);
    }
  }

  /** A probe is recognised exactly when its nonce is not empty and holds no colon. */
  lemma ControlRoundTrip(hmac: Mac, key: string, session: string, kind: byte, nonce: string)
    requires Base64(hmac)
    ensures VerifyControl(hmac, key, session, kind, ControlPayload(hmac, key, session, kind, nonce)) == Some(nonce)
            <==> nonce != "" && COLON !in nonce
  {
    var payload := ControlPayload(hmac, key, session, kind, nonce);
    FirstColonBefore(payload);
    if COLON !in nonce {
      FirstColonAt(nonce, hmac(key, SignedText(session, kind, nonce)));
      assert payload[..|nonce|] == nonce;
    }
  }

  /** The acknowledgement of every sequence number is verified as that number, whatever the session name holds. */
  lemma DataAckRoundTrip(hmac: Mac, key: string, session: string, salt: string, sequence: u64)
    requires Base64(hmac)
    ensures VerifyDataAck(hmac, key, session, DataAckPayload(hmac, key, session, salt, sequence)) == Some(sequence)
  {
    var digits := FormatInt(sequence);
    var token := salt + [COLON] + digits;
    DecimalRoundTrip(sequence);
    hide FormatInt, ParseUint64, SignedText;
    LastColonAt(token, hmac(key, SignedText(session, CONSENT_DATA_ACK, token)));
    assert DataAckPayload(hmac, key, session, salt, sequence)[..|token|] == token;
    LastColonAt(salt, digits);
    assert token[|salt| + 1..] == digits;
  }

  /** The texts: session, kind and token are signed, in this order, and the signature follows the token. */
  lemma SignedTexts(hmac: Mac, key: string, session: string, token: string)
    ensures SignedText(session, CONSENT_REQUEST, token) == session + ":1:" + token
    ensures SignedText(session, CONSENT_RESPONSE, token) == session + ":2:" + token
    ensures SignedText(session, CONSENT_DATA_ACK, token) == session + ":3:" + token
    ensures ControlPayload(hmac, key, session, CONSENT_REQUEST, token) == token + ":" + hmac(key, session + ":1:" + token)
    ensures ControlPayload(hmac, key, session, CONSENT_RESPONSE, token) == token + ":" + hmac(key, session + ":2:" + token)
    ensures ControlPayload(hmac, key, session, CONSENT_DATA_ACK, token) == token + ":" + hmac(key, session + ":3:" + token)
  {
    assert FormatInt(1) == "1" && FormatInt(2) == "2" && FormatInt(3) == "3";
    hide FormatInt;
    assert [COLON] == ":";
    assert session + [COLON] + "1" + [COLON] + token == session + ":1:" + token;
    assert session + [COLON] + "2" + [COLON] + token == session + ":2:" + token;
    assert session + [COLON] + "3" + [COLON] + token == session + ":3:" + token;
  }

  /** Nothing verifies but what signing produces: the nonce ends at the first colon, the token at the last. */
  lemma VerifiedExactly(hmac: Mac, key: string, session: string, kind: byte, payload: string, token: string)
    requires Base64(hmac)
    ensures VerifyControl(hmac, key, session, kind, payload) == Some(token) <==>
              token != "" && COLON !in token && payload == ControlPayload(hmac, key, session, kind, token)
    ensures VerifyToken(hmac, key, session, kind, payload) == Some(token) <==>
              token != "" && payload == ControlPayload(hmac, key, session, kind, token)
  {
    hide SignedText;
    var mac := hmac(key, SignedText(session, kind, token));
    FirstColonBefore(payload);
    if payload == ControlPayload(hmac, key, session, kind, token) {
      LastColonAt(token, mac);
      assert payload[..|token|] == token;
      if COLON !in token { FirstColonAt(token, mac); }
    }
  }

  /** Under an ideal MAC a signed text serves one kind of record and one token only. */
  lemma PayloadCommits(hmac: Mac, key: string, session: string, kind1: byte, token1: string, kind2: byte, token2: string)
    requires Base64(hmac) && CollisionFree(hmac) && kind1 < 10 && kind2 < 10
    ensures ControlPayload(hmac, key, session, kind1, token1) == ControlPayload(hmac, key, session, kind2, token2)
            <==> kind1 == kind2 && token1 == token2
  {
    if ControlPayload(hmac, key, session, kind1, token1) == ControlPayload(hmac, key, session, kind2, token2) {
      var a, b := SignedText(session, kind1, token1), SignedText(session, kind2, token2);
      LastSeparator(token1, hmac(key, a), token2, hmac(key, b), COLON);
      assert a == b && a[|session| + 1] == FormatInt(kind1)[0] && b[|session| + 1] == FormatInt(kind2)[0];
    }
  }

  // ----- record framing -----

  const MAGIC: bytes := [88, 82, 67, 49]
  /** The text that marks a hole-punch datagram. */
  const PUNCH: bytes := [88, 82, 79, 75, 45, 80, 50, 80, 45, 80, 85, 78, 67, 72, 58]
  const FRAME_HEADER := 9
  const MAX_CONSENT_RECORD := 65009 + 12 + 16

  datatype FrameError = Truncated | LatePunch | BadMagic | TooLong | BadLength
  datatype Frame = Frame(kind: byte, payload: bytes)
  datatype Framed = Read(frame: Frame) | Refused(error: FrameError)

  /** writeRecord */
  function WriteFrame(f: Frame): Option<bytes> {
    if |f.payload| > MAX_CONSENT_RECORD then None
    else Some(MAGIC + [f.kind] + PutUint32(|f.payload|) + f.payload)
  }

  /** readRecord on one datagram, cut to the size of its buffer. */
  function ReadFrame(datagram: bytes): Framed {
    var record := datagram[..Min(|datagram|, MAX_CONSENT_RECORD + FRAME_HEADER)];
    if |record| < FRAME_HEADER then Refused(Truncated)
    else if PUNCH <= record then Refused(LatePunch)
    else if record[..4] != MAGIC then Refused(BadMagic)
    else
      var length := Uint32(record[5..9]);
      if length > MAX_CONSENT_RECORD then Refused(TooLong)
      else if |record| != FRAME_HEADER + length then Refused(BadLength)
      else Read(Frame(record[4], record[9..]))
  }

  /** Every record that can be written is read back whole. */
  lemma WrittenIsRead(f: Frame)
    ensures WriteFrame(f).Some? <==> |f.payload| <= MAX_CONSENT_RECORD
    ensures WriteFrame(f).Some? ==> ReadFrame(WriteFrame(f).value) == Read(f)
  {
    if |f.payload| <= MAX_CONSENT_RECORD {
      var datagram := WriteFrame(f).value;
      Uint32RoundTrip(|f.payload|, []);
      hide Uint32, PutUint32;
      assert datagram[..|datagram|] == datagram;
      assert datagram[..4] == MAGIC;
      assert datagram[5..9] == PutUint32(|f.payload|) + [];
      assert datagram[9..] == f.payload;
      assert datagram[2] != PUNCH[2];
    }
  }

  /** What the buffer holds of a datagram is accepted only when it is exactly what writing its content produces. */
  lemma ReadIsWritten(datagram: bytes)
    requires ReadFrame(datagram).Read?
    ensures WriteFrame(ReadFrame(datagram).frame) == Some(datagram[..Min(|datagram|, MAX_CONSENT_RECORD + FRAME_HEADER)])
  {
    var record := datagram[..Min(|datagram|, MAX_CONSENT_RECORD + FRAME_HEADER)];
    Uint32Inverse(record[5..9]);
    assert record == record[..4] + [record[4]] + record[5..9] + record[9..];
  }

  /** Every verdict of a read, on any datagram, of which the buffer holds so much. */
  lemma FrameVerdicts(datagram: bytes)
    ensures var record := datagram[..Min(|datagram|, 65046)];
            var result := ReadFrame(datagram);
            if |record| < 9 then result == Refused(Truncated)
            else if PUNCH <= record then result == Refused(LatePunch)
            else if record[..4] != [88, 82, 67, 49] then result == Refused(BadMagic)
            else
              var length := record[5] as int * 0x100_0000 + record[6] as int * TWO_16 + record[7] as int * 256 + record[8];
              if length > 65037 then result == Refused(TooLong)
              else if |record| != 9 + length then result == Refused(BadLength)
              else result == Read(Frame(record[4], record[9..]))
  {
    var record := datagram[..Min(|datagram|, 65046)];
    if |record| >= 9 {
      BigEndian(0, record[5..9]);
    }
  }

  lemma Uint32Inverse(b: bytes)
    requires |b| == 4
    ensures PutUint32(Uint32(b)) == b
  {
    var hi, lo := Uint16(b[..2]), Uint16(b[2..4]);
    assert Uint32(b) / TWO_16 == hi && Uint32(b) % TWO_16 == lo;
    assert hi / 256 == b[0] && hi % 256 == b[1] && lo / 256 == b[2] && lo % 256 == b[3];
  }
}
