/** Authenticated hole-punch messages, with the text of HMAC-SHA256 as a parameter. Times are nanoseconds. */
module PunchMessage {
  import opened Basics
  import opened Text

  const PREFIX := "XROK-P2P-PUNCH"
  const VERSION := "v2"
  const MILLISECOND := 1_000_000

  /** punchMACInput */
  function MacInput(peer: string, session: string, timestamp: int, nonce: string): string {
    Join([VERSION, peer, session, FormatInt(timestamp), nonce])
  }

  /** authenticatedPunchMessage with the nonce it drew. */
  function Build(hmac: Mac, token: string, peer: string, session: string, now: int, nonce: string): Option<string> {
    if token == "" || peer == "" || session == "" || nonce == "" then None
    else
      var input := MacInput(peer, session, now / MILLISECOND, nonce);
      Some(PREFIX + [COLON] + input + [COLON] + hmac(token, input))
  }

  function ReplayKey(peer: string, session: string, nonce: string, mac: string): string {
    peer + [NUL] + session + [NUL] + nonce + [NUL] + mac
  }

  /** validateAuthenticatedPunch up to the replay cache: the key it is asked to consume, when every check passed. */
  function Check(hmac: Mac, msg: string, token: string, peer: string, session: string, now: int, maxSkew: int): Option<string> {
    if token == "" || peer == "" || session == "" || maxSkew <= 0 then None
    else
      var parts := Split(msg);
      if |parts| != 7 || parts[0] != PREFIX || parts[1] != VERSION || parts[2] != peer || parts[3] != session || parts[5] == "" then None
      else
        var timestamp := ParseInt64(parts[4]);
        if timestamp.None? then None
        else
          var issued := timestamp.value * MILLISECOND;
          if issued < now - maxSkew || issued > now + maxSkew then None
          else if parts[6] != hmac(token, MacInput(parts[2], parts[3], timestamp.value, parts[5])) then None
          else Some(ReplayKey(peer, session, parts[5], parts[6]))
  }

  lemma SevenParts(peer: string, session: string, stamp: string, nonce: string, mac: string)
    ensures PREFIX + [COLON] + Join([VERSION, peer, session, stamp, nonce]) + [COLON] + mac
         == Join([PREFIX, VERSION, peer, session, stamp, nonce, mac])
  {
    var five := [VERSION, peer, session, stamp, nonce];
    var seven := [PREFIX, VERSION, peer, session, stamp, nonce, mac];
    assert seven[1..] == five + [mac];
    JoinAppend(five, mac);
  }

  lemma {:induction false} JoinAppend(parts: seq<string>, last: string)
    requires parts != []
    ensures Join(parts + [last]) == Join(parts) + [COLON] + last
  {
    assert (parts + [last])[1..] == parts[1..] + [last];
    if |parts| > 1 {
      JoinAppend(parts[1..], last);
    }
  }

  /**
   * Main result: the peer a message was built for accepts it exactly when it arrives within the
   * allowed skew and neither the peer ID nor the session ID contains a colon.
   */
  lemma BuiltIsAccepted(hmac: Mac, token: string, peer: string, session: string, built: int, nonce: string, now: int, maxSkew: int)
    requires Base64(hmac) && COLON !in nonce
    requires Build(hmac, token, peer, session, built, nonce).Some?
    requires -(TWO_64 / 2) <= built / MILLISECOND < TWO_64 / 2
    ensures var issued := built / MILLISECOND * MILLISECOND;
            var key := Check(hmac, Build(hmac, token, peer, session, built, nonce).value, token, peer, session, now, maxSkew);
            && (key.Some? <==> COLON !in peer && COLON !in session && 0 < maxSkew && now - maxSkew <= issued <= now + maxSkew)
            && (key.Some? ==> key.value == ReplayKey(peer, session, nonce, hmac(token, MacInput(peer, session, built / MILLISECOND, nonce))))
  {
    var timestamp := built / MILLISECOND;
    var mac := hmac(token, MacInput(peer, session, timestamp, nonce));
    var parts := [PREFIX, VERSION, peer, session, FormatInt(timestamp), nonce, mac];
    SevenParts(peer, session, FormatInt(timestamp), nonce, mac);
    DecimalRoundTrip(timestamp);
    SplitUndoesJoin(parts);
    hide FormatInt, ParseInt64, Split, Join;
    assert parts[2] == peer && parts[3] == session;
    assert COLON !in PREFIX && COLON !in VERSION;
  }

  /** The signed content of an accepted message: its timestamp as a number, and its nonce. */
  function Signed(msg: string): (int, string)
    requires |Split(msg)| == 7 && ParseInt64(Split(msg)[4]).Some?
  {
    (ParseInt64(Split(msg)[4]).value, Split(msg)[5])
  }

  lemma AcceptedShape(hmac: Mac, m: string, token: string, peer: string, session: string, now: int, maxSkew: int)
    requires Check(hmac, m, token, peer, session, now, maxSkew).Some?
    ensures |Split(m)| == 7 && ParseInt64(Split(m)[4]).Some?
    ensures var mac := hmac(token, MacInput(peer, session, Signed(m).0, Signed(m).1));
            Check(hmac, m, token, peer, session, now, maxSkew) == Some(ReplayKey(peer, session, Signed(m).1, mac))
    ensures ParseInt64(FormatInt(Signed(m).0)) == Some(Signed(m).0)
  {
    DecimalRoundTrip(ParseInt64(Split(m)[4]).value);
  }

  /**
   * What acceptance means, of any text whatever: seven fields, the prefix and version, this peer and
   * this session, a nonce, a timestamp within the skew, and the MAC of exactly those under the token.
   */
  lemma AcceptedExactly(hmac: Mac, m: string, token: string, peer: string, session: string, now: int, maxSkew: int)
    ensures var parts := Split(m);
            Check(hmac, m, token, peer, session, now, maxSkew).Some? <==>
              && token != "" && peer != "" && session != "" && maxSkew > 0
              && |parts| == 7 && parts[0] == "XROK-P2P-PUNCH" && parts[1] == "v2" && parts[2] == peer && parts[3] == session
              && parts[5] != "" && ParseInt64(parts[4]).Some?
              && now - maxSkew <= ParseInt64(parts[4]).value * 1_000_000 <= now + maxSkew
              && parts[6] == hmac(token, MacInput(peer, session, ParseInt64(parts[4]).value, parts[5]))
  {
    hide Split, ParseInt64, MacInput;
  }

  /** The message as text, and when there is none. */
  lemma BuiltText(hmac: Mac, token: string, peer: string, session: string, now: int, nonce: string)
    ensures Build(hmac, token, peer, session, now, nonce).None? <==> token == "" || peer == "" || session == "" || nonce == ""
    ensures var signed := "v2:" + peer + ":" + session + ":" + FormatInt(now / 1_000_000) + ":" + nonce;
            && MacInput(peer, session, now / 1_000_000, nonce) == signed
            && (Build(hmac, token, peer, session, now, nonce).Some? ==>
                  Build(hmac, token, peer, session, now, nonce).value == "XROK-P2P-PUNCH:" + signed + ":" + hmac(token, signed))
  {
    InputShape(peer, session, FormatInt(now / 1_000_000), nonce);
    hide Join, FormatInt;
    assert [COLON] == ":";
  }

  /**
   * Main result: under an ideal MAC two accepted messages ask for the same replay key exactly when
   * they carry the same signed content, so distinct messages never alias and a copy whose timestamp
   * is spelled differently still meets the original's entry.
   */
  lemma ReplayKeyCommits(hmac: Mac, m1: string, m2: string, token: string, peer: string, session: string, now1: int, now2: int, maxSkew: int)
    requires Base64(hmac) && CollisionFree(hmac)
    requires Check(hmac, m1, token, peer, session, now1, maxSkew).Some? && Check(hmac, m2, token, peer, session, now2, maxSkew).Some?
    ensures |Split(m1)| == |Split(m2)| == 7 && ParseInt64(Split(m1)[4]).Some? && ParseInt64(Split(m2)[4]).Some?
    ensures Check(hmac, m1, token, peer, session, now1, maxSkew) == Check(hmac, m2, token, peer, session, now2, maxSkew)
            <==> Signed(m1) == Signed(m2)
  {
    AcceptedShape(hmac, m1, token, peer, session, now1, maxSkew);
    AcceptedShape(hmac, m2, token, peer, session, now2, maxSkew);
    hide Check, ParseInt64, FormatInt, Split;
    var (t1, n1) := Signed(m1);
    var (t2, n2) := Signed(m2);
    var mac1, mac2 := hmac(token, MacInput(peer, session, t1, n1)), hmac(token, MacInput(peer, session, t2, n2));
    if ReplayKey(peer, session, n1, mac1) == ReplayKey(peer, session, n2, mac2) {
      var front := peer + [NUL] + session + [NUL];
      assert ReplayKey(peer, session, n1, mac1) == (front + n1) + [NUL] + mac1;
      assert ReplayKey(peer, session, n2, mac2) == (front + n2) + [NUL] + mac2;
      LastSeparator(front + n1, mac1, front + n2, mac2, NUL);
      assert n1 == (front + n1)[|front|..] == (front + n2)[|front|..] == n2;
      SameStamp(peer, session, t1, t2, n1);
    }
  }

  lemma SameStamp(peer: string, session: string, t1: int, t2: int, nonce: string)
    requires MacInput(peer, session, t1, nonce) == MacInput(peer, session, t2, nonce)
    requires ParseInt64(FormatInt(t1)) == Some(t1) && ParseInt64(FormatInt(t2)) == Some(t2)
    ensures t1 == t2
  {
    hide FormatInt, ParseInt64;
    var front := VERSION + [COLON] + peer + [COLON] + session + [COLON];
    InputShape(peer, session, FormatInt(t1), nonce);
    InputShape(peer, session, FormatInt(t2), nonce);
    var a, b := front + FormatInt(t1) + ([COLON] + nonce), front + FormatInt(t2) + ([COLON] + nonce);
    assert a == b;
    assert |a| == |front| + |FormatInt(t1)| + 1 + |nonce|;
    assert FormatInt(t1) == a[|front|..|front| + |FormatInt(t1)|];
    assert FormatInt(t2) == b[|front|..|front| + |FormatInt(t1)|];
  }

  lemma InputShape(peer: string, session: string, stamp: string, nonce: string)
    ensures Join([VERSION, peer, session, stamp, nonce])
         == VERSION + [COLON] + peer + [COLON] + session + [COLON] + stamp + ([COLON] + nonce)
  {
    assert [VERSION, peer, session, stamp, nonce][1..] == [peer, session, stamp, nonce];
    assert [peer, session, stamp, nonce][1..] == [session, stamp, nonce];
    assert [session, stamp, nonce][1..] == [stamp, nonce];
    assert [stamp, nonce][1..] == [nonce];
    assert Join([stamp, nonce]) == stamp + [COLON] + nonce;
    assert Join([session, stamp, nonce]) == session + [COLON] + (stamp + [COLON] + nonce);
    assert Join([peer, session, stamp, nonce]) == peer + [COLON] + (session + [COLON] + (stamp + [COLON] + nonce));
  }
}
