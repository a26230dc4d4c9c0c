/** STUN and ChannelData messages on a byte stream that may be cut anywhere. */
module TurnWire {
  import opened Basics
  import opened TurnCodec

  const MAX_CHANNEL_DATA := MAX_PACKET - 4

  datatype ReadError = EndOfStream | UnexpectedEnd | BadStunLength | ChannelDataTooLong | BadChannel | BadPrefix
  datatype ReadResult = Got(message: bytes) | Failed(error: ReadError)

  predicate IsChannelData(message: bytes)
    requires |message| >= 4
  {
    0x4000 <= Uint16(message[..2]) < 0x8000
  }

  /** The bytes write puts on the stream; None is its truncation error. */
  function FrameOf(message: bytes): Option<bytes> {
    if |message| >= 4 && IsChannelData(message) then
      var length := Uint16(message[2..4]);
      if length > |message| - 4 then None
      else Some(message[..4 + length] + Zeros(Padding(length)))
    else Some(message)
  }

  /** Take n bytes off the stream, as io.ReadFull does. */
  function TakeFull(data: bytes, n: nat): (Option<ReadError>, bytes, bytes) {
    if n <= |data| then (None, data[..n], data[n..])
    else (Some(if data == [] then EndOfStream else UnexpectedEnd), data, [])
  }

  /** One message off the front of the stream, and what is left. */
  function ReadFrame(data: bytes): (ReadResult, bytes) {
    var (e1, first, rest1) := TakeFull(data, 4);
    if e1.Some? then (Failed(e1.value), rest1)
    else if first[0] < 0x40 then
      var (e2, more, rest2) := TakeFull(rest1, HEADER_SIZE - 4);
      if e2.Some? then (Failed(e2.value), rest2)
      else
        var length := Uint16(first[2..4]);
        if length % 4 != 0 || length > MAX_PACKET - HEADER_SIZE then (Failed(BadStunLength), rest2)
        else
          var (e3, body, rest3) := TakeFull(rest2, length);
          if e3.Some? then (Failed(e3.value), rest3) else (Got(first + more + body), rest3)
    else if first[0] < 0x80 then
      var length := Uint16(first[2..4]);
      if length > MAX_CHANNEL_DATA then (Failed(ChannelDataTooLong), rest1)
      else
        var (e2, body, rest2) := TakeFull(rest1, RoundUp4(length));
        if e2.Some? then (Failed(e2.value), rest2) else (Got(first + body[..length]), rest2)
    else (Failed(BadPrefix), rest1)
  }

  /** A framed STUN message, or ChannelData of exactly its stated length. */
  predicate Deliverable(message: bytes) {
    || (&& HEADER_SIZE <= |message| <= MAX_PACKET
        && message[0] < 0x40
        && Uint16(message[2..4]) == |message| - HEADER_SIZE
        && Uint16(message[2..4]) % 4 == 0)
    || (&& 4 <= |message| <= MAX_PACKET
        && 0x40 <= message[0] < 0x80
        && Uint16(message[2..4]) == |message| - 4)
  }

  ghost predicate SurvivesTheWire(message: bytes) {
    && FrameOf(message).Some?
    && forall rest: bytes {:trigger FrameOf(message).value + rest} ::
         ReadFrame(FrameOf(message).value + rest) == (Got(message), rest)
  }

  lemma ReadStun(message: bytes, rest: bytes)
    requires HEADER_SIZE <= |message| <= MAX_PACKET && message[0] < 0x40
    requires Uint16(message[2..4]) == |message| - HEADER_SIZE && Uint16(message[2..4]) % 4 == 0
    ensures ReadFrame(message + rest) == (Got(message), rest)
  {
    var data := message + rest;
    var rest1, rest2 := data[4..], data[4..][HEADER_SIZE - 4..];
    EqualSlices(data, message, 2, 4);
    assert data[..4][2..4] == data[2..4];
    assert rest2 == data[HEADER_SIZE..];
    assert rest2[|message| - HEADER_SIZE..] == rest;
    assert data[..4] + rest1[..HEADER_SIZE - 4] + rest2[..|message| - HEADER_SIZE] == message;
  }

  lemma ReadChannelData(message: bytes, pad: bytes, rest: bytes)
    requires 4 <= |message| <= MAX_PACKET && 0x40 <= message[0] < 0x80
    requires Uint16(message[2..4]) == |message| - 4
    requires |pad| == Padding(|message| - 4)
    ensures ReadFrame(message + pad + rest) == (Got(message), rest)
  {
    var data := message + pad + rest;
    var length := |message| - 4;
    PaddingRoundsUp(length);
    EqualSlices(data, message, 2, 4);
    assert data[..4][2..4] == data[2..4];
    var rest1 := data[4..];
    var padded := message[4..] + pad;
    assert |padded| == RoundUp4(length) && rest1 == padded + rest;
    assert rest1[RoundUp4(length)..] == rest && rest1[..RoundUp4(length)] == padded;
    assert padded[..length] == message[4..];
    assert data[..4] + padded[..length] == message;
  }

  lemma DeliverableSurvives(message: bytes, rest: bytes)
    requires Deliverable(message)
    ensures FrameOf(message).Some?
    ensures ReadFrame(FrameOf(message).value + rest) == (Got(message), rest)
  {
    if message[0] < 0x40 {
      ReadStun(message, rest);
    } else {
      ReadChannelData(message, Zeros(Padding(|message| - 4)), rest);
      assert message[..|message|] == message;
    }
  }

  lemma SurvivorIsDeliverable(message: bytes)
    requires FrameOf(message).Some? && ReadFrame(FrameOf(message).value) == (Got(message), [])
    ensures Deliverable(message)
  {
    var f := FrameOf(message).value;
    assert |f| >= 4 && f[0] < 0x80;
    if f[0] < 0x40 {
      assert f == message;
    } else {
      assert message[0] == f[0];
      assert f[..4][2..4] == f[2..4];
      assert |message| >= 4;
      EqualSlices(f, message, 2, 4);
    }
  }

  /** A message crosses the stream unchanged exactly when it is deliverable. */
  lemma SurvivesExactlyDeliverable(message: bytes)
    ensures SurvivesTheWire(message) <==> Deliverable(message)
  {
    if Deliverable(message) {
      DeliverableSurvives(message, []);
      forall rest: bytes {:trigger FrameOf(message).value + rest}
        ensures ReadFrame(FrameOf(message).value + rest) == (Got(message), rest)
      {
        DeliverableSurvives(message, rest);
      }
    } else if SurvivesTheWire(message) {
      assert FrameOf(message).value + [] == FrameOf(message).value;
      SurvivorIsDeliverable(message);
    }
  }

  /** The end of the stream where `got` of some bytes were there: clean before the first of them only. */
  function EndAfter(got: nat): ReadError { if got == 0 then EndOfStream else UnexpectedEnd }

  /** The 16-bit length at bytes two and three. */
  function LengthAt(data: bytes): nat
    requires |data| >= 4
  {
    data[2] as int * 256 + data[3]
  }

  /** Every verdict of a read, on any bytes: each error with its cause, and what a successful one takes. */
  lemma ReadVerdicts(data: bytes)
    ensures var (result, rest) := ReadFrame(data);
            if |data| < 4 then result == Failed(EndAfter(|data|)) && rest == []
            else
              var length := LengthAt(data);
              if data[0] >= 0x80 then result == Failed(BadPrefix) && rest == data[4..]
              else if data[0] >= 0x40 then
                var padded := RoundUp4(length);
                if length > 65532 then result == Failed(ChannelDataTooLong) && rest == data[4..]
                else if |data| - 4 < padded then result == Failed(EndAfter(|data| - 4)) && rest == []
                else result == Got(data[..4 + length]) && rest == data[4 + padded..]
              else if |data| < 20 then result == Failed(EndAfter(|data| - 4)) && rest == []
              else if length % 4 != 0 || length > 65516 then result == Failed(BadStunLength) && rest == data[20..]
              else if |data| - 20 < length then result == Failed(EndAfter(|data| - 20)) && rest == []
              else result == Got(data[..20 + length]) && rest == data[20 + length..]
  {
    if |data| >= 4 {
      assert data[..4][2..4] == data[2..4];
      assert Uint16(data[..4][2..4]) == LengthAt(data);
      hide Uint16;
      if data[0] >= 0x40 {
        var length := LengthAt(data);
        if data[0] < 0x80 && length <= 65532 && |data| - 4 >= RoundUp4(length) {
          assert data[..4] + data[4..][..RoundUp4(length)][..length] == data[..4 + length];
          assert data[4..][RoundUp4(length)..] == data[4 + RoundUp4(length)..];
        }
      } else if |data| >= 20 {
        var length := LengthAt(data);
        assert data[4..][16..] == data[20..];
        if length % 4 == 0 && length <= |data| - 20 {
          assert data[..4] + data[4..][..16] + data[20..][..length] == data[..20 + length];
          assert data[20..][length..] == data[20 + length..];
        }
      }
    }
  }

  /** What is put on the stream: ChannelData cut to its length and padded with zeros, anything else as it is. */
  lemma FrameVerdicts(message: bytes)
    ensures var channel := |message| >= 4 && 0x40 <= message[0] < 0x80;
            && (!channel ==> FrameOf(message) == Some(message))
            && (channel && LengthAt(message) > |message| - 4 ==> FrameOf(message).None?)
            && (channel && LengthAt(message) <= |message| - 4 ==>
                  && FrameOf(message).Some?
                  && var f, n := FrameOf(message).value, 4 + LengthAt(message);
                     |f| % 4 == 0 && n <= |f| < n + 4 && f[..n] == message[..n] && forall k | n <= k < |f| :: f[k] == 0)
  {
    if |message| >= 4 {
      assert Uint16(message[..2]) == message[0] as int * 256 + message[1];
      assert Uint16(message[2..4]) == LengthAt(message);
      hide Uint16;
      PaddingAligns(LengthAt(message));
    }
  }

  function Frames(messages: seq<bytes>): bytes
    requires forall m | m in messages :: Deliverable(m)
  {
    if messages == [] then [] else
      DeliverableSurvives(messages[0], []);
      FrameOf(messages[0]).value + Frames(messages[1..])
  }

  /** How many of n bytes get out when the transport accepts `taken` bytes per write and fails at a zero. */
  function Pushed(taken: seq<nat>, n: nat): (k: nat)
    ensures k <= n
  {
    if n == 0 || taken == [] || taken[0] == 0 then 0
    else
      var k := Min(taken[0], n);
      k + Pushed(taken[1..], n - k)
  }

  /** Everything is pushed exactly when some number of non-empty writes accepts that much. */
  lemma {:induction false} PushedExactly(taken: seq<nat>, n: nat)
    ensures Pushed(taken, n) == n <==>
              exists k :: 0 <= k <= |taken| && (forall j | 0 <= j < k :: taken[j] > 0) && Sum(taken[..k]) >= n
    decreases |taken|
  {
    if n == 0 {
      assert taken[..0] == [] && Sum(taken[..0]) >= n;
    } else if taken == [] || taken[0] == 0 {
      forall k | 0 <= k <= |taken| && (forall j | 0 <= j < k :: taken[j] > 0) ensures Sum(taken[..k]) < n {
        assert k == 0 && taken[..0] == [];
      }
    } else {
      var c := Min(taken[0], n);
      PushedExactly(taken[1..], n - c);
      if Pushed(taken[1..], n - c) == n - c {
        var k :| 0 <= k <= |taken[1..]| && (forall j | 0 <= j < k :: taken[1..][j] > 0) && Sum(taken[1..][..k]) >= n - c;
        assert taken[..k + 1][1..] == taken[1..][..k];
        assert forall j | 0 <= j < k + 1 :: j == 0 || taken[j] == taken[1..][j - 1];
        assert Sum(taken[..k + 1]) >= n;
      }
      if k :| 0 <= k <= |taken| && (forall j | 0 <= j < k :: taken[j] > 0) && Sum(taken[..k]) >= n {
        assert k > 0 by { assert taken[..0] == []; }
        assert taken[..k][1..] == taken[1..][..k - 1];
        assert forall j | 0 <= j < k - 1 :: taken[1..][j] == taken[j + 1];
      }
    }
  }

  function Sum(taken: seq<nat>): nat { if taken == [] then 0 else taken[0] + Sum(taken[1..]) }

  // ----- the wire object -----

  class Wire {
    /** Segments still to arrive; the stream ends after the last one. */
    var inbound: seq<bytes>
    var outbound: bytes

    ghost function Data(): bytes
      reads this
    {
      Flatten(inbound)
    }

    constructor (segments: seq<bytes>)
      ensures inbound == segments && outbound == []
    {
      inbound, outbound := segments, [];
    }

    /** io.ReadFull: as many reads as it takes, each returning at most the segment at hand. */
    method ReadFull(n: nat) returns (error: Option<ReadError>, data: bytes)
      modifies this`inbound
      ensures (error, data, Data()) == TakeFull(old(Data()), n)
    {
      data := [];
      assert data + Data() == old(Data());
      while |data| < n
        invariant |data| <= n
        invariant data + Data() == old(Data())
        decreases n - |data|, |inbound|
      {
        if inbound == [] {
          assert data + [] == data;
          error := Some(if data == [] then EndOfStream else UnexpectedEnd);
          return;
        }
        var segment := inbound[0];
        var k := Min(n - |data|, |segment|);
        assert Data() == segment + Flatten(inbound[1..]);
        assert segment == segment[..k] + segment[k..];
        assert data + (segment + Flatten(inbound[1..])) == data + segment[..k] + (segment[k..] + Flatten(inbound[1..]));
        if k == |segment| {
          inbound := inbound[1..];
        } else {
          ghost var tail := inbound[1..];
          inbound := [segment[k..]] + inbound[1..];
          assert inbound[1..] == tail;
        }
        data := data + segment[..k];
      }
      error := None;
    }

    /** turnWire.read in stream mode. */
    method Read() returns (result: ReadResult)
      modifies this`inbound
      ensures (result, Data()) == ReadFrame(old(Data()))
    {
      var e, first := ReadFull(4);
      if e.Some? {
        return Failed(e.value);
      }
      if first[0] < 0x40 {
        var e2, more := ReadFull(HEADER_SIZE - 4);
        if e2.Some? {
          return Failed(e2.value);
        }
        var length := Uint16(first[2..4]);
        if length % 4 != 0 || length > MAX_PACKET - HEADER_SIZE {
          return Failed(BadStunLength);
        }
        var e3, body := ReadFull(length);
        if e3.Some? {
          return Failed(e3.value);
        }
        return Got(first + more + body);
      } else if first[0] < 0x80 {
        var channel := Uint16(first[..2]);
        if channel < 0x4000 || channel > 0x7fff {
          return Failed(BadChannel);
        }
        var length := Uint16(first[2..4]);
        if length > MAX_PACKET - 4 {
          return Failed(ChannelDataTooLong);
        }
        var padded := RoundUp4(length);
        var e2, body := ReadFull(padded);
        if e2.Some? {
          return Failed(e2.value);
        }
        return Got(first + body[..length]);
      }
      return Failed(BadPrefix);
    }

    /**
     * turnWire.write in stream mode. `taken` lists how many bytes each underlying write accepts; a
     * write that accepts none, or runs out of answers, is the transport failing.
     */
    method Write(message: bytes, taken: seq<nat>) returns (ok: bool)
      modifies this`outbound
      ensures FrameOf(message).None? ==> !ok && outbound == old(outbound)
      ensures FrameOf(message).Some? ==>
                var frame := FrameOf(message).value;
                var k := Pushed(taken, |frame|);
                outbound == old(outbound) + frame[..k] && (ok <==> k == |frame|)
    {
      var frame := message;
      if |message| >= 4 && 0x4000 <= Uint16(message[..2]) < 0x8000 {
        var length := Uint16(message[2..4]);
        if length > |message| - 4 {
          return false;
        }
        frame := message[..4 + length] + Zeros(Padding(length));
      }
      ok := Push(frame, taken);
    }

    /** The loop of write: push what is left until nothing is. */
    method Push(frame: bytes, taken: seq<nat>) returns (ok: bool)
      modifies this`outbound
      ensures outbound == old(outbound) + frame[..Pushed(taken, |frame|)]
      ensures ok <==> Pushed(taken, |frame|) == |frame|
    {
      var i, done := 0, 0;
      assert taken[0..] == taken && frame[..0] == [];
      while done < |frame|
        invariant 0 <= i <= |taken| && 0 <= done <= |frame|
        invariant outbound == old(outbound) + frame[..done]
        invariant Pushed(taken, |frame|) == done + Pushed(taken[i..], |frame| - done)
        decreases |frame| - done
      {
        if i == |taken| || taken[i] == 0 {
          return false;
        }
        var n := Min(taken[i], |frame| - done);
        assert taken[i..][1..] == taken[i + 1..];
        assert frame[..done] + frame[done..done + n] == frame[..done + n];
        outbound := outbound + frame[done..done + n];
        i, done := i + 1, done + n;
      }
      return true;
    }

    /** Main result: however the stream is cut, repeated reads return exactly the messages written. */
    method ReadAll(count: nat, ghost messages: seq<bytes>) returns (got: seq<bytes>, end: ReadResult)
      requires count == |messages|
      requires forall m | m in messages :: Deliverable(m)
      requires Data() == Frames(messages)
      modifies this`inbound
      ensures got == messages && end == Failed(EndOfStream)
    {
      got := [];
      for i := 0 to count
        invariant got == messages[..i]
        invariant Data() == Frames(messages[i..])
      {
        DeliverableSurvives(messages[i], Frames(messages[i + 1..]));
        assert messages[i..][1..] == messages[i + 1..];
        var result := Read();
        got := got + [result.message];
      }
      end := Read();
    }
  }

  predicate AllPushed(message: bytes, taken: seq<nat>) {
    FrameOf(message).Some? && Pushed(taken, |FrameOf(message).value|) == |FrameOf(message).value|
  }

  /** Writing a list of messages puts exactly their frames on the wire, short writes or not. */
  method WriteAll(wire: Wire, messages: seq<bytes>, taken: seq<seq<nat>>) returns (ok: bool)
    requires forall m | m in messages :: Deliverable(m)
    requires |taken| == |messages| && wire.outbound == []
    modifies wire`outbound
    ensures ok ==> wire.outbound == Frames(messages)
    ensures ok <==> forall k | 0 <= k < |messages| :: AllPushed(messages[k], taken[k])
  {
    for i := 0 to |messages|
      invariant wire.outbound == Frames(messages[..i])
      invariant forall k | 0 <= k < i :: AllPushed(messages[k], taken[k])
    {
      assert messages[..i + 1] == messages[..i] + [messages[i]];
      FramesAppend(messages[..i], messages[i]);
      ok := wire.Write(messages[i], taken[i]);
      if !ok {
        assert !AllPushed(messages[i], taken[i]);
        return;
      }
    }
    assert messages[..|messages|] == messages;
    return true;
  }

  lemma FramesAppend(a: seq<bytes>, m: bytes)
    requires (forall x | x in a :: Deliverable(x)) && Deliverable(m)
    ensures FrameOf(m).Some? && Frames(a + [m]) == Frames(a) + FrameOf(m).value
  {
    DeliverableSurvives(m, []);
    FramesConcat(a, [m]);
    assert [m][1..] == [];
    assert FrameOf(m).value + [] == FrameOf(m).value;
  }

  lemma {:induction false} FramesConcat(a: seq<bytes>, b: seq<bytes>)
    requires (forall x | x in a :: Deliverable(x)) && (forall x | x in b :: Deliverable(x))
    ensures forall x | x in a + b :: Deliverable(x)
    ensures Frames(a + b) == Frames(a) + Frames(b)
  {
    hide Deliverable, FrameOf, ReadFrame;
    if a == [] {
      assert a + b == b;
    } else {
      var ab := a + b;
      assert ab[1..] == a[1..] + b && ab[0] == a[0];
      DeliverableSurvives(a[0], []);
      FramesConcat(a[1..], b);
      assert Frames(ab) == FrameOf(a[0]).value + (Frames(a[1..]) + Frames(b));
    }
  }
}
