/** The tunnel and its stream objects, updated in place. */
module TunnelStreams {
  import opened Basics
  import opened TunnelMux

  /** Index of the first refused write among the first n, or n. */
  function FirstRefusal(accepted: seq<bool>, n: nat): (k: nat)
    requires n <= |accepted|
    ensures k <= n && (forall j | 0 <= j < k :: accepted[j]) && (k < n ==> !accepted[k])
  {
    if n == 0 || !accepted[0] then 0 else 1 + FirstRefusal(accepted[1..], n - 1)
  }

  lemma FirstRefusalUnique(accepted: seq<bool>, n: nat, k: nat)
    requires k <= n <= |accepted|
    requires (forall j | 0 <= j < k :: accepted[j]) && (k < n ==> !accepted[k])
    ensures FirstRefusal(accepted, n) == k
  {
  }

  lemma {:induction false} FragmentAt(p: bytes, k: nat)
    requires k * MAX_CHUNK < |p|
    ensures k < |Fragments(p)|
    ensures Fragments(p)[k] == p[k * MAX_CHUNK..Min((k + 1) * MAX_CHUNK, |p|)]
    decreases k
  {
    var n := Min(MAX_CHUNK, |p|);
    assert Fragments(p) == [p[..n]] + Fragments(p[n..]);
    hide Fragments;
    if k > 0 {
      FragmentAt(p[n..], k - 1);
      TailChunk(p, k);
      assert Fragments(p)[k] == Fragments(p[n..])[k - 1];
    }
  }

  lemma TailChunk(p: bytes, k: nat)
    requires 0 < k && k * MAX_CHUNK < |p|
    ensures p[MAX_CHUNK..][(k - 1) * MAX_CHUNK..Min(k * MAX_CHUNK, |p| - MAX_CHUNK)] == p[k * MAX_CHUNK..Min((k + 1) * MAX_CHUNK, |p|)]
  {
    SliceOfSlice(p, MAX_CHUNK, |p|, k * MAX_CHUNK, Min((k + 1) * MAX_CHUNK, |p|));
  }

  lemma {:induction false} FragmentCount(p: bytes, k: nat)
    requires k * MAX_CHUNK >= |p| && (k > 0 ==> (k - 1) * MAX_CHUNK < |p|)
    ensures |Fragments(p)| == k
    decreases k
  {
    if k > 0 {
      var n := Min(MAX_CHUNK, |p|);
      assert Fragments(p) == [p[..n]] + Fragments(p[n..]);
      FragmentCount(p[n..], k - 1);
    }
  }

  class P2PStream {
    const id: u32
    var initial: bytes
    var readBuf: bytes
    var closed: bool
    ghost var taken: bytes

    /** Everything the stream took in: first payload, bytes already read, bytes waiting. */
    ghost function Intake(): bytes
      reads this
    {
      initial + taken + readBuf
    }

    constructor (id: u32, initial: bytes)
      ensures this.id == id && Intake() == initial && this.initial == initial && readBuf == [] && !closed
    {
      this.id, this.initial, readBuf, closed, taken := id, initial, [], false, [];
    }

    /** Read once data or the end of the stream is there. */
    method Read(capacity: nat) returns (data: bytes, eof: bool)
      requires readBuf != [] || closed
      modifies this`readBuf, this`taken
      ensures Intake() == old(Intake())
      ensures eof <==> old(readBuf) == []
      ensures data + readBuf == old(readBuf) && |data| == Min(capacity, |old(readBuf)|)
    {
      if readBuf == [] {
        return [], true;
      }
      var n := Min(capacity, |readBuf|);
      data, eof := readBuf[..n], false;
      taken := taken + data;
      readBuf := readBuf[n..];
    }

    /**
     * Write: one frame per chunk, in order, until the connection refuses one. `accepted` holds the
     * connection's answers; `handed` lists the frames given to it.
     */
    method Write(p: bytes, accepted: seq<bool>) returns (written: nat, failed: bool, handed: seq<bytes>)
      requires |accepted| >= |Fragments(p)|
      ensures closed ==> failed && written == 0 && handed == []
      ensures !closed ==>
        var k := FirstRefusal(accepted, |Fragments(p)|);
        && (failed <==> k < |Fragments(p)|)
        && handed == WholeFrames(id, p)[..Min(k + 1, |Fragments(p)|)]
        && written == Min(k * MAX_CHUNK, |p|)
        && Flatten(Fragments(p)[..k]) == p[..written]
    {
      written, failed, handed := 0, closed, [];
      if closed {
        return;
      }
      ghost var k := 0;
      assert Fragments(p)[..0] == [];
      while written < |p|
        invariant written == Min(k * MAX_CHUNK, |p|)
        invariant k <= |Fragments(p)| && (written < |p| ==> written == k * MAX_CHUNK)
        invariant written == |p| ==> k == |Fragments(p)|
        invariant forall j | 0 <= j < k :: accepted[j]
        invariant |handed| == k && handed == WholeFrames(id, p)[..k]
        invariant Flatten(Fragments(p)[..k]) == p[..written]
        decreases |p| - written
      {
        var end := written + MAX_PAYLOAD - HEADER;
        if end > |p| {
          end := |p|;
        }
        var chunk := p[written..end];
        FragmentAt(p, k);
        var frame := Encode(Message(MSG_DATA, id, chunk));
        FragmentsSendable(p);
        assert WholeFrames(id, p)[k] == frame;
        assert handed + [frame] == WholeFrames(id, p)[..k + 1];
        handed := handed + [frame];
        if !accepted[|handed| - 1] {
          failed := true;
          FirstRefusalUnique(accepted, |Fragments(p)|, k);
          return;
        }
        assert Fragments(p)[..k + 1] == Fragments(p)[..k] + [chunk];
        FlattenSingle(Fragments(p)[..k], chunk);
        assert p[..end] == p[..written] + chunk;
        if end == |p| {
          FragmentCount(p, k + 1);
        }
        written := end;
        k := k + 1;
      }
      if |p| == 0 { FragmentCount(p, 0); }
      FirstRefusalUnique(accepted, |Fragments(p)|, k);
    }
  }

  lemma FragmentsSendable(p: bytes)
    ensures forall k | 0 <= k < |Fragments(p)| :: |Fragments(p)[k]| <= MAX_CHUNK
  {
    FragmentsPartition(p);
  }

  /** The frames one Write sends when nothing fails. */
  function WholeFrames(id: u32, p: bytes): (frames: seq<bytes>)
    ensures |frames| == |Fragments(p)|
  {
    FragmentsSendable(p);
    DataFrames(id, Fragments(p))
  }

  class P2PTunnel {
    var streams: map<u32, P2PStream>
    var nextID: u32
    const streamStep: u32
    var closed: bool

    ghost predicate Valid()
      reads this, streams.Values
    {
      forall i | i in streams :: streams[i].id == i
    }

    ghost function Intakes(): map<u32, bytes>
      reads this, streams.Values
    {
      map i | i in streams :: streams[i].Intake()
    }

    constructor WithRole(controlling: bool)
      ensures Valid() && Intakes() == map[] && !closed
      ensures streamStep == 2 && (nextID + 2) % TWO_32 == OpenedId(controlling, 0)
    {
      streams, streamStep, closed := map[], 2, false;
      nextID := if controlling then 0 else TWO_32 - 1;
    }

    /** OpenStream: the next ID of this role, wrapping at 2^32. */
    method OpenStream() returns (stream: Option<P2PStream>)
      requires Valid()
      modifies this`nextID, this`streams
      ensures Valid()
      ensures closed ==> stream.None? && Intakes() == old(Intakes()) && nextID == old(nextID)
      ensures !closed ==>
        && nextID == (old(nextID) + streamStep) % TWO_32
        && stream.Some? && stream.value.id == nextID && fresh(stream.value)
        && Intakes() == Handle(old(Intakes()), Open(nextID))
    {
      if closed {
        return None;
      }
      nextID := (nextID + streamStep) % TWO_32;
      var s := new P2PStream(nextID, []);
      streams := streams[nextID := s];
      stream := Some(s);
    }

    /** A new incoming stream starts with its first payload. */
    method AddIncoming(id: u32, payload: bytes)
      requires Valid()
      modifies this`streams
      ensures Valid() && streams.Keys == old(streams.Keys) + {id}
      ensures Intakes() == old(Intakes())[id := payload]
      ensures fresh(streams[id]) && !streams[id].closed && streams[id].Intake() == streams[id].initial
      ensures forall i | i in old(streams) && i != id :: streams[i] == old(streams)[i]
    {
      var s := new P2PStream(id, payload);
      streams := streams[id := s];
    }

    method Append(id: u32, payload: bytes)
      requires Valid() && id in streams
      modifies streams[id]
      ensures Valid()
      ensures Intakes() == old(Intakes())[id := old(Intakes())[id] + payload]
      ensures streams[id].closed == old(streams[id].closed)
    {
      var stream := streams[id];
      ghost var before := stream.Intake();
      stream.readBuf := stream.readBuf + payload;
      assert stream.Intake() == before + payload;
    }

    /** The peer closed the stream. */
    method Remove(id: u32)
      requires Valid() && id in streams
      modifies this`streams, streams[id]
      ensures Valid()
      ensures streams == old(streams) - {id} && old(streams)[id].closed
      ensures Intakes() == old(Intakes()) - {id}
    {
      streams[id].closed := true;
      streams := streams - {id};
    }

    /** One record through the body of readLoop. */
    method DispatchRecord(record: bytes)
      requires Valid()
      modifies this`streams, streams.Values
      ensures Valid()
      ensures Intakes() == Dispatch(old(Intakes()), record)
      ensures var m := Decode(record);
              && (m.Some? && m.value.kind == MSG_CLOSE && m.value.id in old(streams) ==>
                    m.value.id !in streams && old(streams)[m.value.id].closed)
              && (forall i | i in old(streams) && !(m.Some? && m.value.kind == MSG_CLOSE && m.value.id == i) ::
                    i in streams && streams[i] == old(streams)[i] && streams[i].closed == old(streams[i].closed))
              && (forall i | i in streams && i !in old(streams) :: !streams[i].closed && streams[i].Intake() == streams[i].initial)
    {
      if |record| < HEADER {
        return;
      }
      var kind := record[0];
      var streamID := Uint32(record[1..5]);
      var payloadLen := Uint32(record[5..9]);
      if payloadLen > |record| - HEADER {
        return;
      }
      var payload := record[HEADER..HEADER + payloadLen];
      assert Decode(record) == Some(Message(kind, streamID, payload));
      hide Decode, Uint32, Uint16;
      if streamID !in streams {
        if kind == MSG_DATA {
          AddIncoming(streamID, payload);
        }
        return;
      }
      if kind == MSG_DATA {
        Append(streamID, payload);
      } else if kind == MSG_CLOSE {
        Remove(streamID);
      }
    }
  }
}
