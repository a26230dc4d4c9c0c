/** Streams multiplexed as frames over the record connection. */
module TunnelMux {
  import opened Basics
  import ConsentConn
  import RL = ReliableLink

  const HEADER := 9
  const MAX_PAYLOAD := 65000
  const MAX_CHUNK := MAX_PAYLOAD - HEADER
  const MSG_DATA: byte := 1
  const MSG_CLOSE: byte := 2

  datatype Message = Message(kind: byte, id: u32, payload: bytes)

  /** writeFrame: type, stream ID, payload length, payload. */
  function Encode(m: Message): (frame: bytes)
    requires |m.payload| <= MAX_CHUNK
    ensures |frame| == HEADER + |m.payload| <= ConsentConn.MAX_APPLICATION_RECORD
  {
    [m.kind] + PutUint32(m.id) + PutUint32(|m.payload|) + m.payload
  }

  /** The checks of readLoop on one record; None is a record it skips. */
  function Decode(record: bytes): Option<Message> {
    if |record| < HEADER then None
    else
      var length := Uint32(record[5..9]);
      if length > |record| - HEADER then None
      else Some(Message(record[0], Uint32(record[1..5]), record[HEADER..HEADER + length]))
  }

  lemma FrameRoundTrip(m: Message)
    requires |m.payload| <= MAX_CHUNK
    ensures Decode(Encode(m)) == Some(m)
  {
    var f := Encode(m);
    assert f[1..5] == PutUint32(m.id) + [];
    assert f[5..9] == PutUint32(|m.payload|) + [];
    Uint32RoundTrip(m.id, []);
    Uint32RoundTrip(|m.payload|, []);
    assert f[HEADER..HEADER + |m.payload|] == m.payload;
  }

  /** A frame on the wire, whatever its length: type, stream ID and length big-endian, then the payload. */
  function Framed(m: Message): bytes
    requires |m.payload| < TWO_32
  {
    [m.kind] + PutUint32(m.id) + PutUint32(|m.payload|) + m.payload
  }

  /** Where everything stands in a frame. */
  lemma FrameLayout(m: Message)
    requires |m.payload| <= MAX_CHUNK
    ensures var f := Encode(m);
            && f[0] == m.kind && f[9..] == m.payload
            && m.id == f[1] as int * 0x100_0000 + f[2] as int * TWO_16 + f[3] as int * 256 + f[4]
            && |m.payload| == f[5] as int * 0x100_0000 + f[6] as int * TWO_16 + f[7] as int * 256 + f[8]
  {
    BigEndian(m.id, Encode(m));
    BigEndian(|m.payload|, Encode(m));
    hide PutUint32;
    var f := Encode(m);
    assert f[1..5] == PutUint32(m.id) && f[5..9] == PutUint32(|m.payload|);
    assert f[1] == PutUint32(m.id)[0] && f[2] == PutUint32(m.id)[1] && f[3] == PutUint32(m.id)[2] && f[4] == PutUint32(m.id)[3];
  }

  /** Exactly the records that begin with a whole frame are dispatched, as that frame; what follows it is ignored. */
  lemma DecodeExactly(record: bytes, m: Message)
    ensures Decode(record) == Some(m) <==> |m.payload| < TWO_32 && Framed(m) <= record
    ensures Decode(record).None? <==> |record| < HEADER || Uint32(record[5..9]) > |record| - HEADER
  {
    hide PutUint32;
    if Decode(record) == Some(m) {
      var length := Uint32(record[5..9]);
      Uint32Bytes(record[1..5]);
      Uint32Bytes(record[5..9]);
      hide Uint32;
      assert record[..HEADER + length] == [record[0]] + record[1..5] + record[5..9] + record[HEADER..HEADER + length];
      assert Framed(m) == record[..HEADER + length];
    }
    if |m.payload| < TWO_32 && Framed(m) <= record {
      var n, f := |m.payload|, Framed(m);
      Uint32RoundTrip(m.id, []);
      Uint32RoundTrip(n, []);
      hide Uint32;
      assert record[1..5] == f[1..5] == PutUint32(m.id) + [];
      assert record[5..9] == f[5..9] == PutUint32(n) + [];
      assert record[HEADER..HEADER + n] == f[HEADER..HEADER + n] == m.payload;
    }
  }

  lemma Uint32Bytes(b: bytes)
    requires |b| == 4
    ensures PutUint32(Uint32(b)) == b
  {
    var hi, lo := Uint16(b[..2]), Uint16(b[2..4]);
    assert Uint32(b) / TWO_16 == hi && Uint32(b) % TWO_16 == lo;
    assert hi / 256 == b[0] && hi % 256 == b[1] && lo / 256 == b[2] && lo % 256 == b[3];
  }

  // ----- fragmentation -----

  function Fragments(p: bytes): (chunks: seq<bytes>)
    decreases |p|
  {
    if p == [] then [] else
      var n := Min(MAX_CHUNK, |p|);
      [p[..n]] + Fragments(p[n..])
  }

  /** Fragments partition the buffer, each is sendable, and only the last may be short. */
  lemma {:induction false} FragmentsPartition(p: bytes)
    ensures Flatten(Fragments(p)) == p
    ensures forall k | 0 <= k < |Fragments(p)| :: 0 < |Fragments(p)[k]| <= MAX_CHUNK
    ensures forall k | 0 <= k < |Fragments(p)| - 1 :: |Fragments(p)[k]| == MAX_CHUNK
    decreases |p|
  {
    if p != [] {
      var n := Min(MAX_CHUNK, |p|);
      var rest := Fragments(p[n..]);
      FragmentsPartition(p[n..]);
      assert Fragments(p) == [p[..n]] + rest;
      assert Fragments(p)[1..] == rest;
      assert p == p[..n] + p[n..];
      if n < MAX_CHUNK { assert p[n..] == [] && rest == []; }
    }
  }

  function DataFrames(id: u32, chunks: seq<bytes>): seq<bytes>
    requires forall k | 0 <= k < |chunks| :: |chunks[k]| <= MAX_CHUNK
  {
    seq(|chunks|, k requires 0 <= k < |chunks| => Encode(Message(MSG_DATA, id, chunks[k])))
  }

  // ----- the receiving tunnel on values: stream ID to the bytes taken in -----

  function Dispatch(streams: map<u32, bytes>, record: bytes): map<u32, bytes> {
    match Decode(record)
    case None => streams
    case Some(Message(kind, id, payload)) =>
      if kind == MSG_DATA then
        (if id in streams then streams[id := streams[id] + payload] else streams[id := payload])
      else if kind == MSG_CLOSE then streams - {id}
      else streams
  }

  datatype Event = Arrive(record: bytes) | Open(id: u32) | CloseHere(id: u32)

  function Handle(streams: map<u32, bytes>, e: Event): map<u32, bytes> {
    match e
    case Arrive(record) => Dispatch(streams, record)
    case Open(id) => streams[id := []]
    case CloseHere(id) => streams - {id}
  }

  function HandleAll(streams: map<u32, bytes>, events: seq<Event>): map<u32, bytes>
    decreases |events|
  {
    if events == [] then streams else HandleAll(Handle(streams, events[0]), events[1..])
  }

  function Arrivals(events: seq<Event>): seq<bytes> {
    if events == [] then [] else
      (if events[0].Arrive? then [events[0].record] else []) + Arrivals(events[1..])
  }

  function Carried(id: u32, record: bytes): bytes {
    match Decode(record)
    case Some(Message(kind, i, payload)) => if kind == MSG_DATA && i == id then payload else []
    case None => []
  }

  /** Payload bytes a list of records carries for one stream. */
  function DataOf(id: u32, records: seq<bytes>): bytes {
    if records == [] then [] else Carried(id, records[0]) + DataOf(id, records[1..])
  }

  predicate Closes(id: u32, e: Event) {
    match e
    case Arrive(record) => Decode(record).Some? && Decode(record).value.kind == MSG_CLOSE && Decode(record).value.id == id
    case Open(_) => false
    case CloseHere(i) => i == id
  }

  /** No event closes the stream, and this end opens it only while it is absent. */
  predicate StaysOpen(id: u32, streams: map<u32, bytes>, events: seq<Event>)
    decreases |events|
  {
    events == [] ||
    (!Closes(id, events[0]) && (events[0] == Open(id) ==> id !in streams)
     && StaysOpen(id, Handle(streams, events[0]), events[1..]))
  }

  /** Every stream but one is as before. */
  ghost predicate OthersSame(before: map<u32, bytes>, after: map<u32, bytes>, id: u32) {
    forall k | k != id :: (k in after <==> k in before) && (k in before ==> after[k] == before[k])
  }

  /** What each event does to the stream it names, and that it touches no other. */
  lemma EventEffect(streams: map<u32, bytes>, e: Event)
    ensures var after := Handle(streams, e);
            match e
            case Open(id) => id in after && after[id] == [] && OthersSame(streams, after, id)
            case CloseHere(id) => id !in after && OthersSame(streams, after, id)
            case Arrive(record) =>
              match Decode(record)
              case None => after == streams
              case Some(m) =>
                && OthersSame(streams, after, m.id)
                && (m.kind == MSG_CLOSE ==> m.id !in after)
                && (m.kind == MSG_DATA ==> m.id in after && after[m.id] == (if m.id in streams then streams[m.id] else []) + m.payload)
                && (m.kind != MSG_CLOSE && m.kind != MSG_DATA ==> after == streams)
  {
    if e.Arrive? && Decode(e.record).Some? {
      var m := Decode(e.record).value;
      assert [] + m.payload == m.payload;
    }
    hide Decode;
  }

  /** A close removes its stream and leaves every other one alone. */
  lemma CloseRemoves(id: u32, streams: map<u32, bytes>, e: Event)
    requires Closes(id, e)
    ensures id !in Handle(streams, e) && OthersSame(streams, Handle(streams, e), id)
  {
    EventEffect(streams, e);
    hide Decode;
  }

  /** The event creates the stream, or a new one under its ID. */
  predicate Creates(id: u32, e: Event) {
    match e
    case Arrive(record) => Decode(record).Some? && Decode(record).value.kind == MSG_DATA && Decode(record).value.id == id
    case Open(i) => i == id
    case CloseHere(_) => false
  }

  /** A stream that is absent appears with the first data frame or open of its ID, and not before. */
  lemma {:induction false} AbsentUntilCreated(id: u32, streams: map<u32, bytes>, events: seq<Event>)
    requires id !in streams && forall e | e in events :: !Creates(id, e)
    ensures id !in HandleAll(streams, events)
    decreases |events|
  {
    hide Decode, Handle;
    if events != [] {
      assert events[0] in events && forall e | e in events[1..] :: e in events;
      EventEffect(streams, events[0]);
      AbsentUntilCreated(id, Handle(streams, events[0]), events[1..]);
    }
  }

  lemma {:induction false} HandleAllAppend(streams: map<u32, bytes>, a: seq<Event>, b: seq<Event>)
    ensures HandleAll(streams, a + b) == HandleAll(HandleAll(streams, a), b)
    decreases |a|
  {
    hide Handle;
    if a == [] {
      assert a + b == b;
    } else {
      assert (a + b)[1..] == a[1..] + b;
      HandleAllAppend(Handle(streams, a[0]), a[1..], b);
    }
  }

  /** Main result: once a close was handled the stream is gone, until a data frame or an open of its ID. */
  lemma ClosedStaysGone(id: u32, streams: map<u32, bytes>, before: seq<Event>, e: Event, after: seq<Event>)
    requires Closes(id, e) && forall x | x in after :: !Creates(id, x)
    ensures id !in HandleAll(streams, before + [e] + after)
  {
    hide Decode, Handle;
    var here := HandleAll(streams, before);
    HandleAllAppend(streams, before + [e], after);
    HandleAllAppend(streams, before, [e]);
    assert [e][1..] == [];
    assert HandleAll(here, [e]) == Handle(here, e);
    CloseRemoves(id, here, e);
    AbsentUntilCreated(id, Handle(here, e), after);
  }

  function TakenIn(id: u32, streams: map<u32, bytes>): bytes {
    if id in streams then streams[id] else []
  }

  function Brought(id: u32, e: Event): bytes {
    if e.Arrive? then Carried(id, e.record) else []
  }

  lemma OneEvent(id: u32, streams: map<u32, bytes>, e: Event)
    requires !Closes(id, e) && (e == Open(id) ==> id !in streams)
    ensures TakenIn(id, Handle(streams, e)) == TakenIn(id, streams) + Brought(id, e)
  {
  }

  lemma ArrivalsData(id: u32, events: seq<Event>)
    requires events != []
    ensures DataOf(id, Arrivals(events)) == Brought(id, events[0]) + DataOf(id, Arrivals(events[1..]))
  {
    if events[0].Arrive? {
      assert Arrivals(events)[1..] == Arrivals(events[1..]);
    } else {
      assert Arrivals(events) == Arrivals(events[1..]);
    }
  }

  /** While the stream stays open it takes in exactly the data addressed to it, in order. */
  lemma {:induction false} OpenStreamTakesItsData(id: u32, streams: map<u32, bytes>, events: seq<Event>)
    requires StaysOpen(id, streams, events)
    ensures TakenIn(id, HandleAll(streams, events)) == TakenIn(id, streams) + DataOf(id, Arrivals(events))
    decreases |events|
  {
    if events != [] {
      hide Handle, Brought, TakenIn, DataOf, Arrivals;
      OneEvent(id, streams, events[0]);
      ArrivalsData(id, events);
      OpenStreamTakesItsData(id, Handle(streams, events[0]), events[1..]);
    }
  }

  lemma {:induction false} DataOfAppend(id: u32, a: seq<bytes>, b: seq<bytes>)
    ensures DataOf(id, a + b) == DataOf(id, a) + DataOf(id, b)
  {
    if a == [] {
      assert a + b == b;
    } else {
      assert (a + b)[1..] == a[1..] + b;
      DataOfAppend(id, a[1..], b);
    }
  }

  // ----- the sending side -----

  function EncodeAll(sent: seq<Message>): seq<bytes>
    requires forall m | m in sent :: |m.payload| <= MAX_CHUNK
  {
    if sent == [] then [] else [Encode(sent[0])] + EncodeAll(sent[1..])
  }

  /** The data chunks of one stream among everything the tunnel sent. */
  function ChunksOf(id: u32, sent: seq<Message>): seq<bytes> {
    if sent == [] then [] else
      (if sent[0].kind == MSG_DATA && sent[0].id == id then [sent[0].payload] else []) + ChunksOf(id, sent[1..])
  }

  lemma {:induction false} DataOfEncoded(id: u32, sent: seq<Message>)
    requires forall m | m in sent :: |m.payload| <= MAX_CHUNK
    ensures DataOf(id, EncodeAll(sent)) == Flatten(ChunksOf(id, sent))
  {
    if sent != [] {
      FrameRoundTrip(sent[0]);
      DataOfEncoded(id, sent[1..]);
      assert EncodeAll(sent)[1..] == EncodeAll(sent[1..]);
      assert DataOf(id, EncodeAll(sent)) == Carried(id, Encode(sent[0])) + DataOf(id, EncodeAll(sent[1..]));
      var rest := ChunksOf(id, sent[1..]);
      if sent[0].kind == MSG_DATA && sent[0].id == id {
        assert ChunksOf(id, sent) == [sent[0].payload] + rest;
        assert ChunksOf(id, sent)[1..] == rest;
      } else {
        assert ChunksOf(id, sent) == rest;
      }
    }
  }

  // ----- what the reader of the connection hands to the tunnel -----

  /** Results of every read that one side performed during a run. */
  function Reads(s: RL.Session, steps: seq<RL.Step>, side: RL.Side): seq<bytes> {
    if steps == [] then [] else
      var before, step := RL.Run(s, steps[..|steps| - 1]), steps[|steps| - 1];
      Reads(s, steps[..|steps| - 1], side) +
      (if step.side == side && RL.Enabled(RL.At(before, side), before.net, step.action) then ReadBy(RL.At(before, side), step.action) else [])
  }

  /** The dispatcher reads into a buffer that holds any application record. */
  predicate ReadsWholeRecords(steps: seq<RL.Step>, side: RL.Side) {
    forall k | 0 <= k < |steps| && steps[k].side == side ::
      (steps[k].action.Receive? ==> steps[k].action.capacity >= ConsentConn.MAX_APPLICATION_RECORD)
      && (steps[k].action.TakeBuffered? ==> steps[k].action.capacity >= ConsentConn.MAX_APPLICATION_RECORD)
  }

  /** Every sealed payload fits one application record. */
  lemma {:induction false} WrittenFits(s: RL.Session, steps: seq<RL.Step>)
    ensures forall p | p in RL.Run(s, steps).left.written :: |p| <= ConsentConn.MAX_APPLICATION_RECORD
    ensures forall p | p in RL.Run(s, steps).right.written :: |p| <= ConsentConn.MAX_APPLICATION_RECORD
    decreases |steps|
  {
    if steps != [] {
      WrittenFits(s, steps[..|steps| - 1]);
      WrittenFitsStep(RL.Run(s, steps[..|steps| - 1]), steps[|steps| - 1]);
    }
  }

  lemma WrittenFitsStep(l: RL.Link, step: RL.Step)
    ensures forall p | p in RL.Next(l, step).left.written :: p in l.left.written || |p| <= ConsentConn.MAX_APPLICATION_RECORD
    ensures forall p | p in RL.Next(l, step).right.written :: p in l.right.written || |p| <= ConsentConn.MAX_APPLICATION_RECORD
  {
  }

  /** The dispatcher of either end sees record boundaries: its reads carry what the connection released. */
  lemma {:induction false} ReadsCarryReleased(s: RL.Session, steps: seq<RL.Step>, side: RL.Side, id: u32)
    requires s.leftLabel != s.rightLabel && RL.BelowWrap(RL.Run(s, steps))
    requires ReadsWholeRecords(steps, side)
    ensures RL.At(RL.Run(s, steps), side).ep.readBuf == []
    ensures DataOf(id, Reads(s, steps, side)) == DataOf(id, RL.At(RL.Run(s, steps), side).released)
    decreases |steps|
  {
    if steps != [] {
      var prior, step := steps[..|steps| - 1], steps[|steps| - 1];
      var before := RL.Run(s, prior);
      RL.NextGrows(before, step);
      assert forall k | 0 <= k < |prior| :: prior[k] == steps[k];
      ReadsCarryReleased(s, prior, side, id);
      RL.RunInvariant(s, prior);
      WrittenFits(s, prior);
      hide RL.Run, RL.Act, RL.Enabled, DataOf, RL.DirectionOk;
      if step.side == side && RL.Enabled(RL.At(before, side), before.net, step.action) {
        ReadCarriesStep(RL.At(before, RL.Peer(side)), RL.At(before, side), before.net, step.action, id, Reads(s, prior, side));
      } else {
        assert RL.At(RL.Next(before, step), side) == RL.At(before, side);
        assert Reads(s, prior, side) + [] == Reads(s, prior, side);
      }
    }
  }

  /** What one step of the reading end hands to the dispatcher. */
  function ReadBy(n: RL.Node, a: RL.Action): seq<bytes> {
    match a
    case TakeBuffered(capacity) => if ConsentConn.HasBuffered(n.ep) then [ConsentConn.ReadBuffered(n.ep, capacity).data] else []
    case Receive(capacity, r) =>
      if !ConsentConn.HasBuffered(n.ep) && n.ep.readBuf == [] then [ConsentConn.ReadRecord(n.ep, capacity, r).data] else []
    case Write(_, _) | WakeUp(_) | Close | Probe(_) => []
  }

  lemma ReadCarriesStep(src: RL.Node, dst: RL.Node, net: set<ConsentConn.Record>, a: RL.Action, id: u32, got: seq<bytes>)
    requires RL.DirectionOk(src, dst, net) && RL.Enabled(dst, net, a)
    requires dst.ep.readBuf == []
    requires forall p | p in src.written :: |p| <= ConsentConn.MAX_APPLICATION_RECORD
    requires a.Receive? ==> a.capacity >= ConsentConn.MAX_APPLICATION_RECORD
    requires DataOf(id, got) == DataOf(id, dst.released)
    ensures RL.Act(dst, net, a).0.ep.readBuf == []
    ensures DataOf(id, got + ReadBy(dst, a)) == DataOf(id, RL.Act(dst, net, a).0.released)
  {
    hide RL.DirectionOk, DataOf, RL.Act, RL.Enabled;
    NothingParked(src, dst, net);
    ActedOn(dst, net, a);
    if a.Receive? {
      ReceivedFits(src, dst, net, a.capacity, a.r);
      ReceiveCarries(dst.ep, a.capacity, a.r);
      var read := ConsentConn.ReadRecord(dst.ep, a.capacity, a.r);
      DataOfAppend(id, got, [read.data]);
      DataOfAppend(id, dst.released, read.released);
      DataOfNothing(id, [read.data]);
    } else {
      assert got + [] == got;
    }
  }

  /** A step of an end with nothing buffered releases and reads something only by receiving. */
  lemma ActedOn(dst: RL.Node, net: set<ConsentConn.Record>, a: RL.Action)
    requires RL.Enabled(dst, net, a) && dst.ep.readBuf == [] && !ConsentConn.HasBuffered(dst.ep)
    ensures var n := RL.Act(dst, net, a).0;
            if a.Receive? then
              var read := ConsentConn.ReadRecord(dst.ep, a.capacity, a.r);
              n.ep.readBuf == read.conn.readBuf && n.released == dst.released + read.released && ReadBy(dst, a) == [read.data]
            else n.ep.readBuf == [] && n.released == dst.released && ReadBy(dst, a) == []
  {
  }

  lemma NothingParked(src: RL.Node, dst: RL.Node, net: set<ConsentConn.Record>)
    requires RL.DirectionOk(src, dst, net) && dst.ep.readBuf == []
    ensures !ConsentConn.HasBuffered(dst.ep)
  {
    hide RL.SenderOk;
  }

  lemma ReceivedFits(src: RL.Node, dst: RL.Node, net: set<ConsentConn.Record>, capacity: nat, r: ConsentConn.Record)
    requires RL.DirectionOk(src, dst, net) && RL.Enabled(dst, net, RL.Receive(capacity, r))
    requires forall p | p in src.written :: |p| <= ConsentConn.MAX_APPLICATION_RECORD
    ensures r.Data? && r.from == dst.ep.receiveLabel ==> |r.body| <= ConsentConn.MAX_APPLICATION_RECORD
  {
    hide RL.SenderOk, RL.ReceiverOk;
    if r in net && r.Data? && r.from == dst.ep.receiveLabel {
      assert RL.RecordOk(src, |dst.released|, r);
      assert r.body in src.written;
    }
  }

  /** Reading nothing carries nothing. */
  lemma DataOfNothing(id: u32, records: seq<bytes>)
    ensures records == [[]] ==> DataOf(id, records) == []
    ensures DataOf(id, []) == []
  {
    if records == [[]] { assert records[1..] == []; }
  }

  lemma ReceiveCarries(e: ConsentConn.Endpoint, capacity: nat, r: ConsentConn.Record)
    requires !ConsentConn.HasBuffered(e) && e.readBuf == []
    requires capacity >= ConsentConn.MAX_APPLICATION_RECORD
    requires r.Data? && r.from == e.receiveLabel ==> |r.body| <= ConsentConn.MAX_APPLICATION_RECORD
    ensures var read := ConsentConn.ReadRecord(e, capacity, r);
            && read.conn.readBuf == []
            && ((read.released == [] && read.data == []) || read.released == [read.data])
  {
    if r.Data? && r.from == e.receiveLabel { assert r.body[..|r.body|] == r.body; }
  }

  // ----- stream identifiers -----

  /** The k-th ID handed out by a role: the controlling peer starts from 0, the other from 2^32 - 1. */
  function OpenedId(controlling: bool, k: nat): u32 {
    var start := if controlling then 0 else TWO_32 - 1;
    (start + 2 * (k + 1)) % TWO_32
  }

  lemma DoubleModulo(x: nat, bit: nat)
    requires bit < 2
    ensures (2 * x + bit) % TWO_32 == 2 * (x % 0x8000_0000) + bit
  {
    var q, r := x / 0x8000_0000, x % 0x8000_0000;
    assert 2 * x + bit == q * TWO_32 + (2 * r + bit);
  }

  /** Every controlling ID is even and every controlled one odd, both counting through 2^31 values. */
  lemma OpenedIdValue(k: nat)
    ensures OpenedId(true, k) == 2 * ((k + 1) % 0x8000_0000)
    ensures OpenedId(false, k) == 2 * (k % 0x8000_0000) + 1
  {
    DoubleModulo(k + 1, 0);
    DoubleModulo(k, 1);
    assert TWO_32 - 1 + 2 * (k + 1) == (2 * k + 1) + TWO_32;
  }

  lemma NextModulo(j: nat, k: nat)
    ensures (j + 1) % 0x8000_0000 == (k + 1) % 0x8000_0000 <==> j % 0x8000_0000 == k % 0x8000_0000
  {
  }

  /** Opposite roles never collide, through any number of wraps; one role repeats exactly every 2^31 streams. */
  lemma StreamIds(j: nat, k: nat, controlling: bool)
    ensures OpenedId(true, j) != OpenedId(false, k)
    ensures OpenedId(controlling, j) == OpenedId(controlling, k) <==> j % 0x8000_0000 == k % 0x8000_0000
  {
    OpenedIdValue(j);
    OpenedIdValue(k);
    NextModulo(j, k);
    hide OpenedId;
  }

  /** Adding the step to the last ID, modulo 2^32, gives the next one. */
  lemma NextStreamId(k: nat, controlling: bool)
    ensures OpenedId(controlling, k + 1) == (OpenedId(controlling, k) + 2) % TWO_32
  {
    var start := if controlling then 0 else TWO_32 - 1;
    var x := start + 2 * (k + 1);
    assert (x + 2) % TWO_32 == (x % TWO_32 + 2) % TWO_32;
  }
}
