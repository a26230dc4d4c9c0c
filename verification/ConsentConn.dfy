/** One end of the encrypted record connection, in reliable mode. */
module ConsentConn {
  import opened Basics
  import opened ReplayWindow
  import Word64

  const MAX_APPLICATION_RECORD := 65009
  const MAX_PENDING_DATA := 64
  const REPLAY_WINDOW_BITS := 64
  const DATA_RETRIES := 5

  /** A message that did not come from either end: it fails before or at authentication. */
  datatype Junk = LatePunch | BadFraming | BadData | BadAck | BadControl

  /**
   * A message on the wire under ideal cryptography: `from` is the label whose data key sealed the
   * record, `to` the label whose acknowledgement key signed it.
   */
  datatype Record =
    | Data(from: string, salt: bytes, sequence: u64, body: bytes)
    | DataAck(to: string, salt: bytes, acked: u64)
    | ConsentRequest(nonce: string)
    | ConsentResponse(nonce: string)
    | Forged(junk: Junk)

  datatype WriteError = TooLarge | TooManyPending | TransportFailed | AckTimeout | ConnClosed
  datatype WriteResult = Wrote(n: nat) | WriteFailed(error: WriteError)

  /** The record a blocked Write is waiting on; `waiterClosed` is its closed channel. */
  datatype Flight = Flight(sequence: u64, body: bytes, attempt: nat, waiterClosed: bool)

  datatype Endpoint = Endpoint(
    sendLabel: string, receiveLabel: string, sendSalt: bytes,
    sendSeq: u64, pendingData: set<u64>, writing: Option<Flight>, closed: bool, probes: set<string>,
    window: Window, recvNext: u64, recvPending: map<u64, bytes>, readBuf: bytes)

  function NewEndpoint(sendLabel: string, receiveLabel: string, salt: bytes): Endpoint {
    Endpoint(sendLabel, receiveLabel, salt, 0, {}, None, false, {}, EMPTY, 1, map[], [])
  }

  // ----- writing -----

  function SealData(e: Endpoint, body: bytes): (Endpoint, Record) {
    var sequence: u64 := (e.sendSeq + 1) % TWO_64;
    (e.(sendSeq := sequence), Data(e.sendLabel, e.sendSalt, sequence, body))
  }

  datatype WriteStep = WriteStep(conn: Endpoint, sent: Option<Record>, result: Option<WriteResult>)

  /** The deferred cleanup of writeReliableData. */
  function Return(e: Endpoint, result: WriteResult): WriteStep
    requires e.writing.Some?
  {
    WriteStep(e.(pendingData := e.pendingData - {e.writing.value.sequence}, writing := None), None, Some(result))
  }

  /** One transmission of the record in flight; a failed one closes the connection. */
  function Transmit(e: Endpoint, transportOk: bool): WriteStep
    requires e.writing.Some?
  {
    if e.closed || !transportOk then Return(e.(closed := true), WriteFailed(TransportFailed))
    else WriteStep(e, Some(Data(e.sendLabel, e.sendSalt, e.writing.value.sequence, e.writing.value.body)), None)
  }

  /** Write up to and including its first transmission. */
  function BeginWrite(e: Endpoint, p: bytes, transportOk: bool): WriteStep
    requires e.writing.None?
  {
    if |p| > MAX_APPLICATION_RECORD then WriteStep(e, None, Some(WriteFailed(TooLarge)))
    else
      var (sealed, record) := SealData(e, p);
      if |e.pendingData| >= MAX_PENDING_DATA then WriteStep(sealed, None, Some(WriteFailed(TooManyPending)))
      else
        Transmit(sealed.(pendingData := e.pendingData + {record.sequence},
                         writing := Some(Flight(record.sequence, p, 0, false))), transportOk)
  }

  /** What wakes the select of writeReliableData. */
  datatype Wake = WaiterClosed | DoneClosed | TimerFired(transportOk: bool)

  predicate CanWake(e: Endpoint, wake: Wake) {
    e.writing.Some? && (wake.WaiterClosed? ==> e.writing.value.waiterClosed) && (wake.DoneClosed? ==> e.closed)
  }

  function Select(e: Endpoint, wake: Wake): WriteStep
    requires e.writing.Some?
  {
    var flight := e.writing.value;
    match wake
    case WaiterClosed => Return(e, Wrote(|flight.body|))
    case DoneClosed => Return(e, WriteFailed(ConnClosed))
    case TimerFired(ok) =>
      if flight.attempt < DATA_RETRIES then
        Transmit(e.(writing := Some(flight.(attempt := flight.attempt + 1))), ok)
      else Return(e.(closed := true), WriteFailed(AckTimeout))
  }

  /** A verified acknowledgement, handled by the reader of this end. */
  function HandleAck(e: Endpoint, sequence: u64): Endpoint {
    if sequence !in e.pendingData then e
    else
      var e := e.(pendingData := e.pendingData - {sequence});
      if e.writing.Some? && e.writing.value.sequence == sequence
      then e.(writing := Some(e.writing.value.(waiterClosed := true)))
      else e
  }

  // ----- reading -----

  /** What one Read did; `released` lists the payloads moved into readBuf. */
  datatype ReadStep = ReadStep(conn: Endpoint, data: bytes, released: seq<bytes>, reply: Option<Record>, failed: bool)

  function CopyOut(e: Endpoint, capacity: nat, released: seq<bytes>, reply: Option<Record>): ReadStep {
    var n := Min(capacity, |e.readBuf|);
    ReadStep(e.(readBuf := e.readBuf[n..]), e.readBuf[..n], released, reply, false)
  }

  predicate HasBuffered(e: Endpoint) {
    // An empty payload parked in recvPending is a nil slice and never becomes ready.
    e.readBuf != [] || (e.recvNext in e.recvPending && e.recvPending[e.recvNext] != [])
  }

  /** Read when buffered data is at hand: no record is taken from the network. */
  function ReadBuffered(e: Endpoint, capacity: nat): ReadStep
    requires HasBuffered(e)
  {
    if e.readBuf != [] then CopyOut(e, capacity, [], None)
    else
      var ready := e.recvPending[e.recvNext];
      CopyOut(e.(recvPending := e.recvPending - {e.recvNext}, recvNext := (e.recvNext + 1) % TWO_64, readBuf := ready),
              capacity, [ready], None)
  }

  /** Read when nothing is buffered, on the record taken from the network. */
  function ReadRecord(e: Endpoint, capacity: nat, r: Record): ReadStep
    requires !HasBuffered(e) && e.readBuf == []
  {
    match r
    case Forged(junk) => ReadStep(e, [], [], None, junk == BadFraming || junk == BadData)
    case ConsentRequest(nonce) => ReadStep(e, [], [], Some(ConsentResponse(nonce)), false)
    case ConsentResponse(nonce) => ReadStep(e.(probes := e.probes - {nonce}), [], [], None, false)
    case DataAck(to, _, acked) =>
      ReadStep(if to == e.sendLabel then HandleAck(e, acked) else e, [], [], None, false)
    case Data(from, salt, sequence, body) =>
      if from != e.receiveLabel then ReadStep(e, [], [], None, true)
      else
        var (window, isNew) := Accept(e.window, salt, sequence);
        var e := e.(window := window);
        var ack := Some(DataAck(from, salt, sequence));
        if !isNew then ReadStep(e, [], [], ack, false)
        else if sequence == e.recvNext then
          CopyOut(e.(recvNext := (e.recvNext + 1) % TWO_64, readBuf := body), capacity, [body], ack)
        else if sequence > e.recvNext && sequence - e.recvNext < REPLAY_WINDOW_BITS then
          ReadStep(e.(recvPending := e.recvPending[sequence := body]), [], [], ack, false)
        else ReadStep(e, [], [], None, false)
  }

  /** A read of buffered data hands out its front, answers nothing and never fails. */
  lemma BufferedReadEffect(e: Endpoint, capacity: nat)
    requires HasBuffered(e)
    ensures var step := ReadBuffered(e, capacity);
            var ready := if e.readBuf != [] then e.readBuf else e.recvPending[e.recvNext];
            && !step.failed && step.reply.None?
            && step.data + step.conn.readBuf == ready && |step.data| == Min(capacity, |ready|)
            && (e.readBuf != [] ==> step.released == [] && step.conn == e.(readBuf := step.conn.readBuf))
            && (e.readBuf == [] ==>
                  && step.released == [ready] && e.recvNext !in step.conn.recvPending
                  && step.conn.recvNext == (e.recvNext + 1) % TWO_64)
  {
  }

  /** Exactly the records that make a read fail: data under a foreign label, and forgeries of two kinds. */
  predicate Foreign(e: Endpoint, r: Record) {
    (r.Data? && r.from != e.receiveLabel) || (r.Forged? && (r.junk == BadFraming || r.junk == BadData))
  }

  /** When a read of a record fails, that nothing happens then, and what each control record does. */
  lemma RecordReadEffect(e: Endpoint, capacity: nat, r: Record)
    requires !HasBuffered(e) && e.readBuf == []
    ensures var step := ReadRecord(e, capacity, r);
            && (step.failed <==> Foreign(e, r))
            && (step.failed ==> step.conn == e && step.reply.None?)
            && (step.failed || !r.Data? ==> step.data == [] && step.released == [])
            && (r.Forged? ==> step.conn == e && step.reply.None?)
            && (r.ConsentRequest? ==> step.conn == e && step.reply == Some(ConsentResponse(r.nonce)))
            && (r.ConsentResponse? ==> step.conn == e.(probes := e.probes - {r.nonce}) && step.reply.None?)
  {
  }

  /** What an acknowledgement does: the pending number goes, and a Write waiting for it is woken. */
  lemma AckReadEffect(e: Endpoint, capacity: nat, r: Record)
    requires !HasBuffered(e) && e.readBuf == [] && r.DataAck?
    ensures var step := ReadRecord(e, capacity, r);
            var mine := r.to == e.sendLabel && r.acked in e.pendingData;
            && step.reply.None?
            && step.conn.pendingData == (if mine then e.pendingData - {r.acked} else e.pendingData)
            && step.conn.writing ==
               (if mine && e.writing.Some? && e.writing.value.sequence == r.acked
                then Some(e.writing.value.(waiterClosed := true)) else e.writing)
            && step.conn.(pendingData := {}, writing := None) == e.(pendingData := {}, writing := None)
  {
  }

  /** What a record from the peer does, by whether it is new, next, ahead within the window, or neither. */
  lemma DataReadEffect(e: Endpoint, capacity: nat, r: Record)
    requires !HasBuffered(e) && e.readBuf == [] && r.Data? && r.from == e.receiveLabel
    ensures var step := ReadRecord(e, capacity, r);
            var (window, isNew) := Accept(e.window, r.salt, r.sequence);
            var ack := Some(DataAck(r.from, r.salt, r.sequence));
            var next, ahead := r.sequence == e.recvNext, e.recvNext < r.sequence < e.recvNext + REPLAY_WINDOW_BITS;
            && step.conn.window == window && step.conn.closed == e.closed
            && step.conn.sendSeq == e.sendSeq && step.conn.pendingData == e.pendingData && step.conn.writing == e.writing
            && step.reply == (if !isNew || next || ahead then ack else None)
            && step.released == (if isNew && next then [r.body] else [])
            && step.data + step.conn.readBuf == (if isNew && next then r.body else [])
            && (isNew && next ==> |step.data| == Min(capacity, |r.body|))
            && step.conn.recvNext == (if isNew && next then (e.recvNext + 1) % TWO_64 else e.recvNext)
            && step.conn.recvPending == (if isNew && !next && ahead then e.recvPending[r.sequence := r.body] else e.recvPending)
  {
  }

  // ----- a whole Write, with the environment's answers in order -----

  /** What happens around one select: the concurrent reader's ack, a concurrent Close, or nothing. */
  datatype Turn = AckArrives | CloseArrives | Nothing(transportOk: bool)

  function Disturb(e: Endpoint, turn: Turn): (Endpoint, Wake)
    requires e.writing.Some?
  {
    match turn
    case AckArrives => (HandleAck(e, e.writing.value.sequence), WaiterClosed)
    case CloseArrives => (e.(closed := true), DoneClosed)
    case Nothing(ok) => (e, TimerFired(ok))
  }

  datatype WriteRun = WriteRun(conn: Endpoint, sent: seq<Record>, result: WriteResult)

  function Emit(sent: Option<Record>): seq<Record> {
    if sent.Some? then [sent.value] else []
  }

  function RunTurns(e: Endpoint, turns: seq<Turn>): WriteRun
    requires e.writing.Some?
    requires e.writing.value.attempt <= DATA_RETRIES
    requires |turns| > DATA_RETRIES - e.writing.value.attempt
    decreases |turns|
  {
    var (disturbed, wake) := Disturb(e, turns[0]);
    var step := Select(disturbed, wake);
    if step.result.Some? then WriteRun(step.conn, Emit(step.sent), step.result.value)
    else
      var rest := RunTurns(step.conn, turns[1..]);
      WriteRun(rest.conn, Emit(step.sent) + rest.sent, rest.result)
  }

  /** One transmission and everything after it. */
  function RunSend(e: Endpoint, transportOk: bool, turns: seq<Turn>): WriteRun
    requires e.writing.Some?
    requires e.writing.value.attempt <= DATA_RETRIES
    requires |turns| > DATA_RETRIES - e.writing.value.attempt
  {
    var step := Transmit(e, transportOk);
    if step.result.Some? then WriteRun(step.conn, Emit(step.sent), step.result.value)
    else
      var rest := RunTurns(step.conn, turns);
      WriteRun(rest.conn, Emit(step.sent) + rest.sent, rest.result)
  }

  function RunWrite(e: Endpoint, p: bytes, transportOk: bool, turns: seq<Turn>): WriteRun
    requires e.writing.None? && |turns| > DATA_RETRIES
  {
    var step := BeginWrite(e, p, transportOk);
    if step.result.Some? then WriteRun(step.conn, Emit(step.sent), step.result.value)
    else
      var rest := RunTurns(step.conn, turns);
      WriteRun(rest.conn, Emit(step.sent) + rest.sent, rest.result)
  }

  function Settle(e: Endpoint, closed: bool): Endpoint
    requires e.writing.Some?
  {
    e.(pendingData := e.pendingData - {e.writing.value.sequence}, writing := None, closed := closed)
  }

  /** One iteration of the retry loop. */
  lemma RunSendStep(e: Endpoint, transportOk: bool, turns: seq<Turn>)
    requires e.writing.Some?
    requires e.writing.value.attempt <= DATA_RETRIES
    requires |turns| > DATA_RETRIES - e.writing.value.attempt
    requires e.writing.value.sequence in e.pendingData
    ensures var f := e.writing.value;
            var record := Data(e.sendLabel, e.sendSalt, f.sequence, f.body);
            RunSend(e, transportOk, turns) ==
            if e.closed || !transportOk then WriteRun(Settle(e, true), [], WriteFailed(TransportFailed))
            else match turns[0] {
              case AckArrives => WriteRun(Settle(e, false), [record], Wrote(|f.body|))
              case CloseArrives => WriteRun(Settle(e, true), [record], WriteFailed(ConnClosed))
              case Nothing(ok) =>
                if f.attempt < DATA_RETRIES then
                  var rest := RunSend(e.(writing := Some(f.(attempt := f.attempt + 1))), ok, turns[1..]);
                  WriteRun(rest.conn, [record] + rest.sent, rest.result)
                else WriteRun(Settle(e, true), [record], WriteFailed(AckTimeout))
            }
  {
    var f := e.writing.value;
    if !e.closed && transportOk {
      match turns[0]
      case AckArrives => assert e.pendingData - {f.sequence} - {f.sequence} == e.pendingData - {f.sequence};
      case CloseArrives =>
      case Nothing(ok) =>
    }
  }

  /** What is left of a Write before transmission number `attempt`, after the records in `sent`. */
  function Resume(e: Endpoint, transportOk: bool, turns: seq<Turn>, attempt: nat, sent: seq<Record>): WriteRun
    requires e.writing.Some? && e.writing.value.attempt == attempt && |turns| > DATA_RETRIES
  {
    if attempt > DATA_RETRIES then WriteRun(Settle(e, true), sent, WriteFailed(AckTimeout))
    else
      var rest := RunSend(e, transportOk, turns[attempt..]);
      WriteRun(rest.conn, sent + rest.sent, rest.result)
  }

  lemma ResumeStep(e: Endpoint, transportOk: bool, turns: seq<Turn>, attempt: nat, sent: seq<Record>)
    requires e.writing.Some? && e.writing.value.attempt == attempt <= DATA_RETRIES && |turns| > DATA_RETRIES
    requires e.writing.value.sequence in e.pendingData
    ensures var f := e.writing.value;
            var more := sent + [Data(e.sendLabel, e.sendSalt, f.sequence, f.body)];
            Resume(e, transportOk, turns, attempt, sent) ==
            if e.closed || !transportOk then WriteRun(Settle(e, true), sent, WriteFailed(TransportFailed))
            else match turns[attempt] {
              case AckArrives => WriteRun(Settle(e, false), more, Wrote(|f.body|))
              case CloseArrives => WriteRun(Settle(e, true), more, WriteFailed(ConnClosed))
              case Nothing(ok) => Resume(e.(writing := Some(f.(attempt := attempt + 1))), ok, turns, attempt + 1, more)
            }
  {
    hide RunSend;
    RunSendStep(e, transportOk, turns[attempt..]);
    assert turns[attempt..][1..] == turns[attempt + 1..];
    assert sent + [] == sent;
    var record := Data(e.sendLabel, e.sendSalt, e.writing.value.sequence, e.writing.value.body);
    assert forall rest: seq<Record> :: sent + ([record] + rest) == (sent + [record]) + rest;
  }

  /** What a Write refuses at once, and the first transmission otherwise. */
  lemma RunWriteStart(e: Endpoint, p: bytes, transportOk: bool, turns: seq<Turn>)
    requires e.writing.None? && |turns| > DATA_RETRIES
    ensures var sealed := e.(sendSeq := (e.sendSeq + 1) % TWO_64);
            RunWrite(e, p, transportOk, turns) ==
            if |p| > MAX_APPLICATION_RECORD then WriteRun(e, [], WriteFailed(TooLarge))
            else if |e.pendingData| >= MAX_PENDING_DATA then WriteRun(sealed, [], WriteFailed(TooManyPending))
            else Resume(sealed.(pendingData := e.pendingData + {sealed.sendSeq}, writing := Some(Flight(sealed.sendSeq, p, 0, false))),
                        transportOk, turns, 0, [])
  {
    hide RunTurns;
    assert turns[0..] == turns;
    assert forall rest: seq<Record> :: [] + rest == rest;
  }

  /** The index of the first answer that ends the wait early, or the number of answers. */
  function FirstStop(turns: seq<Turn>): (k: nat)
    ensures k <= |turns|
    ensures k < |turns| ==> turns[k] != Nothing(true)
    ensures forall j | 0 <= j < k :: turns[j] == Nothing(true)
  {
    if turns == [] || turns[0] != Nothing(true) then 0 else 1 + FirstStop(turns[1..])
  }

  /**
   * A blocked Write sends the same sealed record at most six times and returns success exactly
   * when the first answer other than an idle timer is the acknowledgement; on any other outcome
   * the connection is closed, so no later record can follow a lost one.
   */
  lemma {:induction false} WriteOutcome(e: Endpoint, turns: seq<Turn>)
    requires e.writing.Some? && !e.closed && e.writing.value.attempt <= DATA_RETRIES
    requires |turns| > DATA_RETRIES - e.writing.value.attempt
    ensures var run := RunTurns(e, turns);
            var left := DATA_RETRIES - e.writing.value.attempt;
            var k := FirstStop(turns);
            && (run.result.Wrote? <==> k <= left && turns[k].AckArrives?)
            && (run.result.Wrote? ==> run.result.n == |e.writing.value.body| && !run.conn.closed)
            && (!run.result.Wrote? ==> run.conn.closed)
            && |run.sent| == Min(k, left)
            && (forall r | r in run.sent ::
                  r == Data(e.sendLabel, e.sendSalt, e.writing.value.sequence, e.writing.value.body))
            && run.conn.writing.None?
            && run.conn.pendingData == e.pendingData - {e.writing.value.sequence}
            && run.conn.(pendingData := {}, writing := None, closed := false) == e.(pendingData := {}, writing := None, closed := false)
    decreases |turns|
  {
    if turns[0] == Nothing(true) && e.writing.value.attempt < DATA_RETRIES {
      var step := Select(e, TimerFired(true));
      WriteOutcome(step.conn, turns[1..]);
    }
  }

  /**
   * A whole Write: what it refuses at once, and otherwise at most six transmissions of one record,
   * success exactly when the first is sent and the first answer other than an idle timer is the
   * acknowledgement, and a closed connection on every other outcome.
   */
  lemma WholeWrite(e: Endpoint, p: bytes, transportOk: bool, turns: seq<Turn>)
    requires e.writing.None? && |turns| > DATA_RETRIES
    ensures var run := RunWrite(e, p, transportOk, turns);
            var sequence: u64 := (e.sendSeq + 1) % TWO_64;
            var k := FirstStop(turns);
            if |p| > MAX_APPLICATION_RECORD then run == WriteRun(e, [], WriteFailed(TooLarge))
            else if |e.pendingData| >= MAX_PENDING_DATA then
              run == WriteRun(e.(sendSeq := sequence), [], WriteFailed(TooManyPending))
            else
              && |run.sent| == (if e.closed || !transportOk then 0 else 1 + Min(k, DATA_RETRIES))
              && |run.sent| <= 6
              && (forall r | r in run.sent :: r == Data(e.sendLabel, e.sendSalt, sequence, p))
              && (run.result.Wrote? <==> !e.closed && transportOk && k <= DATA_RETRIES && turns[k].AckArrives?)
              && (run.result.Wrote? ==> run.result.n == |p|)
              && run.conn.closed == !run.result.Wrote?
              && run.conn.sendSeq == sequence && run.conn.writing.None?
              && run.conn.pendingData == e.pendingData + {sequence} - {sequence}
  {
    hide RunTurns;
    if |p| <= MAX_APPLICATION_RECORD && |e.pendingData| < MAX_PENDING_DATA && !e.closed && transportOk {
      var step := BeginWrite(e, p, transportOk);
      WriteOutcome(step.conn, turns);
    }
  }

  class Conn {
    const sendLabel: string
    const receiveLabel: string
    const sendSalt: bytes
    var sendSeq: u64
    var pendingData: set<u64>
    var closed: bool
    var probes: set<string>
    var recvSalt: Option<bytes>
    var recvHighest: u64
    var recvWindow: u64
    var recvNext: u64
    var recvPending: map<u64, bytes>
    var readBuf: bytes

    ghost function State(): Endpoint
      reads this
    {
      Endpoint(sendLabel, receiveLabel, sendSalt, sendSeq, pendingData, None, closed, probes,
               Window(recvSalt, recvHighest, recvWindow), recvNext, recvPending, readBuf)
    }

    ghost function InFlight(sequence: u64, p: bytes, attempt: nat): Endpoint
      reads this
    {
      State().(writing := Some(Flight(sequence, p, attempt, false)))
    }

    constructor (sendLabel: string, receiveLabel: string, salt: bytes)
      requires sendLabel != receiveLabel
      ensures State() == NewEndpoint(sendLabel, receiveLabel, salt)
    {
      this.sendLabel, this.receiveLabel, sendSalt := sendLabel, receiveLabel, salt;
      sendSeq, pendingData, closed, probes := 0, {}, false, {};
      recvSalt, recvHighest, recvWindow := None, 0, 0;
      recvNext, recvPending, readBuf := 1, map[], [];
    }

    /** Write and writeReliableData, blocking until the record is acknowledged or given up. */
    method Write(p: bytes, transportOk: bool, turns: seq<Turn>) returns (result: WriteResult, sent: seq<Record>)
      requires |turns| > DATA_RETRIES
      modifies this`sendSeq, this`pendingData, this`closed
      ensures WriteRun(State(), sent, result) == RunWrite(old(State()), p, transportOk, turns)
    {
      hide RunWrite, RunSend, RunTurns;
      RunWriteStart(State(), p, transportOk, turns);
      sent := [];
      if |p| > MAX_APPLICATION_RECORD {
        return WriteFailed(TooLarge), sent;
      }
      sendSeq := (sendSeq + 1) % TWO_64;
      var sequence := sendSeq;
      if |pendingData| >= MAX_PENDING_DATA {
        return WriteFailed(TooManyPending), sent;
      }
      pendingData := pendingData + {sequence};
      var ok := transportOk;
      var attempt := 0;
      var record := Data(sendLabel, sendSalt, sequence, p);
      while attempt <= DATA_RETRIES
        invariant 0 <= attempt <= DATA_RETRIES + 1
        invariant sequence in pendingData
        invariant RunWrite(old(State()), p, transportOk, turns) == Resume(InFlight(sequence, p, attempt), ok, turns, attempt, sent)
      {
        ResumeStep(InFlight(sequence, p, attempt), ok, turns, attempt, sent);
        if closed || !ok {
          closed := true;
          pendingData := pendingData - {sequence};
          return WriteFailed(TransportFailed), sent;
        }
        sent := sent + [record];
        match turns[attempt] {
          case AckArrives =>
            pendingData := pendingData - {sequence};
            return Wrote(|p|), sent;
          case CloseArrives =>
            closed := true;
            pendingData := pendingData - {sequence};
            return WriteFailed(ConnClosed), sent;
          case Nothing(next) =>
            ok := next;
        }
        attempt := attempt + 1;
      }
      closed := true;
      pendingData := pendingData - {sequence};
      return WriteFailed(AckTimeout), sent;
    }

    /** openData after authentication: advance the window, or report a replay. */
    method OpenData(salt: bytes, sequence: u64) returns (isNew: bool)
      modifies this`recvSalt, this`recvHighest, this`recvWindow
      ensures (Window(recvSalt, recvHighest, recvWindow), isNew)
           == Accept(old(Window(recvSalt, recvHighest, recvWindow)), salt, sequence)
    {
      if recvSalt.None? {
        recvSalt := Some(salt);
      } else if recvSalt.value != salt {
        return false;
      }
      if sequence > recvHighest {
        var shift := sequence - recvHighest;
        if shift >= REPLAY_WINDOW_BITS {
          recvWindow := 0;
        } else {
          recvWindow := Word64.ShiftLeft(recvWindow, shift);
        }
        recvHighest := sequence;
        recvWindow := Word64.SetBit64(recvWindow, 0);
      } else {
        var delta := recvHighest - sequence;
        if delta >= REPLAY_WINDOW_BITS || Word64.Bit(recvWindow, delta) {
          return false;
        }
        recvWindow := Word64.SetBit64(recvWindow, delta);
      }
      return true;
    }

    /** One Read; `incoming` is the record the transport would return, used only when nothing is buffered. */
    method Read(capacity: nat, incoming: Record)
      returns (data: bytes, reply: Option<Record>, failed: bool, released: seq<bytes>)
      modifies this
      ensures ReadStep(State(), data, released, reply, failed)
           == if old(HasBuffered(State())) then ReadBuffered(old(State()), capacity)
              else ReadRecord(old(State()), capacity, incoming)
    {
      data, reply, failed, released := [], None, false, [];
      if readBuf == [] && recvNext in recvPending && recvPending[recvNext] != [] {
        readBuf := recvPending[recvNext];
        recvPending := recvPending - {recvNext};
        recvNext := (recvNext + 1) % TWO_64;
        released := [readBuf];
      }
      if readBuf != [] {
        var n := Min(capacity, |readBuf|);
        data, readBuf := readBuf[..n], readBuf[n..];
        return;
      }
      match incoming {
        case Forged(junk) =>
          failed := junk == BadFraming || junk == BadData;
        case ConsentRequest(nonce) =>
          reply := Some(ConsentResponse(nonce));
        case ConsentResponse(nonce) =>
          probes := probes - {nonce};
        case DataAck(to, _, acked) =>
          if to == sendLabel && acked in pendingData {
            pendingData := pendingData - {acked};
          }
        case Data(from, salt, sequence, body) =>
          if from != receiveLabel {
            failed := true;
            return;
          }
          var isNew := OpenData(salt, sequence);
          if !isNew {
            reply := Some(DataAck(from, salt, sequence));
            return;
          }
          if sequence == recvNext {
            recvNext := (recvNext + 1) % TWO_64;
            readBuf := body;
            released := [body];
            reply := Some(DataAck(from, salt, sequence));
          } else if sequence > recvNext && sequence - recvNext < REPLAY_WINDOW_BITS {
            recvPending := recvPending[sequence := body];
            reply := Some(DataAck(from, salt, sequence));
          }
          var n := Min(capacity, |readBuf|);
          data, readBuf := readBuf[..n], readBuf[n..];
      }
    }
  }
}
