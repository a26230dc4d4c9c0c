/** Two record connections facing each other over a network that drops, duplicates and reorders. */
module ReliableLink {
  import opened Basics
  import opened ReplayWindow
  import opened ConsentConn

  /**
   * An endpoint with its history: payloads sealed by Write, the outcome of each finished Write,
   * payloads released into readBuf and the bytes Read has handed out.
   */
  datatype Node = Node(ep: Endpoint, written: seq<bytes>, returned: seq<bool>, released: seq<bytes>, consumed: bytes)

  datatype Action =
    | Write(p: bytes, transportOk: bool)
    | WakeUp(wake: Wake)
    | TakeBuffered(capacity: nat)
    | Receive(capacity: nat, r: Record)
    | Close
    | Probe(nonce: string)

  /** The network holds every message ever sent; a delivered message stays and may be delivered again. */
  predicate Enabled(n: Node, net: set<Record>, a: Action) {
    match a
    case Write(_, _) => n.ep.writing.None?
    case WakeUp(wake) => CanWake(n.ep, wake)
    case TakeBuffered(_) => HasBuffered(n.ep)
    case Receive(_, r) => !HasBuffered(n.ep) && n.ep.readBuf == [] && (r in net || r.Forged?)
    case Close => true
    case Probe(_) => true
  }

  function Wrap(sent: Option<Record>): set<Record> {
    if sent.Some? then {sent.value} else {}
  }

  function Sealed(p: bytes, before: Endpoint, after: Endpoint): seq<bytes> {
    if before.sendSeq != after.sendSeq then [p] else []
  }

  function Outcome(sealed: bool, result: Option<WriteResult>): seq<bool> {
    if sealed && result.Some? then [result.value.Wrote?] else []
  }

  function Act(n: Node, net: set<Record>, a: Action): (Node, set<Record>)
    requires Enabled(n, net, a)
  {
    match a
    case Write(p, ok) =>
      var step := BeginWrite(n.ep, p, ok);
      var sealed := Sealed(p, n.ep, step.conn);
      (n.(ep := step.conn, written := n.written + sealed, returned := n.returned + Outcome(sealed != [], step.result)),
       net + Wrap(step.sent))
    case WakeUp(wake) =>
      var step := Select(n.ep, wake);
      (n.(ep := step.conn, returned := n.returned + Outcome(true, step.result)), net + Wrap(step.sent))
    case TakeBuffered(capacity) =>
      var step := ReadBuffered(n.ep, capacity);
      (n.(ep := step.conn, released := n.released + step.released, consumed := n.consumed + step.data), net)
    case Receive(capacity, r) =>
      var step := ReadRecord(n.ep, capacity, r);
      (n.(ep := step.conn, released := n.released + step.released, consumed := n.consumed + step.data),
       if n.ep.closed then net else net + Wrap(step.reply))
    case Close => (n.(ep := n.ep.(closed := true)), net)
    case Probe(nonce) => (n.(ep := n.ep.(probes := n.ep.probes + {nonce})), net + {ConsentRequest(nonce)})
  }

  datatype Side = Left | Right
  datatype Step = Step(side: Side, action: Action)
  datatype Link = Link(left: Node, right: Node, net: set<Record>)

  function At(l: Link, s: Side): Node {
    if s == Left then l.left else l.right
  }

  function Peer(s: Side): Side {
    if s == Left then Right else Left
  }

  /** A step that is not enabled leaves the link alone. */
  function Next(l: Link, step: Step): Link {
    if !Enabled(At(l, step.side), l.net, step.action) then l
    else
      var (n, net) := Act(At(l, step.side), l.net, step.action);
      if step.side == Left then Link(n, l.right, net) else Link(l.left, n, net)
  }

  function FreshNode(sendLabel: string, receiveLabel: string, salt: bytes): Node {
    Node(NewEndpoint(sendLabel, receiveLabel, salt), [], [], [], [])
  }

  /** The two ends of one session: labels mirror each other, salts are whatever was drawn. */
  datatype Session = Session(leftLabel: string, rightLabel: string, leftSalt: bytes, rightSalt: bytes)

  function Start(s: Session): Link {
    Link(FreshNode(s.leftLabel, s.rightLabel, s.leftSalt), FreshNode(s.rightLabel, s.leftLabel, s.rightSalt), {})
  }

  function Run(s: Session, steps: seq<Step>): Link {
    if steps == [] then Start(s) else Next(Run(s, steps[..|steps| - 1]), steps[|steps| - 1])
  }

  // ----- the invariant of one direction -----

  ghost function FirstNumbers(n: nat): (numbers: set<u64>)
    requires n < TWO_64
    ensures forall k: u64 :: k in numbers <==> 1 <= k <= n
  {
    if n == 0 then {} else FirstNumbers(n - 1) + {n}
  }

  ghost predicate SenderOk(src: Node, delivered: nat) {
    var e := src.ep;
    && e.sendSeq == |src.written|
    && delivered <= |src.written|
    && (e.writing.None? ==> e.pendingData == {} && |src.returned| == |src.written|)
    && (e.writing.Some? ==>
          && |src.written| > 0
          && e.writing.value.sequence == |src.written|
          && e.writing.value.body == src.written[|src.written| - 1]
          && e.pendingData <= {e.writing.value.sequence}
          && |src.returned| == |src.written| - 1
          && (e.writing.value.waiterClosed ==> delivered == |src.written|))
    && (!e.closed ==> |src.written| <= delivered + 1)
    && (!e.closed && e.writing.None? ==> delivered == |src.written|)
    && (forall i | 0 <= i < |src.returned| && src.returned[i] :: i < delivered)
  }

  ghost predicate ReceiverOk(dst: Node, src: Node) {
    var e := dst.ep;
    var n := |dst.released|;
    && n <= |src.written| < TWO_64
    && dst.released == src.written[..n]
    && e.recvNext == (n + 1) % TWO_64
    && e.recvPending == map[]
    && e.window.highest == n
    && Represents(e.window, FirstNumbers(n))
    && (e.window.salt.None? ==> n == 0)
    && (e.window.salt.Some? ==> e.window.salt.value == src.ep.sendSalt)
    && dst.consumed + e.readBuf == Flatten(dst.released)
  }

  ghost predicate RecordOk(src: Node, delivered: nat, r: Record) {
    && (r.Data? && r.from == src.ep.sendLabel ==>
          && r.salt == src.ep.sendSalt
          && 1 <= r.sequence <= |src.written|
          && r.sequence <= delivered + 1
          && r.body == src.written[r.sequence - 1])
    && (r.DataAck? && r.to == src.ep.sendLabel ==> 1 <= r.acked <= delivered)
  }

  ghost predicate DirectionOk(src: Node, dst: Node, net: set<Record>) {
    && src.ep.sendLabel == dst.ep.receiveLabel
    && |src.written| < TWO_64
    && SenderOk(src, |dst.released|)
    && ReceiverOk(dst, src)
    && forall r | r in net :: RecordOk(src, |dst.released|, r)
  }

  /** A record stays acceptable while the histories grow. */
  lemma RecordsStayOk(src: Node, src2: Node, delivered: nat, delivered2: nat, net: set<Record>)
    requires src.written <= src2.written && delivered <= delivered2
    requires src2.ep.sendLabel == src.ep.sendLabel && src2.ep.sendSalt == src.ep.sendSalt
    requires forall r | r in net :: RecordOk(src, delivered, r)
    ensures forall r | r in net :: RecordOk(src2, delivered2, r)
  {
    forall r | r in net ensures RecordOk(src2, delivered2, r) {
      assert RecordOk(src, delivered, r);
    }
  }

  /** A Write seals its payload under the next number, or leaves the sender as it was. */
  lemma WriteSealsNext(src: Node, delivered: nat, net: set<Record>, p: bytes, ok: bool)
    requires SenderOk(src, delivered) && Enabled(src, net, Write(p, ok))
    requires |Act(src, net, Write(p, ok)).0.written| < TWO_64
    ensures var (n, net2) := Act(src, net, Write(p, ok));
            && SenderOk(n, delivered)
            && src.written <= n.written
            && n.ep.sendLabel == src.ep.sendLabel && n.ep.sendSalt == src.ep.sendSalt
            && forall r | r in net2 && r !in net :: RecordOk(n, delivered, r)
  {
    assert |src.ep.pendingData| == 0;
    if |p| <= MAX_APPLICATION_RECORD {
      assert Act(src, net, Write(p, ok)).0.written == src.written + [p];
    }
  }

  lemma ReceiverOkForSource(dst: Node, src: Node, src2: Node)
    requires ReceiverOk(dst, src) && src.written <= src2.written && |src2.written| < TWO_64
    requires src2.ep.sendSalt == src.ep.sendSalt
    ensures ReceiverOk(dst, src2)
  {
    hide Represents, FirstNumbers, Flatten;
  }

  lemma SenderWrites(src: Node, dst: Node, net: set<Record>, p: bytes, ok: bool)
    requires DirectionOk(src, dst, net) && Enabled(src, net, Write(p, ok))
    requires |Act(src, net, Write(p, ok)).0.written| < TWO_64
    ensures DirectionOk(Act(src, net, Write(p, ok)).0, dst, Act(src, net, Write(p, ok)).1)
  {
    hide SenderOk, ReceiverOk, RecordOk, Act;
    var n := Act(src, net, Write(p, ok)).0;
    WriteSealsNext(src, |dst.released|, net, p, ok);
    ReceiverOkForSource(dst, src, n);
    RecordsStayOk(src, n, |dst.released|, |dst.released|, net);
  }

  lemma SenderWakes(src: Node, dst: Node, net: set<Record>, wake: Wake)
    requires DirectionOk(src, dst, net) && Enabled(src, net, WakeUp(wake))
    ensures DirectionOk(Act(src, net, WakeUp(wake)).0, dst, Act(src, net, WakeUp(wake)).1)
  {
    var (n, net2) := Act(src, net, WakeUp(wake));
    RecordsStayOk(src, n, |dst.released|, |dst.released|, net);
  }

  /** The sending half of an endpoint, with the receiving half blanked out. */
  function SendingHalf(e: Endpoint): Endpoint {
    e.(probes := {}, window := EMPTY, recvNext := 1, recvPending := map[], readBuf := [])
  }

  /** Reading touches the sending half only to process an acknowledgement. */
  lemma ReadRecordSendingHalf(e: Endpoint, capacity: nat, r: Record)
    requires !HasBuffered(e) && e.readBuf == []
    ensures var step := ReadRecord(e, capacity, r);
            && SendingHalf(step.conn) ==
               (if r.DataAck? && r.to == e.sendLabel then HandleAck(SendingHalf(e), r.acked) else SendingHalf(e))
            && (step.reply.Some? ==>
                  step.reply.value.ConsentResponse?
                  || (r.Data? && r.from == e.receiveLabel && step.reply.value == DataAck(r.from, r.salt, r.sequence)))
  {
    if r.Data? && r.from == e.receiveLabel {
      var window := Accept(e.window, r.salt, r.sequence).0;
      assert SendingHalf(e.(window := window)) == SendingHalf(e);
    }
  }

  lemma SenderOkBySendingHalf(src: Node, src2: Node, delivered: nat)
    requires SenderOk(src, delivered)
    requires SendingHalf(src2.ep) == SendingHalf(src.ep)
    requires src2.written == src.written && src2.returned == src.returned
    ensures SenderOk(src2, delivered)
  {
    var h := SendingHalf(src.ep);
    assert src.ep.sendSeq == h.sendSeq && src.ep.pendingData == h.pendingData
        && src.ep.writing == h.writing && src.ep.closed == h.closed;
    var h2 := SendingHalf(src2.ep);
    assert src2.ep.sendSeq == h2.sendSeq && src2.ep.pendingData == h2.pendingData
        && src2.ep.writing == h2.writing && src2.ep.closed == h2.closed;
  }

  lemma AckKeepsSenderOk(src: Node, delivered: nat, acked: u64)
    requires SenderOk(src, delivered) && 1 <= acked <= delivered
    ensures SenderOk(src.(ep := HandleAck(src.ep, acked)), delivered)
  {
  }

  lemma SenderReceives(src: Node, dst: Node, net: set<Record>, capacity: nat, r: Record)
    requires DirectionOk(src, dst, net) && Enabled(src, net, Receive(capacity, r))
    requires src.ep.sendLabel != src.ep.receiveLabel
    ensures DirectionOk(Act(src, net, Receive(capacity, r)).0, dst, Act(src, net, Receive(capacity, r)).1)
  {
    var (n, net2) := Act(src, net, Receive(capacity, r));
    var delivered := |dst.released|;
    ReadRecordSendingHalf(src.ep, capacity, r);
    var mid := src;
    if r.DataAck? && r.to == src.ep.sendLabel {
      assert RecordOk(src, delivered, r);
      AckKeepsSenderOk(src, delivered, r.acked);
      mid := src.(ep := HandleAck(src.ep, r.acked));
      assert SendingHalf(mid.ep) == HandleAck(SendingHalf(src.ep), r.acked);
    }
    SenderOkBySendingHalf(mid, n, delivered);
    SameIdentity(src.ep, n.ep);
    RecordsStayOk(src, n, delivered, delivered, net);
    assert forall x | x in net2 :: x in net || (!x.Data? && (x.DataAck? ==> x.to != src.ep.sendLabel));
    ReceiverOkForSource(dst, src, n);
  }

  lemma SameIdentity(e: Endpoint, e2: Endpoint)
    requires SendingHalf(e2).(pendingData := {}, writing := None) == SendingHalf(e).(pendingData := {}, writing := None)
    ensures e2.sendLabel == e.sendLabel && e2.sendSalt == e.sendSalt
  {
    var h, h2 := SendingHalf(e).(pendingData := {}, writing := None), SendingHalf(e2).(pendingData := {}, writing := None);
    assert h.sendLabel == e.sendLabel && h.sendSalt == e.sendSalt;
    assert h2.sendLabel == e2.sendLabel && h2.sendSalt == e2.sendSalt;
  }

  lemma SenderIdles(src: Node, dst: Node, net: set<Record>, a: Action)
    requires DirectionOk(src, dst, net) && Enabled(src, net, a)
    requires a.TakeBuffered? || a.Close? || a.Probe?
    ensures DirectionOk(Act(src, net, a).0, dst, Act(src, net, a).1)
  {
    hide Represents, FirstNumbers, Flatten;
    RecordsStayOk(src, Act(src, net, a).0, |dst.released|, |dst.released|, net);
  }

  /** The sender's own step, in the direction it sends. */
  lemma SenderStep(src: Node, dst: Node, net: set<Record>, a: Action)
    requires DirectionOk(src, dst, net) && Enabled(src, net, a)
    requires src.ep.sendLabel != src.ep.receiveLabel
    requires |Act(src, net, a).0.written| < TWO_64
    ensures DirectionOk(Act(src, net, a).0, dst, Act(src, net, a).1)
  {
    hide DirectionOk, Act, Enabled;
    match a
    case Write(p, ok) => SenderWrites(src, dst, net, p, ok);
    case WakeUp(wake) => SenderWakes(src, dst, net, wake);
    case Receive(capacity, r) => SenderReceives(src, dst, net, capacity, r);
    case TakeBuffered(_) | Close | Probe(_) => SenderIdles(src, dst, net, a);
  }

  /** In order, a record is either the next one and fresh, or an old one the window rejects. */
  lemma WindowInOrder(w: Window, n: nat, salt: bytes, sequence: u64)
    requires n < TWO_64 && Represents(w, FirstNumbers(n)) && w.highest == n
    requires w.salt.None? || w.salt.value == salt
    requires 1 <= sequence <= n + 1
    ensures var (next, isNew) := Accept(w, salt, sequence);
            && (isNew <==> sequence == n + 1)
            && next.salt == Some(salt)
            && (isNew ==> next.highest == n + 1 && Represents(next, FirstNumbers(n + 1)))
            && (!isNew ==> next.highest == n && Represents(next, FirstNumbers(n)))
  {
    AcceptRefinesSet(w, FirstNumbers(n), salt, sequence);
    if sequence == n + 1 {
      assert FirstNumbers(n + 1) == FirstNumbers(n) + {sequence};
    }
  }

  /** The receiving half of an endpoint, with the sending half blanked out. */
  function ReceivingHalf(e: Endpoint): Endpoint {
    e.(sendSeq := 0, pendingData := {}, writing := None, closed := false, probes := {})
  }

  lemma ReceiverOkByReceivingHalf(dst: Node, dst2: Node, src: Node)
    requires ReceiverOk(dst, src)
    requires ReceivingHalf(dst2.ep) == ReceivingHalf(dst.ep)
    requires dst2.released == dst.released && dst2.consumed == dst.consumed
    ensures ReceiverOk(dst2, src) && dst2.ep.receiveLabel == dst.ep.receiveLabel
  {
    var h := ReceivingHalf(dst.ep);
    assert dst.ep.window == h.window && dst.ep.recvNext == h.recvNext && dst.ep.recvPending == h.recvPending
        && dst.ep.readBuf == h.readBuf && dst.ep.receiveLabel == h.receiveLabel;
    var h2 := ReceivingHalf(dst2.ep);
    assert dst2.ep.window == h2.window && dst2.ep.recvNext == h2.recvNext && dst2.ep.recvPending == h2.recvPending
        && dst2.ep.readBuf == h2.readBuf && dst2.ep.receiveLabel == h2.receiveLabel;
  }

  /** Reading the next record in order releases it; an old one changes nothing but is acknowledged. */
  lemma ReadDataInOrder(e: Endpoint, capacity: nat, n: nat, r: Record)
    requires !HasBuffered(e) && e.readBuf == []
    requires r.Data? && r.from == e.receiveLabel
    requires n < TWO_64 && e.recvNext == (n + 1) % TWO_64 && e.recvPending == map[]
    requires e.window.highest == n && Represents(e.window, FirstNumbers(n))
    requires e.window.salt.None? || e.window.salt.value == r.salt
    requires 1 <= r.sequence <= n + 1
    ensures var step := ReadRecord(e, capacity, r);
            var m := if r.sequence == n + 1 then n + 1 else n;
            && step.released == (if r.sequence == n + 1 then [r.body] else [])
            && step.data + step.conn.readBuf == (if r.sequence == n + 1 then r.body else [])
            && step.reply == Some(DataAck(r.from, r.salt, r.sequence))
            && step.conn.recvNext == (m + 1) % TWO_64 && step.conn.recvPending == map[]
            && step.conn.window.highest == m && Represents(step.conn.window, FirstNumbers(m))
            && step.conn.window.salt == Some(r.salt)
            && step.conn.receiveLabel == e.receiveLabel
  {
    WindowInOrder(e.window, n, r.salt, r.sequence);
  }

  lemma DeliveryKeepsSenderOk(src: Node, delivered: nat)
    requires SenderOk(src, delivered) && delivered < |src.written|
    ensures SenderOk(src, delivered + 1)
  {
  }

  lemma RecordShape(src: Node, delivered: nat, r: Record)
    requires RecordOk(src, delivered, r) && r.Data? && r.from == src.ep.sendLabel
    ensures r.salt == src.ep.sendSalt && 1 <= r.sequence <= |src.written|
    ensures r.sequence <= delivered + 1 && r.body == src.written[r.sequence - 1]
  {
  }

  lemma DataKeepsReceiverOk(src: Node, dst: Node, capacity: nat, r: Record)
    requires ReceiverOk(dst, src) && !HasBuffered(dst.ep) && dst.ep.readBuf == []
    requires r.Data? && r.from == dst.ep.receiveLabel
    requires RecordOk(src, |dst.released|, r) && r.from == src.ep.sendLabel
    ensures var step := ReadRecord(dst.ep, capacity, r);
            var n := dst.(ep := step.conn, released := dst.released + step.released, consumed := dst.consumed + step.data);
            && ReceiverOk(n, src) && n.ep.receiveLabel == dst.ep.receiveLabel
            && |n.released| == Max(|dst.released|, r.sequence)
            && step.reply == Some(DataAck(r.from, r.salt, r.sequence))
  {
    var k := |dst.released|;
    hide ReadRecord, Represents, FirstNumbers, HasBuffered, Flatten, RecordOk;
    assert r.salt == src.ep.sendSalt && 1 <= r.sequence <= k + 1 && r.body == src.written[r.sequence - 1] by {
      RecordShape(src, k, r);
    }
    ReadDataInOrder(dst.ep, capacity, k, r);
    var step := ReadRecord(dst.ep, capacity, r);
    var n := dst.(ep := step.conn, released := dst.released + step.released, consumed := dst.consumed + step.data);
    assert dst.consumed + dst.ep.readBuf == dst.consumed;
    assert n.consumed + n.ep.readBuf == dst.consumed + (step.data + step.conn.readBuf);
    if r.sequence == k + 1 {
      assert src.written[..k + 1] == src.written[..k] + [r.body];
      FlattenSingle(dst.released, r.body);
    } else {
      assert n.released == dst.released;
    }
  }

  lemma ReceiverTakesData(src: Node, dst: Node, net: set<Record>, capacity: nat, r: Record)
    requires DirectionOk(src, dst, net) && Enabled(dst, net, Receive(capacity, r))
    requires r.Data? && r.from == dst.ep.receiveLabel
    ensures DirectionOk(src, Act(dst, net, Receive(capacity, r)).0, Act(dst, net, Receive(capacity, r)).1)
  {
    var (n, net2) := Act(dst, net, Receive(capacity, r));
    var k := |dst.released|;
    assert RecordOk(src, k, r);
    DataKeepsReceiverOk(src, dst, capacity, r);
    if r.sequence == k + 1 { DeliveryKeepsSenderOk(src, k); }
    RecordsStayOk(src, src, k, |n.released|, net);
  }

  /** Steps of the receiving end that release nothing. */
  lemma OtherStepsRelease(dst: Node, net: set<Record>, a: Action)
    requires Enabled(dst, net, a)
    requires !a.TakeBuffered? && !(a.Receive? && a.r.Data? && a.r.from == dst.ep.receiveLabel)
    ensures var (n, net2) := Act(dst, net, a);
            && ReceivingHalf(n.ep) == ReceivingHalf(dst.ep)
            && n.released == dst.released && n.consumed == dst.consumed
            && forall x | x in net2 && x !in net :: !x.DataAck? && (x.Data? ==> x.from == dst.ep.sendLabel)
  {
  }

  /** The receiver's step, in the direction it receives. */
  lemma ReceiverStep(src: Node, dst: Node, net: set<Record>, a: Action)
    requires DirectionOk(src, dst, net) && Enabled(dst, net, a)
    requires dst.ep.sendLabel != dst.ep.receiveLabel
    ensures DirectionOk(src, Act(dst, net, a).0, Act(dst, net, a).1)
  {
    var (n, net2) := Act(dst, net, a);
    if a.Receive? && a.r.Data? && a.r.from == dst.ep.receiveLabel {
      ReceiverTakesData(src, dst, net, a.capacity, a.r);
    } else if a.TakeBuffered? {
      assert n.released == dst.released;
      assert n.consumed + n.ep.readBuf == dst.consumed + dst.ep.readBuf;
    } else {
      OtherStepsRelease(dst, net, a);
      ReceiverOkByReceivingHalf(dst, n, src);
      forall x | x in net2 ensures RecordOk(src, |n.released|, x) {
        if x in net { assert RecordOk(src, |dst.released|, x); }
      }
    }
  }

  // ----- whole runs -----

  /**
   * What the protocol is for: payloads reach the reader in order and once each, nothing else
   * reaches it, and a Write that returned success had its payload released at the other end.
   */
  ghost predicate DeliveryHolds(src: Node, dst: Node) {
    && dst.released <= src.written
    && dst.consumed + dst.ep.readBuf == Flatten(dst.released)
    && dst.consumed <= Flatten(src.written)
    && (forall i | 0 <= i < |src.returned| && src.returned[i] :: i < |dst.released|)
  }

  lemma DirectionDelivers(src: Node, dst: Node, net: set<Record>)
    requires DirectionOk(src, dst, net)
    ensures DeliveryHolds(src, dst)
  {
    FlattenPrefix(dst.released, src.written);
    assert dst.consumed <= dst.consumed + dst.ep.readBuf;
  }

  lemma ActGrows(n: Node, net: set<Record>, a: Action)
    requires Enabled(n, net, a)
    ensures n.written <= Act(n, net, a).0.written
    ensures Act(n, net, a).0.ep.sendLabel == n.ep.sendLabel
    ensures Act(n, net, a).0.ep.receiveLabel == n.ep.receiveLabel
  {
  }

  ghost predicate LinkOk(l: Link) {
    && l.left.ep.sendLabel != l.left.ep.receiveLabel
    && l.right.ep.sendLabel != l.right.ep.receiveLabel
    && DirectionOk(l.left, l.right, l.net)
    && DirectionOk(l.right, l.left, l.net)
  }

  ghost predicate BelowWrap(l: Link) { |l.left.written| < TWO_64 && |l.right.written| < TWO_64 }

  lemma NextGrows(l: Link, step: Step)
    requires BelowWrap(Next(l, step))
    ensures BelowWrap(l)
  {
    hide Act;
    if Enabled(At(l, step.side), l.net, step.action) { ActGrows(At(l, step.side), l.net, step.action); }
  }

  /** Any step of either end keeps both directions in order. */
  lemma NextKeepsLink(l: Link, step: Step)
    requires LinkOk(l) && BelowWrap(Next(l, step))
    ensures LinkOk(Next(l, step))
  {
    hide DirectionOk, Act;
    if Enabled(At(l, step.side), l.net, step.action) {
      ActGrows(At(l, step.side), l.net, step.action);
      SenderStep(At(l, step.side), At(l, Peer(step.side)), l.net, step.action);
      ReceiverStep(At(l, Peer(step.side)), At(l, step.side), l.net, step.action);
    }
  }

  lemma StartOk(s: Session)
    requires s.leftLabel != s.rightLabel
    ensures LinkOk(Start(s))
  {
    EmptyRepresents();
  }

  lemma {:induction false} RunInvariant(s: Session, steps: seq<Step>)
    requires s.leftLabel != s.rightLabel && BelowWrap(Run(s, steps))
    ensures LinkOk(Run(s, steps))
    decreases |steps|
  {
    hide LinkOk, BelowWrap, Next;
    if steps == [] {
      StartOk(s);
    } else {
      NextGrows(Run(s, steps[..|steps| - 1]), steps[|steps| - 1]);
      RunInvariant(s, steps[..|steps| - 1]);
      NextKeepsLink(Run(s, steps[..|steps| - 1]), steps[|steps| - 1]);
    }
  }

  /** Main result: both directions, over every run in which neither end seals 2^64 records. */
  lemma EveryRunDelivers(s: Session, steps: seq<Step>)
    requires s.leftLabel != s.rightLabel
    requires |Run(s, steps).left.written| < TWO_64 && |Run(s, steps).right.written| < TWO_64
    ensures DeliveryHolds(Run(s, steps).left, Run(s, steps).right)
    ensures DeliveryHolds(Run(s, steps).right, Run(s, steps).left)
  {
    var l := Run(s, steps);
    RunInvariant(s, steps);
    DirectionDelivers(l.left, l.right, l.net);
    DirectionDelivers(l.right, l.left, l.net);
  }

  /** Stop and wait: a sender is never more than one record ahead, and nothing is parked out of order. */
  lemma NeverMoreThanOneAhead(s: Session, steps: seq<Step>)
    requires s.leftLabel != s.rightLabel
    requires |Run(s, steps).left.written| < TWO_64 && |Run(s, steps).right.written| < TWO_64
    ensures var l := Run(s, steps);
            && l.right.ep.recvPending == map[]
            && (l.right.ep.window.highest + 1) % TWO_64 == l.right.ep.recvNext
            && (!l.left.ep.closed ==> |l.right.released| <= |l.left.written| <= |l.right.released| + 1)
            && |l.left.ep.pendingData| <= 1
  {
    RunInvariant(s, steps);
    var e := Run(s, steps).left.ep;
    if e.writing.Some? && e.pendingData != {} {
      assert e.pendingData == {e.writing.value.sequence};
    }
  }

  /** A close closes this end alone; a probe is remembered and sent. */
  lemma OtherActs(n: Node, net: set<Record>, nonce: string)
    ensures Act(n, net, Close) == (n.(ep := n.ep.(closed := true)), net)
    ensures Act(n, net, Probe(nonce)) == (n.(ep := n.ep.(probes := n.ep.probes + {nonce})), net + {ConsentRequest(nonce)})
  {
  }

  // ----- when a read fails -----

  /** The read this step performs returns an error, which makes the tunnel close. */
  predicate ReadFails(n: Node, net: set<Record>, a: Action) {
    Enabled(n, net, a) &&
    match a
    case TakeBuffered(capacity) => ReadBuffered(n.ep, capacity).failed
    case Receive(capacity, r) => ReadRecord(n.ep, capacity, r).failed
    case _ => false
  }

  /** Only the two ends seal data, each under its own label. */
  ghost predicate OwnLabels(s: Session, l: Link) {
    && s.leftLabel == l.left.ep.sendLabel == l.right.ep.receiveLabel
    && s.rightLabel == l.right.ep.sendLabel == l.left.ep.receiveLabel
    && forall r | r in l.net && r.Data? :: r.from == s.leftLabel || r.from == s.rightLabel
  }

  lemma ActLabels(n: Node, net: set<Record>, a: Action)
    requires Enabled(n, net, a)
    ensures var (n2, net2) := Act(n, net, a);
            && n2.ep.sendLabel == n.ep.sendLabel && n2.ep.receiveLabel == n.ep.receiveLabel
            && forall r | r in net2 && r.Data? && r !in net :: r.from == n.ep.sendLabel
  {
    ActGrows(n, net, a);
    if a.Receive? { RecordReplies(n.ep, a.capacity, a.r); }
  }

  lemma RecordReplies(e: Endpoint, capacity: nat, r: Record)
    requires !HasBuffered(e) && e.readBuf == []
    ensures var reply := ReadRecord(e, capacity, r).reply; reply.None? || !reply.value.Data?
  {
  }

  lemma {:induction false} LabelsOverRuns(s: Session, steps: seq<Step>)
    ensures OwnLabels(s, Run(s, steps))
    decreases |steps|
  {
    hide Act, Enabled;
    if steps != [] {
      var l, step := Run(s, steps[..|steps| - 1]), steps[|steps| - 1];
      LabelsOverRuns(s, steps[..|steps| - 1]);
      if Enabled(At(l, step.side), l.net, step.action) { ActLabels(At(l, step.side), l.net, step.action); }
    }
  }

  /**
   * Main result: in every run a read fails exactly when it takes a forgery with bad framing or bad
   * data, or a data record this end sealed itself and the network reflected. Nothing the peer sends,
   * however often it arrives, makes a read fail, and neither does buffered data.
   */
  lemma ReadsFailOnlyOnForgeries(s: Session, steps: seq<Step>, step: Step)
    requires s.leftLabel != s.rightLabel
    ensures var l := Run(s, steps);
            var n := At(l, step.side);
            ReadFails(n, l.net, step.action) <==>
              && Enabled(n, l.net, step.action) && step.action.Receive?
              && var r := step.action.r;
                 (r.Data? && r.from == n.ep.sendLabel) || (r.Forged? && (r.junk == BadFraming || r.junk == BadData))
  {
    LabelsOverRuns(s, steps);
    var l := Run(s, steps);
    var n := At(l, step.side);
    hide Run, ReadRecord, ReadBuffered;
    if Enabled(n, l.net, step.action) {
      match step.action
      case TakeBuffered(capacity) => BufferedReadEffect(n.ep, capacity);
      case Receive(capacity, r) => RecordReadEffect(n.ep, capacity, r);
      case _ =>
    }
  }

  // ----- a failed write is the last that can arrive -----

  /**
   * An open sender has had no failure; a record on the network was sent after successes only; and
   * every record released but the newest was acknowledged.
   */
  ghost predicate FailureIsLast(src: Node, dst: Node, net: set<Record>) {
    && (!src.ep.closed ==> forall i | 0 <= i < |src.returned| :: src.returned[i])
    && (forall r | r in net && r.Data? && r.from == src.ep.sendLabel :: SuccessBefore(src, r.sequence))
    && SuccessBefore(src, |dst.released|)
  }

  /** Every write before number n returned success. */
  ghost predicate SuccessBefore(src: Node, n: nat) {
    n - 1 <= |src.returned| && forall i | 0 <= i < n - 1 :: src.returned[i]
  }

  lemma SuccessStays(src: Node, src2: Node, n: nat)
    requires SuccessBefore(src, n) && src.returned <= src2.returned
    ensures SuccessBefore(src2, n)
  {
  }

  /** What a step of the sender adds: outcomes at the end, and a record only while it is open. */
  lemma SenderAdds(src: Node, delivered: nat, net: set<Record>, a: Action)
    requires SenderOk(src, delivered) && Enabled(src, net, a) && src.ep.sendLabel != src.ep.receiveLabel
    requires |Act(src, net, a).0.written| < TWO_64
    ensures var (n, net2) := Act(src, net, a);
            && src.returned <= n.returned && n.ep.sendLabel == src.ep.sendLabel
            && (!n.ep.closed ==> !src.ep.closed && forall i | |src.returned| <= i < |n.returned| :: n.returned[i])
            && (forall r | r in net2 && r !in net && r.Data? ::
                  !src.ep.closed && r.from == src.ep.sendLabel && r.sequence - 1 <= |src.returned|)
  {
    assert a.Write? ==> |src.ep.pendingData| == 0;
    if a.Receive? { ReadRecordSendingHalf(src.ep, a.capacity, a.r); }
  }

  lemma SenderKeepsFailureLast(src: Node, dst: Node, net: set<Record>, a: Action)
    requires FailureIsLast(src, dst, net) && SenderOk(src, |dst.released|) && Enabled(src, net, a)
    requires src.ep.sendLabel != src.ep.receiveLabel && |Act(src, net, a).0.written| < TWO_64
    ensures FailureIsLast(Act(src, net, a).0, dst, Act(src, net, a).1)
  {
    SenderAdds(src, |dst.released|, net, a);
    hide Act, Enabled, SenderOk;
    var (n, net2) := Act(src, net, a);
    forall r | r in net2 && r.Data? && r.from == n.ep.sendLabel ensures SuccessBefore(n, r.sequence) {
      if r in net { SuccessStays(src, n, r.sequence); }
    }
    SuccessStays(src, n, |dst.released|);
  }

  /** What a step of the receiver adds: its own records, and at most the one payload it was just given. */
  lemma ReceiverAdds(src: Node, dst: Node, net: set<Record>, a: Action)
    requires DirectionOk(src, dst, net) && Enabled(dst, net, a) && dst.ep.sendLabel != dst.ep.receiveLabel
    ensures var (n, net2) := Act(dst, net, a);
            && (forall r | r in net2 && r !in net && r.Data? :: r.from != src.ep.sendLabel)
            && (n.released == dst.released
                || (exists r :: r in net && r.Data? && r.from == src.ep.sendLabel && |n.released| == Max(|dst.released|, r.sequence)))
  {
    hide Represents, FirstNumbers, SenderOk;
    if a.Receive? && a.r.Data? && a.r.from == dst.ep.receiveLabel {
      assert RecordOk(src, |dst.released|, a.r);
      DataKeepsReceiverOk(src, dst, a.capacity, a.r);
      hide ReadRecord;
    } else if !a.TakeBuffered? {
      OtherStepsRelease(dst, net, a);
    }
  }

  lemma ReceiverKeepsFailureLast(src: Node, dst: Node, net: set<Record>, a: Action)
    requires FailureIsLast(src, dst, net) && DirectionOk(src, dst, net) && Enabled(dst, net, a)
    requires dst.ep.sendLabel != dst.ep.receiveLabel
    ensures FailureIsLast(src, Act(dst, net, a).0, Act(dst, net, a).1)
  {
    ReceiverAdds(src, dst, net, a);
    hide Act, Enabled, DirectionOk;
  }

  ghost predicate FailuresAreLast(l: Link) {
    FailureIsLast(l.left, l.right, l.net) && FailureIsLast(l.right, l.left, l.net)
  }

  lemma NextKeepsFailuresLast(l: Link, step: Step)
    requires FailuresAreLast(l) && LinkOk(l) && BelowWrap(Next(l, step))
    ensures FailuresAreLast(Next(l, step))
  {
    if Enabled(At(l, step.side), l.net, step.action) {
      ActGrows(At(l, step.side), l.net, step.action);
      SenderKeepsFailureLast(At(l, step.side), At(l, Peer(step.side)), l.net, step.action);
      ReceiverKeepsFailureLast(At(l, Peer(step.side)), At(l, step.side), l.net, step.action);
    }
    hide Act, Enabled, FailureIsLast, DirectionOk;
  }

  /** Main result: in every run, all records released at one end but the newest were written with success at the other. */
  lemma {:induction false} OnlyTheLastMayHaveFailed(s: Session, steps: seq<Step>)
    requires s.leftLabel != s.rightLabel && BelowWrap(Run(s, steps))
    ensures FailuresAreLast(Run(s, steps))
    decreases |steps|
  {
    hide LinkOk, BelowWrap, Next, FailuresAreLast;
    if steps == [] {
      NothingFailedYet(s);
    } else {
      NextGrows(Run(s, steps[..|steps| - 1]), steps[|steps| - 1]);
      OnlyTheLastMayHaveFailed(s, steps[..|steps| - 1]);
      RunInvariant(s, steps[..|steps| - 1]);
      NextKeepsFailuresLast(Run(s, steps[..|steps| - 1]), steps[|steps| - 1]);
    }
  }

  lemma NothingFailedYet(s: Session)
    ensures FailuresAreLast(Start(s))
  {
  }

  // ----- the 64-bit sequence number -----

  /** Both ends at rest after n delivered records from the left. */
  ghost predicate Rested(l: Link, n: nat) {
    var e, f := l.left.ep, l.right.ep;
    && e.writing.None? && e.pendingData == {} && !e.closed && e.readBuf == [] && e.recvPending == map[]
    && e.sendSeq == n && |l.left.written| == |l.left.returned| == |l.right.released| == n
    && l.right.written == []
    && f.readBuf == [] && f.recvPending == map[] && !f.closed
    && f.receiveLabel == e.sendLabel && e.sendLabel != e.receiveLabel
    && f.recvNext == (n + 1) % TWO_64 && f.window.highest == n
    && (f.window.salt.Some? ==> f.window.salt.value == e.sendSalt)
  }

  /** One undisturbed exchange: write, deliver, acknowledge, return. */
  function Round(s: Session, sequence: u64): seq<Step> {
    [ Step(Left, Write([0], true)),
      Step(Right, Receive(1, Data(s.leftLabel, s.leftSalt, sequence, [0]))),
      Step(Left, Receive(1, DataAck(s.leftLabel, s.leftSalt, sequence))),
      Step(Left, WakeUp(WaiterClosed)) ]
  }

  function PlayRound(l: Link, s: Session, sequence: u64): Link {
    var r := Round(s, sequence);
    Next(Next(Next(Next(l, r[0]), r[1]), r[2]), r[3])
  }

  lemma RunRound(s: Session, steps: seq<Step>, sequence: u64)
    ensures Run(s, steps + Round(s, sequence)) == PlayRound(Run(s, steps), s, sequence)
  {
    var r := Round(s, sequence);
    var a, b, c, d := steps + r[..1], steps + r[..2], steps + r[..3], steps + r;
    assert d[..|d| - 1] == c && c[..|c| - 1] == b && b[..|b| - 1] == a && a[..|a| - 1] == steps;
    assert Run(s, a) == Next(Run(s, steps), r[0]);
    assert Run(s, b) == Next(Run(s, a), r[1]);
    assert Run(s, c) == Next(Run(s, b), r[2]);
    assert Run(s, d) == Next(Run(s, c), r[3]);
  }

  lemma WriteAtRest(l: Link, s: Session, n: nat)
    requires n < TWO_64 && Rested(l, n)
    requires l.left.ep.sendLabel == s.leftLabel && l.left.ep.sendSalt == s.leftSalt
    ensures var sequence := (n + 1) % TWO_64;
            var e := l.left.ep;
            Next(l, Step(Left, Write([0], true))) ==
            Link(l.left.(ep := e.(sendSeq := sequence, pendingData := {sequence}, writing := Some(Flight(sequence, [0], 0, false))),
                         written := l.left.written + [[0]]),
                 l.right, l.net + {Data(s.leftLabel, s.leftSalt, sequence, [0])})
  {
    assert |l.left.ep.pendingData| == 0;
    assert {} + {(n + 1) % TWO_64} == {(n + 1) % TWO_64};
    assert l.left.returned + [] == l.left.returned;
  }

  lemma DeliverAtRest(l: Link, s: Session, n: nat, net: set<Record>)
    requires n < TWO_64 && Rested(l, n)
    requires l.left.ep.sendLabel == s.leftLabel && l.left.ep.sendSalt == s.leftSalt
    ensures var sequence := (n + 1) % TWO_64;
            var data := Data(s.leftLabel, s.leftSalt, sequence, [0]);
            var (right, net2) := Act(l.right, net + {data}, Receive(1, data));
            && Enabled(l.right, net + {data}, Receive(1, data))
            && DataAck(s.leftLabel, s.leftSalt, sequence) in net2
            && right.written == l.right.written
            && |right.released| == (if n + 1 < TWO_64 then n + 1 else n)
            && right.ep.readBuf == [] && right.ep.recvPending == map[] && !right.ep.closed
            && right.ep.receiveLabel == l.right.ep.receiveLabel
            && (n + 1 < TWO_64 ==>
                  right.ep.recvNext == (n + 2) % TWO_64 && right.ep.window.highest == n + 1
                  && right.ep.window.salt == Some(s.leftSalt))
  {
  }

  lemma RoundAtRest(l: Link, s: Session, n: nat)
    requires n < TWO_64 && Rested(l, n)
    requires l.left.ep.sendLabel == s.leftLabel && l.left.ep.sendSalt == s.leftSalt
    ensures var l4 := PlayRound(l, s, (n + 1) % TWO_64);
            && l4.left.ep.sendLabel == s.leftLabel && l4.left.ep.sendSalt == s.leftSalt
            && (n + 1 < TWO_64 ==> Rested(l4, n + 1))
            && (n + 1 == TWO_64 ==>
                  |l4.left.written| == TWO_64 && |l4.left.returned| == TWO_64 && l4.left.returned[n]
                  && |l4.right.released| == n && l4.right.written == [])
  {
    hide Next, Act, Enabled, ReadRecord;
    var sequence: u64 := (n + 1) % TWO_64;
    var r := Round(s, sequence);
    HalfRound(l, s, n);
    var l2 := Next(Next(l, r[0]), r[1]);
    AckAtRest(l2, s, sequence);
  }

  /** Written and delivered, not yet acknowledged. */
  lemma HalfRound(l: Link, s: Session, n: nat)
    requires n < TWO_64 && Rested(l, n)
    requires l.left.ep.sendLabel == s.leftLabel && l.left.ep.sendSalt == s.leftSalt
    ensures var sequence: u64 := (n + 1) % TWO_64;
            var l2 := Next(Next(l, Round(s, sequence)[0]), Round(s, sequence)[1]);
            var e := l.left.ep;
            && l2.left == l.left.(ep := e.(sendSeq := sequence, pendingData := {sequence}, writing := Some(Flight(sequence, [0], 0, false))),
                                  written := l.left.written + [[0]])
            && DataAck(s.leftLabel, s.leftSalt, sequence) in l2.net
            && l2.right.written == l.right.written
            && |l2.right.released| == (if n + 1 < TWO_64 then n + 1 else n)
            && l2.right.ep.readBuf == [] && l2.right.ep.recvPending == map[] && !l2.right.ep.closed
            && l2.right.ep.receiveLabel == l.right.ep.receiveLabel
            && (n + 1 < TWO_64 ==>
                  l2.right.ep.recvNext == (n + 2) % TWO_64 && l2.right.ep.window.highest == n + 1
                  && l2.right.ep.window.salt == Some(s.leftSalt))
  {
    WriteAtRest(l, s, n);
    DeliverAtRest(l, s, n, l.net);
    hide Act, Rested;
  }

  /** The acknowledgement arrives and the writer wakes up: nothing is pending any more. */
  lemma AckAtRest(l: Link, s: Session, sequence: u64)
    requires var e := l.left.ep;
             && e.writing == Some(Flight(sequence, [0], 0, false)) && e.pendingData == {sequence}
             && !e.closed && e.readBuf == [] && e.recvPending == map[]
             && e.sendLabel == s.leftLabel && e.sendSalt == s.leftSalt && e.sendLabel != e.receiveLabel
    requires DataAck(s.leftLabel, s.leftSalt, sequence) in l.net
    ensures var r := Round(s, sequence); var l4 := Next(Next(l, r[2]), r[3]);
            && l4.right == l.right && l4.left.written == l.left.written
            && l4.left.ep == l.left.ep.(pendingData := {}, writing := None)
            && l4.left.returned == l.left.returned + [true]
  {
    var r := Round(s, sequence);
    var l3 := Next(l, r[2]);
    assert l3.right == l.right;
    assert l3.left.ep == l.left.ep.(pendingData := {}, writing := Some(Flight(sequence, [0], 0, true))) by {
      assert {sequence} - {sequence} == {};
    }
  }

  ghost function Rounds(s: Session, n: nat): seq<Step> {
    if n == 0 then [] else Rounds(s, n - 1) + Round(s, n % TWO_64)
  }

  lemma RoundsStep(s: Session, n: nat)
    requires n > 0
    ensures Run(s, Rounds(s, n)) == PlayRound(Run(s, Rounds(s, n - 1)), s, n % TWO_64)
  {
    RunRound(s, Rounds(s, n - 1), n % TWO_64);
  }

  lemma RestExtends(before: Link, after: Link, s: Session, n: nat)
    requires n + 1 < TWO_64 && Rested(before, n)
    requires before.left.ep.sendLabel == s.leftLabel && before.left.ep.sendSalt == s.leftSalt
    requires after == PlayRound(before, s, n + 1)
    ensures Rested(after, n + 1)
    ensures after.left.ep.sendLabel == s.leftLabel && after.left.ep.sendSalt == s.leftSalt
  {
    hide PlayRound, Rested;
    RoundAtRest(before, s, n);
  }

  lemma RestContinues(s: Session, n: nat)
    requires 0 < n < TWO_64 && Rested(Run(s, Rounds(s, n - 1)), n - 1)
    requires Run(s, Rounds(s, n - 1)).left.ep.sendLabel == s.leftLabel
    requires Run(s, Rounds(s, n - 1)).left.ep.sendSalt == s.leftSalt
    ensures Rested(Run(s, Rounds(s, n)), n)
    ensures Run(s, Rounds(s, n)).left.ep.sendLabel == s.leftLabel
    ensures Run(s, Rounds(s, n)).left.ep.sendSalt == s.leftSalt
  {
    hide Run, Rounds, PlayRound, Rested;
    RoundsStep(s, n);
    assert n % TWO_64 == n - 1 + 1;
    RestExtends(Run(s, Rounds(s, n - 1)), Run(s, Rounds(s, n)), s, n - 1);
  }

  lemma StartRests(s: Session)
    requires s.leftLabel != s.rightLabel
    ensures Rested(Start(s), 0)
    ensures Run(s, Rounds(s, 0)) == Start(s)
  {
  }

  lemma {:induction false} RoundsRest(s: Session, n: nat)
    requires s.leftLabel != s.rightLabel && n < TWO_64
    ensures Rested(Run(s, Rounds(s, n)), n)
    ensures Run(s, Rounds(s, n)).left.ep.sendLabel == s.leftLabel
    ensures Run(s, Rounds(s, n)).left.ep.sendSalt == s.leftSalt
  {
    if n == 0 {
      StartRests(s);
    } else {
      RoundsRest(s, n - 1);
      RestContinues(s, n);
    }
  }

  /** When record 2^64 is sealed its number wraps to 0: it is acknowledged as a replay and never released. */
  lemma WrapLosesARecord(s: Session)
    requires s.leftLabel != s.rightLabel
    ensures var l := Run(s, Rounds(s, TWO_64));
            && |l.left.written| == TWO_64 && l.right.written == []
            && !DeliveryHolds(l.left, l.right)
  {
    var n := TWO_64 - 1;
    RoundsRest(s, n);
    RoundAtRest(Run(s, Rounds(s, n)), s, n);
    RoundsStep(s, TWO_64);
  }

  ghost predicate DeliversUpTo(limit: nat) {
    forall s: Session, steps: seq<Step> ::
      s.leftLabel != s.rightLabel
      && |Run(s, steps).left.written| <= limit && |Run(s, steps).right.written| <= limit ==>
        DeliveryHolds(Run(s, steps).left, Run(s, steps).right) && DeliveryHolds(Run(s, steps).right, Run(s, steps).left)
  }

  /** The exact range of the guarantee: fewer than 2^64 records per direction. */
  lemma DeliveryExactlyBelowWrap(limit: nat)
    ensures DeliversUpTo(limit) <==> limit < TWO_64
  {
    if limit < TWO_64 {
      forall s: Session, steps: seq<Step> |
        s.leftLabel != s.rightLabel
        && |Run(s, steps).left.written| <= limit && |Run(s, steps).right.written| <= limit
        ensures DeliveryHolds(Run(s, steps).left, Run(s, steps).right)
        ensures DeliveryHolds(Run(s, steps).right, Run(s, steps).left)
      {
        EveryRunDelivers(s, steps);
      }
    } else {
      var s := Session("a", "b", [], []);
      WrapLosesARecord(s);
      assert |Run(s, Rounds(s, TWO_64)).left.written| <= limit;
    }
  }
}
