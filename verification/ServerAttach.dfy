/** How a registration is attached, superseded, expired and torn down by handlers that race. */
module ServerAttach {
  import opened Basics
  import opened ServerRegistry

  datatype Kind = Mux | Quic

  /** The published connection of one kind, and every connection ever published there, in order. */
  datatype Slot = Slot(current: Option<nat>, past: seq<nat>)

  /** A connection whose claim passed its checks and is about to be published. */
  datatype Pending = Pending(kind: Kind, conn: nat)

  /**
   * A registered client's attach state. `expired`: the unattached-registration timer took it;
   * `claiming`: a claim holds the attach lock, between its checks and its publication.
   */
  datatype Reg = Reg(client: Instance, attached: bool, reaped: bool, cancelled: bool, mux: Slot, quic: Slot,
                     claiming: Option<Pending>, timer: bool, monitor: bool, expired: bool, counted: bool, onceDone: bool)
  {
    predicate Closed() { reaped || cancelled }

    /** Closed, and no claim is past its checks. */
    predicate Frozen() { Closed() && claiming.None? }

    function At(kind: Kind): Slot { if kind.Mux? then mux else quic }

    function Put(kind: Kind, slot: Slot): Reg {
      if kind.Mux? then this.(mux := slot) else this.(quic := slot)
    }
  }

  datatype Phase = Refused | Claiming | Serving | Over
  datatype Conn = Conn(serial: nat, kind: Kind, phase: Phase)

  datatype Cause = Expiry | Inactive | Ended(conn: nat)
  datatype Next = ToForget | ToCloseMux | ToCancel | ToDecrement | Finished

  /** A teardown in progress; `full` is closeServerClientConnections, otherwise the end of a mux carrier. */
  datatype Teardown = Teardown(serial: nat, cause: Cause, full: bool, next: Next)

  datatype Sys = Sys(registry: Registry, regs: seq<Reg>, conns: seq<Conn>, teardowns: seq<Teardown>, gauge: int)

  const INITIAL := Sys(EMPTY, [], [], [], 0)

  function NewReg(client: Instance): Reg {
    Reg(client, false, false, false, Slot(None, []), Slot(None, []), None, true, true, false, false, false)
  }

  // ----- critical sections of one registration -----

  /** claimServerAttach up to the publish callback. */
  function ClaimCheck(r: Reg, kind: Kind, conn: nat): (Reg, bool) {
    if r.Closed() then (r, false) else (r.(attached := true, claiming := Some(Pending(kind, conn))), true)
  }

  /** The publish callback of either transport; cancellation does not take the attach lock and may come first. */
  function Publish(r: Reg): Reg
    requires r.claiming.Some?
  {
    var p := r.claiming.value;
    r.(claiming := None).Put(p.kind, Slot(Some(p.conn), r.At(p.kind).past + [p.conn]))
  }

  /** claimServerAttach without interference. */
  function Claim(r: Reg, kind: Kind, conn: nat): (Reg, bool) {
    var (checked, ok) := ClaimCheck(r, kind, conn);
    if ok then (Publish(checked), true) else (r, false)
  }

  /** releaseServerAttach */
  function Release(r: Reg, kind: Kind, conn: nat): (Reg, bool) {
    if r.At(kind).current != Some(conn) then (r, false)
    else (r.(reaped := true).Put(kind, r.At(kind).(current := None)), true)
  }

  /** The decision of reapUnattachedRegistration once its timer fired. */
  function Expire(r: Reg): (Reg, bool) {
    (r.(reaped := r.reaped || !r.attached, expired := r.expired || !r.attached, timer := false), !r.attached)
  }

  // ----- steps of the server -----

  datatype Step =
    | DoRegister(clientID: string, names: seq<string>)
    | CountUp(serial: nat)
    | TimerFires(serial: nat)
    | Inactivity(serial: nat, muxClosed: bool)
    | Attach(serial: nat, kind: Kind)
    | Install(serial: nat)
    | EndConn(conn: nat, peerGone: bool)
    | Advance(index: nat)

  /** decrementOnce */
  function Decrement(s: Sys, i: nat): Sys
    requires i < |s.regs|
  {
    if s.regs[i].onceDone then s
    else s.(regs := s.regs[i := s.regs[i].(onceDone := true)], gauge := s.gauge - 1)
  }

  function CancelReg(s: Sys, i: nat): Sys
    requires i < |s.regs|
  {
    s.(regs := s.regs[i := s.regs[i].(cancelled := true)])
  }

  /** The lifecycle-locked section of registration, replacing a previous instance of the client. */
  function StepRegister(s: Sys, clientID: string, names: seq<string>): Sys {
    var serial := |s.regs|;
    var (registry, result) := Register(s.registry, serial, clientID, names);
    var cleared :=
      if clientID in s.registry.clients && s.registry.clients[clientID].serial < |s.regs| then
        Decrement(CancelReg(s, s.registry.clients[clientID].serial), s.registry.clients[clientID].serial)
      else s;
    var s := cleared.(registry := registry);
    if result.Accepted? then s.(regs := s.regs + [NewReg(result.client)]) else s
  }

  function StepAttach(s: Sys, i: nat, kind: Kind): Sys
    requires i < |s.regs|
  {
    var (r, ok) := ClaimCheck(s.regs[i], kind, |s.conns|);
    s.(regs := s.regs[i := r], conns := s.conns + [Conn(i, kind, if ok then Claiming else Refused)])
  }

  function StepInstall(s: Sys, i: nat): Sys
    requires i < |s.regs| && s.regs[i].claiming.Some? && s.regs[i].claiming.value.conn < |s.conns|
  {
    var c := s.regs[i].claiming.value.conn;
    s.(regs := s.regs[i := Publish(s.regs[i])], conns := s.conns[c := s.conns[c].(phase := Serving)])
  }

  /** The end of a connection's handler: a mux session always tears down, QUIC only when its peer is gone. */
  function StepEnd(s: Sys, c: nat, peerGone: bool): Sys
    requires c < |s.conns| && s.conns[c].serial < |s.regs|
  {
    var conn := s.conns[c];
    var (r, isCurrent) := Release(s.regs[conn.serial], conn.kind, c);
    var s := s.(regs := s.regs[conn.serial := r], conns := s.conns[c := conn.(phase := Over)]);
    if isCurrent && (conn.kind.Mux? || peerGone) then
      s.(teardowns := s.teardowns + [Teardown(conn.serial, Ended(c), conn.kind.Quic?, ToForget)])
    else s
  }

  /** One critical section of a teardown. */
  function StepAdvance(s: Sys, k: nat): Sys
    requires k < |s.teardowns| && s.teardowns[k].serial < |s.regs|
  {
    var t := s.teardowns[k];
    var i := t.serial;
    match t.next
    case ToForget =>
      var client := s.regs[i].client;
      var (registry, done) := Forget(s.registry, client.clientID, client);
      var next := if t.full then ToCloseMux else if done then ToCancel else ToDecrement;
      s.(registry := registry, teardowns := s.teardowns[k := t.(next := next)])
    case ToCloseMux =>
      s.(regs := s.regs[i := s.regs[i].(mux := s.regs[i].mux.(current := None))],
         teardowns := s.teardowns[k := t.(next := ToCancel)])
    case ToCancel => CancelReg(s, i).(teardowns := s.teardowns[k := t.(next := ToDecrement)])
    case ToDecrement => Decrement(s, i).(teardowns := s.teardowns[k := t.(next := Finished)])
    case Finished => s
  }

  predicate EndEnabled(s: Sys, c: nat) {
    && c < |s.conns| && s.conns[c].phase.Serving? && s.conns[c].serial < |s.regs|
    && s.regs[s.conns[c].serial].claiming.None?
  }

  /** Any handler may take its next step at any time; a step that is not enabled, or waits for the attach lock, changes nothing. */
  function Apply(s: Sys, step: Step): Sys {
    match step
    case DoRegister(clientID, names) => StepRegister(s, clientID, names)
    case CountUp(i) =>
      if i < |s.regs| && !s.regs[i].counted then
        s.(regs := s.regs[i := s.regs[i].(counted := true)], gauge := s.gauge + 1)
      else s
    case TimerFires(i) =>
      if i < |s.regs| && s.regs[i].timer && s.regs[i].claiming.None? then
        var (r, reap) := Expire(s.regs[i]);
        s.(regs := s.regs[i := r],
           teardowns := s.teardowns + if reap then [Teardown(i, Expiry, true, ToForget)] else [])
      else s
    case Inactivity(i, muxClosed) =>
      if i < |s.regs| && s.regs[i].monitor && (s.regs[i].mux.current.None? || muxClosed) then
        s.(regs := s.regs[i := s.regs[i].(cancelled := true, monitor := false)],
           teardowns := s.teardowns + [Teardown(i, Inactive, true, ToForget)])
      else s
    case Attach(i, kind) => if i < |s.regs| && s.regs[i].claiming.None? then StepAttach(s, i, kind) else s
    case Install(i) =>
      if i < |s.regs| && s.regs[i].claiming.Some? && s.regs[i].claiming.value.conn < |s.conns| then StepInstall(s, i) else s
    case EndConn(c, peerGone) =>
      if EndEnabled(s, c) then StepEnd(s, c, peerGone) else s
    case Advance(k) =>
      if k < |s.teardowns| && s.teardowns[k].serial < |s.regs| then StepAdvance(s, k) else s
  }

  function Run(s: Sys, steps: seq<Step>): Sys
    decreases |steps|
  {
    if steps == [] then s else Run(Apply(s, steps[0]), steps[1..])
  }

  // ----- what each handler does -----

  /** Every registration but one is as before, and so are registry and gauge. */
  ghost predicate OnlyReg(s: Sys, s': Sys, i: int) {
    && |s'.regs| == |s.regs| && s'.registry == s.registry && s'.gauge == s.gauge
    && forall j | 0 <= j < |s.regs| && j != i :: s'.regs[j] == s.regs[j]
  }

  /** The timer, with no claim under way: a registration never attached is expired, reaped and torn down; an attached one is left. */
  lemma TimerEffect(s: Sys, i: nat)
    requires i < |s.regs| && s.regs[i].timer && s.regs[i].claiming.None?
    ensures var s' := Apply(s, TimerFires(i)); var r, r' := s.regs[i], s'.regs[i];
            && OnlyReg(s, s', i) && s'.conns == s.conns && !r'.timer && r'.attached == r.attached
            && (!r.attached ==> r'.expired && r'.reaped && s'.teardowns == s.teardowns + [Teardown(i, Expiry, true, ToForget)])
            && (r.attached ==> r' == r.(timer := false) && s'.teardowns == s.teardowns)
  {
    assert s.teardowns + [] == s.teardowns;
  }

  /** The inactivity monitor: without a live mux session the registration is cancelled and torn down. */
  lemma InactivityEffect(s: Sys, i: nat, muxClosed: bool)
    requires i < |s.regs|
    ensures var s' := Apply(s, Inactivity(i, muxClosed)); var r := s.regs[i];
            var idle := r.monitor && (r.mux.current.None? || muxClosed);
            && (!idle ==> s' == s)
            && (idle ==>
                  && OnlyReg(s, s', i) && s'.conns == s.conns && s'.regs[i] == r.(cancelled := true, monitor := false)
                  && s'.teardowns == s.teardowns + [Teardown(i, Inactive, true, ToForget)])
  {
  }

  /** A claim passes its checks exactly in a registration neither reaped nor cancelled. */
  lemma AttachEffect(s: Sys, i: nat, kind: Kind)
    requires i < |s.regs| && s.regs[i].claiming.None?
    ensures var s' := Apply(s, Attach(i, kind)); var r := s.regs[i];
            var open := !r.reaped && !r.cancelled;
            && OnlyReg(s, s', i) && s'.teardowns == s.teardowns
            && s'.conns == s.conns + [Conn(i, kind, if open then Claiming else Refused)]
            && s'.regs[i] == if open then r.(attached := true, claiming := Some(Pending(kind, |s.conns|))) else r
  {
  }

  /** A claim past its checks is published in its slot, displacing what was there, and served. */
  lemma InstallEffect(s: Sys, i: nat)
    requires i < |s.regs| && s.regs[i].claiming.Some? && s.regs[i].claiming.value.conn < |s.conns|
    ensures var s' := Apply(s, Install(i)); var r, r' := s.regs[i], s'.regs[i]; var p := r.claiming.value;
            && OnlyReg(s, s', i) && s'.teardowns == s.teardowns && r'.claiming.None?
            && (if p.kind == Mux then r'.mux == Slot(Some(p.conn), r.mux.past + [p.conn]) && r'.quic == r.quic
                else r'.quic == Slot(Some(p.conn), r.quic.past + [p.conn]) && r'.mux == r.mux)
            && s'.conns == s.conns[p.conn := s.conns[p.conn].(phase := Serving)]
            && r' == r.(claiming := None, mux := r'.mux, quic := r'.quic)
  {
  }

  /** A release empties the slot and reaps, exactly when the connection is the one published there. */
  lemma ReleaseEffect(r: Reg, kind: Kind, conn: nat)
    ensures var (r', current) := Release(r, kind, conn);
            && (current <==> if kind == Mux then r.mux.current == Some(conn) else r.quic.current == Some(conn))
            && (!current ==> r' == r)
            && (current && kind == Mux ==> r' == r.(reaped := true, mux := r.mux.(current := None)))
            && (current && kind == Quic ==> r' == r.(reaped := true, quic := r.quic.(current := None)))
  {
  }

  /** The state after the end of a connection, by what its release decided. */
  lemma EndState(s: Sys, c: nat, peerGone: bool)
    requires EndEnabled(s, c)
    ensures var s' := Apply(s, EndConn(c, peerGone)); var conn := s.conns[c];
            var (r', current) := Release(s.regs[conn.serial], conn.kind, c);
            && s'.regs == s.regs[conn.serial := r'] && s'.conns == s.conns[c := conn.(phase := Over)]
            && s'.registry == s.registry && s'.gauge == s.gauge
            && s'.teardowns == (if current && (conn.kind == Mux || peerGone)
                                then s.teardowns + [Teardown(conn.serial, Ended(c), conn.kind == Quic, ToForget)] else s.teardowns)
  {
    hide Release;
  }

  /**
   * The end of a connection: a superseded one changes nothing more; the current one leaves its slot
   * empty and the registration reaped, and a teardown begins, unless it is QUIC with its peer alive.
   */
  lemma EndEffect(s: Sys, c: nat, peerGone: bool)
    requires EndEnabled(s, c)
    ensures var s' := Apply(s, EndConn(c, peerGone)); var conn := s.conns[c];
            var r, r' := s.regs[conn.serial], s'.regs[conn.serial];
            var current := if conn.kind == Mux then r.mux.current == Some(c) else r.quic.current == Some(c);
            && OnlyReg(s, s', conn.serial) && s'.conns == s.conns[c := conn.(phase := Over)]
            && (!current ==> r' == r && s'.teardowns == s.teardowns)
            && (current ==>
                  && r'.reaped
                  && (if conn.kind == Mux then r'.mux == r.mux.(current := None) && r'.quic == r.quic
                      else r'.quic == r.quic.(current := None) && r'.mux == r.mux)
                  && r' == r.(reaped := true, mux := r'.mux, quic := r'.quic)
                  && s'.teardowns == (if conn.kind == Mux || peerGone
                                      then s.teardowns + [Teardown(conn.serial, Ended(c), conn.kind == Quic, ToForget)] else s.teardowns))
  {
    hide Apply, Release;
    EndState(s, c, peerGone);
    ReleaseEffect(s.regs[s.conns[c].serial], s.conns[c].kind, c);
  }

  /** The sections of a teardown, in order: forget; for a full one close the mux session and cancel; decrement once. */
  lemma AdvanceEffect(s: Sys, k: nat)
    requires k < |s.teardowns| && s.teardowns[k].serial < |s.regs|
    ensures var s' := Apply(s, Advance(k)); var t, t' := s.teardowns[k], s'.teardowns[k];
            var r, r' := s.regs[t.serial], s'.regs[t.serial];
            var client := r.client;
            var mine := client.clientID in s.registry.clients && s.registry.clients[client.clientID] == client;
            && s'.conns == s.conns && s'.teardowns == s.teardowns[k := t'] && t' == t.(next := t'.next)
            && (forall j | 0 <= j < |s.regs| && j != t.serial :: s'.regs[j] == s.regs[j]) && |s'.regs| == |s.regs|
            && s'.registry == (if t.next == ToForget then Forget(s.registry, client.clientID, client).0 else s.registry)
            && s'.gauge == (if t.next == ToDecrement && !r.onceDone then s.gauge - 1 else s.gauge)
            && match t.next
               case ToForget => r' == r && t'.next == if t.full then ToCloseMux else if mine then ToCancel else ToDecrement
               case ToCloseMux => r' == r.(mux := r.mux.(current := None)) && t'.next == ToCancel
               case ToCancel => r' == r.(cancelled := true) && t'.next == ToDecrement
               case ToDecrement => r' == r.(onceDone := true) && t'.next == Finished
               case Finished => s' == s
  {
    hide Remove;
  }

  /** The gauge rises once per registration. */
  lemma CountEffect(s: Sys, i: nat)
    requires i < |s.regs|
    ensures var s' := Apply(s, CountUp(i));
            if s.regs[i].counted then s' == s
            else s' == s.(regs := s.regs[i := s.regs[i].(counted := true)], gauge := s.gauge + 1)
  {
  }

  // ----- the invariant -----

  ghost predicate Registered(s: Sys, i: int) {
    && 0 <= i < |s.regs|
    && s.regs[i].client.clientID in s.registry.clients
    && s.registry.clients[s.regs[i].client.clientID] == s.regs[i].client
  }

  ghost predicate Stored(s: Sys, id: string)
    requires id in s.registry.clients
  {
    var client := s.registry.clients[id];
    client.clientID == id && client.serial < |s.regs| && s.regs[client.serial].client == client
  }

  ghost predicate RegistryOk(s: Sys) {
    && RoutesLead(s.registry)
    && (forall i | 0 <= i < |s.regs| :: s.regs[i].client.serial == i)
    && (forall id | id in s.registry.clients :: Stored(s, id))
    && (forall i | 0 <= i < |s.regs| :: Registered(s, i) ==> !s.regs[i].onceDone)
  }

  /** A published connection is the newest one and still served; an emptied slot belongs to a closed registration. */
  ghost predicate SlotOk(s: Sys, i: int, kind: Kind)
    requires 0 <= i < |s.regs|
  {
    var slot := s.regs[i].At(kind);
    && (forall a | 0 <= a < |slot.past| ::
          slot.past[a] < |s.conns| && s.conns[slot.past[a]].serial == i && s.conns[slot.past[a]].kind == kind)
    && (forall a, b | 0 <= a < b < |slot.past| :: slot.past[a] < slot.past[b])
    && (slot.current.Some? ==> slot.past != [] && slot.current.value == slot.past[|slot.past| - 1])
    && (slot.current.Some? ==> s.conns[slot.current.value].phase.Serving?)
    && (slot.current.None? && slot.past != [] ==> s.regs[i].Closed())
  }

  /** A claim past its checks is for a newer connection than its slot ever held, in a registration not reaped. */
  ghost predicate ClaimOk(s: Sys, i: int)
    requires 0 <= i < |s.regs|
  {
    s.regs[i].claiming.Some? ==>
      var p := s.regs[i].claiming.value;
      && p.conn < |s.conns| && s.conns[p.conn] == Conn(i, p.kind, Claiming)
      && !s.regs[i].reaped
      && forall a | 0 <= a < |s.regs[i].At(p.kind).past| :: s.regs[i].At(p.kind).past[a] < p.conn
  }

  ghost predicate RegOk(s: Sys, i: int)
    requires 0 <= i < |s.regs|
  {
    var r := s.regs[i];
    && SlotOk(s, i, Mux) && SlotOk(s, i, Quic)
    && ClaimOk(s, i)
    && (r.attached <==> r.mux.past != [] || r.quic.past != [] || r.claiming.Some?)
    && (r.expired ==> r.reaped && !r.attached)
  }

  ghost predicate RegsOk(s: Sys) {
    forall i | 0 <= i < |s.regs| :: RegOk(s, i)
  }

  ghost predicate TeardownOk(s: Sys, t: Teardown) {
    && t.serial < |s.regs|
    && s.regs[t.serial].Closed()
    && (!t.next.ToForget? ==> !Registered(s, t.serial))
    && (t.next.Finished? ==> s.regs[t.serial].onceDone)
    && (t.cause.Expiry? ==> s.regs[t.serial].expired)
    && (t.cause.Inactive? ==> s.regs[t.serial].cancelled)
    && (t.cause.Ended? ==> EndedOk(s, t.serial, t.cause.conn))
  }

  /** The connection whose end started a teardown is over and was the last one its slot ever held. */
  ghost predicate EndedOk(s: Sys, i: nat, c: nat)
    requires i < |s.regs|
  {
    && c < |s.conns| && s.conns[c].serial == i && s.conns[c].phase.Over?
    && s.regs[i].reaped
    && var past := s.regs[i].At(s.conns[c].kind).past;
       past != [] && past[|past| - 1] == c
  }

  ghost predicate TeardownsOk(s: Sys) {
    forall k | 0 <= k < |s.teardowns| :: TeardownOk(s, s.teardowns[k])
  }

  /** Teardown `k` took the registration out of the registry and still owes what is not done yet. */
  ghost predicate Settling(s: Sys, i: int, k: int)
    requires 0 <= i < |s.regs|
  {
    && 0 <= k < |s.teardowns| && s.teardowns[k].serial == i && !s.teardowns[k].next.ToForget?
    && (s.regs[i].cancelled || s.teardowns[k].next.ToCloseMux? || s.teardowns[k].next.ToCancel?)
    && (s.regs[i].onceDone || !s.teardowns[k].next.Finished?)
  }

  ghost predicate Gone(s: Sys, i: int)
    requires 0 <= i < |s.regs|
  {
    (s.regs[i].cancelled && s.regs[i].onceDone) || exists k :: Settling(s, i, k)
  }

  ghost predicate Accounted(s: Sys) {
    forall i | 0 <= i < |s.regs| :: Registered(s, i) || Gone(s, i)
  }

  function Share(r: Reg): int { (if r.counted then 1 else 0) - (if r.onceDone then 1 else 0) }

  /** What the active-client gauge should show: counted registrations minus ended ones. */
  function Balance(regs: seq<Reg>): int {
    if regs == [] then 0 else Balance(regs[..|regs| - 1]) + Share(regs[|regs| - 1])
  }

  ghost predicate Inv(s: Sys) {
    RegistryOk(s) && RegsOk(s) && TeardownsOk(s) && Accounted(s) && s.gauge == Balance(s.regs)
  }

  // ----- the gauge -----

  lemma {:induction false} BalanceUpdate(regs: seq<Reg>, i: nat, r: Reg)
    requires i < |regs|
    ensures Balance(regs[i := r]) == Balance(regs) - Share(regs[i]) + Share(r)
    decreases |regs|
  {
    var n := |regs| - 1;
    var changed := regs[i := r];
    if i == n {
      assert changed[..n] == regs[..n];
    } else {
      BalanceUpdate(regs[..n], i, r);
      assert changed[..n] == regs[..n][i := r];
    }
  }

  lemma BalanceAppend(regs: seq<Reg>, r: Reg)
    ensures Balance(regs + [r]) == Balance(regs) + Share(r)
  {
    assert (regs + [r])[..|regs|] == regs;
  }

  // ----- one registration changes, the registry does not -----

  /** Flags only rise and the client stays. */
  ghost predicate Onward(r: Reg, r': Reg) {
    && r'.client == r.client
    && (r.cancelled ==> r'.cancelled) && (r.reaped ==> r'.reaped)
    && (r.onceDone ==> r'.onceDone) && (r.expired ==> r'.expired) && (r.attached ==> r'.attached)
  }

  /** Registration `i` moves onward; the registry is untouched. */
  ghost predicate OneReg(s: Sys, s': Sys, i: nat) {
    && i < |s.regs| && |s'.regs| == |s.regs|
    && s'.registry == s.registry
    && s'.regs == s.regs[i := s'.regs[i]]
    && Onward(s.regs[i], s'.regs[i])
    && |s.conns| <= |s'.conns|
  }

  lemma OneRegRegistry(s: Sys, s': Sys, i: nat)
    requires OneReg(s, s', i) && RegistryOk(s)
    requires Registered(s, i) ==> !s'.regs[i].onceDone
    ensures RegistryOk(s')
    ensures forall j :: Registered(s', j) <==> Registered(s, j)
  {
    assert forall j :: Registered(s', j) <==> Registered(s, j);
  }

  lemma OneRegAccounted(s: Sys, s': Sys, i: nat)
    requires OneReg(s, s', i) && Accounted(s) && s.teardowns <= s'.teardowns
    requires forall j :: Registered(s', j) <==> Registered(s, j)
    ensures Accounted(s')
  {
    forall j | 0 <= j < |s'.regs| ensures Registered(s', j) || Gone(s', j) {
      if !Registered(s, j) && exists k :: Settling(s, j, k) {
        var k :| Settling(s, j, k);
        assert s'.teardowns[k] == s.teardowns[k];
        assert Settling(s', j, k);
      }
    }
  }

  /** Slots of a registration survive changes elsewhere, as long as its own connections keep their phase. */
  lemma SlotFrame(s: Sys, s': Sys, i: int, kind: Kind)
    requires 0 <= i < |s.regs| && i < |s'.regs| && SlotOk(s, i, kind)
    requires s'.regs[i].At(kind) == s.regs[i].At(kind) && (s.regs[i].Closed() ==> s'.regs[i].Closed())
    requires |s.conns| <= |s'.conns|
    requires forall c | 0 <= c < |s.conns| :: s'.conns[c].serial == s.conns[c].serial && s'.conns[c].kind == s.conns[c].kind
    requires s.regs[i].At(kind).current.Some? ==>
               s'.conns[s.regs[i].At(kind).current.value] == s.conns[s.regs[i].At(kind).current.value]
    ensures SlotOk(s', i, kind)
  {
  }

  lemma ClaimFrame(s: Sys, s': Sys, i: int)
    requires 0 <= i < |s.regs| && i < |s'.regs| && ClaimOk(s, i)
    requires s'.regs[i].claiming == s.regs[i].claiming && s'.regs[i].reaped == s.regs[i].reaped
    requires s'.regs[i].mux.past == s.regs[i].mux.past && s'.regs[i].quic.past == s.regs[i].quic.past
    requires s.conns <= s'.conns
    ensures ClaimOk(s', i)
  {
    assert forall kind: Kind :: s'.regs[i].At(kind).past == s.regs[i].At(kind).past;
  }

  lemma RegsFrame(s: Sys, s': Sys, i: nat)
    requires OneReg(s, s', i) && RegsOk(s)
    requires forall c | 0 <= c < |s.conns| :: s'.conns[c] == s.conns[c]
    requires RegOk(s', i)
    ensures RegsOk(s')
  {
    forall j | 0 <= j < |s'.regs| ensures RegOk(s', j) {
      if j != i {
        assert RegOk(s, j);
        SlotFrame(s, s', j, Mux);
        SlotFrame(s, s', j, Quic);
      }
    }
  }

  /** Teardowns already running stay in order when the registration they work on keeps its history. */
  lemma TeardownFrame(s: Sys, s': Sys, i: nat, t: Teardown)
    requires OneReg(s, s', i) && TeardownOk(s, t)
    requires forall j :: Registered(s', j) <==> Registered(s, j)
    requires s.regs[i].reaped ==> s'.regs[i].mux.past == s.regs[i].mux.past && s'.regs[i].quic.past == s.regs[i].quic.past
    requires forall c | 0 <= c < |s.conns| :: s'.conns[c].serial == s.conns[c].serial && s'.conns[c].kind == s.conns[c].kind
    requires forall c | 0 <= c < |s.conns| && s.conns[c].phase.Over? :: s'.conns[c].phase.Over?
    ensures TeardownOk(s', t)
  {
  }

  lemma OneRegBalance(s: Sys, s': Sys, i: nat)
    requires OneReg(s, s', i) && s.gauge == Balance(s.regs)
    requires s'.gauge - s.gauge == Share(s'.regs[i]) - Share(s.regs[i])
    ensures s'.gauge == Balance(s'.regs)
  {
    BalanceUpdate(s.regs, i, s'.regs[i]);
  }

  lemma CountUpKeeps(s: Sys, i: nat)
    requires Inv(s)
    ensures Inv(Apply(s, CountUp(i)))
  {
    var s' := Apply(s, CountUp(i));
    if s' != s {
      OneRegRegistry(s, s', i);
      assert RegOk(s, i);
      SlotFrame(s, s', i, Mux); SlotFrame(s, s', i, Quic);
      RegsFrame(s, s', i);
      forall k | 0 <= k < |s'.teardowns| ensures TeardownOk(s', s'.teardowns[k]) { TeardownFrame(s, s', i, s.teardowns[k]); }
      OneRegAccounted(s, s', i);
      OneRegBalance(s, s', i);
    }
  }

  lemma TimerKeeps(s: Sys, i: nat)
    requires Inv(s)
    ensures Inv(Apply(s, TimerFires(i)))
  {
    var s' := Apply(s, TimerFires(i));
    if s' != s {
      OneRegRegistry(s, s', i);
      assert RegOk(s, i);
      SlotFrame(s, s', i, Mux); SlotFrame(s, s', i, Quic);
      RegsFrame(s, s', i);
      forall k | 0 <= k < |s'.teardowns| ensures TeardownOk(s', s'.teardowns[k]) {
        if k < |s.teardowns| { TeardownFrame(s, s', i, s.teardowns[k]); }
      }
      OneRegAccounted(s, s', i);
      OneRegBalance(s, s', i);
    }
  }

  lemma InactivityKeeps(s: Sys, i: nat, muxClosed: bool)
    requires Inv(s)
    ensures Inv(Apply(s, Inactivity(i, muxClosed)))
  {
    var s' := Apply(s, Inactivity(i, muxClosed));
    if s' != s {
      OneRegRegistry(s, s', i);
      assert RegOk(s, i);
      SlotFrame(s, s', i, Mux); SlotFrame(s, s', i, Quic);
      RegsFrame(s, s', i);
      forall k | 0 <= k < |s'.teardowns| ensures TeardownOk(s', s'.teardowns[k]) {
        if k < |s.teardowns| { TeardownFrame(s, s', i, s.teardowns[k]); }
      }
      OneRegAccounted(s, s', i);
      OneRegBalance(s, s', i);
    }
  }

  lemma AttachSlot(s: Sys, i: nat, kind: Kind, other: Kind)
    requires i < |s.regs| && SlotOk(s, i, other)
    ensures SlotOk(StepAttach(s, i, kind), i, other)
  {
    SlotFrame(s, StepAttach(s, i, kind), i, other);
  }

  lemma AttachKeeps(s: Sys, i: nat, kind: Kind)
    requires Inv(s) && i < |s.regs| && s.regs[i].claiming.None?
    ensures Inv(StepAttach(s, i, kind))
  {
    hide SlotOk, TeardownOk, Settling;
    var s' := StepAttach(s, i, kind);
    OneRegRegistry(s, s', i);
    assert RegOk(s, i);
    AttachSlot(s, i, kind, Mux);
    AttachSlot(s, i, kind, Quic);
    AttachClaims(s, i, kind);
    RegsFrame(s, s', i);
    forall k | 0 <= k < |s'.teardowns| ensures TeardownOk(s', s'.teardowns[k]) { TeardownFrame(s, s', i, s.teardowns[k]); }
    OneRegAccounted(s, s', i);
    OneRegBalance(s, s', i);
  }

  lemma AttachClaims(s: Sys, i: nat, kind: Kind)
    requires i < |s.regs| && s.regs[i].claiming.None? && SlotOk(s, i, kind)
    ensures ClaimOk(StepAttach(s, i, kind), i)
  {
  }

  lemma InstallOwnSlot(s: Sys, i: nat)
    requires i < |s.regs| && s.regs[i].claiming.Some? && ClaimOk(s, i) && SlotOk(s, i, s.regs[i].claiming.value.kind)
    ensures SlotOk(StepInstall(s, i), i, s.regs[i].claiming.value.kind)
  {
    var kind, c := s.regs[i].claiming.value.kind, s.regs[i].claiming.value.conn;
    var s' := StepInstall(s, i);
    assert s'.regs[i].At(kind) == Slot(Some(c), s.regs[i].At(kind).past + [c]);
    assert s'.conns[c] == Conn(i, kind, Serving);
    hide ClaimOk;
  }

  lemma InstallSlot(s: Sys, i: nat, j: nat, kind: Kind)
    requires i < |s.regs| && j < |s.regs| && s.regs[i].claiming.Some? && ClaimOk(s, i) && SlotOk(s, j, kind)
    ensures SlotOk(StepInstall(s, i), j, kind)
  {
    hide SlotOk;
    if i == j && kind == s.regs[i].claiming.value.kind {
      InstallOwnSlot(s, i);
    } else {
      InstallOtherSlot(s, i, j, kind);
    }
  }

  lemma InstallOtherSlot(s: Sys, i: nat, j: nat, kind: Kind)
    requires i < |s.regs| && j < |s.regs| && s.regs[i].claiming.Some? && ClaimOk(s, i) && SlotOk(s, j, kind)
    requires i != j || kind != s.regs[i].claiming.value.kind
    ensures SlotOk(StepInstall(s, i), j, kind)
  {
    SlotFrame(s, StepInstall(s, i), j, kind);
  }

  lemma InstallClaim(s: Sys, i: nat, j: nat)
    requires i < |s.regs| && j < |s.regs| && s.regs[i].claiming.Some? && ClaimOk(s, i) && ClaimOk(s, j)
    ensures ClaimOk(StepInstall(s, i), j)
  {
  }

  lemma InstallRegs(s: Sys, i: nat)
    requires RegsOk(s) && i < |s.regs| && s.regs[i].claiming.Some? && ClaimOk(s, i)
    ensures RegsOk(StepInstall(s, i))
  {
    hide SlotOk, ClaimOk;
    assert s.regs[i].claiming.value.conn < |s.conns| by { ClaimedConn(s, i); }
    forall j | 0 <= j < |s.regs| ensures RegOk(StepInstall(s, i), j) {
      assert RegOk(s, j);
      InstallSlot(s, i, j, Mux);
      InstallSlot(s, i, j, Quic);
      InstallClaim(s, i, j);
    }
  }

  lemma ClaimedConn(s: Sys, i: nat)
    requires i < |s.regs| && s.regs[i].claiming.Some? && ClaimOk(s, i)
    ensures s.regs[i].claiming.value.conn < |s.conns| && s.conns[s.regs[i].claiming.value.conn].phase.Claiming? && !s.regs[i].reaped
  {
  }

  lemma InstallKeeps(s: Sys, i: nat)
    requires Inv(s) && i < |s.regs| && s.regs[i].claiming.Some? && s.regs[i].claiming.value.conn < |s.conns|
    ensures Inv(StepInstall(s, i))
  {
    assert RegOk(s, i);
    ClaimedConn(s, i);
    InstallRegs(s, i);
    hide SlotOk, ClaimOk, TeardownOk, Settling, RegOk;
    var s' := StepInstall(s, i);
    OneRegRegistry(s, s', i);
    forall k | 0 <= k < |s'.teardowns| ensures TeardownOk(s', s'.teardowns[k]) { TeardownFrame(s, s', i, s.teardowns[k]); }
    OneRegAccounted(s, s', i);
    OneRegBalance(s, s', i);
  }

  /** What the end of a connection may change: its own phase, its slot, and one more teardown. */
  lemma EndShape(s: Sys, c: nat, peerGone: bool)
    requires c < |s.conns| && s.conns[c].serial < |s.regs|
    ensures var s' := StepEnd(s, c, peerGone); var i := s.conns[c].serial; var r, r' := s.regs[i], s'.regs[i];
            && OneReg(s, s', i) && s'.gauge == s.gauge && Share(r') == Share(r) && r'.onceDone == r.onceDone
            && s.teardowns <= s'.teardowns && |s'.teardowns| <= |s.teardowns| + 1
            && s'.conns == s.conns[c := s.conns[c].(phase := Over)]
            && r'.mux.past == r.mux.past && r'.quic.past == r.quic.past
            && r'.claiming == r.claiming && r'.attached == r.attached && r'.expired == r.expired
  {
    ReleaseShape(s.regs[s.conns[c].serial], s.conns[c].kind, c);
    hide Release, Onward, Share;
  }

  lemma ReleaseShape(r: Reg, kind: Kind, conn: nat)
    ensures var r' := Release(r, kind, conn).0;
            && Onward(r, r') && Share(r') == Share(r) && r'.onceDone == r.onceDone
            && r'.mux.past == r.mux.past && r'.quic.past == r.quic.past
            && r'.claiming == r.claiming && r'.attached == r.attached && r'.expired == r.expired
  {
    if kind.Mux? {
      assert Release(r, kind, conn).0.quic == r.quic;
    } else {
      assert Release(r, kind, conn).0.mux == r.mux;
    }
  }

  lemma EndSlot(s: Sys, c: nat, peerGone: bool, j: nat, kind: Kind)
    requires j < |s.regs| && SlotOk(s, j, kind)
    requires c < |s.conns| && s.conns[c].phase.Serving? && s.conns[c].serial < |s.regs|
    ensures SlotOk(StepEnd(s, c, peerGone), j, kind)
  {
    var s' := StepEnd(s, c, peerGone);
    if j == s.conns[c].serial && kind == s.conns[c].kind && s.regs[j].At(kind).current == Some(c) {
    } else {
      SlotFrame(s, s', j, kind);
    }
  }

  lemma EndClaim(s: Sys, c: nat, peerGone: bool, j: nat)
    requires j < |s.regs| && ClaimOk(s, j) && EndEnabled(s, c)
    ensures ClaimOk(StepEnd(s, c, peerGone), j)
  {
    EndShape(s, c, peerGone);
    hide StepEnd;
  }

  lemma EndRegs(s: Sys, c: nat, peerGone: bool)
    requires RegsOk(s) && EndEnabled(s, c)
    ensures RegsOk(StepEnd(s, c, peerGone))
  {
    EndShape(s, c, peerGone);
    hide SlotOk, ClaimOk, StepEnd;
    forall j | 0 <= j < |s.regs| ensures RegOk(StepEnd(s, c, peerGone), j) {
      assert RegOk(s, j);
      EndSlot(s, c, peerGone, j, Mux);
      EndSlot(s, c, peerGone, j, Quic);
      EndClaim(s, c, peerGone, j);
      EndExpired(s, c, peerGone, j);
    }
  }

  lemma EndExpired(s: Sys, c: nat, peerGone: bool, j: nat)
    requires j < |s.regs| && c < |s.conns| && s.conns[c].serial < |s.regs|
    ensures var r, r' := s.regs[j], StepEnd(s, c, peerGone).regs[j];
            r'.attached == r.attached && r'.expired == r.expired && (r.reaped ==> r'.reaped)
            && r'.mux.past == r.mux.past && r'.quic.past == r.quic.past && r'.claiming == r.claiming
  {
    EndShape(s, c, peerGone);
    hide StepEnd;
  }

  /** The teardown a connection's end starts is about the last connection of its slot. */
  lemma EndTeardown(s: Sys, c: nat, peerGone: bool)
    requires c < |s.conns| && s.conns[c].phase.Serving? && s.conns[c].serial < |s.regs|
    requires SlotOk(s, s.conns[c].serial, s.conns[c].kind)
    ensures var s' := StepEnd(s, c, peerGone);
            |s'.teardowns| > |s.teardowns| ==> TeardownOk(s', s'.teardowns[|s.teardowns|])
  {
  }

  lemma EndKeeps(s: Sys, c: nat, peerGone: bool)
    requires Inv(s) && EndEnabled(s, c)
    ensures Inv(StepEnd(s, c, peerGone))
  {
    EndShape(s, c, peerGone);
    hide SlotOk, ClaimOk, TeardownOk, EndedOk, Settling, StepEnd, Registered;
    var s' := StepEnd(s, c, peerGone);
    var i := s.conns[c].serial;
    OneRegRegistry(s, s', i);
    EndRegs(s, c, peerGone);
    assert RegOk(s, i);
    EndTeardown(s, c, peerGone);
    forall k | 0 <= k < |s'.teardowns| ensures TeardownOk(s', s'.teardowns[k]) {
      if k < |s.teardowns| { TeardownFrame(s, s', i, s.teardowns[k]); }
    }
    OneRegAccounted(s, s', i);
    OneRegBalance(s, s', i);
  }

  // ----- teardown steps -----

  /** A teardown step past the registry: one registration moves onward, one teardown is further along. */
  lemma AdvanceShape(s: Sys, k: nat)
    requires k < |s.teardowns| && s.teardowns[k].serial < |s.regs| && !s.teardowns[k].next.ToForget?
    ensures var s' := StepAdvance(s, k); var t := s.teardowns[k]; var next := s'.teardowns[k].next;
            var r, r' := s.regs[t.serial], s'.regs[t.serial];
            && OneReg(s, s', t.serial) && s'.conns == s.conns
            && s'.teardowns == s.teardowns[k := t.(next := next)]
            && !next.ToForget? && (next.Finished? ==> r'.onceDone || t.next.Finished?)
            && (t.next.ToCloseMux? || t.next.ToCancel? ==> next.ToCancel? || r'.cancelled)
            && r'.quic == r.quic && r'.mux.past == r.mux.past && r'.claiming == r.claiming
            && s'.gauge - s.gauge == Share(r') - Share(r)
            && (r'.mux == r.mux || r'.mux.current.None?)
            && r'.attached == r.attached && r'.expired == r.expired && r'.reaped == r.reaped
  {
    match s.teardowns[k].next
    case ToCloseMux =>
    case ToCancel =>
    case ToDecrement =>
    case Finished =>
  }

  lemma AdvanceAccounted(s: Sys, k: nat)
    requires Accounted(s) && k < |s.teardowns| && s.teardowns[k].serial < |s.regs| && !s.teardowns[k].next.ToForget?
    requires forall j :: Registered(StepAdvance(s, k), j) <==> Registered(s, j)
    ensures Accounted(StepAdvance(s, k))
  {
    AdvanceShape(s, k);
    hide StepAdvance, Registered;
    var s' := StepAdvance(s, k);
    forall j | 0 <= j < |s'.regs| ensures Registered(s', j) || Gone(s', j) {
      if !Registered(s, j) && exists m :: Settling(s, j, m) {
        var m :| Settling(s, j, m);
        assert Settling(s', j, m);
      }
    }
  }

  lemma AdvanceSlots(s: Sys, k: nat)
    requires RegsOk(s) && k < |s.teardowns| && TeardownOk(s, s.teardowns[k]) && !s.teardowns[k].next.ToForget?
    ensures RegsOk(StepAdvance(s, k))
  {
    AdvanceShape(s, k);
    hide EndedOk, StepAdvance, Registered, ClaimOk;
    var s' := StepAdvance(s, k);
    var i := s.teardowns[k].serial;
    assert RegOk(s, i);
    ClaimFrame(s, s', i);
    SlotFrame(s, s', i, Quic);
    if s'.regs[i].mux == s.regs[i].mux { SlotFrame(s, s', i, Mux); }
    assert SlotOk(s', i, Mux);
    RegsFrame(s, s', i);
  }

  lemma AdvanceTeardowns(s: Sys, k: nat)
    requires TeardownsOk(s) && k < |s.teardowns| && !s.teardowns[k].next.ToForget?
    requires OneReg(s, StepAdvance(s, k), s.teardowns[k].serial)
    requires forall j :: Registered(StepAdvance(s, k), j) <==> Registered(s, j)
    ensures TeardownsOk(StepAdvance(s, k))
  {
    assert TeardownOk(s, s.teardowns[k]);
    AdvanceShape(s, k);
    hide EndedOk, StepAdvance, Registered;
    var s' := StepAdvance(s, k);
    forall m | 0 <= m < |s'.teardowns| ensures TeardownOk(s', s'.teardowns[m]) {
      TeardownFrame(s, s', s.teardowns[k].serial, s.teardowns[m]);
    }
  }

  lemma AdvanceKeeps(s: Sys, k: nat)
    requires Inv(s) && k < |s.teardowns| && !s.teardowns[k].next.ToForget?
    ensures Inv(StepAdvance(s, k))
  {
    assert TeardownOk(s, s.teardowns[k]);
    AdvanceShape(s, k);
    hide RegOk, EndedOk, Settling, RoutesLead, StepAdvance;
    var s' := StepAdvance(s, k);
    var i := s.teardowns[k].serial;
    OneRegRegistry(s, s', i);
    AdvanceSlots(s, k);
    AdvanceTeardowns(s, k);
    AdvanceAccounted(s, k);
    OneRegBalance(s, s', i);
  }

  // ----- registry steps -----

  /** Forgetting takes out the teardown's own instance or nothing. */
  lemma ForgetShape(s: Sys, k: nat)
    requires RegistryOk(s) && k < |s.teardowns| && s.teardowns[k].serial < |s.regs| && s.teardowns[k].next.ToForget?
    ensures var s' := StepAdvance(s, k); var i := s.teardowns[k].serial; var id := s.regs[i].client.clientID;
            && RoutesLead(s'.registry)
            && s'.regs == s.regs && s'.conns == s.conns && s'.gauge == s.gauge
            && s'.teardowns == s.teardowns[k := s.teardowns[k].(next := s'.teardowns[k].next)]
            && s'.registry.clients == (if Registered(s, i) then s.registry.clients - {id} else s.registry.clients)
            && OthersUntouched(s.registry, s'.registry, id)
            && (!Registered(s, i) ==> s'.registry == s.registry)
            && !s'.teardowns[k].next.ToForget? && !s'.teardowns[k].next.Finished?
            && (Registered(s, i) ==> !s'.teardowns[k].next.ToDecrement?)
  {
    hide RoutesLead, DeleteAllOwned, OthersUntouched;
    var client := s.regs[s.teardowns[k].serial].client;
    ForgetEffect(s.registry, client.clientID, client);
  }

  lemma ForgetRegistry(s: Sys, k: nat)
    requires RegistryOk(s) && k < |s.teardowns| && s.teardowns[k].serial < |s.regs| && s.teardowns[k].next.ToForget?
    ensures RegistryOk(StepAdvance(s, k))
    ensures forall j :: Registered(StepAdvance(s, k), j) <==> Registered(s, j) && j != s.teardowns[k].serial
  {
    ForgetShape(s, k);
    hide RoutesLead, StepAdvance;
    assert forall id | id in StepAdvance(s, k).registry.clients :: Stored(s, id);
  }

  lemma ForgetTeardowns(s: Sys, k: nat)
    requires RegistryOk(s) && TeardownsOk(s) && k < |s.teardowns| && s.teardowns[k].next.ToForget?
    ensures TeardownsOk(StepAdvance(s, k))
  {
    assert TeardownOk(s, s.teardowns[k]);
    ForgetRegistry(s, k);
    ForgetShape(s, k);
    hide RoutesLead, StepAdvance, RegistryOk, Registered;
    forall m | 0 <= m < |s.teardowns| ensures TeardownOk(StepAdvance(s, k), StepAdvance(s, k).teardowns[m]) {
      assert TeardownOk(s, s.teardowns[m]);
    }
  }

  lemma ForgetAccounted(s: Sys, k: nat)
    requires RegistryOk(s) && Accounted(s) && k < |s.teardowns| && s.teardowns[k].serial < |s.regs| && s.teardowns[k].next.ToForget?
    ensures Accounted(StepAdvance(s, k))
  {
    ForgetRegistry(s, k);
    ForgetShape(s, k);
    hide RoutesLead, StepAdvance, RegistryOk, Registered;
    var s' := StepAdvance(s, k);
    var i := s.teardowns[k].serial;
    forall j | 0 <= j < |s'.regs| ensures Registered(s', j) || Gone(s', j) {
      if j == i && Registered(s, i) {
        assert Settling(s', i, k);
      } else if !Registered(s, j) && exists m :: Settling(s, j, m) {
        var m :| Settling(s, j, m);
        assert Settling(s', j, m);
      }
    }
  }

  lemma ForgetKeeps(s: Sys, k: nat)
    requires Inv(s) && k < |s.teardowns| && s.teardowns[k].next.ToForget?
    ensures Inv(StepAdvance(s, k))
  {
    assert TeardownOk(s, s.teardowns[k]);
    ForgetRegistry(s, k);
    ForgetShape(s, k);
    ForgetTeardowns(s, k);
    ForgetAccounted(s, k);
    hide SlotOk, Settling, TeardownOk, RoutesLead, StepAdvance, RegistryOk, Accounted;
    forall j | 0 <= j < |s.regs| ensures RegOk(StepAdvance(s, k), j) {
      assert RegOk(s, j);
      SlotFrame(s, StepAdvance(s, k), j, Mux);
      SlotFrame(s, StepAdvance(s, k), j, Quic);
    }
  }

  // ----- registration -----

  /** The registration a successor replaces, if the client has one. */
  ghost function Replaced(s: Sys, clientID: string): int
    requires RegistryOk(s)
  {
    if clientID in s.registry.clients then s.registry.clients[clientID].serial else -1
  }

  lemma RegisterShape(s: Sys, clientID: string, names: seq<string>)
    requires RegistryOk(s)
    ensures var s' := StepRegister(s, clientID, names); var e := Replaced(s, clientID);
            && s'.conns == s.conns && s'.teardowns == s.teardowns
            && |s.regs| <= |s'.regs| <= |s.regs| + 1
            && (forall j | 0 <= j < |s.regs| && j != e :: s'.regs[j] == s.regs[j])
            && s'.gauge == (if 0 <= e then s.gauge - 1 else s.gauge)
            && (0 <= e ==> e < |s.regs| && !s.regs[e].onceDone && s'.regs[e] == s.regs[e].(cancelled := true, onceDone := true))
            && (|s'.regs| == |s.regs| + 1 ==>
                  && s'.regs[|s.regs|].client.serial == |s.regs|
                  && s'.regs[|s.regs|] == NewReg(s'.regs[|s.regs|].client)
                  && s'.registry.clients == s.registry.clients[clientID := s'.regs[|s.regs|].client]
                  && s'.regs[|s.regs|].client.clientID == clientID)
            && (|s'.regs| == |s.regs| ==> s'.registry.clients == s.registry.clients - {clientID})
            && RoutesLead(s'.registry)
  {
    hide PutRoutes, FirstTaken, DeleteAllOwned, RoutesLead, Resolve;
    RegisterEffect(s.registry, |s.regs|, clientID, names);
    if clientID in s.registry.clients {
      assert Registered(s, s.registry.clients[clientID].serial);
    }
  }

  lemma RegisterRegistered(s: Sys, clientID: string, names: seq<string>, j: nat)
    requires RegistryOk(s) && j < |StepRegister(s, clientID, names).regs|
    ensures Registered(StepRegister(s, clientID, names), j) <==> j == |s.regs| || (Registered(s, j) && j != Replaced(s, clientID))
  {
    RegisterShape(s, clientID, names);
    hide RoutesLead, StepRegister;
    if j < |s.regs| && s.regs[j].client.clientID == clientID && Registered(s, j) {
      assert Stored(s, clientID);
    }
  }

  lemma RegisterRegistry(s: Sys, clientID: string, names: seq<string>)
    requires RegistryOk(s)
    ensures RegistryOk(StepRegister(s, clientID, names))
    ensures forall j | 0 <= j < |s.regs| :: Registered(StepRegister(s, clientID, names), j) <==> Registered(s, j) && j != Replaced(s, clientID)
    ensures forall j | |s.regs| <= j < |StepRegister(s, clientID, names).regs| :: Registered(StepRegister(s, clientID, names), j)
  {
    RegisterShape(s, clientID, names);
    hide RoutesLead, StepRegister, Registered;
    var s' := StepRegister(s, clientID, names);
    forall j | 0 <= j < |s'.regs| ensures Registered(s', j) <==> j == |s.regs| || (Registered(s, j) && j != Replaced(s, clientID)) {
      RegisterRegistered(s, clientID, names, j);
    }
    forall id | id in s'.registry.clients ensures Stored(s', id) {
      if id != clientID { assert Stored(s, id); }
    }
  }

  lemma RegisterReg(s: Sys, clientID: string, names: seq<string>, j: nat)
    requires RegistryOk(s) && j < |s.regs| && RegOk(s, j)
    ensures RegOk(StepRegister(s, clientID, names), j)
  {
    RegisterShape(s, clientID, names);
    hide RoutesLead, StepRegister, RegistryOk, Registered, ClaimOk;
    ClaimFrame(s, StepRegister(s, clientID, names), j);
    SlotFrame(s, StepRegister(s, clientID, names), j, Mux);
    SlotFrame(s, StepRegister(s, clientID, names), j, Quic);
    hide SlotOk;
  }

  lemma NewRegOk(s: Sys, i: nat, client: Instance)
    requires i < |s.regs| && s.regs[i] == NewReg(client)
    ensures RegOk(s, i)
  {
  }

  lemma RegisterRegs(s: Sys, clientID: string, names: seq<string>)
    requires RegistryOk(s) && RegsOk(s)
    ensures RegsOk(StepRegister(s, clientID, names))
  {
    RegisterShape(s, clientID, names);
    hide RoutesLead, StepRegister, RegistryOk, Registered, RegOk, NewReg;
    var s' := StepRegister(s, clientID, names);
    forall j | 0 <= j < |s'.regs| ensures RegOk(s', j) {
      if j < |s.regs| {
        RegisterReg(s, clientID, names, j);
      } else {
        NewRegOk(s', j, s'.regs[j].client);
      }
    }
  }

  lemma RegisterTeardown(s: Sys, clientID: string, names: seq<string>, t: Teardown)
    requires RegistryOk(s) && TeardownOk(s, t)
    ensures TeardownOk(StepRegister(s, clientID, names), t)
  {
    hide RoutesLead, StepRegister, RegistryOk, Registered;
    RegisterShape(s, clientID, names);
    RegisterRegistered(s, clientID, names, t.serial);
  }

  lemma RegisterTeardowns(s: Sys, clientID: string, names: seq<string>)
    requires RegistryOk(s) && TeardownsOk(s)
    ensures TeardownsOk(StepRegister(s, clientID, names))
  {
    hide RoutesLead, StepRegister, RegistryOk, TeardownOk;
    RegisterShape(s, clientID, names);
    var s' := StepRegister(s, clientID, names);
    forall k | 0 <= k < |s'.teardowns| ensures TeardownOk(s', s'.teardowns[k]) {
      RegisterTeardown(s, clientID, names, s.teardowns[k]);
    }
  }

  lemma RegisterAccounted(s: Sys, clientID: string, names: seq<string>)
    requires RegistryOk(s) && Accounted(s)
    ensures Accounted(StepRegister(s, clientID, names))
  {
    RegisterShape(s, clientID, names);
    RegisterRegistry(s, clientID, names);
    hide RoutesLead, StepRegister, RegistryOk, Registered;
    var s' := StepRegister(s, clientID, names);
    forall j | 0 <= j < |s'.regs| ensures Registered(s', j) || Gone(s', j) {
      if j < |s.regs| && !Registered(s, j) && exists m :: Settling(s, j, m) {
        var m :| Settling(s, j, m);
        assert Settling(s', j, m);
      }
    }
  }

  lemma RegisterBalance(s: Sys, clientID: string, names: seq<string>)
    requires RegistryOk(s) && s.gauge == Balance(s.regs)
    ensures StepRegister(s, clientID, names).gauge == Balance(StepRegister(s, clientID, names).regs)
  {
    RegisterShape(s, clientID, names);
    hide RoutesLead, StepRegister, RegistryOk;
    var s' := StepRegister(s, clientID, names);
    var e := Replaced(s, clientID);
    var before := s'.regs[..|s.regs|];
    if 0 <= e {
      BalanceUpdate(s.regs, e, s'.regs[e]);
      assert before == s.regs[e := s'.regs[e]];
    } else {
      assert before == s.regs;
    }
    if |s'.regs| > |s.regs| {
      BalanceAppend(before, s'.regs[|s.regs|]);
      assert s'.regs == before + [s'.regs[|s.regs|]];
    } else {
      assert s'.regs == before;
    }
  }

  lemma RegisterKeeps(s: Sys, clientID: string, names: seq<string>)
    requires Inv(s)
    ensures Inv(StepRegister(s, clientID, names))
  {
    hide RegistryOk, RegsOk, TeardownsOk, Accounted, StepRegister, Balance;
    RegisterRegistry(s, clientID, names);
    RegisterRegs(s, clientID, names);
    RegisterTeardowns(s, clientID, names);
    RegisterAccounted(s, clientID, names);
    RegisterBalance(s, clientID, names);
  }

  // ----- main results -----

  /** Every step of every handler keeps the invariant. */
  lemma StepKeepsInvariant(s: Sys, step: Step)
    requires Inv(s)
    ensures Inv(Apply(s, step))
  {
    hide RegistryOk, RegsOk, Accounted, Balance, StepRegister, StepAttach, StepInstall, StepEnd, StepAdvance;
    match step
    case DoRegister(clientID, names) => RegisterKeeps(s, clientID, names);
    case CountUp(i) => CountUpKeeps(s, i);
    case TimerFires(i) => TimerKeeps(s, i);
    case Inactivity(i, muxClosed) => InactivityKeeps(s, i, muxClosed);
    case Attach(i, kind) => if i < |s.regs| && s.regs[i].claiming.None? { AttachKeeps(s, i, kind); }
    case Install(i) =>
      if i < |s.regs| && s.regs[i].claiming.Some? && s.regs[i].claiming.value.conn < |s.conns| { InstallKeeps(s, i); }
    case EndConn(c, peerGone) =>
      if EndEnabled(s, c) { EndKeeps(s, c, peerGone); }
    case Advance(k) =>
      if k < |s.teardowns| && s.teardowns[k].serial < |s.regs| {
        if s.teardowns[k].next.ToForget? { ForgetKeeps(s, k); } else { AdvanceKeeps(s, k); }
      }
  }

  lemma {:induction false} InvariantOverRuns(s: Sys, steps: seq<Step>)
    requires Inv(s)
    ensures Inv(Run(s, steps))
    decreases |steps|
  {
    hide Inv, Apply;
    if steps != [] {
      StepKeepsInvariant(s, steps[0]);
      InvariantOverRuns(Apply(s, steps[0]), steps[1..]);
    }
  }

  /** A registration only ever moves onward; its histories grow until it is closed with no claim past its checks, and then stay as they are. */
  ghost predicate Later(s: Sys, s': Sys, i: nat) {
    && i < |s.regs| && i < |s'.regs|
    && Onward(s.regs[i], s'.regs[i])
    && s.regs[i].mux.past <= s'.regs[i].mux.past && s.regs[i].quic.past <= s'.regs[i].quic.past
    && (s.regs[i].Frozen() ==>
          s'.regs[i].Frozen() && s'.regs[i].mux.past == s.regs[i].mux.past && s'.regs[i].quic.past == s.regs[i].quic.past)
  }

  lemma StepGoesOnward(s: Sys, step: Step, i: nat)
    requires i < |s.regs|
    ensures Later(s, Apply(s, step), i) && ConnsKept(s, Apply(s, step))
  {
    hide StepRegister, StepAttach, StepInstall, StepEnd, StepAdvance, Later;
    match step
    case DoRegister(clientID, names) => RegisterGoesOnward(s, clientID, names, i);
    case Attach(k, kind) =>
      if k < |s.regs| && s.regs[k].claiming.None? { AttachGoesOnward(s, k, kind, i); } else { SameIsLater(s, i); }
    case Install(k) =>
      if k < |s.regs| && s.regs[k].claiming.Some? && s.regs[k].claiming.value.conn < |s.conns| { InstallGoesOnward(s, k, i); }
      else { SameIsLater(s, i); }
    case EndConn(c, peerGone) =>
      if EndEnabled(s, c) { EndGoesOnward(s, c, peerGone, i); } else { SameIsLater(s, i); }
    case Advance(k) =>
      if k < |s.teardowns| && s.teardowns[k].serial < |s.regs| { AdvanceGoesOnward(s, k, i); } else { SameIsLater(s, i); }
    case _ => FlagsGoOnward(s, step, i);
  }

  lemma SameIsLater(s: Sys, i: nat)
    requires i < |s.regs|
    ensures Later(s, s, i)
  {
  }

  lemma FlagsGoOnward(s: Sys, step: Step, i: nat)
    requires i < |s.regs| && (step.CountUp? || step.TimerFires? || step.Inactivity?)
    ensures Later(s, Apply(s, step), i)
  {
  }

  lemma AdvanceGoesOnward(s: Sys, k: nat, i: nat)
    requires i < |s.regs| && k < |s.teardowns| && s.teardowns[k].serial < |s.regs|
    ensures Later(s, StepAdvance(s, k), i) && ConnsKept(s, StepAdvance(s, k))
  {
    hide Forget;
    if !s.teardowns[k].next.ToForget? {
      AdvanceShape(s, k);
      hide StepAdvance;
    }
  }

  lemma RegisterGoesOnward(s: Sys, clientID: string, names: seq<string>, i: nat)
    requires i < |s.regs|
    ensures Later(s, StepRegister(s, clientID, names), i) && ConnsKept(s, StepRegister(s, clientID, names))
  {
    hide Register;
  }

  lemma AttachGoesOnward(s: Sys, k: nat, kind: Kind, i: nat)
    requires i < |s.regs| && k < |s.regs|
    ensures Later(s, StepAttach(s, k, kind), i) && ConnsKept(s, StepAttach(s, k, kind))
  {
  }

  lemma PublishGoesOnward(r: Reg)
    requires r.claiming.Some?
    ensures Onward(r, Publish(r)) && r.mux.past <= Publish(r).mux.past && r.quic.past <= Publish(r).quic.past
  {
    var p, r' := r.claiming.value, Publish(r);
    if p.kind.Mux? {
      assert r'.quic == r.quic;
      assert r'.mux.past == r.mux.past + [p.conn];
    } else {
      assert r'.mux == r.mux;
      assert r'.quic.past == r.quic.past + [p.conn];
    }
  }

  lemma InstallGoesOnward(s: Sys, k: nat, i: nat)
    requires i < |s.regs| && k < |s.regs| && s.regs[k].claiming.Some? && s.regs[k].claiming.value.conn < |s.conns|
    ensures Later(s, StepInstall(s, k), i) && ConnsKept(s, StepInstall(s, k))
  {
    PublishGoesOnward(s.regs[k]);
    hide Publish, Onward;
    if i != k { SameIsLater(s, i); }
  }

  lemma EndGoesOnward(s: Sys, c: nat, peerGone: bool, i: nat)
    requires i < |s.regs| && c < |s.conns| && s.conns[c].serial < |s.regs|
    ensures Later(s, StepEnd(s, c, peerGone), i) && ConnsKept(s, StepEnd(s, c, peerGone))
  {
    EndShape(s, c, peerGone);
    hide StepEnd;
  }

  /** Connections keep their registration and kind. */
  ghost predicate ConnsKept(s: Sys, s': Sys) {
    && |s.conns| <= |s'.conns|
    && forall c | 0 <= c < |s.conns| :: s'.conns[c].serial == s.conns[c].serial && s'.conns[c].kind == s.conns[c].kind
  }

  /**
   * Main result: `reaped` and cancellation never revert, and nothing is published once a
   * registration is closed and no claim is past its checks.
   */
  lemma {:induction false} NothingPublishedAfterClose(s: Sys, steps: seq<Step>, i: nat)
    requires i < |s.regs|
    ensures Later(s, Run(s, steps), i)
    ensures ConnsKept(s, Run(s, steps))
    decreases |steps|
  {
    if steps != [] {
      StepGoesOnward(s, steps[0], i);
      hide Apply;
      NothingPublishedAfterClose(Apply(s, steps[0]), steps[1..], i);
    }
  }

  /** A reaped registration is closed to claims at once, since reaping takes the attach lock. */
  lemma ReapedIsFrozen(s: Sys, i: nat)
    requires Inv(s) && i < |s.regs| && s.regs[i].reaped
    ensures s.regs[i].Frozen()
  {
    assert RegOk(s, i);
  }

  /**
   * Cancellation does not take the attach lock: publication follows it exactly when the claim was
   * past its checks by then.
   */
  lemma PublishedAfterCancel(s: Sys, i: nat)
    requires Inv(s) && i < |s.regs| && s.regs[i].cancelled
    ensures (exists step: Step :: var r, r' := s.regs[i], Apply(s, step).regs[i];
                                  r'.mux.past != r.mux.past || r'.quic.past != r.quic.past)
            <==> s.regs[i].claiming.Some?
  {
    forall step: Step ensures Later(s, Apply(s, step), i) { StepGoesOnward(s, step, i); }
    if s.regs[i].claiming.Some? {
      assert RegOk(s, i);
      ClaimedConn(s, i);
      var r, r' := s.regs[i], Apply(s, Install(i)).regs[i];
      assert |r'.At(r.claiming.value.kind).past| == |r.At(r.claiming.value.kind).past| + 1;
    }
  }

  /** Such a run: a claim passes its checks, the inactivity monitor cancels, and the connection is published after that. */
  lemma LatePublicationHappens()
    ensures var before := Run(INITIAL, [Step.DoRegister("a", []), Attach(0, Mux), Inactivity(0, true)]);
            var after := Run(INITIAL, [Step.DoRegister("a", []), Attach(0, Mux), Inactivity(0, true), Install(0)]);
            && |before.regs| == |after.regs| == 1
            && before.regs[0].cancelled && before.regs[0].claiming.Some? && before.regs[0].mux == Slot(None, [])
            && after.regs[0].cancelled && after.regs[0].mux == Slot(Some(0), [0])
            && after.conns == [Conn(0, Mux, Serving)]
  {
    var s1 := Apply(INITIAL, Step.DoRegister("a", []));
    assert s1.regs == [NewReg(Instance(0, "a", ["a"]))] && s1.conns == [] && s1.teardowns == [] by { FirstRegistration(); }
    var s2 := Apply(s1, Attach(0, Mux));
    assert s2.regs[0].claiming == Some(Pending(Mux, 0)) && s2.conns == [Conn(0, Mux, Claiming)];
    var s3 := Apply(s2, Inactivity(0, true));
    var s4 := Apply(s3, Install(0));
    assert s4.regs[0].mux == Slot(Some(0), [0]);
    hide Apply;
    FourSteps(INITIAL, Step.DoRegister("a", []), Attach(0, Mux), Inactivity(0, true), Install(0));
  }

  lemma FourSteps(s: Sys, a: Step, b: Step, c: Step, d: Step)
    ensures Run(s, [a, b, c]) == Apply(Apply(Apply(s, a), b), c)
    ensures Run(s, [a, b, c, d]) == Apply(Apply(Apply(Apply(s, a), b), c), d)
  {
    RunFirst(s, a, [b, c]);
    RunFirst(s, a, [b, c, d]);
    RunFirst(Apply(s, a), b, [c]);
    RunFirst(Apply(s, a), b, [c, d]);
    RunFirst(Apply(Apply(s, a), b), c, []);
    RunFirst(Apply(Apply(s, a), b), c, [d]);
    RunFirst(Apply(Apply(Apply(s, a), b), c), d, []);
    hide Apply;
    assert [a, b, c] == [a] + [b, c] && [b, c] == [b] + [c] && [c] == [c] + [];
    assert [a, b, c, d] == [a] + [b, c, d] && [b, c, d] == [b] + [c, d] && [c, d] == [c] + [d] && [d] == [d] + [];
  }

  lemma RunFirst(s: Sys, a: Step, rest: seq<Step>)
    ensures Run(s, [a] + rest) == Run(Apply(s, a), rest)
  {
    assert ([a] + rest)[1..] == rest;
  }

  lemma FirstRegistration()
    ensures var s := StepRegister(INITIAL, "a", []);
            s.regs == [NewReg(Instance(0, "a", ["a"]))] && s.conns == [] && s.teardowns == []
  {
  }

  /** Main result: the unattached-registration timer and a successful claim exclude each other for good. */
  lemma TimerExcludesClaim(s: Sys, steps: seq<Step>, i: nat)
    requires Inv(s) && i < |s.regs|
    ensures var after := Run(s, steps);
            && i < |after.regs|
            && (s.regs[i].attached ==> !after.regs[i].expired)
            && (s.regs[i].expired ==> !after.regs[i].attached && after.regs[i].mux.past == [] && after.regs[i].quic.past == [])
  {
    NothingPublishedAfterClose(s, steps, i);
    InvariantOverRuns(s, steps);
    assert RegOk(Run(s, steps), i);
    hide RegistryOk, TeardownsOk, Accounted, Run;
  }

  /**
   * Main result: the end of a connection that a newer one replaced starts no teardown, and once the
   * end of a connection has started one, no successor is ever published in its place.
   */
  lemma SupersededTearsNothingDown(s: Sys, steps: seq<Step>, i: nat, kind: Kind, a: nat, k: nat)
    requires Inv(s) && i < |s.regs|
    requires a < |s.regs[i].At(kind).past| && k < |Run(s, steps).teardowns|
    requires Run(s, steps).teardowns[k].cause == Ended(s.regs[i].At(kind).past[a])
    ensures a == |s.regs[i].At(kind).past| - 1
    ensures i < |Run(s, steps).regs| && Run(s, steps).regs[i].At(kind).past == s.regs[i].At(kind).past
    ensures Run(s, steps).regs[i].reaped
  {
    NothingPublishedAfterClose(s, steps, i);
    InvariantOverRuns(s, steps);
    var after := Run(s, steps);
    assert RegOk(s, i) && RegOk(after, i);
    assert SlotOk(s, i, kind) && SlotOk(after, i, kind);
    assert TeardownOk(after, after.teardowns[k]);
    hide RegistryOk, RegsOk, TeardownsOk, Accounted, Run, RegOk;
  }

  /** A full teardown past its cancel step has cancelled its registration. */
  ghost predicate CancelsDone(s: Sys) {
    forall k | 0 <= k < |s.teardowns| && s.teardowns[k].full && (s.teardowns[k].next.ToDecrement? || s.teardowns[k].next.Finished?) ::
      s.teardowns[k].serial < |s.regs| && s.regs[s.teardowns[k].serial].cancelled
  }

  /** Teardowns are added at their first step, and one of them takes one step at a time. */
  lemma TeardownsMove(s: Sys, step: Step)
    ensures var after := Apply(s, step);
            && |s.teardowns| <= |after.teardowns|
            && (forall j | |s.teardowns| <= j < |after.teardowns| :: after.teardowns[j].next.ToForget?)
            && (forall j | 0 <= j < |s.teardowns| :: after.teardowns[j] == s.teardowns[j] || step == Advance(j))
  {
    hide Register, Forget, Release, Expire, Publish, ClaimCheck;
  }

  lemma CancelStep(s: Sys, k: nat)
    requires k < |s.teardowns| && s.teardowns[k].serial < |s.regs|
    ensures var t, after := s.teardowns[k], StepAdvance(s, k);
            && after.teardowns[k].serial == t.serial && after.teardowns[k].full == t.full
            && (t.full && (after.teardowns[k].next.ToDecrement? || after.teardowns[k].next.Finished?) ==>
                  after.regs[t.serial].cancelled || t.next.ToDecrement? || t.next.Finished?)
  {
    hide Forget;
  }

  lemma StepKeepsCancels(s: Sys, step: Step)
    requires CancelsDone(s)
    ensures CancelsDone(Apply(s, step))
  {
    var after := Apply(s, step);
    TeardownsMove(s, step);
    if step.Advance? && step.index < |s.teardowns| && s.teardowns[step.index].serial < |s.regs| { CancelStep(s, step.index); }
    forall i: nat | i < |s.regs| ensures Later(s, after, i) { StepGoesOnward(s, step, i); }
    StillThere(s, step);
    hide StepAdvance, StepRegister, StepAttach, StepInstall, StepEnd;
    forall k | 0 <= k < |after.teardowns| && after.teardowns[k].full && (after.teardowns[k].next.ToDecrement? || after.teardowns[k].next.Finished?)
      ensures after.teardowns[k].serial < |after.regs| && after.regs[after.teardowns[k].serial].cancelled
    {
      assert k < |s.teardowns|;
      if after.teardowns[k] == s.teardowns[k] { assert Later(s, after, s.teardowns[k].serial); }
    }
  }

  lemma StillThere(s: Sys, step: Step)
    ensures |s.regs| <= |Apply(s, step).regs|
  {
    hide Register, Forget, Release, Expire, Publish, ClaimCheck;
  }

  lemma {:induction false} CancelsOverRuns(s: Sys, steps: seq<Step>)
    requires CancelsDone(s)
    ensures CancelsDone(Run(s, steps))
    decreases |steps|
  {
    hide CancelsDone, Apply;
    if steps != [] {
      StepKeepsCancels(s, steps[0]);
      CancelsOverRuns(Apply(s, steps[0]), steps[1..]);
    }
  }

  /**
   * Main result: a teardown that ran to its end, among whatever other handlers, leaves a closed
   * registration that was decremented, is cancelled if it was a full one, and is never registered again.
   */
  lemma FinishedTeardown(steps: seq<Step>, more: seq<Step>, k: nat)
    requires k < |Run(INITIAL, steps).teardowns| && Run(INITIAL, steps).teardowns[k].next.Finished?
    ensures var s := Run(INITIAL, steps);
            var later := Run(s, more);
            var i := s.teardowns[k].serial;
            && i < |s.regs| && i < |later.regs|
            && later.regs[i].Closed() && later.regs[i].onceDone && !Registered(later, i)
            && (s.teardowns[k].full ==> later.regs[i].cancelled)
  {
    InvariantOverRuns(INITIAL, steps);
    CancelsOverRuns(INITIAL, steps);
    var s := Run(INITIAL, steps);
    InvariantOverRuns(s, more);
    assert TeardownOk(s, s.teardowns[k]);
    NothingPublishedAfterClose(s, more, s.teardowns[k].serial);
    hide Run, RegsOk, Accounted, TeardownsOk, RoutesLead, Stored, Balance;
  }

  // ----- the timer over runs -----

  ghost predicate ExpiryBegun(s: Sys, i: int) {
    exists k :: 0 <= k < |s.teardowns| && s.teardowns[k].serial == i && s.teardowns[k].cause == Expiry
  }

  /** A registration whose timer has fired is attached, or a teardown for its expiry has begun. */
  ghost predicate TimersTold(s: Sys) {
    forall i | 0 <= i < |s.regs| && !s.regs[i].timer :: s.regs[i].attached || ExpiryBegun(s, i)
  }

  lemma CausesKept(s: Sys, step: Step)
    ensures var after := Apply(s, step);
            && |s.teardowns| <= |after.teardowns|
            && forall j | 0 <= j < |s.teardowns| ::
                 after.teardowns[j].serial == s.teardowns[j].serial && after.teardowns[j].cause == s.teardowns[j].cause
  {
    hide Register, Forget, Release, Expire, Publish, ClaimCheck;
  }

  lemma RegisterTimer(s: Sys, clientID: string, names: seq<string>, i: nat)
    requires i < |StepRegister(s, clientID, names).regs|
    ensures i < |s.regs| ==> StepRegister(s, clientID, names).regs[i].timer == s.regs[i].timer
    ensures i >= |s.regs| ==> StepRegister(s, clientID, names).regs[i].timer
  {
    hide Register;
  }

  lemma HandlerTimer(s: Sys, step: Step, i: nat)
    requires step.EndConn? || step.Advance? || step.Install? || step.Attach?
    requires i < |s.regs|
    ensures |Apply(s, step).regs| == |s.regs| && Apply(s, step).regs[i].timer == s.regs[i].timer
  {
    hide StepRegister, StepAttach, StepInstall, StepEnd, StepAdvance;
    match step
    case EndConn(c, peerGone) => if EndEnabled(s, c) { EndEffect(s, c, peerGone); }
    case Advance(k) => if k < |s.teardowns| && s.teardowns[k].serial < |s.regs| { AdvanceEffect(s, k); }
    case Install(k) =>
      if k < |s.regs| && s.regs[k].claiming.Some? && s.regs[k].claiming.value.conn < |s.conns| { InstallEffect(s, k); }
    case Attach(k, kind) => if k < |s.regs| && s.regs[k].claiming.None? { AttachEffect(s, k, kind); }
  }

  /** Only the timer's own step stops it, and new registrations start with it running. */
  lemma TimerKept(s: Sys, step: Step, i: nat)
    requires i < |Apply(s, step).regs| && step != TimerFires(i)
    ensures i < |s.regs| ==> Apply(s, step).regs[i].timer == s.regs[i].timer
    ensures i >= |s.regs| ==> Apply(s, step).regs[i].timer
  {
    hide StepRegister, StepAttach, StepInstall, StepEnd, StepAdvance, Expire;
    match step
    case DoRegister(clientID, names) => RegisterTimer(s, clientID, names, i);
    case CountUp(_) | TimerFires(_) | Inactivity(_, _) =>
    case _ =>
      if i < |s.regs| { HandlerTimer(s, step, i); } else if s.regs != [] { HandlerTimer(s, step, 0); }
  }

  lemma StepTellsTimers(s: Sys, step: Step)
    requires TimersTold(s)
    ensures TimersTold(Apply(s, step))
  {
    var after := Apply(s, step);
    CausesKept(s, step);
    StillThere(s, step);
    hide Apply;
    forall i: nat | i < |after.regs| && !after.regs[i].timer ensures after.regs[i].attached || ExpiryBegun(after, i) {
      if i < |s.regs| {
        StepGoesOnward(s, step, i);
        if ExpiryBegun(s, i) {
          var k :| 0 <= k < |s.teardowns| && s.teardowns[k].serial == i && s.teardowns[k].cause == Expiry;
          assert after.teardowns[k].serial == i && after.teardowns[k].cause == Expiry;
        }
      }
      if step == TimerFires(i) { FiredTimer(s, i); } else { TimerKept(s, step, i); }
    }
  }

  lemma FiredTimer(s: Sys, i: nat)
    requires i < |Apply(s, TimerFires(i)).regs|
    ensures var s' := Apply(s, TimerFires(i)); i < |s.regs| && (s'.regs[i].timer == s.regs[i].timer || s'.regs[i].attached || ExpiryBegun(s', i))
  {
    if i < |s.regs| && s.regs[i].timer && s.regs[i].claiming.None? {
      TimerEffect(s, i);
      var s' := Apply(s, TimerFires(i));
      if !s.regs[i].attached { assert s'.teardowns[|s.teardowns|] == Teardown(i, Expiry, true, ToForget); }
    }
  }

  lemma {:induction false} TimersOverRuns(s: Sys, steps: seq<Step>)
    requires TimersTold(s)
    ensures TimersTold(Run(s, steps))
    decreases |steps|
  {
    hide TimersTold, Apply;
    if steps != [] {
      StepTellsTimers(s, steps[0]);
      TimersOverRuns(Apply(s, steps[0]), steps[1..]);
    }
  }

  /**
   * Main result: in every run, once the timer of a registration has fired it is attached, or it is
   * reaped and a teardown for its expiry has begun; and with all teardowns finished such a
   * registration is no longer registered, so its names are free.
   */
  lemma UnattachedIsReleased(steps: seq<Step>, i: nat)
    requires i < |Run(INITIAL, steps).regs| && !Run(INITIAL, steps).regs[i].timer && !Run(INITIAL, steps).regs[i].attached
    ensures var s := Run(INITIAL, steps);
            && s.regs[i].expired && s.regs[i].reaped && ExpiryBegun(s, i)
            && ((forall k | 0 <= k < |s.teardowns| :: s.teardowns[k].next.Finished?) ==> !Registered(s, i) && s.regs[i].onceDone)
  {
    InvariantOverRuns(INITIAL, steps);
    TimersOverRuns(INITIAL, steps);
    var s := Run(INITIAL, steps);
    hide Run, RegistryOk, Accounted, Registered, EndedOk;
    assert ExpiryBegun(s, i);
    var k :| 0 <= k < |s.teardowns| && s.teardowns[k].serial == i && s.teardowns[k].cause == Expiry;
    assert TeardownOk(s, s.teardowns[k]) && RegOk(s, i);
  }

  /** A teardown's registry step leaves every other registration, a successor of the same client included, alone. */
  lemma TeardownSparesSuccessors(s: Sys, k: nat, id: string, name: string)
    requires Inv(s) && k < |s.teardowns| && id in s.registry.clients
    requires s.registry.clients[id].serial != s.teardowns[k].serial
    ensures var after := Apply(s, Advance(k)).registry;
            && id in after.clients && after.clients[id] == s.registry.clients[id]
            && (name in s.registry.routes && s.registry.routes[name].clientID == id ==>
                  name in after.routes && after.routes[name] == s.registry.routes[name])
  {
    assert TeardownOk(s, s.teardowns[k]);
    if s.teardowns[k].next.ToForget? {
      assert Stored(s, id);
      ForgetShape(s, k);
    }
    hide RegsOk, TeardownsOk, Accounted, RoutesLead, Forget, Register;
  }

  // ----- what the gauge shows -----

  ghost function Counted(s: Sys): set<nat> { set i: nat | i < |s.regs| && s.regs[i].counted }
  ghost function Done(s: Sys): set<nat> { set i: nat | i < |s.regs| && s.regs[i].onceDone }

  lemma {:induction false} BalanceCounts(s: Sys)
    ensures Balance(s.regs) == |Counted(s)| - |Done(s)|
    decreases |s.regs|
  {
    if s.regs == [] {
      assert Counted(s) == {} && Done(s) == {};
    } else {
      var n := |s.regs| - 1;
      var t := s.(regs := s.regs[..n]);
      BalanceCounts(t);
      CountedGrows(s, t);
    }
  }

  lemma OneMoreCounted(s: Sys, t: Sys, n: nat)
    requires n + 1 == |s.regs| && t.regs == s.regs[..n]
    ensures |Counted(s)| == |Counted(t)| + if s.regs[n].counted then 1 else 0
  {
    hide Counted;
    CountedAre(s);
    CountedAre(t);
    OneMore(Counted(s), Counted(t), n, s.regs[n].counted);
  }

  lemma OneMoreDone(s: Sys, t: Sys, n: nat)
    requires n + 1 == |s.regs| && t.regs == s.regs[..n]
    ensures |Done(s)| == |Done(t)| + if s.regs[n].onceDone then 1 else 0
  {
    hide Done;
    DoneAre(s);
    DoneAre(t);
    OneMore(Done(s), Done(t), n, s.regs[n].onceDone);
  }

  lemma CountedAre(s: Sys)
    ensures forall i: nat :: i in Counted(s) <==> i < |s.regs| && s.regs[i].counted
  {}

  lemma DoneAre(s: Sys)
    ensures forall i: nat :: i in Done(s) <==> i < |s.regs| && s.regs[i].onceDone
  {}

  lemma OneMore(big: set<nat>, small: set<nat>, n: nat, grown: bool)
    requires forall i: nat :: i in small ==> i < n
    requires forall i: nat :: i in big <==> i in small || (grown && i == n)
    ensures |big| == |small| + if grown then 1 else 0
  {
    assert big == if grown then small + {n} else small;
  }

  lemma CountedGrows(s: Sys, t: Sys)
    requires s.regs != [] && t.regs == s.regs[..|s.regs| - 1]
    ensures |Counted(s)| - |Done(s)| == |Counted(t)| - |Done(t)| + Share(s.regs[|s.regs| - 1])
  {
    hide Counted, Done;
    OneMoreCounted(s, t, |s.regs| - 1);
    OneMoreDone(s, t, |s.regs| - 1);
  }

  /** A set of registrations and a registry that hold the same instances have the same size. */
  lemma {:induction false} SameSize(open: set<nat>, clients: map<string, Instance>, regs: seq<Reg>)
    requires forall id | id in clients :: clients[id].serial in open && clients[id].serial < |regs| && regs[clients[id].serial].client.clientID == id
    requires forall i | i in open :: i < |regs| && regs[i].client.clientID in clients && clients[regs[i].client.clientID].serial == i
    ensures |open| == |clients|
    decreases |open|
  {
    if open == {} {
      assert clients.Keys == {};
    } else {
      var i :| i in open;
      var id := regs[i].client.clientID;
      SameSize(open - {i}, clients - {id}, regs);
      assert |clients - {id}| == |clients| - 1 by { assert (clients - {id}).Keys == clients.Keys - {id}; }
    }
  }

  lemma {:induction false} RangeSize(s: set<nat>, n: nat)
    requires forall i: nat :: i in s <==> i < n
    ensures |s| == n
  {
    if n == 0 {
      assert s == {};
    } else {
      RangeSize(s - {n - 1}, n - 1);
    }
  }

  lemma QuietRegistrations(s: Sys)
    requires Inv(s) && forall k | 0 <= k < |s.teardowns| :: s.teardowns[k].next.Finished?
    ensures forall i | 0 <= i < |s.regs| :: Registered(s, i) <==> !s.regs[i].onceDone
    ensures forall i | 0 <= i < |s.regs| :: Registered(s, i) || (s.regs[i].cancelled && s.regs[i].onceDone)
  {
    hide RegsOk, Balance, RoutesLead, EndedOk, Registered;
    forall i | 0 <= i < |s.regs| ensures Registered(s, i) || (s.regs[i].cancelled && s.regs[i].onceDone) {
      if !Registered(s, i) && exists k :: Settling(s, i, k) {
        var k :| Settling(s, i, k);
      }
    }
  }

  lemma QuietGauge(s: Sys)
    requires RegistryOk(s)
    requires forall i | 0 <= i < |s.regs| :: s.regs[i].counted
    requires forall i | 0 <= i < |s.regs| :: Registered(s, i) <==> !s.regs[i].onceDone
    ensures |Counted(s)| - |Done(s)| == |s.registry.clients|
  {
    hide RoutesLead;
    RangeSize(Counted(s), |s.regs|);
    var open := Counted(s) - Done(s);
    assert Counted(s) == open + Done(s);
    forall id | id in s.registry.clients
      ensures s.registry.clients[id].serial in open && s.registry.clients[id].serial < |s.regs|
      ensures s.regs[s.registry.clients[id].serial].client.clientID == id
    {
      assert Stored(s, id);
      assert Registered(s, s.registry.clients[id].serial);
    }
    forall i | i in open ensures i < |s.regs| && s.regs[i].client.clientID in s.registry.clients && s.registry.clients[s.regs[i].client.clientID].serial == i {
      assert Registered(s, i);
    }
    SameSize(open, s.registry.clients, s.regs);
  }

  /**
   * Main result: the gauge is the counted registrations minus those decremented, each at most once,
   * and with no registration or teardown under way it is the number of registered clients, every
   * other registration being cancelled and decremented.
   */
  lemma GaugeOverRuns(steps: seq<Step>)
    ensures var s := Run(INITIAL, steps);
            && s.gauge == |Counted(s)| - |Done(s)|
            && ((forall i | 0 <= i < |s.regs| :: s.regs[i].counted)
                && (forall k | 0 <= k < |s.teardowns| :: s.teardowns[k].next.Finished?) ==>
                  && s.gauge == |s.registry.clients|
                  && forall i | 0 <= i < |s.regs| :: Registered(s, i) || (s.regs[i].cancelled && s.regs[i].onceDone))
  {
    InvariantOverRuns(INITIAL, steps);
    var s := Run(INITIAL, steps);
    hide Run, Inv;
    BalanceCounts(s);
    if (forall i | 0 <= i < |s.regs| :: s.regs[i].counted) && (forall k | 0 <= k < |s.teardowns| :: s.teardowns[k].next.Finished?) {
      QuietRegistrations(s);
      QuietGauge(s);
    }
  }

  // ----- the registration's mutable record, one method per critical section or handler -----

  /** The active-client gauge. */
  class Gauge {
    var value: int

    constructor ()
      ensures value == 0
    {
      value := 0;
    }
  }

  class ServerClient {
    const info: Instance
    var attached: bool
    var reaped: bool
    var cancelled: bool
    var muxSession: Option<nat>
    var quicConn: Option<nat>
    var decremented: bool
    var timerRunning: bool
    var monitorRunning: bool
    var counted: bool
    ghost var expired: bool
    ghost var muxPast: seq<nat>
    ghost var quicPast: seq<nat>

    ghost function State(): Reg
      reads this
    {
      Reg(info, attached, reaped, cancelled, Slot(muxSession, muxPast), Slot(quicConn, quicPast),
          None, timerRunning, monitorRunning, expired, counted, decremented)
    }

    constructor (info: Instance)
      ensures State() == NewReg(info)
    {
      this.info := info;
      attached, reaped, cancelled, decremented, timerRunning, monitorRunning, counted := false, false, false, false, true, true, false;
      muxSession, quicConn := None, None;
      expired, muxPast, quicPast := false, [], [];
    }

    method ClaimServerAttach(kind: Kind, conn: nat) returns (displaced: Option<nat>, ok: bool)
      modifies this
      ensures (State(), ok) == Claim(old(State()), kind, conn)
      ensures displaced == if ok && old(State()).At(kind).current != Some(conn) then old(State()).At(kind).current else None
    {
      if reaped || cancelled {
        return None, false;
      }
      attached := true;
      if kind.Mux? {
        displaced := muxSession;
        muxSession, muxPast := Some(conn), muxPast + [conn];
      } else {
        displaced := quicConn;
        quicConn, quicPast := Some(conn), quicPast + [conn];
      }
      if displaced == Some(conn) {
        displaced := None;
      }
      ok := true;
    }

    method ReleaseServerAttach(kind: Kind, conn: nat) returns (current: bool)
      modifies this
      ensures (State(), current) == Release(old(State()), kind, conn)
    {
      if kind.Mux? {
        current := muxSession == Some(conn);
        if current { muxSession := None; }
      } else {
        current := quicConn == Some(conn);
        if current { quicConn := None; }
      }
      if current {
        reaped := true;
      }
    }

    /** The timer's decision; the caller tears the registration down when `reap` is set. */
    method ReapUnattached() returns (reap: bool)
      modifies this
      ensures (State(), reap) == Expire(old(State()))
      ensures !timerRunning && (reap <==> !old(attached)) && (reap ==> reaped) && (!reap ==> reaped == old(reaped))
    {
      reap := !attached;
      reaped := reaped || reap;
      expired, timerRunning := expired || reap, false;
    }

    method DecrementOnce(gauge: Gauge)
      modifies this`decremented, gauge
      ensures State() == old(State()).(onceDone := true)
      ensures gauge.value == old(gauge.value) - if old(decremented) then 0 else 1
    {
      if !decremented {
        decremented := true;
        gauge.value := gauge.value - 1;
      }
    }

    /** closeServerClientConnections, run without interference. */
    method CloseConnections(server: Server, gauge: Gauge)
      requires server.Valid()
      modifies this`muxSession, this`cancelled, this`decremented, gauge, server`clients, server`routes, server`log
      ensures server.Valid() && server.State() == Forget(old(server.State()), info.clientID, info).0
      ensures State() == old(State()).(mux := old(State()).mux.(current := None), cancelled := true, onceDone := true)
      ensures gauge.value == old(gauge.value) - if old(decremented) then 0 else 1
    {
      var _ := server.ForgetServerClient(info.clientID, info);
      muxSession := None;
      cancelled := true;
      DecrementOnce(gauge);
    }

    /** What a mux carrier's handler does when its session ends: nothing at all once it was superseded. */
    method EndMuxCarrier(session: nat, server: Server, gauge: Gauge) returns (current: bool)
      requires server.Valid()
      modifies this, gauge, server`clients, server`routes, server`log
      ensures current <==> old(muxSession) == Some(session)
      ensures !current ==> State() == old(State()) && server.State() == old(server.State()) && gauge.value == old(gauge.value)
      ensures server.Valid()
      ensures current ==>
        && server.State() == Forget(old(server.State()), info.clientID, info).0
        && reaped && decremented && muxSession == None
        && cancelled == (old(cancelled) || Forget(old(server.State()), info.clientID, info).1)
        && gauge.value == old(gauge.value) - if old(decremented) then 0 else 1
    {
      current := ReleaseServerAttach(Mux, session);
      if !current {
        return;
      }
      var forgotten := server.ForgetServerClient(info.clientID, info);
      if forgotten {
        cancelled := true;
      }
      DecrementOnce(gauge);
    }
  }
}
