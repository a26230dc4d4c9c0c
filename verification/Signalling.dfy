/** Clients exchanging offers, answers and candidates that the network may repeat and reorder. */
module Signalling {
  import opened Basics
  import N = Negotiation
  import TunnelMux

  /** ShouldInitiateICE */
  predicate ShouldInitiate(local: string, remote: string) {
    local != "" && remote != "" && StringLess(local, remote)
  }

  datatype Signal =
    | Offer(from: string, to: string, session: string, candidates: seq<N.Candidate>)
    | Answer(from: string, to: string, session: string, candidates: seq<N.Candidate>)
    | Trickle(from: string, to: string, session: string, candidates: seq<N.Candidate>)
    | Fallback(from: string, to: string, session: string)
    | Ready(from: string, to: string, session: string)

  /** What a handler still has to do after it let go of the store. */
  datatype Task =
    | PrepareOffer(local: string, peer: string)
    | SendOffer(local: string, peer: string, session: string, candidates: seq<N.Candidate>)
    | PrepareAnswer(local: string, offer: Signal)
    | SendAnswer(local: string, offer: Signal, candidates: seq<N.Candidate>)
    | Check(local: string, peer: string, session: string)

  /**
   * Every client's store, the peers it has heard of, everything ever sent, and the tasks handlers
   * have begun. A task stays and may be taken up again, as when a signal is handled twice at once.
   */
  datatype System = System(stores: map<string, N.Store>, peers: map<string, set<string>>, net: set<Signal>, tasks: set<Task>)

  /** `Resume` is the next critical section of a handler; each section reads its own clock. */
  datatype Step =
    | PeerInfo(local: string, peer: string)
    | Deliver(local: string, signal: Signal, now: int)
    | Resume(local: string, task: Task, session: string, prepared: Option<seq<N.Candidate>>, now: int)
    | Established(local: string, peer: string, session: string, now: int)
    | CheckFailed(local: string, peer: string, session: string)
    | SessionEnded(local: string, peer: string, session: string)

  function Put(s: System, local: string, store: N.Store): System {
    s.(stores := s.stores[local := store])
  }

  function Send(s: System, signal: Signal): System {
    s.(net := s.net + {signal})
  }

  function Later(s: System, task: Task): System {
    s.(tasks := s.tasks + {task})
  }

  /** startICEOffer once the socket is prepared, under the session ID it drew. */
  function StartOffer(s: System, local: string, peer: string, session: string, prepared: Option<seq<N.Candidate>>, now: int): System
    requires local in s.stores
  {
    if session == "" || prepared.None? then s
    else
      var (store, result) := N.Start(s.stores[local], now, peer, N.Controlling, session, prepared.value, []);
      var s := Put(s, local, store);
      if result.Started? || result.Replayed? then Later(s, SendOffer(local, peer, session, prepared.value)) else s
  }

  /** An offer arrives: a replay is answered from the stored candidates, a new one has a socket prepared. */
  function OnOffer(s: System, local: string, m: Signal, now: int): System
    requires local in s.stores && local in s.peers && m.Offer?
  {
    if m.to != local || ShouldInitiate(local, m.from) || m.from !in s.peers[local] then s
    else
      var (store, existing) := N.Get(s.stores[local], now, m.from, m.session);
      var s := Put(s, local, store);
      if existing.Some? then Later(s, SendAnswer(local, m, existing.value.local)) else Later(s, PrepareAnswer(local, m))
  }

  /** The socket is prepared, or not: the negotiation is stored and then answered and checked. */
  function Accept(s: System, local: string, m: Signal, prepared: Option<seq<N.Candidate>>, now: int): System
    requires local in s.stores && m.Offer?
  {
    if prepared.None? then Send(s, Fallback(local, m.from, m.session))
    else
      var (store, result) := N.Start(s.stores[local], now, m.from, N.Controlled, m.session, prepared.value, m.candidates);
      var s := Put(s, local, store);
      if !result.Started? && !result.Replayed? then s
      else Later(Later(s, SendAnswer(local, m, prepared.value)), Check(local, m.from, m.session))
  }

  function OnAnswer(s: System, local: string, m: Signal, now: int): System
    requires local in s.stores && local in s.peers && m.Answer?
  {
    if m.to != local || !ShouldInitiate(local, m.from) || m.from !in s.peers[local] then s
    else
      var (store, n) := N.AddRemote(s.stores[local], now, m.from, m.session, m.candidates);
      var s := Put(s, local, store);
      if n.None? || n.value.role != N.Controlling then s else Later(s, Check(local, m.from, m.session))
  }

  /** handleP2PSignal on one delivered signal, up to its first critical section. */
  function OnSignal(s: System, local: string, m: Signal, now: int): System
    requires local in s.stores && local in s.peers
  {
    match m
    case Offer(_, _, _, _) => OnOffer(s, local, m, now)
    case Answer(_, _, _, _) => OnAnswer(s, local, m, now)
    case Trickle(from, to, session, candidates) =>
      if to == local then Put(s, local, N.AddRemote(s.stores[local], now, from, session, candidates).0) else s
    case Fallback(from, _, session) => Put(s, local, N.Delete(s.stores[local], from, session))
    case Ready(_, _, _) => s
  }

  function OnTask(s: System, local: string, task: Task, session: string, prepared: Option<seq<N.Candidate>>, now: int): System
    requires local in s.stores
  {
    match task
    case PrepareOffer(_, peer) => StartOffer(s, local, peer, session, prepared, now)
    case SendOffer(_, peer, drawn, candidates) => Send(s, Offer(local, peer, drawn, candidates))
    case PrepareAnswer(_, offer) => if offer.Offer? then Accept(s, local, offer, prepared, now) else s
    case SendAnswer(_, offer, candidates) => Send(s, Answer(local, offer.from, offer.session, candidates))
    case Check(_, peer, checked) => Put(s, local, N.BeginCheck(s.stores[local], now, peer, checked).0)
  }

  predicate Enabled(s: System, step: Step) {
    && step.local in s.stores && step.local in s.peers
    && (step.Deliver? ==> step.signal in s.net)
    && (step.Resume? ==> step.task in s.tasks && step.task.local == step.local)
  }

  function Next(s: System, step: Step): System {
    if !Enabled(s, step) then s
    else match step
      case PeerInfo(local, peer) =>
        var s := s.(peers := s.peers[local := s.peers[local] + {peer}]);
        if ShouldInitiate(local, peer) then Later(s, PrepareOffer(local, peer)) else s
      case Deliver(local, signal, now) => OnSignal(s, local, signal, now)
      case Resume(local, task, session, prepared, now) => OnTask(s, local, task, session, prepared, now)
      case Established(local, peer, session, now) =>
        var (store, done) := N.Complete(s.stores[local], now, peer, session);
        var s := Put(s, local, store);
        if done then Send(s, Ready(local, peer, session)) else s
      case CheckFailed(local, peer, session) =>
        Send(Put(s, local, N.Delete(s.stores[local], peer, session)), Fallback(local, peer, session))
      case SessionEnded(local, peer, session) => Put(s, local, N.Delete(s.stores[local], peer, session))
  }

  function Begin(ids: set<string>, capacity: int, ttl: int): System {
    System(map id | id in ids :: N.NewStore(capacity, ttl), map id | id in ids :: {}, {}, {})
  }

  function Run(ids: set<string>, capacity: int, ttl: int, steps: seq<Step>): System {
    if steps == [] then Begin(ids, capacity, ttl)
    else Next(Run(ids, capacity, ttl, steps[..|steps| - 1]), steps[|steps| - 1])
  }

  /** For two distinct clients exactly one side initiates. */
  lemma OneInitiator(a: string, b: string)
    requires a != "" && b != ""
    ensures a != b ==> (ShouldInitiate(a, b) <==> !ShouldInitiate(b, a))
    ensures a == b ==> !ShouldInitiate(a, b)
  {
    StringLessTrichotomy(a, b);
  }

  predicate RoleFits(local: string, peer: string, n: N.Entry) {
    if ShouldInitiate(local, peer) then n.role == N.Controlling else n.role == N.Controlled
  }

  /** Roles follow the order of identities, offers come from initiators, and a controlled entry answers an offer. */
  ghost predicate RolesOk(s: System) {
    && (forall local, peer | local in s.stores && peer in s.stores[local].entries ::
          && RoleFits(local, peer, s.stores[local].entries[peer])
          && (s.stores[local].entries[peer].role == N.Controlled ==>
                Offered(s.net, peer, local, s.stores[local].entries[peer].session)))
    && (forall m | m in s.net && m.Offer? :: ShouldInitiate(m.from, m.to))
    && (forall m | m in s.net && m.Answer? :: !ShouldInitiate(m.from, m.to) && Offered(s.net, m.to, m.from, m.session))
    && (forall task | task in s.tasks :: TaskFits(s.net, task))
  }

  /** Offers are prepared by initiators, answers by the other side to an offer that was sent. */
  ghost predicate TaskFits(net: set<Signal>, task: Task) {
    match task
    case PrepareOffer(local, peer) => ShouldInitiate(local, peer)
    case SendOffer(local, peer, _, _) => ShouldInitiate(local, peer)
    case PrepareAnswer(local, offer) => offer in net && offer.Offer? && offer.to == local && !ShouldInitiate(local, offer.from)
    case SendAnswer(local, offer, _) => offer in net && offer.Offer? && offer.to == local && !ShouldInitiate(local, offer.from)
    case Check(_, _, _) => true
  }

  ghost predicate Offered(net: set<Signal>, from: string, to: string, session: string) {
    exists m :: m in net && m.Offer? && m.from == from && m.to == to && m.session == session
  }

  /** What one store operation may leave behind: old entries with the same identity, or one new entry. */
  lemma StoreStep(s: N.Store, op: N.Op, peer: string)
    ensures peer in N.Apply(s, op).entries ==>
              var after := N.Apply(s, op).entries[peer];
              (peer in s.entries && s.entries[peer].session == after.session && s.entries[peer].role == after.role)
              || (op.OpStart? && op.peer == peer && after.session == op.session && after.role == op.role)
  {
  }

  /** A store update through one operation, and signals added, keep the roles. */
  lemma UpdateKeepsRoles(s: System, t: System, local: string, op: N.Op)
    requires RolesOk(s) && local in s.stores
    requires t.stores == s.stores[local := N.Apply(s.stores[local], op)]
    requires t.net == s.net && t.tasks == s.tasks
    requires op.OpStart? ==>
      || (op.role == N.Controlling && ShouldInitiate(local, op.peer))
      || (op.role == N.Controlled && !ShouldInitiate(local, op.peer) && Offered(s.net, op.peer, local, op.session))
    ensures RolesOk(t)
  {
    forall l, peer | l in t.stores && peer in t.stores[l].entries
      ensures RoleFits(l, peer, t.stores[l].entries[peer])
      ensures t.stores[l].entries[peer].role == N.Controlled ==> Offered(t.net, peer, l, t.stores[l].entries[peer].session)
    {
      if l == local { StoreStep(s.stores[local], op, peer); }
    }
  }

  lemma SendKeepsRoles(s: System, m: Signal)
    requires RolesOk(s)
    requires m.Offer? ==> ShouldInitiate(m.from, m.to)
    requires m.Answer? ==> !ShouldInitiate(m.from, m.to) && Offered(s.net, m.to, m.from, m.session)
    ensures RolesOk(Send(s, m))
  {
    var t := Send(s, m);
    forall from, to, session | Offered(s.net, from, to, session) ensures Offered(t.net, from, to, session) {
      var x :| x in s.net && x.Offer? && x.from == from && x.to == to && x.session == session;
      assert x in t.net;
    }
  }

  lemma PeersKeepRoles(s: System, t: System)
    requires RolesOk(s) && t.stores == s.stores && t.net == s.net && t.tasks == s.tasks
    ensures RolesOk(t)
  {
  }

  lemma LaterKeepsRoles(s: System, task: Task)
    requires RolesOk(s) && TaskFits(s.net, task)
    ensures RolesOk(Later(s, task))
  {
  }

  lemma OfferKeepsRoles(s: System, local: string, m: Signal, now: int)
    requires RolesOk(s) && local in s.stores && local in s.peers && m.Offer? && m in s.net
    ensures RolesOk(OnOffer(s, local, m, now))
  {
    hide RolesOk;
    if m.to == local && !ShouldInitiate(local, m.from) && m.from in s.peers[local] {
      var (store, existing) := N.Get(s.stores[local], now, m.from, m.session);
      UpdateKeepsRoles(s, Put(s, local, store), local, N.OpGet(now, m.from, m.session));
      LaterKeepsRoles(Put(s, local, store), if existing.Some? then SendAnswer(local, m, existing.value.local) else PrepareAnswer(local, m));
    }
  }

  lemma AcceptKeepsRoles(s: System, local: string, m: Signal, prepared: Option<seq<N.Candidate>>, now: int)
    requires RolesOk(s) && local in s.stores && TaskFits(s.net, PrepareAnswer(local, m))
    ensures RolesOk(Accept(s, local, m, prepared, now))
  {
    assert Offered(s.net, m.from, local, m.session);
    hide RolesOk, Offered;
    if prepared.None? {
      SendKeepsRoles(s, Fallback(local, m.from, m.session));
    } else {
      var start := N.OpStart(now, m.from, N.Controlled, m.session, prepared.value, m.candidates);
      var s1 := Put(s, local, N.Apply(s.stores[local], start));
      UpdateKeepsRoles(s, s1, local, start);
      LaterKeepsRoles(s1, SendAnswer(local, m, prepared.value));
      LaterKeepsRoles(Later(s1, SendAnswer(local, m, prepared.value)), Check(local, m.from, m.session));
    }
  }

  lemma AnswerKeepsRoles(s: System, local: string, m: Signal, now: int)
    requires RolesOk(s) && local in s.stores && local in s.peers && m.Answer?
    ensures RolesOk(OnAnswer(s, local, m, now))
  {
    hide RolesOk;
    if m.to == local && ShouldInitiate(local, m.from) && m.from in s.peers[local] {
      var s1 := Put(s, local, N.AddRemote(s.stores[local], now, m.from, m.session, m.candidates).0);
      UpdateKeepsRoles(s, s1, local, N.OpAddRemote(now, m.from, m.session, m.candidates));
      LaterKeepsRoles(s1, Check(local, m.from, m.session));
    }
  }

  lemma StartOfferKeepsRoles(s: System, local: string, peer: string, session: string, prepared: Option<seq<N.Candidate>>, now: int)
    requires RolesOk(s) && local in s.stores && ShouldInitiate(local, peer)
    ensures RolesOk(StartOffer(s, local, peer, session, prepared, now))
  {
    hide RolesOk;
    if session != "" && prepared.Some? {
      var s1 := Put(s, local, N.Start(s.stores[local], now, peer, N.Controlling, session, prepared.value, []).0);
      UpdateKeepsRoles(s, s1, local, N.OpStart(now, peer, N.Controlling, session, prepared.value, []));
      LaterKeepsRoles(s1, SendOffer(local, peer, session, prepared.value));
    }
  }

  lemma TaskKeepsRoles(s: System, local: string, task: Task, session: string, prepared: Option<seq<N.Candidate>>, now: int)
    requires RolesOk(s) && local in s.stores && task in s.tasks && task.local == local
    ensures RolesOk(OnTask(s, local, task, session, prepared, now))
  {
    assert TaskFits(s.net, task);
    hide RolesOk;
    match task
    case PrepareOffer(_, peer) => StartOfferKeepsRoles(s, local, peer, session, prepared, now);
    case SendOffer(_, peer, drawn, candidates) => SendKeepsRoles(s, Offer(local, peer, drawn, candidates));
    case PrepareAnswer(_, offer) => AcceptKeepsRoles(s, local, offer, prepared, now);
    case SendAnswer(_, offer, candidates) =>
      assert Offered(s.net, offer.from, local, offer.session);
      SendKeepsRoles(s, Answer(local, offer.from, offer.session, candidates));
    case Check(_, peer, checked) => UpdateKeepsRoles(s, OnTask(s, local, task, session, prepared, now), local, N.OpBeginCheck(now, peer, checked));
  }

  lemma NextKeepsRoles(s: System, step: Step)
    requires RolesOk(s)
    ensures RolesOk(Next(s, step))
  {
    hide RolesOk;
    if Enabled(s, step) {
      match step
      case PeerInfo(local, peer) =>
        var s1 := s.(peers := s.peers[local := s.peers[local] + {peer}]);
        PeersKeepRoles(s, s1);
        if ShouldInitiate(local, peer) { LaterKeepsRoles(s1, PrepareOffer(local, peer)); }
      case Deliver(local, m, now) =>
        match m {
          case Offer(_, _, _, _) => OfferKeepsRoles(s, local, m, now);
          case Answer(_, _, _, _) => AnswerKeepsRoles(s, local, m, now);
          case Trickle(from, to, session, candidates) =>
            if to == local {
              UpdateKeepsRoles(s, Next(s, step), local, N.OpAddRemote(now, from, session, candidates));
            }
          case Fallback(from, _, session) => UpdateKeepsRoles(s, Next(s, step), local, N.OpDelete(from, session));
          case Ready(_, _, _) =>
        }
      case Resume(local, task, session, prepared, now) => TaskKeepsRoles(s, local, task, session, prepared, now);
      case Established(local, peer, session, now) =>
        var s1 := Put(s, local, N.Complete(s.stores[local], now, peer, session).0);
        UpdateKeepsRoles(s, s1, local, N.OpComplete(now, peer, session));
        SendKeepsRoles(s1, Ready(local, peer, session));
      case CheckFailed(local, peer, session) =>
        var s1 := Put(s, local, N.Delete(s.stores[local], peer, session));
        UpdateKeepsRoles(s, s1, local, N.OpDelete(peer, session));
        SendKeepsRoles(s1, Fallback(local, peer, session));
      case SessionEnded(local, peer, session) =>
        UpdateKeepsRoles(s, Next(s, step), local, N.OpDelete(peer, session));
    }
  }

  lemma {:induction false} RolesOverRuns(ids: set<string>, capacity: int, ttl: int, steps: seq<Step>)
    ensures RolesOk(Run(ids, capacity, ttl, steps))
    decreases |steps|
  {
    if steps != [] {
      RolesOverRuns(ids, capacity, ttl, steps[..|steps| - 1]);
      NextKeepsRoles(Run(ids, capacity, ttl, steps[..|steps| - 1]), steps[|steps| - 1]);
    }
  }

  /**
   * Main result: whatever is repeated or reordered, two clients that both hold a negotiation with
   * each other hold opposite roles, so the streams their tunnels open never share an ID; and the
   * controlled side only ever holds a session its peer offered.
   */
  lemma OppositeRoles(ids: set<string>, capacity: int, ttl: int, steps: seq<Step>, a: string, b: string, j: nat, k: nat)
    requires a != "" && b != "" && a != b
    requires var s := Run(ids, capacity, ttl, steps);
             a in s.stores && b in s.stores && b in s.stores[a].entries && a in s.stores[b].entries
    ensures var s := Run(ids, capacity, ttl, steps);
            var x, y := s.stores[a].entries[b], s.stores[b].entries[a];
            && ((x.role == N.Controlling && y.role == N.Controlled && Offered(s.net, a, b, y.session))
                || (x.role == N.Controlled && y.role == N.Controlling && Offered(s.net, b, a, x.session)))
            && TunnelMux.OpenedId(ShouldInitiate(a, b), j) != TunnelMux.OpenedId(ShouldInitiate(b, a), k)
  {
    RolesOverRuns(ids, capacity, ttl, steps);
    OneInitiator(a, b);
    TunnelMux.StreamIds(j, k, true);
    TunnelMux.StreamIds(k, j, true);
  }

  // ----- one connectivity check per negotiation -----

  /** The operation a step performs on the store of its client, if it performs one. */
  function StoreOp(s: System, step: Step): Option<N.Op>
    requires Enabled(s, step)
  {
    match step
    case PeerInfo(_, _) => None
    case Deliver(local, m, now) => (
      match m
      case Offer(from, to, session, _) =>
        if to != local || ShouldInitiate(local, from) || from !in s.peers[local] then None
        else Some(N.OpGet(now, from, session))
      case Answer(from, to, session, candidates) =>
        if to != local || !ShouldInitiate(local, from) || from !in s.peers[local] then None
        else Some(N.OpAddRemote(now, from, session, candidates))
      case Trickle(from, to, session, candidates) =>
        if to == local then Some(N.OpAddRemote(now, from, session, candidates)) else None
      case Fallback(from, _, session) => Some(N.OpDelete(from, session))
      case Ready(_, _, _) => None)
    case Resume(_, task, session, prepared, now) => (
      match task
      case PrepareOffer(_, peer) =>
        if session == "" || prepared.None? then None
        else Some(N.OpStart(now, peer, N.Controlling, session, prepared.value, []))
      case PrepareAnswer(_, offer) =>
        if !offer.Offer? || prepared.None? then None
        else Some(N.OpStart(now, offer.from, N.Controlled, offer.session, prepared.value, offer.candidates))
      case Check(_, peer, checked) => Some(N.OpBeginCheck(now, peer, checked))
      case SendOffer(_, _, _, _) | SendAnswer(_, _, _) => None)
    case Established(_, peer, session, now) => Some(N.OpComplete(now, peer, session))
    case CheckFailed(_, peer, session) => Some(N.OpDelete(peer, session))
    case SessionEnded(_, peer, session) => Some(N.OpDelete(peer, session))
  }

  /** A step changes one store, and that by one operation. */
  lemma NextAppliesOp(s: System, step: Step)
    requires Enabled(s, step)
    ensures var op := StoreOp(s, step);
            Next(s, step).stores == if op.Some? then s.stores[step.local := N.Apply(s.stores[step.local], op.value)] else s.stores
  {
    hide N.Start, N.AddRemote, N.BeginCheck, N.Complete, N.Delete, N.Get, N.Expire;
  }

  /** The operations a run performs on one client's store, in order. */
  function StoreOps(ids: set<string>, capacity: int, ttl: int, steps: seq<Step>, local: string): seq<N.Op> {
    if steps == [] then []
    else
      var prior := steps[..|steps| - 1];
      var before, step := Run(ids, capacity, ttl, prior), steps[|steps| - 1];
      StoreOps(ids, capacity, ttl, prior, local) +
      (if Enabled(before, step) && step.local == local && StoreOp(before, step).Some? then [StoreOp(before, step).value] else [])
  }

  /** Every client's store goes through a run of store operations, so all that holds of those holds here. */
  lemma {:induction false} StoresRunTheirOps(ids: set<string>, capacity: int, ttl: int, steps: seq<Step>, local: string)
    requires local in ids
    ensures var s := Run(ids, capacity, ttl, steps);
            && local in s.stores
            && s.stores[local] == N.Run(capacity, ttl, StoreOps(ids, capacity, ttl, steps, local)).store
            && N.WithinBounds(s.stores[local]) && s.stores[local].capacity == N.NewStore(capacity, ttl).capacity
    decreases |steps|
  {
    hide N.WithinBounds, N.HistoryOk, Next, StoreOp, Enabled;
    var ops := StoreOps(ids, capacity, ttl, steps, local);
    N.StoreOverRuns(capacity, ttl, ops);
    if steps != [] {
      var prior := steps[..|steps| - 1];
      var before, step := Run(ids, capacity, ttl, prior), steps[|steps| - 1];
      StoresRunTheirOps(ids, capacity, ttl, prior, local);
      var earlier := StoreOps(ids, capacity, ttl, prior, local);
      if Enabled(before, step) {
        NextAppliesOp(before, step);
        if step.local == local && StoreOp(before, step).Some? {
          assert ops[..|ops| - 1] == earlier;
          RecordStore(N.Run(capacity, ttl, earlier), ops[|ops| - 1]);
        } else {
          assert ops == earlier;
        }
      } else {
        NotEnabled(before, step);
        assert ops == earlier;
      }
    }
  }

  lemma NotEnabled(s: System, step: Step)
    requires !Enabled(s, step)
    ensures Next(s, step) == s
  {
  }

  lemma RecordStore(h: N.History, op: N.Op)
    ensures N.Record(h, op).store == N.Apply(h.store, op)
  {
    hide N.Apply;
  }

  /** The step begins a connectivity check with the peer. */
  predicate Grants(s: System, step: Step, local: string, peer: string) {
    && Enabled(s, step) && step.local == local && StoreOp(s, step).Some?
    && var op := StoreOp(s, step).value;
       op.OpBeginCheck? && op.peer == peer && N.BeginCheck(s.stores[local], op.now, op.peer, op.session).1.Some?
  }

  /** The step stores a new negotiation with the peer. */
  predicate Starts(s: System, step: Step, local: string, peer: string) {
    && Enabled(s, step) && step.local == local && StoreOp(s, step).Some?
    && var op := StoreOp(s, step).value;
       op.OpStart? && op.peer == peer
       && N.Start(s.stores[local], op.now, op.peer, op.role, op.session, op.local, op.remote).1.Started?
  }

  predicate Unpending(s: System, local: string, peer: string) {
    local in s.stores && (peer in s.stores[local].entries ==> s.stores[local].entries[peer].phase != N.Pending)
  }

  /** An entry is pending afterwards only if it was pending, or was just started. */
  lemma OpUnpending(s: N.Store, op: N.Op, peer: string)
    requires peer in N.Apply(s, op).entries && N.Apply(s, op).entries[peer].phase == N.Pending
    requires peer in s.entries ==> s.entries[peer].phase != N.Pending
    ensures op.OpStart? && op.peer == peer && N.Start(s, op.now, op.peer, op.role, op.session, op.local, op.remote).1.Started?
  {
  }

  lemma NextKeepsUnpending(s: System, step: Step, local: string, peer: string)
    requires Unpending(s, local, peer) && !Starts(s, step, local, peer)
    ensures Unpending(Next(s, step), local, peer)
  {
    hide Next, StoreOp, Enabled, N.Apply, N.Start;
    if Enabled(s, step) {
      NextAppliesOp(s, step);
      if step.local == local && StoreOp(s, step).Some? {
        var op := StoreOp(s, step).value;
        var after := N.Apply(s.stores[local], op);
        if peer in after.entries && after.entries[peer].phase == N.Pending { OpUnpending(s.stores[local], op, peer); }
      }
    } else {
      NotEnabled(s, step);
    }
  }

  lemma GrantUnpends(s: System, step: Step, local: string, peer: string)
    requires Grants(s, step, local, peer)
    ensures !Unpending(s, local, peer) && Unpending(Next(s, step), local, peer)
  {
    NextAppliesOp(s, step);
    hide Next, StoreOp, Enabled;
  }

  lemma {:induction false} StaysUnpending(ids: set<string>, capacity: int, ttl: int, steps: seq<Step>, i: nat, j: nat, local: string, peer: string)
    requires i <= j <= |steps| && Unpending(Run(ids, capacity, ttl, steps[..i]), local, peer)
    requires forall k | i <= k < j :: !Starts(Run(ids, capacity, ttl, steps[..k]), steps[k], local, peer)
    ensures Unpending(Run(ids, capacity, ttl, steps[..j]), local, peer)
    decreases j
  {
    hide Next, Starts, Unpending;
    if i < j {
      StaysUnpending(ids, capacity, ttl, steps, i, j - 1, local, peer);
      assert steps[..j][..j - 1] == steps[..j - 1];
      NextKeepsUnpending(Run(ids, capacity, ttl, steps[..j - 1]), steps[j - 1], local, peer);
    }
  }

  /**
   * Main result: whatever is repeated and however handlers interleave, a client begins a second
   * connectivity check with a peer only after it stored a new negotiation with that peer since the first.
   */
  lemma OneCheckPerNegotiation(ids: set<string>, capacity: int, ttl: int, steps: seq<Step>, i: nat, j: nat, local: string, peer: string)
    requires i < j < |steps|
    requires Grants(Run(ids, capacity, ttl, steps[..i]), steps[i], local, peer)
    requires Grants(Run(ids, capacity, ttl, steps[..j]), steps[j], local, peer)
    ensures exists k :: i < k < j && Starts(Run(ids, capacity, ttl, steps[..k]), steps[k], local, peer)
  {
    hide Next, Starts, Unpending, Grants;
    GrantUnpends(Run(ids, capacity, ttl, steps[..i]), steps[i], local, peer);
    GrantUnpends(Run(ids, capacity, ttl, steps[..j]), steps[j], local, peer);
    assert steps[..i + 1][..i] == steps[..i];
    if forall k | i < k < j :: !Starts(Run(ids, capacity, ttl, steps[..k]), steps[k], local, peer) {
      StaysUnpending(ids, capacity, ttl, steps, i + 1, j, local, peer);
      assert false;
    }
  }

  // ----- which candidates are sent -----

  /** Candidates a client gathered for a peer and a session, to answer its offer or to make one. */
  datatype Prep = Prep(local: string, peer: string, session: string, candidates: seq<N.Candidate>, answering: bool)

  /** What a step prepares. */
  function PrepOf(s: System, step: Step): set<Prep> {
    if !Enabled(s, step) || !step.Resume? || step.prepared.None? then {}
    else
      match step.task
      case PrepareOffer(_, peer) => {Prep(step.local, peer, step.session, step.prepared.value, false)}
      case PrepareAnswer(_, offer) =>
        if offer.Offer? then {Prep(step.local, offer.from, offer.session, step.prepared.value, true)} else {}
      case _ => {}
  }

  function Preps(ids: set<string>, capacity: int, ttl: int, steps: seq<Step>): set<Prep> {
    if steps == [] then {}
    else
      var prior := steps[..|steps| - 1];
      Preps(ids, capacity, ttl, prior) + PrepOf(Run(ids, capacity, ttl, prior), steps[|steps| - 1])
  }

  /** Every list of local candidates stored, queued or sent was prepared for that peer and session, in that role. */
  ghost predicate CandidatesOk(s: System, preps: set<Prep>) {
    && (forall local, peer | local in s.stores && peer in s.stores[local].entries ::
          var n := s.stores[local].entries[peer];
          Prep(local, peer, n.session, n.local, n.role == N.Controlled) in preps)
    && (forall m | m in s.net && m.Offer? :: Prep(m.from, m.to, m.session, m.candidates, false) in preps)
    && (forall m | m in s.net && m.Answer? :: Prep(m.from, m.to, m.session, m.candidates, true) in preps)
    && (forall task | task in s.tasks :: SendsPrepared(task, preps))
  }

  ghost predicate SendsPrepared(task: Task, preps: set<Prep>) {
    match task
    case SendOffer(local, peer, session, candidates) => Prep(local, peer, session, candidates, false) in preps
    case SendAnswer(local, offer, candidates) =>
      offer.Offer? && Prep(local, offer.from, offer.session, candidates, true) in preps
    case _ => true
  }

  lemma MorePreps(s: System, preps: set<Prep>, more: set<Prep>)
    requires CandidatesOk(s, preps)
    ensures CandidatesOk(s, preps + more)
  {
    forall task | task in s.tasks ensures SendsPrepared(task, preps + more) { assert SendsPrepared(task, preps); }
  }

  lemma StoreStepLocal(s: N.Store, op: N.Op, peer: string)
    ensures peer in N.Apply(s, op).entries ==>
              var after := N.Apply(s, op).entries[peer];
              (peer in s.entries && s.entries[peer].session == after.session && s.entries[peer].role == after.role
               && s.entries[peer].local == after.local)
              || (op.OpStart? && op.peer == peer && after.session == op.session && after.role == op.role && after.local == op.local)
  {
  }

  lemma UpdateKeepsCandidates(s: System, t: System, local: string, op: N.Op, preps: set<Prep>)
    requires CandidatesOk(s, preps) && local in s.stores
    requires t.stores == s.stores[local := N.Apply(s.stores[local], op)] && t.net == s.net && t.tasks == s.tasks
    requires op.OpStart? ==> Prep(local, op.peer, op.session, op.local, op.role == N.Controlled) in preps
    ensures CandidatesOk(t, preps)
  {
    forall l, peer | l in t.stores && peer in t.stores[l].entries
      ensures var n := t.stores[l].entries[peer]; Prep(l, peer, n.session, n.local, n.role == N.Controlled) in preps
    {
      if l == local { StoreStepLocal(s.stores[local], op, peer); }
    }
  }

  lemma SendKeepsCandidates(s: System, m: Signal, preps: set<Prep>)
    requires CandidatesOk(s, preps)
    requires m.Offer? ==> Prep(m.from, m.to, m.session, m.candidates, false) in preps
    requires m.Answer? ==> Prep(m.from, m.to, m.session, m.candidates, true) in preps
    ensures CandidatesOk(Send(s, m), preps)
  {
  }

  lemma LaterKeepsCandidates(s: System, task: Task, preps: set<Prep>)
    requires CandidatesOk(s, preps) && SendsPrepared(task, preps)
    ensures CandidatesOk(Later(s, task), preps)
  {
  }

  /** What is stored for a peer that initiates was prepared to answer it. */
  lemma StoredAnswer(s: System, local: string, peer: string, preps: set<Prep>)
    requires RolesOk(s) && CandidatesOk(s, preps) && local in s.stores && peer in s.stores[local].entries && !ShouldInitiate(local, peer)
    ensures Prep(local, peer, s.stores[local].entries[peer].session, s.stores[local].entries[peer].local, true) in preps
  {
    assert RoleFits(local, peer, s.stores[local].entries[peer]);
  }

  lemma OfferKeepsCandidates(s: System, local: string, m: Signal, now: int, preps: set<Prep>)
    requires RolesOk(s) && CandidatesOk(s, preps) && local in s.stores && local in s.peers && m.Offer?
    ensures CandidatesOk(OnOffer(s, local, m, now), preps)
  {
    hide RolesOk, CandidatesOk;
    if m.to == local && !ShouldInitiate(local, m.from) && m.from in s.peers[local] {
      var (store, existing) := N.Get(s.stores[local], now, m.from, m.session);
      var s1 := Put(s, local, store);
      UpdateKeepsCandidates(s, s1, local, N.OpGet(now, m.from, m.session), preps);
      if existing.Some? {
        StoredAnswer(s, local, m.from, preps);
        LaterKeepsCandidates(s1, SendAnswer(local, m, existing.value.local), preps);
      } else {
        LaterKeepsCandidates(s1, PrepareAnswer(local, m), preps);
      }
    }
  }

  lemma AcceptKeepsCandidates(s: System, local: string, m: Signal, prepared: Option<seq<N.Candidate>>, now: int, preps: set<Prep>)
    requires CandidatesOk(s, preps) && local in s.stores && m.Offer?
    requires prepared.Some? ==> Prep(local, m.from, m.session, prepared.value, true) in preps
    ensures CandidatesOk(Accept(s, local, m, prepared, now), preps)
  {
    hide CandidatesOk;
    if prepared.None? {
      SendKeepsCandidates(s, Fallback(local, m.from, m.session), preps);
    } else {
      var start := N.OpStart(now, m.from, N.Controlled, m.session, prepared.value, m.candidates);
      var s1 := Put(s, local, N.Apply(s.stores[local], start));
      UpdateKeepsCandidates(s, s1, local, start, preps);
      LaterKeepsCandidates(s1, SendAnswer(local, m, prepared.value), preps);
      LaterKeepsCandidates(Later(s1, SendAnswer(local, m, prepared.value)), Check(local, m.from, m.session), preps);
    }
  }

  lemma StartOfferKeepsCandidates(s: System, local: string, peer: string, session: string, prepared: Option<seq<N.Candidate>>, now: int, preps: set<Prep>)
    requires CandidatesOk(s, preps) && local in s.stores
    requires prepared.Some? ==> Prep(local, peer, session, prepared.value, false) in preps
    ensures CandidatesOk(StartOffer(s, local, peer, session, prepared, now), preps)
  {
    hide CandidatesOk;
    if session != "" && prepared.Some? {
      var start := N.OpStart(now, peer, N.Controlling, session, prepared.value, []);
      var s1 := Put(s, local, N.Apply(s.stores[local], start));
      UpdateKeepsCandidates(s, s1, local, start, preps);
      LaterKeepsCandidates(s1, SendOffer(local, peer, session, prepared.value), preps);
    }
  }

  lemma TaskKeepsCandidates(s: System, local: string, task: Task, session: string, prepared: Option<seq<N.Candidate>>, now: int, preps: set<Prep>)
    requires CandidatesOk(s, preps) && local in s.stores && task in s.tasks && task.local == local
    requires task.PrepareOffer? && prepared.Some? ==> Prep(local, task.peer, session, prepared.value, false) in preps
    requires task.PrepareAnswer? && task.offer.Offer? && prepared.Some? ==>
               Prep(local, task.offer.from, task.offer.session, prepared.value, true) in preps
    ensures CandidatesOk(OnTask(s, local, task, session, prepared, now), preps)
  {
    assert SendsPrepared(task, preps);
    hide CandidatesOk;
    match task
    case PrepareOffer(_, peer) => StartOfferKeepsCandidates(s, local, peer, session, prepared, now, preps);
    case SendOffer(_, peer, drawn, candidates) => SendKeepsCandidates(s, Offer(local, peer, drawn, candidates), preps);
    case PrepareAnswer(_, offer) => if offer.Offer? { AcceptKeepsCandidates(s, local, offer, prepared, now, preps); }
    case SendAnswer(_, offer, candidates) => SendKeepsCandidates(s, Answer(local, offer.from, offer.session, candidates), preps);
    case Check(_, peer, checked) =>
      UpdateKeepsCandidates(s, OnTask(s, local, task, session, prepared, now), local, N.OpBeginCheck(now, peer, checked), preps);
  }

  lemma SignalKeepsCandidates(s: System, local: string, m: Signal, now: int, preps: set<Prep>)
    requires RolesOk(s) && CandidatesOk(s, preps) && local in s.stores && local in s.peers
    ensures CandidatesOk(OnSignal(s, local, m, now), preps)
  {
    hide RolesOk, CandidatesOk;
    match m
    case Offer(_, _, _, _) => OfferKeepsCandidates(s, local, m, now, preps);
    case Answer(from, to, session, candidates) =>
      if to == local && ShouldInitiate(local, from) && from in s.peers[local] {
        var s1 := Put(s, local, N.AddRemote(s.stores[local], now, from, session, candidates).0);
        UpdateKeepsCandidates(s, s1, local, N.OpAddRemote(now, from, session, candidates), preps);
        LaterKeepsCandidates(s1, Check(local, from, session), preps);
      }
    case Trickle(from, to, session, candidates) =>
      if to == local {
        UpdateKeepsCandidates(s, OnSignal(s, local, m, now), local, N.OpAddRemote(now, from, session, candidates), preps);
      }
    case Fallback(from, _, session) =>
      UpdateKeepsCandidates(s, OnSignal(s, local, m, now), local, N.OpDelete(from, session), preps);
    case Ready(_, _, _) =>
  }

  lemma NextKeepsCandidates(s: System, step: Step, preps: set<Prep>)
    requires RolesOk(s) && CandidatesOk(s, preps)
    ensures CandidatesOk(Next(s, step), preps + PrepOf(s, step))
  {
    var all := preps + PrepOf(s, step);
    MorePreps(s, preps, PrepOf(s, step));
    hide RolesOk, CandidatesOk;
    if Enabled(s, step) {
      match step
      case PeerInfo(local, peer) =>
        var s1 := s.(peers := s.peers[local := s.peers[local] + {peer}]);
        PeersKeepCandidates(s, s1, all);
        if ShouldInitiate(local, peer) { LaterKeepsCandidates(s1, PrepareOffer(local, peer), all); }
      case Deliver(local, m, now) => SignalKeepsCandidates(s, local, m, now, all);
      case Resume(local, task, session, prepared, now) => TaskKeepsCandidates(s, local, task, session, prepared, now, all);
      case Established(local, peer, session, now) =>
        var s1 := Put(s, local, N.Complete(s.stores[local], now, peer, session).0);
        UpdateKeepsCandidates(s, s1, local, N.OpComplete(now, peer, session), all);
        SendKeepsCandidates(s1, Ready(local, peer, session), all);
      case CheckFailed(local, peer, session) =>
        var s1 := Put(s, local, N.Delete(s.stores[local], peer, session));
        UpdateKeepsCandidates(s, s1, local, N.OpDelete(peer, session), all);
        SendKeepsCandidates(s1, Fallback(local, peer, session), all);
      case SessionEnded(local, peer, session) =>
        UpdateKeepsCandidates(s, Next(s, step), local, N.OpDelete(peer, session), all);
    }
  }

  lemma PeersKeepCandidates(s: System, t: System, preps: set<Prep>)
    requires CandidatesOk(s, preps) && t.stores == s.stores && t.net == s.net && t.tasks == s.tasks
    ensures CandidatesOk(t, preps)
  {
  }

  lemma {:induction false} CandidatesOverRuns(ids: set<string>, capacity: int, ttl: int, steps: seq<Step>)
    ensures CandidatesOk(Run(ids, capacity, ttl, steps), Preps(ids, capacity, ttl, steps))
    decreases |steps|
  {
    hide Next, RolesOk, PrepOf;
    if steps != [] {
      var prior := steps[..|steps| - 1];
      CandidatesOverRuns(ids, capacity, ttl, prior);
      RolesOverRuns(ids, capacity, ttl, prior);
      NextKeepsCandidates(Run(ids, capacity, ttl, prior), steps[|steps| - 1], Preps(ids, capacity, ttl, prior));
      hide CandidatesOk;
    }
  }

  /** Step k of the run prepared this. */
  ghost predicate PreparedAt(ids: set<string>, capacity: int, ttl: int, steps: seq<Step>, k: nat, prep: Prep)
    requires k < |steps|
  {
    var step := steps[k];
    && Enabled(Run(ids, capacity, ttl, steps[..k]), step) && step.Resume?
    && step.local == prep.local && step.prepared == Some(prep.candidates)
    && (if prep.answering then
          step.task.PrepareAnswer? && step.task.offer.Offer? && step.task.offer.from == prep.peer && step.task.offer.session == prep.session
        else step.task.PrepareOffer? && step.task.peer == prep.peer && step.session == prep.session)
  }

  lemma {:induction false} PrepHasStep(ids: set<string>, capacity: int, ttl: int, steps: seq<Step>, prep: Prep) returns (k: nat)
    requires prep in Preps(ids, capacity, ttl, steps)
    ensures k < |steps| && PreparedAt(ids, capacity, ttl, steps, k, prep)
    decreases |steps|
  {
    hide Enabled, Run;
    var n := |steps| - 1;
    var prior := steps[..n];
    if prep in Preps(ids, capacity, ttl, prior) {
      k := PrepHasStep(ids, capacity, ttl, prior, prep);
      assert prior[..k] == steps[..k] && prior[k] == steps[k];
    } else {
      k := n;
    }
  }

  /**
   * Main result: over every run, whatever is repeated and however handlers interleave, every answer
   * sent or queued carries exactly the candidates its sender prepared for that peer and session when
   * it took the offer up, and every offer those it prepared under the session it drew.
   */
  lemma SignalsCarryPrepared(ids: set<string>, capacity: int, ttl: int, steps: seq<Step>, local: string, peer: string,
                             session: string, candidates: seq<N.Candidate>, answering: bool)
    requires var s := Run(ids, capacity, ttl, steps);
             if answering then
               || Answer(local, peer, session, candidates) in s.net
               || exists offer :: SendAnswer(local, offer, candidates) in s.tasks && offer.Offer? && offer.from == peer && offer.session == session
             else Offer(local, peer, session, candidates) in s.net || SendOffer(local, peer, session, candidates) in s.tasks
    ensures exists k: nat :: k < |steps| && PreparedAt(ids, capacity, ttl, steps, k, Prep(local, peer, session, candidates, answering))
  {
    CandidatesOverRuns(ids, capacity, ttl, steps);
    var s, preps := Run(ids, capacity, ttl, steps), Preps(ids, capacity, ttl, steps);
    hide Run, Preps, PreparedAt;
    var prep := Prep(local, peer, session, candidates, answering);
    assert prep in preps by {
      if answering && Answer(local, peer, session, candidates) !in s.net {
        var offer :| SendAnswer(local, offer, candidates) in s.tasks && offer.Offer? && offer.from == peer && offer.session == session;
        assert SendsPrepared(SendAnswer(local, offer, candidates), preps);
      } else if !answering && Offer(local, peer, session, candidates) !in s.net {
        assert SendsPrepared(SendOffer(local, peer, session, candidates), preps);
      }
    }
    var k := PrepHasStep(ids, capacity, ttl, steps, prep);
  }

  // ----- what each handler does -----

  /** An offer this client should answer: addressed to it, from a peer it has heard of that initiates. */
  predicate Answerable(s: System, local: string, m: Signal)
    requires local in s.peers
  {
    m.to == local && !ShouldInitiate(local, m.from) && m.from in s.peers[local]
  }

  /** A replay is answered from the stored candidates and prepares nothing; a new offer prepares, and anything else is dropped. */
  lemma OfferEffect(s: System, local: string, m: Signal, now: int)
    requires local in s.stores && local in s.peers && m.Offer?
    ensures var t := OnOffer(s, local, m, now);
            var stored := N.Live(s.stores[local], now, m.from);
            && t.net == s.net && t.peers == s.peers
            && (!Answerable(s, local, m) ==> t == s)
            && (Answerable(s, local, m) ==>
                  && t.stores == s.stores[local := N.Expire(s.stores[local], now)]
                  && t.tasks == s.tasks + {if stored.Some? && stored.value.session == m.session
                                           then SendAnswer(local, m, stored.value.local) else PrepareAnswer(local, m)})
  {
    N.GetAndDelete(s.stores[local], now, m.from, m.session);
    hide N.Get, N.Expire;
  }

  /** Without candidates the peer is told to fall back; otherwise the offer is answered and checked, unless the store refuses it. */
  lemma AcceptEffect(s: System, local: string, m: Signal, prepared: Option<seq<N.Candidate>>, now: int)
    requires local in s.stores && m.Offer?
    ensures var t := Accept(s, local, m, prepared, now);
            && t.peers == s.peers
            && (prepared.None? ==> t.net == s.net + {Fallback(local, m.from, m.session)} && t.stores == s.stores && t.tasks == s.tasks)
            && (prepared.Some? ==>
                  var (store, result) := N.Start(s.stores[local], now, m.from, N.Controlled, m.session, prepared.value, m.candidates);
                  && t.net == s.net && t.stores == s.stores[local := store]
                  && t.tasks == s.tasks + (if result.Started? || result.Replayed?
                                           then {SendAnswer(local, m, prepared.value), Check(local, m.from, m.session)} else {}))
  {
    hide N.Start;
    if prepared.Some? {
      assert s.tasks + {} == s.tasks;
      assert s.tasks + {SendAnswer(local, m, prepared.value)} + {Check(local, m.from, m.session)}
          == s.tasks + {SendAnswer(local, m, prepared.value), Check(local, m.from, m.session)};
    }
  }

  /** An answer to this client's offer adds the candidates and, unless they do not fit, begins the check; any other is dropped. */
  lemma AnswerEffect(s: System, local: string, m: Signal, now: int)
    requires local in s.stores && local in s.peers && m.Answer?
    ensures var t := OnAnswer(s, local, m, now);
            var mine := m.to == local && ShouldInitiate(local, m.from) && m.from in s.peers[local];
            var (store, n) := N.AddRemote(s.stores[local], now, m.from, m.session, m.candidates);
            var checks := mine && n.Some? && n.value.role == N.Controlling;
            && t.net == s.net && t.peers == s.peers
            && t.stores == (if mine then s.stores[local := store] else s.stores)
            && (checks ==> t.tasks == s.tasks + {Check(local, m.from, m.session)})
            && (!checks ==> t.tasks == s.tasks)
  {
    hide N.AddRemote;
    var n := N.AddRemote(s.stores[local], now, m.from, m.session, m.candidates).1;
    if m.to == local && ShouldInitiate(local, m.from) && m.from in s.peers[local] {
      if n.Some? && n.value.role == N.Controlling {
        assert OnAnswer(s, local, m, now).tasks == s.tasks + {Check(local, m.from, m.session)};
      } else {
        assert OnAnswer(s, local, m, now).tasks == s.tasks;
      }
    }
  }

  /** Once the socket is prepared under a drawn session an offer is stored and queued, unless the store refuses it. */
  lemma StartOfferEffect(s: System, local: string, peer: string, session: string, prepared: Option<seq<N.Candidate>>, now: int)
    requires local in s.stores
    ensures var t := StartOffer(s, local, peer, session, prepared, now);
            && t.net == s.net && t.peers == s.peers
            && (session == "" || prepared.None? ==> t == s)
            && (session != "" && prepared.Some? ==>
                  var (store, result) := N.Start(s.stores[local], now, peer, N.Controlling, session, prepared.value, []);
                  && t.stores == s.stores[local := store]
                  && t.tasks == s.tasks + (if result.Started? || result.Replayed?
                                           then {SendOffer(local, peer, session, prepared.value)} else {}))
  {
    hide N.Start;
    assert s.tasks + {} == s.tasks;
  }

  /** What each of the other steps does: hearing of a peer, candidates on their own, fallbacks, and how a check ends. */
  lemma OtherEffects(s: System, local: string, peer: string, session: string, candidates: seq<N.Candidate>, now: int)
    requires local in s.stores && local in s.peers
    ensures var t := Next(s, PeerInfo(local, peer));
            && t.stores == s.stores && t.net == s.net && t.peers == s.peers[local := s.peers[local] + {peer}]
            && (ShouldInitiate(local, peer) ==> t.tasks == s.tasks + {PrepareOffer(local, peer)})
            && (!ShouldInitiate(local, peer) ==> t.tasks == s.tasks)
    ensures OnSignal(s, local, Trickle(peer, local, session, candidates), now)
         == s.(stores := s.stores[local := N.AddRemote(s.stores[local], now, peer, session, candidates).0])
    ensures forall other | other != local :: OnSignal(s, local, Trickle(peer, other, session, candidates), now) == s
    ensures OnSignal(s, local, Fallback(peer, local, session), now)
         == s.(stores := s.stores[local := N.Delete(s.stores[local], peer, session)])
    ensures OnSignal(s, local, Ready(peer, local, session), now) == s
    ensures var (store, done) := N.Complete(s.stores[local], now, peer, session);
            var t := Next(s, Established(local, peer, session, now));
            && t.stores == s.stores[local := store] && t.tasks == s.tasks && t.peers == s.peers
            && (done ==> t.net == s.net + {Ready(local, peer, session)}) && (!done ==> t.net == s.net)
    ensures var t := Next(s, CheckFailed(local, peer, session));
            && t.stores == s.stores[local := N.Delete(s.stores[local], peer, session)]
            && t.net == s.net + {Fallback(local, peer, session)} && t.tasks == s.tasks && t.peers == s.peers
    ensures Next(s, SessionEnded(local, peer, session)) == s.(stores := s.stores[local := N.Delete(s.stores[local], peer, session)])
  {
    hide N.AddRemote, N.Delete, N.Complete;
  }

  /** The client whose ID comes first initiates, and one without an ID never does. */
  lemma InitiatorComesFirst(a: string, b: string)
    ensures ShouldInitiate(a, b) <==>
              a != "" && b != "" && var k := FirstDifferent(a, b); k < |b| && (k == |a| || a[k] < b[k])
  {
    StringLessExactly(a, b);
  }

  // ----- an exchange that nothing disturbs -----

  function Play(s: System, steps: seq<Step>): System
    decreases |steps|
  {
    if steps == [] then s else Play(Next(s, steps[0]), steps[1..])
  }

  lemma {:induction false} PlayRuns(ids: set<string>, capacity: int, ttl: int, before: seq<Step>, steps: seq<Step>)
    ensures Run(ids, capacity, ttl, before + steps) == Play(Run(ids, capacity, ttl, before), steps)
    decreases |steps|
  {
    hide Next;
    if steps == [] {
      assert before + steps == before;
    } else {
      var one := before + [steps[0]];
      assert one[..|one| - 1] == before && one + steps[1..] == before + steps;
      PlayRuns(ids, capacity, ttl, one, steps[1..]);
    }
  }

  lemma PlayFirst(s: System, step: Step, rest: seq<Step>)
    ensures Play(s, [step] + rest) == Play(Next(s, step), rest)
  {
    assert ([step] + rest)[1..] == rest;
  }

  /** The offer: both hear of each other, and the initiator prepares a socket and sends its offer. */
  function Offering(a: string, b: string, session: string, ca: seq<N.Candidate>, now: int): seq<Step> {
    [PeerInfo(a, b), PeerInfo(b, a),
     Resume(a, PrepareOffer(a, b), session, Some(ca), now), Resume(a, SendOffer(a, b, session, ca), "", None, now)]
  }

  /** The other side takes the offer up: it prepares, answers and checks. */
  function Answering(b: string, offer: Signal, cb: seq<N.Candidate>, now: int): seq<Step>
    requires offer.Offer?
  {
    [Deliver(b, offer, now), Resume(b, PrepareAnswer(b, offer), "", Some(cb), now),
     Resume(b, SendAnswer(b, offer, cb), "", None, now), Resume(b, Check(b, offer.from, offer.session), "", None, now)]
  }

  /** The answer arrives and the initiator checks too. */
  function Concluding(a: string, b: string, session: string, cb: seq<N.Candidate>, now: int): seq<Step> {
    [Deliver(a, Answer(b, a, session, cb), now), Resume(a, Check(a, b, session), "", None, now)]
  }

  /** A store without entries. */
  function Bare(capacity: int, ttl: int): N.Store { N.NewStore(capacity, ttl) }

  function Holding(store: N.Store, peer: string, n: N.Entry): N.Store {
    store.(entries := map[peer := n])
  }

  lemma NothingLapses(store: N.Store, peer: string, n: N.Entry, now: int)
    requires n.phase == N.Checking || now < n.expires
    ensures N.Expire(Holding(store, peer, n), now) == Holding(store, peer, n)
  {
  }

  lemma StartsFresh(capacity: int, ttl: int, now: int, peer: string, role: N.Role, session: string,
                    local: seq<N.Candidate>, remote: seq<N.Candidate>)
    requires N.Acceptable(peer, role, session, local, remote)
    ensures var bare := Bare(capacity, ttl);
            var n := N.Entry(session, role, N.Pending, local, remote, now + bare.ttl);
            N.Start(bare, now, peer, role, session, local, remote) == (Holding(bare, peer, n), N.Started(n))
  {
    N.StartVerdict(Bare(capacity, ttl), now, peer, role, session, local, remote);
    assert N.Expire(Bare(capacity, ttl), now) == Bare(capacity, ttl);
    hide N.Start, N.Expire;
    assert map[][peer := N.Started(N.Entry(session, role, N.Pending, local, remote, now + Bare(capacity, ttl).ttl)).n]
        == map[peer := N.Entry(session, role, N.Pending, local, remote, now + Bare(capacity, ttl).ttl)];
  }

  lemma BeginsCheck(store: N.Store, now: int, peer: string, n: N.Entry)
    requires n.phase == N.Pending && now < n.expires
    ensures N.BeginCheck(Holding(store, peer, n), now, peer, n.session)
         == (Holding(store, peer, n.(phase := N.Checking, expires := now + store.ttl)), Some(n.(phase := N.Checking, expires := now + store.ttl)))
  {
    NothingLapses(store, peer, n, now);
    hide N.Expire;
    var n2 := n.(phase := N.Checking, expires := now + store.ttl);
    assert map[peer := n][peer := n2] == map[peer := n2];
  }

  /** The whole batch fits an entry without remote candidates. */
  lemma {:induction false} AppendFits(remote: seq<N.Candidate>, batch: seq<N.Candidate>)
    requires |remote| + |batch| <= 32
    ensures N.Append(remote, batch).1
    decreases |batch|
  {
    if batch != [] {
      AppendFits(remote, batch[1..]);
      AppendFits(remote + [batch[0]], batch[1..]);
    }
  }

  lemma TakesAnswer(store: N.Store, now: int, peer: string, n: N.Entry, cb: seq<N.Candidate>)
    requires n.phase == N.Pending && now < n.expires && n.remote == [] && 0 < |cb| <= 32 && N.AllValid(cb)
    ensures var n2 := n.(remote := N.Append([], cb).0, expires := now + store.ttl);
            N.AddRemote(Holding(store, peer, n), now, peer, n.session, cb) == (Holding(store, peer, n2), Some(n2))
  {
    NothingLapses(store, peer, n, now);
    AppendFits([], cb);
    hide N.Expire, N.Append;
    var n2 := n.(remote := N.Append([], cb).0, expires := now + store.ttl);
    assert map[peer := n][peer := n2] == map[peer := n2];
  }

  /** Both clients are there, have heard of each other, and hold these stores. */
  ghost predicate Facing(s: System, a: string, b: string, left: N.Store, right: N.Store) {
    && a in s.stores && b in s.stores && a in s.peers && b in s.peers
    && b in s.peers[a] && a in s.peers[b]
    && s.stores[a] == left && s.stores[b] == right
  }

  lemma HearOfEachOther(s: System, a: string, b: string)
    requires a != b && a in s.stores && b in s.stores && a in s.peers && b in s.peers && ShouldInitiate(a, b)
    ensures var t := Next(Next(s, PeerInfo(a, b)), PeerInfo(b, a));
            Facing(t, a, b, s.stores[a], s.stores[b]) && PrepareOffer(a, b) in t.tasks
  {
  }

  lemma PreparesAndOffers(s: System, a: string, b: string, session: string, ca: seq<N.Candidate>, now: int, capacity: int, ttl: int)
    requires a != b && Facing(s, a, b, Bare(capacity, ttl), Bare(capacity, ttl)) && PrepareOffer(a, b) in s.tasks
    requires N.Acceptable(b, N.Controlling, session, ca, [])
    ensures var bare := Bare(capacity, ttl);
            var t := Next(Next(s, Resume(a, PrepareOffer(a, b), session, Some(ca), now)), Resume(a, SendOffer(a, b, session, ca), "", None, now));
            && Facing(t, a, b, Holding(bare, b, N.Entry(session, N.Controlling, N.Pending, ca, [], now + bare.ttl)), bare)
            && Offer(a, b, session, ca) in t.net
  {
    StartsFresh(capacity, ttl, now, b, N.Controlling, session, ca, []);
    hide N.Start;
    var one := Next(s, Resume(a, PrepareOffer(a, b), session, Some(ca), now));
    assert SendOffer(a, b, session, ca) in one.tasks;
  }

  lemma TakesOffer(s: System, a: string, b: string, session: string, ca: seq<N.Candidate>, now: int, left: N.Store, capacity: int, ttl: int)
    requires a != b && Facing(s, a, b, left, Bare(capacity, ttl)) && !ShouldInitiate(b, a) && Offer(a, b, session, ca) in s.net
    ensures var t := Next(s, Deliver(b, Offer(a, b, session, ca), now));
            Facing(t, a, b, left, Bare(capacity, ttl)) && PrepareAnswer(b, Offer(a, b, session, ca)) in t.tasks
  {
    var bare := Bare(capacity, ttl);
    assert N.Expire(bare, now) == bare;
    OfferEffect(s, b, Offer(a, b, session, ca), now);
    hide N.Expire, OnOffer, ShouldInitiate;
  }

  lemma AcceptsOffer(s: System, a: string, b: string, session: string, ca: seq<N.Candidate>, cb: seq<N.Candidate>, now: int,
                     left: N.Store, capacity: int, ttl: int)
    requires a != b && Facing(s, a, b, left, Bare(capacity, ttl)) && PrepareAnswer(b, Offer(a, b, session, ca)) in s.tasks
    requires N.Acceptable(a, N.Controlled, session, cb, ca)
    ensures var bare, offer := Bare(capacity, ttl), Offer(a, b, session, ca);
            var t := Next(s, Resume(b, PrepareAnswer(b, offer), "", Some(cb), now));
            && Facing(t, a, b, left, Holding(bare, a, N.Entry(session, N.Controlled, N.Pending, cb, ca, now + bare.ttl)))
            && SendAnswer(b, offer, cb) in t.tasks && Check(b, a, session) in t.tasks
  {
    StartsFresh(capacity, ttl, now, a, N.Controlled, session, cb, ca);
    AcceptEffect(s, b, Offer(a, b, session, ca), Some(cb), now);
    hide N.Start, Accept, Holding;
  }

  lemma SendsAnswer(s: System, a: string, b: string, session: string, ca: seq<N.Candidate>, cb: seq<N.Candidate>, now: int,
                    left: N.Store, right: N.Store)
    requires a != b && Facing(s, a, b, left, right) && SendAnswer(b, Offer(a, b, session, ca), cb) in s.tasks
    ensures var t := Next(s, Resume(b, SendAnswer(b, Offer(a, b, session, ca), cb), "", None, now));
            Facing(t, a, b, left, right) && Answer(b, a, session, cb) in t.net && t.tasks == s.tasks
  {
  }

  lemma BeginsOwnCheck(s: System, a: string, b: string, now: int, left: N.Store, store: N.Store, n: N.Entry)
    requires a != b && Facing(s, a, b, left, Holding(store, a, n)) && Check(b, a, n.session) in s.tasks
    requires n.phase == N.Pending && now < n.expires
    ensures var t := Next(s, Resume(b, Check(b, a, n.session), "", None, now));
            Facing(t, a, b, left, Holding(store, a, n.(phase := N.Checking, expires := now + store.ttl))) && t.net == s.net
  {
    BeginsCheck(store, now, a, n);
    hide N.BeginCheck, Holding;
  }

  lemma AnswersAndChecks(s: System, a: string, b: string, session: string, ca: seq<N.Candidate>, cb: seq<N.Candidate>, now: int,
                         left: N.Store, capacity: int, ttl: int)
    requires a != b && Facing(s, a, b, left, Bare(capacity, ttl)) && !ShouldInitiate(b, a)
    requires Offer(a, b, session, ca) in s.net && N.Acceptable(a, N.Controlled, session, cb, ca)
    ensures var bare := Bare(capacity, ttl);
            var t := Play(s, Answering(b, Offer(a, b, session, ca), cb, now));
            && Facing(t, a, b, left, Holding(bare, a, N.Entry(session, N.Controlled, N.Checking, cb, ca, now + bare.ttl)))
            && Answer(b, a, session, cb) in t.net
  {
    hide Next, Facing, ShouldInitiate, Holding, N.Acceptable, Play;
    var bare, offer := Bare(capacity, ttl), Offer(a, b, session, ca);
    var n := N.Entry(session, N.Controlled, N.Pending, cb, ca, now + bare.ttl);
    var x := Answering(b, offer, cb, now);
    PositiveTtl(capacity, ttl);
    hide Bare;
    TakesOffer(s, a, b, session, ca, now, left, capacity, ttl);
    var s1 := Next(s, x[0]);
    AcceptsOffer(s1, a, b, session, ca, cb, now, left, capacity, ttl);
    var s2 := Next(s1, x[1]);
    SendsAnswer(s2, a, b, session, ca, cb, now, left, Holding(bare, a, n));
    BeginsOwnCheck(Next(s2, x[2]), a, b, now, left, bare, n);
    PlayFour(s, x);
  }

  lemma PositiveTtl(capacity: int, ttl: int)
    ensures Bare(capacity, ttl).ttl > 0
  {
  }

  lemma PlayFour(s: System, x: seq<Step>)
    requires |x| == 4
    ensures Play(s, x) == Next(Next(Next(Next(s, x[0]), x[1]), x[2]), x[3])
  {
    hide Next;
    PlayFirst(s, x[0], x[1..]);
    PlayFirst(Next(s, x[0]), x[1], x[2..]);
    PlayFirst(Next(Next(s, x[0]), x[1]), x[2], x[3..]);
    PlayFirst(Next(Next(Next(s, x[0]), x[1]), x[2]), x[3], []);
    assert x == [x[0]] + x[1..] && x[1..] == [x[1]] + x[2..] && x[2..] == [x[2]] + x[3..] && x[3..] == [x[3]] + [];
  }

  lemma TakesOwnAnswer(s: System, a: string, b: string, cb: seq<N.Candidate>, now: int, right: N.Store, store: N.Store, n: N.Entry)
    requires a != b && Facing(s, a, b, Holding(store, b, n), right) && ShouldInitiate(a, b) && Answer(b, a, n.session, cb) in s.net
    requires n.phase == N.Pending && n.role == N.Controlling && n.remote == [] && now < n.expires && 0 < |cb| <= 32 && N.AllValid(cb)
    ensures var t := Next(s, Deliver(a, Answer(b, a, n.session, cb), now));
            && Facing(t, a, b, Holding(store, b, n.(remote := N.Append([], cb).0, expires := now + store.ttl)), right)
            && Check(a, b, n.session) in t.tasks
  {
    TakesAnswer(store, now, b, n, cb);
    AnswerEffect(s, a, Answer(b, a, n.session, cb), now);
    hide N.AddRemote, N.Append, OnAnswer, ShouldInitiate, Holding;
  }

  lemma BeginsFirstCheck(s: System, a: string, b: string, now: int, right: N.Store, store: N.Store, n: N.Entry)
    requires a != b && Facing(s, a, b, Holding(store, b, n), right) && Check(a, b, n.session) in s.tasks
    requires n.phase == N.Pending && now < n.expires
    ensures var t := Next(s, Resume(a, Check(a, b, n.session), "", None, now));
            Facing(t, a, b, Holding(store, b, n.(phase := N.Checking, expires := now + store.ttl)), right)
  {
    BeginsCheck(store, now, b, n);
    hide N.BeginCheck, Holding;
  }

  lemma ConcludesAndChecks(s: System, a: string, b: string, session: string, ca: seq<N.Candidate>, cb: seq<N.Candidate>, now: int,
                           right: N.Store, capacity: int, ttl: int)
    requires var bare := Bare(capacity, ttl);
             a != b && Facing(s, a, b, Holding(bare, b, N.Entry(session, N.Controlling, N.Pending, ca, [], now + bare.ttl)), right)
    requires ShouldInitiate(a, b) && Answer(b, a, session, cb) in s.net && 0 < |cb| <= 32 && N.AllValid(cb)
    ensures var bare := Bare(capacity, ttl);
            var t := Next(Next(s, Deliver(a, Answer(b, a, session, cb), now)), Resume(a, Check(a, b, session), "", None, now));
            Facing(t, a, b, Holding(bare, b, N.Entry(session, N.Controlling, N.Checking, ca, N.Append([], cb).0, now + bare.ttl)), right)
  {
    hide Next, Facing, ShouldInitiate, Holding, N.Append, N.AllValid;
    PositiveTtl(capacity, ttl);
    var bare := Bare(capacity, ttl);
    hide Bare;
    var n := N.Entry(session, N.Controlling, N.Pending, ca, [], now + bare.ttl);
    TakesOwnAnswer(s, a, b, cb, now, right, bare, n);
    BeginsFirstCheck(Next(s, Deliver(a, Answer(b, a, session, cb), now)), a, b, now, right, bare, n.(remote := N.Append([], cb).0));
  }

  /**
   * Main result: an exchange that nothing disturbs ends with both sides checking the same session in
   * opposite roles, each with its own candidates as local and the other's as remote ones.
   */
  lemma ExchangeCompletes(a: string, b: string, session: string, ca: seq<N.Candidate>, cb: seq<N.Candidate>, now: int, capacity: int, ttl: int)
    requires ShouldInitiate(a, b) && session != "" && |ca| <= 32 && 0 < |cb| <= 32 && N.AllValid(ca) && N.AllValid(cb)
    ensures var steps := Offering(a, b, session, ca, now) + Answering(b, Offer(a, b, session, ca), cb, now) + Concluding(a, b, session, cb, now);
            var s := Run({a, b}, capacity, ttl, steps);
            var bare := Bare(capacity, ttl);
            Facing(s, a, b, Holding(bare, b, N.Entry(session, N.Controlling, N.Checking, ca, N.Append([], cb).0, now + bare.ttl)),
                            Holding(bare, a, N.Entry(session, N.Controlled, N.Checking, cb, ca, now + bare.ttl)))
  {
    hide Next, Facing, Play, Run, N.AllValid, ShouldInitiate, N.Append, Holding, Bare, N.Acceptable;
    AllValidAcceptable(a, b, session, ca, cb);
    OneInitiator(a, b);
    var x, y, z := Offering(a, b, session, ca, now), Answering(b, Offer(a, b, session, ca), cb, now), Concluding(a, b, session, cb, now);
    var bare, start := Bare(capacity, ttl), Begin({a, b}, capacity, ttl);
    BeginHears(a, b, capacity, ttl);
    var heard := Next(Next(start, x[0]), x[1]);
    PreparesAndOffers(heard, a, b, session, ca, now, capacity, ttl);
    PlayFour(start, x);
    var offered := Play(start, x);
    AnswersAndChecks(offered, a, b, session, ca, cb, now,
                     Holding(bare, b, N.Entry(session, N.Controlling, N.Pending, ca, [], now + bare.ttl)), capacity, ttl);
    var answered := Play(offered, y);
    ConcludesAndChecks(answered, a, b, session, ca, cb, now,
                       Holding(bare, a, N.Entry(session, N.Controlled, N.Checking, cb, ca, now + bare.ttl)), capacity, ttl);
    PlayTwo(answered, z);
    PlayThree({a, b}, capacity, ttl, x, y, z);
  }

  lemma BeginHears(a: string, b: string, capacity: int, ttl: int)
    requires a != b && ShouldInitiate(a, b)
    ensures var t := Next(Next(Begin({a, b}, capacity, ttl), PeerInfo(a, b)), PeerInfo(b, a));
            Facing(t, a, b, Bare(capacity, ttl), Bare(capacity, ttl)) && PrepareOffer(a, b) in t.tasks
  {
    HearOfEachOther(Begin({a, b}, capacity, ttl), a, b);
    hide Next, ShouldInitiate;
  }

  lemma PlayTwo(s: System, z: seq<Step>)
    requires |z| == 2
    ensures Play(s, z) == Next(Next(s, z[0]), z[1])
  {
    hide Next;
    PlayFirst(s, z[0], [z[1]]);
    PlayFirst(Next(s, z[0]), z[1], []);
    assert z == [z[0]] + [z[1]] && [z[1]] == [z[1]] + [];
  }

  lemma PlayThree(ids: set<string>, capacity: int, ttl: int, x: seq<Step>, y: seq<Step>, z: seq<Step>)
    ensures Run(ids, capacity, ttl, x + y + z) == Play(Play(Play(Begin(ids, capacity, ttl), x), y), z)
  {
    hide Next, Begin;
    PlayRuns(ids, capacity, ttl, [], x);
    PlayRuns(ids, capacity, ttl, x, y);
    PlayRuns(ids, capacity, ttl, x + y, z);
    assert [] + x == x;
  }

  lemma AllValidAcceptable(a: string, b: string, session: string, ca: seq<N.Candidate>, cb: seq<N.Candidate>)
    requires ShouldInitiate(a, b) && session != "" && |ca| <= 32 && 0 < |cb| <= 32 && N.AllValid(ca) && N.AllValid(cb)
    ensures N.Acceptable(b, N.Controlling, session, ca, []) && N.Acceptable(a, N.Controlled, session, cb, ca) && a != b && a != "" && b != ""
  {
    StringLessTrichotomy(a, b);
  }
}
