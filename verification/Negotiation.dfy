/** The bounded store of ICE negotiations, one per peer. */
module Negotiation {
  import opened Basics

  const MAX_CANDIDATES := 32

  datatype CandidateType = Host | Srflx | RelayType | OtherType
  /** `literal` records whether the address parses as a literal IP:port. */
  datatype Candidate = Candidate(id: string, kind: CandidateType, addr: string, literal: bool, priority: u32)

  datatype Role = Controlling | Controlled | UnknownRole
  datatype Phase = Pending | Checking | Completed

  datatype Entry = Entry(session: string, role: Role, phase: Phase, local: seq<Candidate>, remote: seq<Candidate>, expires: int)

  datatype Store = Store(entries: map<string, Entry>, capacity: nat, ttl: int)

  function NewStore(capacity: int, ttl: int): Store {
    Store(map[], if capacity <= 0 then 128 else capacity, if ttl <= 0 then 30_000 else ttl)
  }

  predicate ValidCandidate(c: Candidate) {
    0 < |c.id| <= 128 && 0 < |c.addr| <= 256 && c.kind != OtherType && c.literal
  }

  predicate AllValid(cs: seq<Candidate>) {
    forall c | c in cs :: ValidCandidate(c)
  }

  /** The limits of a candidate: a named one of a known type at a literal address of bounded length. */
  lemma ValidExactly(c: Candidate)
    ensures ValidCandidate(c) <==>
              1 <= |c.id| <= 128 && 1 <= |c.addr| <= 256 && c.literal && (c.kind == Host || c.kind == Srflx || c.kind == RelayType)
  {
  }

  /** A store begins empty, with the given limits or, where they are not positive, 128 entries and 30 s. */
  lemma NewStoreLimits(capacity: int, ttl: int)
    ensures var s := NewStore(capacity, ttl);
            && s.entries == map[]
            && s.capacity == (if capacity > 0 then capacity else 128) && s.ttl == (if ttl > 0 then ttl else 30_000)
  {
  }

  predicate IsStale(n: Entry, now: int) {
    n.phase != Checking && n.expires <= now
  }

  /** expireLocked */
  function Expire(s: Store, now: int): Store {
    s.(entries := map k | k in s.entries && !IsStale(s.entries[k], now) :: s.entries[k])
  }

  datatype StartResult = Started(n: Entry) | Replayed(n: Entry) | BadRequest | OtherSessionActive | StoreFull

  function Start(s: Store, now: int, peer: string, role: Role, session: string, local: seq<Candidate>, remote: seq<Candidate>): (Store, StartResult) {
    if peer == "" || session == "" || role == UnknownRole || |local| > MAX_CANDIDATES || |remote| > MAX_CANDIDATES
       || !AllValid(local + remote) then (s, BadRequest)
    else
      var s := Expire(s, now);
      if peer in s.entries then
        (s, if s.entries[peer].session != session then OtherSessionActive else Replayed(s.entries[peer]))
      else if |s.entries| >= s.capacity then (s, StoreFull)
      else
        var n := Entry(session, role, Pending, local, remote, now + s.ttl);
        (s.(entries := s.entries[peer := n]), Started(n))
  }

  predicate Known(remote: seq<Candidate>, c: Candidate) {
    exists k :: 0 <= k < |remote| && remote[k].id == c.id && remote[k].addr == c.addr
  }

  /** Append each new candidate until the limit; what was appended before the limit was hit stays. */
  function Append(remote: seq<Candidate>, batch: seq<Candidate>): (seq<Candidate>, bool)
    decreases |batch|
  {
    if batch == [] then (remote, true)
    else if Known(remote, batch[0]) then Append(remote, batch[1..])
    else if |remote| >= MAX_CANDIDATES then (remote, false)
    else Append(remote + [batch[0]], batch[1..])
  }

  function AddRemote(s: Store, now: int, peer: string, session: string, batch: seq<Candidate>): (Store, Option<Entry>) {
    if batch == [] || |batch| > MAX_CANDIDATES || !AllValid(batch) then (s, None)
    else
      var s := Expire(s, now);
      if peer !in s.entries || s.entries[peer].session != session || s.entries[peer].phase != Pending then (s, None)
      else
        var n := s.entries[peer];
        var (remote, ok) := Append(n.remote, batch);
        var n2 := n.(remote := remote, expires := if ok then now + s.ttl else n.expires);
        (s.(entries := s.entries[peer := n2]), if ok then Some(n2) else None)
  }

  function BeginCheck(s: Store, now: int, peer: string, session: string): (Store, Option<Entry>) {
    var s := Expire(s, now);
    if peer !in s.entries || s.entries[peer].session != session || s.entries[peer].phase != Pending then (s, None)
    else
      var n := s.entries[peer].(phase := Checking, expires := now + s.ttl);
      (s.(entries := s.entries[peer := n]), Some(n))
  }

  function Complete(s: Store, now: int, peer: string, session: string): (Store, bool) {
    if peer !in s.entries || s.entries[peer].session != session || s.entries[peer].phase != Checking then (s, false)
    else (s.(entries := s.entries[peer := s.entries[peer].(phase := Completed, expires := now + s.ttl)]), true)
  }

  function Delete(s: Store, peer: string, session: string): Store {
    if peer in s.entries && s.entries[peer].session == session then s.(entries := s.entries - {peer}) else s
  }

  function Get(s: Store, now: int, peer: string, session: string): (Store, Option<Entry>) {
    var s := Expire(s, now);
    (s, if peer in s.entries && s.entries[peer].session == session then Some(s.entries[peer]) else None)
  }

  // ----- operations and runs -----

  datatype Op =
    | OpStart(now: int, peer: string, role: Role, session: string, local: seq<Candidate>, remote: seq<Candidate>)
    | OpAddRemote(now: int, peer: string, session: string, batch: seq<Candidate>)
    | OpBeginCheck(now: int, peer: string, session: string)
    | OpComplete(now: int, peer: string, session: string)
    | OpDelete(peer: string, session: string)
    | OpGet(now: int, peer: string, session: string)
    | OpLen(now: int)

  function Apply(s: Store, op: Op): Store {
    match op
    case OpStart(now, peer, role, session, local, remote) => Start(s, now, peer, role, session, local, remote).0
    case OpAddRemote(now, peer, session, batch) => AddRemote(s, now, peer, session, batch).0
    case OpBeginCheck(now, peer, session) => BeginCheck(s, now, peer, session).0
    case OpComplete(now, peer, session) => Complete(s, now, peer, session).0
    case OpDelete(peer, session) => Delete(s, peer, session)
    case OpGet(now, peer, session) => Get(s, now, peer, session).0
    case OpLen(now) => Expire(s, now)
  }

  /** The clock reading at which an operation expires entries, if it does. */
  function Clock(op: Op): Option<int> {
    match op
    case OpStart(now, _, _, _, _, _) => Some(now)
    case OpAddRemote(now, _, _, _) => Some(now)
    case OpBeginCheck(now, _, _) => Some(now)
    case OpComplete(_, _, _) => None
    case OpDelete(_, _) => None
    case OpGet(now, _, _) => Some(now)
    case OpLen(now) => Some(now)
  }

  // ----- what each operation answers -----

  /** The entry a peer has once lapsed ones are gone. */
  function Live(s: Store, now: int, peer: string): Option<Entry> {
    if peer in s.entries && (s.entries[peer].phase == Checking || now < s.entries[peer].expires) then Some(s.entries[peer]) else None
  }

  /** Expiry removes exactly the entries that lapsed and are not being checked. */
  lemma ExpireExactly(s: Store, now: int)
    ensures var t := Expire(s, now);
            && (forall k :: k in t.entries <==> Live(s, now, k).Some?)
            && (forall k | k in t.entries :: t.entries[k] == s.entries[k])
            && t.capacity == s.capacity && t.ttl == s.ttl
  {
  }

  /** What every argument of Start must satisfy. */
  predicate Acceptable(peer: string, role: Role, session: string, local: seq<Candidate>, remote: seq<Candidate>) {
    && peer != "" && session != "" && role != UnknownRole && |local| <= 32 && |remote| <= 32
    && (forall c | c in local :: ValidCandidate(c)) && (forall c | c in remote :: ValidCandidate(c))
  }

  /** Each answer of Start, by the stored session: a replay returns the entry as it is, another session is refused. */
  lemma StartVerdict(s: Store, now: int, peer: string, role: Role, session: string, local: seq<Candidate>, remote: seq<Candidate>)
    ensures var (t, result) := Start(s, now, peer, role, session, local, remote);
            var ok, stored := Acceptable(peer, role, session, local, remote), Live(s, now, peer);
            && (result == BadRequest <==> !ok)
            && (result == OtherSessionActive <==> ok && stored.Some? && stored.value.session != session)
            && (result.Replayed? <==> ok && stored.Some? && stored.value.session == session)
            && (result.Replayed? ==> result.n == stored.value)
            && (result == StoreFull <==> ok && stored.None? && |Expire(s, now).entries| >= s.capacity)
            && (result.Started? ==>
                  && result.n == Entry(session, role, Pending, local, remote, now + s.ttl)
                  && t.entries == Expire(s, now).entries[peer := result.n])
            && (!result.Started? ==> t == if ok then Expire(s, now) else s)
  {
    ExpireExactly(s, now);
    assert forall c | c in local :: c in local + remote;
    assert forall c | c in remote :: c in local + remote;
    hide Expire, ValidCandidate;
  }

  /** When candidates are taken: for a pending negotiation of that session, and all of them or up to the limit. */
  lemma AddRemoteVerdict(s: Store, now: int, peer: string, session: string, batch: seq<Candidate>)
    ensures var (t, n) := AddRemote(s, now, peer, session, batch);
            var ok := 0 < |batch| <= 32 && forall c | c in batch :: ValidCandidate(c);
            var stored := Live(s, now, peer);
            var open := ok && stored.Some? && stored.value.session == session && stored.value.phase == Pending;
            && (!ok ==> t == s && n.None?)
            && (ok && !open ==> t == Expire(s, now) && n.None?)
            && (open ==>
                  var (remote, all) := Append(stored.value.remote, batch);
                  && (n.Some? <==> all)
                  && peer in t.entries
                  && t.entries[peer] == stored.value.(remote := remote, expires := if all then now + s.ttl else stored.value.expires)
                  && (n.Some? ==> n.value == t.entries[peer]))
  {
    ExpireExactly(s, now);
    hide Expire, ValidCandidate, Append;
  }

  /** When a check begins and when it completes: a pending one of that session, then a checking one. */
  lemma CheckVerdicts(s: Store, now: int, peer: string, session: string)
    ensures var (t, n) := BeginCheck(s, now, peer, session);
            var stored := Live(s, now, peer);
            && (n.Some? <==> stored.Some? && stored.value.session == session && stored.value.phase == Pending)
            && (n.Some? ==> n.value == stored.value.(phase := Checking, expires := now + s.ttl)
                            && t == Expire(s, now).(entries := Expire(s, now).entries[peer := n.value]))
            && (n.None? ==> t == Expire(s, now))
    ensures var (t, done) := Complete(s, now, peer, session);
            && (done <==> peer in s.entries && s.entries[peer].session == session && s.entries[peer].phase == Checking)
            && t == if done then s.(entries := s.entries[peer := s.entries[peer].(phase := Completed, expires := now + s.ttl)]) else s
  {
    ExpireExactly(s, now);
    hide Expire;
  }

  /** What Get finds and what Delete removes: the live entry, and the entry, of exactly that session. */
  lemma GetAndDelete(s: Store, now: int, peer: string, session: string)
    ensures var (t, n) := Get(s, now, peer, session);
            var stored := Live(s, now, peer);
            t == Expire(s, now) && n == if stored.Some? && stored.value.session == session then stored else None
    ensures var t := Delete(s, peer, session);
            && (peer in t.entries <==> peer in s.entries && s.entries[peer].session != session)
            && (forall k | k != peer :: (k in t.entries <==> k in s.entries) && (k in s.entries ==> t.entries[k] == s.entries[k]))
            && (peer in t.entries ==> t == s)
  {
    ExpireExactly(s, now);
    hide Expire;
  }

  ghost predicate EntryOk(peer: string, n: Entry) {
    && |n.local| <= MAX_CANDIDATES && |n.remote| <= MAX_CANDIDATES
    && AllValid(n.local) && AllValid(n.remote)
    && n.role != UnknownRole && n.session != "" && peer != ""
  }

  ghost predicate WithinBounds(s: Store) {
    && |s.entries| <= s.capacity
    && forall k | k in s.entries :: EntryOk(k, s.entries[k])
  }

  lemma ExpireShrinks(s: Store, now: int)
    ensures |Expire(s, now).entries| <= |s.entries|
  {
    var t := Expire(s, now);
    assert |t.entries| == |t.entries.Keys| && |s.entries| == |s.entries.Keys|;
    SubsetCount(t.entries.Keys, s.entries.Keys);
  }

  /** Appending keeps the limit and validity, only adds at the end, adds only from the batch and never a known candidate. */
  lemma {:induction false} AppendAddsNewOnly(remote: seq<Candidate>, batch: seq<Candidate>)
    requires |remote| <= MAX_CANDIDATES
    ensures var (after, ok) := Append(remote, batch);
            && |after| <= MAX_CANDIDATES && remote <= after
            && (forall k | |remote| <= k < |after| :: after[k] in batch && !Known(after[..k], after[k]))
            && (ok ==> forall c | c in batch :: Known(after, c))
            && (!ok ==> |after| == MAX_CANDIDATES && exists c | c in batch :: !Known(after, c))
    decreases |batch|
  {
    if batch != [] {
      var c := batch[0];
      if Known(remote, c) {
        AppendAddsNewOnly(remote, batch[1..]);
        KnownStays(remote, Append(remote, batch[1..]).0, c);
      } else if |remote| < MAX_CANDIDATES {
        var next := remote + [c];
        AppendAddsNewOnly(next, batch[1..]);
        var after := Append(next, batch[1..]).0;
        assert next[|remote|] == c;
        assert Known(next, c);
        KnownStays(next, after, c);
        assert after[..|remote|] == remote;
      } else {
        assert c in batch;
      }
    }
  }

  lemma KnownStays(a: seq<Candidate>, b: seq<Candidate>, c: Candidate)
    requires a <= b && Known(a, c)
    ensures Known(b, c)
  {
    var k :| 0 <= k < |a| && a[k].id == c.id && a[k].addr == c.addr;
    assert b[k] == a[k];
  }

  lemma {:induction false} AppendKeepsValid(remote: seq<Candidate>, batch: seq<Candidate>)
    requires AllValid(remote) && AllValid(batch)
    ensures AllValid(Append(remote, batch).0)
    decreases |batch|
  {
    if batch != [] {
      if Known(remote, batch[0]) { AppendKeepsValid(remote, batch[1..]); }
      else if |remote| < MAX_CANDIDATES { AppendKeepsValid(remote + [batch[0]], batch[1..]); }
    }
  }

  lemma ExpireKeepsBounds(s: Store, now: int)
    requires WithinBounds(s)
    ensures WithinBounds(Expire(s, now))
  {
    ExpireShrinks(s, now);
  }

  lemma PutKeepsBounds(s: Store, peer: string, n: Entry)
    requires WithinBounds(s) && EntryOk(peer, n)
    requires peer in s.entries || |s.entries| < s.capacity
    ensures WithinBounds(s.(entries := s.entries[peer := n]))
  {
    var t := s.(entries := s.entries[peer := n]);
    assert |s.entries| == |s.entries.Keys| && |t.entries| == |t.entries.Keys|;
    assert t.entries.Keys == s.entries.Keys + {peer};
  }

  lemma AddRemoteKeepsBounds(m: Store, now: int, peer: string, batch: seq<Candidate>)
    requires WithinBounds(m) && AllValid(batch) && peer in m.entries
    ensures var n := m.entries[peer];
            forall expires :: WithinBounds(m.(entries := m.entries[peer := n.(remote := Append(n.remote, batch).0, expires := expires)]))
  {
    var n := m.entries[peer];
    assert EntryOk(peer, n);
    AppendAddsNewOnly(n.remote, batch);
    AppendKeepsValid(n.remote, batch);
    forall expires ensures WithinBounds(m.(entries := m.entries[peer := n.(remote := Append(n.remote, batch).0, expires := expires)])) {
      PutKeepsBounds(m, peer, n.(remote := Append(n.remote, batch).0, expires := expires));
    }
  }

  lemma StartKeepsBounds(s: Store, now: int, peer: string, role: Role, session: string, local: seq<Candidate>, remote: seq<Candidate>)
    requires WithinBounds(s)
    ensures WithinBounds(Start(s, now, peer, role, session, local, remote).0)
  {
    ExpireKeepsBounds(s, now);
    var result := Start(s, now, peer, role, session, local, remote).1;
    if result.Started? {
      assert forall c | c in local :: c in local + remote;
      assert forall c | c in remote :: c in local + remote;
      PutKeepsBounds(Expire(s, now), peer, result.n);
    }
  }

  lemma BatchKeepsBounds(s: Store, now: int, peer: string, session: string, batch: seq<Candidate>)
    requires WithinBounds(s)
    ensures WithinBounds(AddRemote(s, now, peer, session, batch).0)
  {
    hide WithinBounds, Append, Expire;
    ExpireKeepsBounds(s, now);
    var m := Expire(s, now);
    if peer in m.entries && AllValid(batch) {
      AddRemoteKeepsBounds(m, now, peer, batch);
    }
  }

  lemma PhaseKeepsBounds(m: Store, peer: string, phase: Phase, expires: int)
    requires WithinBounds(m) && peer in m.entries
    ensures WithinBounds(m.(entries := m.entries[peer := m.entries[peer].(phase := phase, expires := expires)]))
  {
    assert EntryOk(peer, m.entries[peer]);
    PutKeepsBounds(m, peer, m.entries[peer].(phase := phase, expires := expires));
  }

  lemma DeleteKeepsBounds(s: Store, peer: string, session: string)
    requires WithinBounds(s)
    ensures WithinBounds(Delete(s, peer, session))
  {
    var t := Delete(s, peer, session);
    assert |t.entries| == |t.entries.Keys| && |s.entries| == |s.entries.Keys|;
    SubsetCount(t.entries.Keys, s.entries.Keys);
  }

  lemma ApplyKeepsBounds(s: Store, op: Op)
    requires WithinBounds(s)
    ensures WithinBounds(Apply(s, op)) && Apply(s, op).capacity == s.capacity
  {
    hide WithinBounds, Expire, AllValid, Append;
    assert forall now: int :: Expire(s, now).capacity == s.capacity && Expire(s, now).ttl == s.ttl by { ExpireKeepsLimits(s); }
    match op
    case OpStart(now, peer, role, session, local, remote) => StartKeepsBounds(s, now, peer, role, session, local, remote);
    case OpAddRemote(now, peer, session, batch) => BatchKeepsBounds(s, now, peer, session, batch);
    case OpBeginCheck(now, peer, session) =>
      ExpireKeepsBounds(s, now);
      if peer in Expire(s, now).entries { PhaseKeepsBounds(Expire(s, now), peer, Checking, now + s.ttl); }
    case OpComplete(now, peer, session) =>
      if peer in s.entries { PhaseKeepsBounds(s, peer, Completed, now + s.ttl); }
    case OpDelete(peer, session) => DeleteKeepsBounds(s, peer, session);
    case OpGet(now, _, _) => ExpireKeepsBounds(s, now);
    case OpLen(now) => ExpireKeepsBounds(s, now);
  }

  lemma ExpireKeepsLimits(s: Store)
    ensures forall now: int :: Expire(s, now).capacity == s.capacity && Expire(s, now).ttl == s.ttl
  {
  }

  function PhaseRank(p: Phase): nat {
    match p case Pending => 0 case Checking => 1 case Completed => 2
  }

  predicate Concerns(op: Op, peer: string, session: string) {
    match op
    case OpStart(_, p, _, s, _, _) => p == peer && s == session
    case OpAddRemote(_, p, s, _) => p == peer && s == session
    case OpBeginCheck(_, p, s) => p == peer && s == session
    case OpComplete(_, p, s) => p == peer && s == session
    case OpDelete(p, s) => p == peer && s == session
    case OpGet(_, p, s) => p == peer && s == session
    case OpLen(_) => false
  }

  /**
   * What one operation can do to a stored entry. Session, role and local candidates never change
   * and remote candidates only grow while pending; the phase moves forward one step at most; a
   * checking entry is removed only by Delete with its own session; an operation that names another
   * session leaves the entry alone, or removes it because its time is over.
   */
  lemma EntryLifecycle(s: Store, op: Op, peer: string)
    requires WithinBounds(s) && peer in s.entries
    ensures var before, after := s.entries[peer], Apply(s, op).entries;
            var lapsed := Clock(op).Some? && IsStale(before, Clock(op).value);
            && (peer in after && !lapsed ==>
                  && after[peer].session == before.session && after[peer].role == before.role && after[peer].local == before.local
                  && before.remote <= after[peer].remote
                  && (before.phase != Pending ==> after[peer].remote == before.remote)
                  && PhaseRank(before.phase) <= PhaseRank(after[peer].phase) <= PhaseRank(before.phase) + 1)
            && (before.phase == Checking && peer !in after ==> op == OpDelete(peer, before.session))
            && (!Concerns(op, peer, before.session) ==> (peer in after && after[peer] == before) || lapsed)
            && (op.OpStart? && Concerns(op, peer, before.session) ==> (peer in after && after[peer] == before) || lapsed)
  {
    match op
    case OpAddRemote(now, p, session, batch) =>
      var m := Expire(s, now);
      if p in m.entries { AppendAddsNewOnly(m.entries[p].remote, batch); }
    case _ =>
  }

  /** The store with a count of how often an entry was created for each peer, and the grants made. */
  datatype History = History(store: Store, births: map<string, nat>, grants: seq<(string, nat)>)

  function Births(h: History, peer: string): nat {
    if peer in h.births then h.births[peer] else 0
  }

  function Record(h: History, op: Op): History {
    var store := Apply(h.store, op);
    match op
    case OpStart(now, peer, role, session, local, remote) =>
      if Start(h.store, now, peer, role, session, local, remote).1.Started?
      then h.(store := store, births := h.births[peer := Births(h, peer) + 1]) else h.(store := store)
    case OpBeginCheck(now, peer, session) =>
      if BeginCheck(h.store, now, peer, session).1.Some?
      then h.(store := store, grants := h.grants + [(peer, Births(h, peer))]) else h.(store := store)
    case _ => h.(store := store)
  }

  function Run(capacity: int, ttl: int, ops: seq<Op>): History {
    if ops == [] then History(NewStore(capacity, ttl), map[], [])
    else Record(Run(capacity, ttl, ops[..|ops| - 1]), ops[|ops| - 1])
  }

  ghost predicate HistoryOk(h: History) {
    && WithinBounds(h.store)
    && (forall j, k | 0 <= j < k < |h.grants| :: h.grants[j] != h.grants[k])
    && (forall g | g in h.grants :: g.1 <= Births(h, g.0))
    && (forall p | p in h.store.entries && h.store.entries[p].phase == Pending :: (p, Births(h, p)) !in h.grants)
  }

  lemma PendingComesFromPending(s: Store, op: Op, p: string)
    requires WithinBounds(s) && p in Apply(s, op).entries && Apply(s, op).entries[p].phase == Pending
    ensures (op.OpStart? && op.peer == p && Start(s, op.now, op.peer, op.role, op.session, op.local, op.remote).1.Started?)
            || (p in s.entries && s.entries[p].phase == Pending && !(op.OpBeginCheck? && op.peer == p && BeginCheck(s, op.now, p, op.session).1.Some?))
  {
  }

  /** What one operation adds to the counts: births only grow, and a grant is new. */
  lemma RecordShape(h: History, op: Op)
    ensures Record(h, op).store == Apply(h.store, op)
    ensures forall p :: Births(Record(h, op), p) >= Births(h, p)
    ensures op.OpBeginCheck? && BeginCheck(h.store, op.now, op.peer, op.session).1.Some? ==>
              Record(h, op).grants == h.grants + [(op.peer, Births(h, op.peer))] && Record(h, op).births == h.births
    ensures !(op.OpBeginCheck? && BeginCheck(h.store, op.now, op.peer, op.session).1.Some?) ==> Record(h, op).grants == h.grants
    ensures op.OpStart? && Start(h.store, op.now, op.peer, op.role, op.session, op.local, op.remote).1.Started? ==>
              Births(Record(h, op), op.peer) == Births(h, op.peer) + 1
  {
    hide Apply, Start, BeginCheck;
  }

  lemma GrantKeepsHistory(h: History, op: Op)
    requires HistoryOk(h) && op.OpBeginCheck? && BeginCheck(h.store, op.now, op.peer, op.session).1.Some?
    ensures HistoryOk(Record(h, op))
  {
    hide WithinBounds, Apply, Expire, Start, BeginCheck, Record;
    ApplyKeepsBounds(h.store, op);
    RecordShape(h, op);
    GrantNeedsPending(h.store, op.now, op.peer, op.session);
    var h2 := Record(h, op);
    var grant := (op.peer, Births(h, op.peer));
    assert h2.grants == h.grants + [grant] && grant !in h.grants;
    assert forall p :: Births(h2, p) == Births(h, p);
    hide Births;
    forall p | p in h2.store.entries && h2.store.entries[p].phase == Pending ensures (p, Births(h2, p)) !in h2.grants {
      PendingComesFromPending(h.store, op, p);
    }
  }

  lemma RecordKeepsHistory(h: History, op: Op)
    requires HistoryOk(h)
    ensures HistoryOk(Record(h, op))
  {
    if op.OpBeginCheck? && BeginCheck(h.store, op.now, op.peer, op.session).1.Some? {
      GrantKeepsHistory(h, op);
    } else {
      ApplyKeepsBounds(h.store, op);
      RecordShape(h, op);
      var h2 := Record(h, op);
      hide WithinBounds, Apply, Expire, Start, BeginCheck, Record, Births;
      forall p | p in h2.store.entries && h2.store.entries[p].phase == Pending ensures (p, Births(h2, p)) !in h2.grants {
        PendingComesFromPending(h.store, op, p);
      }
    }
  }

  lemma GrantNeedsPending(s: Store, now: int, peer: string, session: string)
    requires BeginCheck(s, now, peer, session).1.Some?
    ensures peer in s.entries && s.entries[peer].phase == Pending && s.entries[peer].session == session
  {
  }

  /** Main result: over every run the bounds hold and each stored negotiation is granted its check at most once. */
  lemma {:induction false} StoreOverRuns(capacity: int, ttl: int, ops: seq<Op>)
    ensures var h := Run(capacity, ttl, ops);
            && WithinBounds(h.store) && h.store.capacity == NewStore(capacity, ttl).capacity
            && HistoryOk(h)
    decreases |ops|
  {
    if ops != [] {
      StoreOverRuns(capacity, ttl, ops[..|ops| - 1]);
      RecordKeepsHistory(Run(capacity, ttl, ops[..|ops| - 1]), ops[|ops| - 1]);
      ApplyKeepsBounds(Run(capacity, ttl, ops[..|ops| - 1]).store, ops[|ops| - 1]);
    }
  }
}
