/** Who owns a negotiation's UDP socket and relay allocation, from binding to hand-over. */
module PreparedIce {
  import opened Basics

  const MAX_PREPARED := 128
  const PREPARED_TTL := 30_000

  type Socket = int
  type Relay = int

  datatype Entry = Entry(conn: Socket, relay: Option<Relay>, expires: int, claimed: bool)

  /** How an entry left the store. */
  datatype Exit = SocketOut | RelayOut | Dropped
  datatype Departure = Departure(conn: Socket, relay: Option<Relay>, exit: Exit)

  /**
   * The manager with the world around it: sockets and relays held by calls still running, those
   * handed to a session, those closed, every socket a claim was granted for, and who left how.
   */
  datatype State = State(
    entries: map<string, Entry>, preparing: set<string>,
    held: set<Socket>, heldRelays: set<Relay>,
    outSockets: set<Socket>, outRelays: set<Relay>,
    closedSockets: set<Socket>, closedRelays: set<Relay>,
    claims: set<Socket>, departed: set<Departure>)

  const INITIAL := State(map[], {}, {}, {}, {}, {}, {}, {}, {}, {})

  function RelaysOf(r: Option<Relay>): set<Relay> {
    if r.Some? then {r.value} else {}
  }

  // ----- leaving the store -----

  /** Close both halves and delete: Cancel, expiry and Close. */
  function Drop(s: State, gone: set<string>): State
    requires gone <= s.entries.Keys
  {
    s.(entries := s.entries - gone,
       closedSockets := s.closedSockets + (set k | k in gone :: s.entries[k].conn),
       closedRelays := s.closedRelays + (set k | k in gone && s.entries[k].relay.Some? :: s.entries[k].relay.value),
       departed := s.departed + (set k | k in gone :: Departure(s.entries[k].conn, s.entries[k].relay, Dropped)))
  }

  predicate IsExpired(e: Entry, now: int) {
    !e.claimed && e.expires <= now
  }

  function ExpiredKeys(s: State, now: int): set<string> {
    set k | k in s.entries && IsExpired(s.entries[k], now)
  }

  /** expirePreparedLocked */
  function Expire(s: State, now: int): State {
    Drop(s, ExpiredKeys(s, now))
  }

  /** expirePreparedSession */
  function ExpireSession(s: State, session: string, conn: Socket, now: int): State {
    if session in s.entries && s.entries[session].conn == conn && IsExpired(s.entries[session], now)
    then Drop(s, {session}) else s
  }

  /** CancelPreparedICE */
  function Cancel(s: State, session: string): State {
    if session in s.entries then Drop(s, {session}) else s
  }

  /** Close */
  function CloseAll(s: State): State {
    Drop(s, s.entries.Keys).(preparing := {})
  }

  /** transferPreparedSocket */
  function TransferSocket(s: State, session: string, conn: Socket): State {
    if session in s.entries && s.entries[session].conn == conn then
      var e := s.entries[session];
      s.(entries := s.entries - {session}, outSockets := s.outSockets + {conn},
         closedRelays := s.closedRelays + RelaysOf(e.relay),
         departed := s.departed + {Departure(e.conn, e.relay, SocketOut)})
    else s
  }

  /** transferPreparedRelay */
  function TransferRelay(s: State, session: string, relay: Relay): State {
    if session in s.entries && s.entries[session].relay == Some(relay) then
      var e := s.entries[session];
      s.(entries := s.entries - {session}, outRelays := s.outRelays + {relay},
         closedSockets := s.closedSockets + {e.conn},
         departed := s.departed + {Departure(e.conn, e.relay, RelayOut)})
    else s
  }

  // ----- preparing -----

  datatype Reservation = AlreadyPrepared | Busy | Full | Reserved

  /** The first critical section of PrepareICE. */
  function Reserve(s: State, session: string, now: int): (State, Reservation) {
    var s := Expire(s, now);
    if session in s.entries then (s, AlreadyPrepared)
    else if session in s.preparing then (s, Busy)
    else if |s.entries| + |s.preparing| >= MAX_PREPARED then (s, Full)
    else (s.(preparing := s.preparing + {session}), Reserved)
  }

  /** The second: store the bound socket, or close it when it came too late. */
  function Commit(s: State, session: string, conn: Socket, now: int): (State, bool) {
    var s := Expire(s, now).(held := s.held - {conn});
    if session in s.entries || |s.entries| >= MAX_PREPARED then
      (s.(closedSockets := s.closedSockets + {conn}), false)
    else (s.(entries := s.entries[session := Entry(conn, None, now + PREPARED_TTL, false)]), true)
  }

  /** The last critical section of PrepareICEWithRelay. */
  function AttachRelay(s: State, session: string, relay: Relay): (State, bool) {
    var s := s.(heldRelays := s.heldRelays - {relay});
    if session !in s.entries || s.entries[session].relay.Some? then
      (s.(closedRelays := s.closedRelays + {relay}), false)
    else (s.(entries := s.entries[session := s.entries[session].(relay := Some(relay))]), true)
  }

  // ----- claiming -----

  function Claim(s: State, session: string, now: int): (State, Option<Socket>) {
    var s := Expire(s, now);
    if session !in s.entries || s.entries[session].claimed then (s, None)
    else
      var e := s.entries[session];
      (s.(entries := s.entries[session := e.(claimed := true)], claims := s.claims + {e.conn}), Some(e.conn))
  }

  /** preparedRelay: an unclaimed entry's time to live starts over. */
  function LookupRelay(s: State, session: string, now: int): (State, Option<Relay>) {
    var s := Expire(s, now);
    if session !in s.entries || s.entries[session].relay.None? then (s, None)
    else
      var e := s.entries[session];
      (if e.claimed then s else s.(entries := s.entries[session := e.(expires := now + PREPARED_TTL)]), e.relay)
  }

  /** preparedSocket: the time to live starts over, claimed or not. */
  function LookupSocket(s: State, session: string, now: int): (State, Option<Socket>) {
    var s := Expire(s, now);
    if session !in s.entries then (s, None)
    else
      var e := s.entries[session];
      (s.(entries := s.entries[session := e.(expires := now + PREPARED_TTL)]), Some(e.conn))
  }

  // ----- what each call does -----

  /** Expiry removes exactly the unclaimed entries whose time is over, and closes exactly what they held. */
  lemma ExpireEffect(s: State, now: int)
    ensures var t := Expire(s, now);
            && (forall k :: k in t.entries <==> k in s.entries && (s.entries[k].claimed || now < s.entries[k].expires))
            && (forall k | k in t.entries :: t.entries[k] == s.entries[k])
            && (forall x :: x in t.closedSockets <==>
                  x in s.closedSockets || exists k :: k in s.entries && k !in t.entries && s.entries[k].conn == x)
            && (forall r :: r in t.closedRelays <==>
                  r in s.closedRelays || exists k :: k in s.entries && k !in t.entries && s.entries[k].relay == Some(r))
            && t == s.(entries := t.entries, closedSockets := t.closedSockets, closedRelays := t.closedRelays, departed := t.departed)
  {
    var t, gone := Expire(s, now), ExpiredKeys(s, now);
    forall x ensures x in t.closedSockets <==>
        x in s.closedSockets || exists k :: k in s.entries && k !in t.entries && s.entries[k].conn == x {
      if x in t.closedSockets && x !in s.closedSockets {
        var k :| k in gone && s.entries[k].conn == x;
        assert k in s.entries && k !in t.entries;
      }
    }
    forall r ensures r in t.closedRelays <==>
        r in s.closedRelays || exists k :: k in s.entries && k !in t.entries && s.entries[k].relay == Some(r) {
      if r in t.closedRelays && r !in s.closedRelays {
        var k :| k in gone && s.entries[k].relay.Some? && s.entries[k].relay.value == r;
        assert k in s.entries && k !in t.entries && s.entries[k].relay == Some(r);
      }
      if k :| k in s.entries && k !in t.entries && s.entries[k].relay == Some(r) { assert k in gone; }
    }
  }

  /** What a reservation answers: by a live entry, then a call under way, then the number of both. */
  lemma ReserveVerdict(s: State, session: string, now: int)
    ensures var (t, verdict) := Reserve(s, session, now);
            var live := Expire(s, now);
            && (verdict == AlreadyPrepared <==> session in live.entries)
            && (verdict == Busy <==> session !in live.entries && session in s.preparing)
            && (verdict == Full <==> session !in live.entries && session !in s.preparing && |live.entries| + |s.preparing| >= 128)
            && t == if verdict == Reserved then live.(preparing := s.preparing + {session}) else live
  {
    ExpireEffect(s, now);
    hide Expire;
  }

  /** Whether a bound socket is stored: unless the session is prepared by now or the store is full. */
  lemma CommitVerdict(s: State, session: string, conn: Socket, now: int)
    ensures var (t, stored) := Commit(s, session, conn, now);
            var live := Expire(s, now);
            && (stored <==> session !in live.entries && |live.entries| < 128)
            && conn !in t.held
            && (stored ==> t.entries == live.entries[session := Entry(conn, None, now + PREPARED_TTL, false)] && t.closedSockets == live.closedSockets)
            && (!stored ==> t.entries == live.entries && t.closedSockets == live.closedSockets + {conn})
  {
    hide Expire;
  }

  /** Whether a relay is attached: to the session's entry, if there is one without a relay. */
  lemma AttachVerdict(s: State, session: string, relay: Relay)
    ensures var (t, attached) := AttachRelay(s, session, relay);
            && (attached <==> session in s.entries && s.entries[session].relay.None?)
            && relay !in t.heldRelays
            && (attached ==> session in t.entries && t.entries[session] == s.entries[session].(relay := Some(relay)) && t.closedRelays == s.closedRelays)
            && (!attached ==> t.entries == s.entries && t.closedRelays == s.closedRelays + {relay})
  {
  }

  /** What a claim and the two lookups return, and the entry each leaves: only a lookup moves the expiry. */
  lemma AskVerdicts(s: State, session: string, now: int)
    ensures var live := Expire(s, now).entries;
            var (c, won) := Claim(s, session, now);
            var (a, socket) := LookupSocket(s, session, now);
            var (b, relay) := LookupRelay(s, session, now);
            && won == (if session in live && !live[session].claimed then Some(live[session].conn) else None)
            && c.entries == (if won.Some? then live[session := live[session].(claimed := true)] else live)
            && socket == (if session in live then Some(live[session].conn) else None)
            && a.entries == (if socket.Some? then live[session := live[session].(expires := now + PREPARED_TTL)] else live)
            && relay == (if session in live then live[session].relay else None)
            && b.entries == (if relay.Some? && !live[session].claimed
                             then live[session := live[session].(expires := now + PREPARED_TTL)] else live)
  {
    hide Expire;
  }

  /** When an entry leaves by name: a transfer needs its own half, the timer needs its socket, no claim and the time over. */
  lemma LeaveVerdicts(s: State, session: string, conn: Socket, relay: Relay, now: int)
    ensures session !in Cancel(s, session).entries && CloseAll(s).entries == map[] && CloseAll(s).preparing == {}
    ensures session in TransferSocket(s, session, conn).entries <==> session in s.entries && s.entries[session].conn != conn
    ensures session in TransferRelay(s, session, relay).entries <==> session in s.entries && s.entries[session].relay != Some(relay)
    ensures session in ExpireSession(s, session, conn, now).entries <==>
              session in s.entries && (s.entries[session].conn != conn || s.entries[session].claimed || now < s.entries[session].expires)
    ensures forall k | k != session && k in s.entries ::
              && k in Cancel(s, session).entries && Cancel(s, session).entries[k] == s.entries[k]
              && k in TransferSocket(s, session, conn).entries && TransferSocket(s, session, conn).entries[k] == s.entries[k]
              && k in TransferRelay(s, session, relay).entries && TransferRelay(s, session, relay).entries[k] == s.entries[k]
              && k in ExpireSession(s, session, conn, now).entries && ExpireSession(s, session, conn, now).entries[k] == s.entries[k]
  {
  }

  // ----- the invariant -----

  ghost predicate Stored(s: State, x: Socket) {
    exists k :: k in s.entries && s.entries[k].conn == x
  }

  ghost predicate StoredRelay(s: State, r: Relay) {
    exists k :: k in s.entries && s.entries[k].relay == Some(r)
  }

  ghost predicate Sole(a: bool, b: bool, c: bool, d: bool) {
    !(a && b) && !(a && c) && !(a && d) && !(b && c) && !(b && d) && !(c && d)
  }

  /** Every socket and every relay has at most one owner, and the departures tell the truth. */
  ghost predicate OwnershipExact(s: State) {
    && |s.entries| <= MAX_PREPARED
    && (forall j, k | j in s.entries && k in s.entries && j != k :: s.entries[j].conn != s.entries[k].conn)
    && (forall j, k | j in s.entries && k in s.entries && j != k && s.entries[j].relay.Some? ::
          s.entries[j].relay != s.entries[k].relay)
    && (forall x :: Sole(x in s.held, Stored(s, x), x in s.outSockets, x in s.closedSockets))
    && (forall r :: Sole(r in s.heldRelays, StoredRelay(s, r), r in s.outRelays, r in s.closedRelays))
    && (forall k | k in s.entries :: s.entries[k].claimed <==> s.entries[k].conn in s.claims)
    && (forall x | x in s.claims :: x !in s.held)
    && (forall d | d in s.departed :: Settled(s, d))
  }

  /** What a departure left behind: one half handed over and the other closed, or both closed. */
  ghost predicate Settled(s: State, d: Departure) {
    && (if d.exit == SocketOut then d.conn in s.outSockets else d.conn in s.closedSockets)
    && (d.relay.Some? ==> if d.exit == RelayOut then d.relay.value in s.outRelays else d.relay.value in s.closedRelays)
  }

  // ----- runs -----

  datatype Op =
    | DoReserve(session: string, now: int)
    | Unreserve(session: string, reached: bool)
    | Bind(conn: Socket)
    | Abandon(conn: Socket)
    | DoCommit(session: string, conn: Socket, now: int)
    | Allocate(relay: Relay)
    | Discard(relay: Relay)
    | DoAttach(session: string, relay: Relay)
    | DoClaim(session: string, now: int)
    | DoLookupSocket(session: string, now: int)
    | DoLookupRelay(session: string, now: int)
    | DoTransferSocket(session: string, conn: Socket)
    | DoTransferRelay(session: string, relay: Relay)
    | DoCancel(session: string)
    | DoExpireSession(session: string, conn: Socket, now: int)
    | DoCloseAll

  ghost predicate Known(s: State, x: Socket) {
    x in s.held || Stored(s, x) || x in s.outSockets || x in s.closedSockets || x in s.claims
  }

  ghost predicate KnownRelay(s: State, r: Relay) {
    r in s.heldRelays || StoredRelay(s, r) || r in s.outRelays || r in s.closedRelays
  }

  /** The system hands out each socket and relay once; a call finishes only what it holds. */
  ghost predicate Allowed(s: State, op: Op) {
    match op
    case Bind(x) => !Known(s, x)
    case Abandon(x) => x in s.held
    case DoCommit(_, x, _) => x in s.held
    case Allocate(r) => !KnownRelay(s, r)
    case Discard(r) => r in s.heldRelays
    case DoAttach(_, r) => r in s.heldRelays
    case _ => true
  }

  ghost function Step(s: State, op: Op): State {
    if !Allowed(s, op) then s
    else match op
      case DoReserve(session, now) => Reserve(s, session, now).0
      case Unreserve(session, _) => s.(preparing := s.preparing - {session})
      case Bind(x) => s.(held := s.held + {x})
      case Abandon(x) => s.(held := s.held - {x}, closedSockets := s.closedSockets + {x})
      case DoCommit(session, x, now) => Commit(s, session, x, now).0
      case Allocate(r) => s.(heldRelays := s.heldRelays + {r})
      case Discard(r) => s.(heldRelays := s.heldRelays - {r}, closedRelays := s.closedRelays + {r})
      case DoAttach(session, r) => AttachRelay(s, session, r).0
      case DoClaim(session, now) => Claim(s, session, now).0
      case DoLookupSocket(session, now) => LookupSocket(s, session, now).0
      case DoLookupRelay(session, now) => LookupRelay(s, session, now).0
      case DoTransferSocket(session, x) => TransferSocket(s, session, x)
      case DoTransferRelay(session, r) => TransferRelay(s, session, r)
      case DoCancel(session) => Cancel(s, session)
      case DoExpireSession(session, x, now) => ExpireSession(s, session, x, now)
      case DoCloseAll => CloseAll(s)
  }

  ghost function Run(ops: seq<Op>): State {
    if ops == [] then INITIAL else Step(Run(ops[..|ops| - 1]), ops[|ops| - 1])
  }

  lemma MapShrinks<K, V>(m: map<K, V>, gone: set<K>)
    ensures |m - gone| <= |m|
  {
    var rest := m - gone;
    assert rest.Keys <= m.Keys;
    SubsetCount(rest.Keys, m.Keys);
    assert |rest| == |rest.Keys| && |m| == |m.Keys|;
  }

  lemma DropKeepsOwnership(s: State, gone: set<string>)
    requires OwnershipExact(s) && gone <= s.entries.Keys
    ensures OwnershipExact(Drop(s, gone))
  {
    var t := Drop(s, gone);
    MapShrinks(s.entries, gone);
    forall x ensures Sole(x in t.held, Stored(t, x), x in t.outSockets, x in t.closedSockets) {
      assert Sole(x in s.held, Stored(s, x), x in s.outSockets, x in s.closedSockets);
      if Stored(t, x) {
        var k :| k in t.entries && t.entries[k].conn == x;
        assert s.entries[k].conn == x;
      }
      if k :| k in gone && s.entries[k].conn == x { assert Stored(s, x); }
    }
    forall r ensures Sole(r in t.heldRelays, StoredRelay(t, r), r in t.outRelays, r in t.closedRelays) {
      assert Sole(r in s.heldRelays, StoredRelay(s, r), r in s.outRelays, r in s.closedRelays);
      if StoredRelay(t, r) {
        var k :| k in t.entries && t.entries[k].relay == Some(r);
        assert s.entries[k].relay == Some(r);
      }
      if k :| k in gone && s.entries[k].relay == Some(r) { assert StoredRelay(s, r); }
    }
    forall d | d in t.departed ensures Settled(t, d) {
      if d in s.departed { assert Settled(s, d); }
    }
  }

  lemma ExpireKeepsOwnership(s: State, now: int)
    requires OwnershipExact(s)
    ensures OwnershipExact(Expire(s, now))
  {
    DropKeepsOwnership(s, ExpiredKeys(s, now));
  }

  /** Rewriting an entry without touching its socket, relay or claim. */
  lemma TouchKeepsOwnership(s: State, session: string, e: Entry)
    requires OwnershipExact(s) && session in s.entries
    requires e.conn == s.entries[session].conn && e.relay == s.entries[session].relay && e.claimed == s.entries[session].claimed
    ensures OwnershipExact(s.(entries := s.entries[session := e]))
  {
    var t := s.(entries := s.entries[session := e]);
    assert t.entries.Keys == s.entries.Keys;
    SameStored(s, t);
  }

  lemma SameStored(s: State, t: State)
    requires t.entries.Keys == s.entries.Keys
    requires forall k | k in s.entries :: t.entries[k].conn == s.entries[k].conn && t.entries[k].relay == s.entries[k].relay
    ensures forall x :: Stored(t, x) <==> Stored(s, x)
    ensures forall r :: StoredRelay(t, r) <==> StoredRelay(s, r)
    ensures |t.entries| == |s.entries|
  {
    assert |t.entries| == |t.entries.Keys| && |s.entries| == |s.entries.Keys|;
    forall x ensures Stored(t, x) <==> Stored(s, x) {
      if k :| k in s.entries && s.entries[k].conn == x { assert t.entries[k].conn == x; }
      if k :| k in t.entries && t.entries[k].conn == x { assert s.entries[k].conn == x; }
    }
    forall r ensures StoredRelay(t, r) <==> StoredRelay(s, r) {
      if k :| k in s.entries && s.entries[k].relay == Some(r) { assert t.entries[k].relay == Some(r); }
      if k :| k in t.entries && t.entries[k].relay == Some(r) { assert s.entries[k].relay == Some(r); }
    }
  }

  lemma MarkClaimed(m: State, session: string)
    requires OwnershipExact(m) && session in m.entries && !m.entries[session].claimed
    ensures var e := m.entries[session];
            OwnershipExact(m.(entries := m.entries[session := e.(claimed := true)], claims := m.claims + {e.conn}))
  {
    var e := m.entries[session];
    var t := m.(entries := m.entries[session := e.(claimed := true)], claims := m.claims + {e.conn});
    assert t.entries.Keys == m.entries.Keys;
    SameStored(m, t);
    assert Stored(m, e.conn);
    forall d | d in t.departed ensures Settled(t, d) { assert Settled(m, d); }
    forall x ensures Sole(x in t.held, Stored(t, x), x in t.outSockets, x in t.closedSockets) {
      assert Sole(x in m.held, Stored(m, x), x in m.outSockets, x in m.closedSockets);
    }
  }

  lemma ClaimKeepsOwnership(s: State, session: string, now: int)
    requires OwnershipExact(s)
    ensures OwnershipExact(Claim(s, session, now).0)
  {
    hide OwnershipExact;
    ExpireKeepsOwnership(s, now);
    var m := Expire(s, now);
    if session in m.entries && !m.entries[session].claimed {
      MarkClaimed(m, session);
    }
  }

  lemma StoreBound(m: State, session: string, conn: Socket, expires: int)
    requires OwnershipExact(m) && conn in m.held && session !in m.entries && |m.entries| < MAX_PREPARED
    ensures OwnershipExact(m.(held := m.held - {conn}, entries := m.entries[session := Entry(conn, None, expires, false)]))
  {
    var t := m.(held := m.held - {conn}, entries := m.entries[session := Entry(conn, None, expires, false)]);
    assert |t.entries| == |m.entries| + 1;
    assert Sole(conn in m.held, Stored(m, conn), conn in m.outSockets, conn in m.closedSockets);
    forall k | k in m.entries ensures m.entries[k].conn != conn { assert Stored(m, m.entries[k].conn); }
    forall x ensures Sole(x in t.held, Stored(t, x), x in t.outSockets, x in t.closedSockets) {
      assert Sole(x in m.held, Stored(m, x), x in m.outSockets, x in m.closedSockets);
      if Stored(t, x) && x != conn {
        var k :| k in t.entries && t.entries[k].conn == x;
        assert m.entries[k].conn == x;
      }
    }
    forall r ensures StoredRelay(t, r) <==> StoredRelay(m, r) {
      if k :| k in m.entries && m.entries[k].relay == Some(r) { assert t.entries[k].relay == Some(r); }
    }
    forall d | d in t.departed ensures Settled(t, d) { assert Settled(m, d); }
  }

  lemma CloseLate(m: State, conn: Socket)
    requires OwnershipExact(m) && conn in m.held
    ensures OwnershipExact(m.(held := m.held - {conn}, closedSockets := m.closedSockets + {conn}))
  {
    var t := m.(held := m.held - {conn}, closedSockets := m.closedSockets + {conn});
    SameStored(m, t);
    forall x ensures Sole(x in t.held, Stored(t, x), x in t.outSockets, x in t.closedSockets) {
      assert Sole(x in m.held, Stored(m, x), x in m.outSockets, x in m.closedSockets);
    }
    forall d | d in t.departed ensures Settled(t, d) { assert Settled(m, d); }
  }

  lemma CommitKeepsOwnership(s: State, session: string, conn: Socket, now: int)
    requires OwnershipExact(s) && conn in s.held
    ensures OwnershipExact(Commit(s, session, conn, now).0)
  {
    hide OwnershipExact;
    ExpireKeepsOwnership(s, now);
    var m := Expire(s, now);
    if session !in m.entries && |m.entries| < MAX_PREPARED {
      StoreBound(m, session, conn, now + PREPARED_TTL);
    } else {
      CloseLate(m, conn);
    }
  }

  /** One more relay is stored, and the sockets are the same. */
  lemma AttachShape(s: State, t: State, session: string, relay: Relay)
    requires session in s.entries && s.entries[session].relay.None?
    requires t.entries == s.entries[session := s.entries[session].(relay := Some(relay))]
    ensures |t.entries| == |s.entries| && t.entries.Keys == s.entries.Keys
    ensures forall x :: Stored(t, x) <==> Stored(s, x)
    ensures forall r :: StoredRelay(t, r) <==> StoredRelay(s, r) || r == relay
  {
    assert t.entries.Keys == s.entries.Keys;
    assert |t.entries| == |t.entries.Keys| && |s.entries| == |s.entries.Keys|;
    forall x ensures Stored(t, x) <==> Stored(s, x) {
      if k :| k in s.entries && s.entries[k].conn == x { assert t.entries[k].conn == x; }
    }
    forall r ensures StoredRelay(t, r) <==> StoredRelay(s, r) || r == relay {
      if k :| k in s.entries && s.entries[k].relay == Some(r) { assert t.entries[k].relay == Some(r); }
      if r == relay { assert t.entries[session].relay == Some(r); }
    }
  }

  lemma HeldIsNotStored(s: State, relay: Relay)
    requires OwnershipExact(s) && relay in s.heldRelays
    ensures !StoredRelay(s, relay) && relay !in s.outRelays && relay !in s.closedRelays
    ensures forall k | k in s.entries && s.entries[k].relay.Some? :: s.entries[k].relay.value != relay
  {
    assert Sole(relay in s.heldRelays, StoredRelay(s, relay), relay in s.outRelays, relay in s.closedRelays);
    forall k | k in s.entries && s.entries[k].relay.Some? ensures s.entries[k].relay.value != relay {
      assert StoredRelay(s, s.entries[k].relay.value);
    }
  }

  lemma OnlyStored(a: bool, b: bool, c: bool, d: bool)
    requires !a && !c && !d
    ensures Sole(a, b, c, d)
  {
  }

  lemma StoringKeepsOwnership(s: State, t: State, session: string, relay: Relay)
    requires OwnershipExact(s) && relay in s.heldRelays && session in s.entries && s.entries[session].relay.None?
    requires t == s.(heldRelays := s.heldRelays - {relay}, entries := s.entries[session := s.entries[session].(relay := Some(relay))])
    ensures OwnershipExact(t)
  {
    hide Stored, StoredRelay, Sole;
    HeldIsNotStored(s, relay);
    AttachShape(s, t, session, relay);
    forall x ensures Sole(x in t.held, Stored(t, x), x in t.outSockets, x in t.closedSockets) {
      assert Sole(x in s.held, Stored(s, x), x in s.outSockets, x in s.closedSockets);
    }
    forall r ensures Sole(r in t.heldRelays, StoredRelay(t, r), r in t.outRelays, r in t.closedRelays) {
      assert Sole(r in s.heldRelays, StoredRelay(s, r), r in s.outRelays, r in s.closedRelays);
      if r == relay { OnlyStored(r in t.heldRelays, StoredRelay(t, r), r in t.outRelays, r in t.closedRelays); }
    }
    forall d | d in t.departed ensures Settled(t, d) { assert Settled(s, d); }
  }

  lemma RefusingKeepsOwnership(s: State, t: State, relay: Relay)
    requires OwnershipExact(s) && relay in s.heldRelays
    requires t == s.(heldRelays := s.heldRelays - {relay}, closedRelays := s.closedRelays + {relay})
    ensures OwnershipExact(t)
  {
    hide Stored, StoredRelay;
    HeldIsNotStored(s, relay);
    SameStored(s, t);
    forall d | d in t.departed ensures Settled(t, d) { assert Settled(s, d); }
  }

  lemma AttachKeepsOwnership(s: State, session: string, relay: Relay)
    requires OwnershipExact(s) && relay in s.heldRelays
    ensures OwnershipExact(AttachRelay(s, session, relay).0)
  {
    hide OwnershipExact;
    var t := AttachRelay(s, session, relay).0;
    if session in s.entries && s.entries[session].relay.None? {
      StoringKeepsOwnership(s, t, session, relay);
    } else {
      RefusingKeepsOwnership(s, t, relay);
    }
  }

  /** Removing one entry: what remains stored is what was stored, less its socket and relay. */
  lemma RemoveOne(s: State, t: State, session: string)
    requires OwnershipExact(s) && session in s.entries
    requires t.entries == s.entries - {session}
    ensures forall x :: Stored(t, x) <==> Stored(s, x) && x != s.entries[session].conn
    ensures forall r :: StoredRelay(t, r) <==> StoredRelay(s, r) && s.entries[session].relay != Some(r)
    ensures |t.entries| <= |s.entries|
  {
    MapShrinks(s.entries, {session});
    forall x ensures Stored(t, x) <==> Stored(s, x) && x != s.entries[session].conn {
      if k :| k in s.entries && s.entries[k].conn == x {
        if k != session { assert t.entries[k].conn == x; }
      }
      if k :| k in t.entries && t.entries[k].conn == x { assert s.entries[k].conn == x; }
    }
    forall r ensures StoredRelay(t, r) <==> StoredRelay(s, r) && s.entries[session].relay != Some(r) {
      if k :| k in s.entries && s.entries[k].relay == Some(r) {
        if k != session { assert t.entries[k].relay == Some(r); }
      }
      if k :| k in t.entries && t.entries[k].relay == Some(r) { assert s.entries[k].relay == Some(r); }
    }
  }

  lemma TransferSocketKeepsOwnership(s: State, session: string, conn: Socket)
    requires OwnershipExact(s)
    ensures OwnershipExact(TransferSocket(s, session, conn))
  {
    var t := TransferSocket(s, session, conn);
    if session in s.entries && s.entries[session].conn == conn {
      RemoveOne(s, t, session);
      assert Stored(s, conn);
      if s.entries[session].relay.Some? { assert StoredRelay(s, s.entries[session].relay.value); }
      hide Stored, StoredRelay;
      SettledAfterRemoval(s, t);
      forall x ensures Sole(x in t.held, Stored(t, x), x in t.outSockets, x in t.closedSockets) {
        assert Sole(x in s.held, Stored(s, x), x in s.outSockets, x in s.closedSockets);
      }
      forall r ensures Sole(r in t.heldRelays, StoredRelay(t, r), r in t.outRelays, r in t.closedRelays) {
        assert Sole(r in s.heldRelays, StoredRelay(s, r), r in s.outRelays, r in s.closedRelays);
      }
    }
  }

  lemma TransferRelayKeepsOwnership(s: State, session: string, relay: Relay)
    requires OwnershipExact(s)
    ensures OwnershipExact(TransferRelay(s, session, relay))
  {
    var t := TransferRelay(s, session, relay);
    if session in s.entries && s.entries[session].relay == Some(relay) {
      RemoveOne(s, t, session);
      assert Stored(s, s.entries[session].conn);
      assert StoredRelay(s, relay);
      hide Stored, StoredRelay;
      SettledAfterRemoval(s, t);
      forall x ensures Sole(x in t.held, Stored(t, x), x in t.outSockets, x in t.closedSockets) {
        assert Sole(x in s.held, Stored(s, x), x in s.outSockets, x in s.closedSockets);
      }
      forall r ensures Sole(r in t.heldRelays, StoredRelay(t, r), r in t.outRelays, r in t.closedRelays) {
        assert Sole(r in s.heldRelays, StoredRelay(s, r), r in s.outRelays, r in s.closedRelays);
      }
    }
  }

  /** Departures stay settled as the outcome sets grow. */
  lemma SettledAfterRemoval(s: State, t: State)
    requires forall d | d in s.departed :: Settled(s, d)
    requires s.outSockets <= t.outSockets && s.closedSockets <= t.closedSockets
    requires s.outRelays <= t.outRelays && s.closedRelays <= t.closedRelays
    ensures forall d | d in s.departed :: Settled(t, d)
  {
    forall d | d in s.departed ensures Settled(t, d) { assert Settled(s, d); }
  }

  /** Steps that move a socket or relay in or out of a running call. */
  lemma HeldKeepsOwnership(s: State, op: Op)
    requires OwnershipExact(s) && Allowed(s, op)
    requires op.Bind? || op.Abandon? || op.Allocate? || op.Discard? || op.Unreserve?
    ensures OwnershipExact(Step(s, op))
  {
    var t := Step(s, op);
    SameStored(s, t);
    forall x ensures Sole(x in t.held, Stored(t, x), x in t.outSockets, x in t.closedSockets) {
      assert Sole(x in s.held, Stored(s, x), x in s.outSockets, x in s.closedSockets);
    }
    forall r ensures Sole(r in t.heldRelays, StoredRelay(t, r), r in t.outRelays, r in t.closedRelays) {
      assert Sole(r in s.heldRelays, StoredRelay(s, r), r in s.outRelays, r in s.closedRelays);
    }
    forall d | d in t.departed ensures Settled(t, d) { assert Settled(s, d); }
  }

  lemma StepKeepsOwnership(s: State, op: Op)
    requires OwnershipExact(s)
    ensures OwnershipExact(Step(s, op))
  {
    hide OwnershipExact, Drop;
    if Allowed(s, op) {
      match op
      case DoReserve(session, now) =>
        ExpireKeepsOwnership(s, now);
        ReserveKeepsOwnership(Expire(s, now), session, Step(s, op));
      case Unreserve(_, _) | Bind(_) | Abandon(_) | Allocate(_) | Discard(_) => HeldKeepsOwnership(s, op);
      case DoCommit(session, x, now) => CommitKeepsOwnership(s, session, x, now);
      case DoAttach(session, r) => AttachKeepsOwnership(s, session, r);
      case DoClaim(session, now) => ClaimKeepsOwnership(s, session, now);
      case DoLookupSocket(session, now) =>
        ExpireKeepsOwnership(s, now);
        var m := Expire(s, now);
        if session in m.entries { TouchKeepsOwnership(m, session, m.entries[session].(expires := now + PREPARED_TTL)); }
      case DoLookupRelay(session, now) =>
        ExpireKeepsOwnership(s, now);
        var m := Expire(s, now);
        if session in m.entries { TouchKeepsOwnership(m, session, m.entries[session].(expires := now + PREPARED_TTL)); }
      case DoTransferSocket(session, x) => TransferSocketKeepsOwnership(s, session, x);
      case DoTransferRelay(session, r) => TransferRelayKeepsOwnership(s, session, r);
      case DoCancel(session) => if session in s.entries { DropKeepsOwnership(s, {session}); }
      case DoExpireSession(session, x, now) => if session in s.entries { DropKeepsOwnership(s, {session}); }
      case DoCloseAll =>
        DropKeepsOwnership(s, s.entries.Keys);
        ReserveKeepsOwnership(Drop(s, s.entries.Keys), "", Step(s, op));
    }
  }

  lemma ReserveKeepsOwnership(m: State, session: string, t: State)
    requires OwnershipExact(m) && t == m.(preparing := t.preparing)
    ensures OwnershipExact(t)
  {
    SameStored(m, t);
    forall d | d in t.departed ensures Settled(t, d) { assert Settled(m, d); }
  }

  /** Main result: ownership is exact after every run of interleaved calls, timers and closes. */
  lemma {:induction false} OwnershipOverRuns(ops: seq<Op>)
    ensures OwnershipExact(Run(ops))
    decreases |ops|
  {
    if ops != [] {
      OwnershipOverRuns(ops[..|ops| - 1]);
      StepKeepsOwnership(Run(ops[..|ops| - 1]), ops[|ops| - 1]);
    }
  }

  ghost predicate Grown(s: State, t: State) {
    && s.closedSockets <= t.closedSockets && s.closedRelays <= t.closedRelays
    && s.outSockets <= t.outSockets && s.outRelays <= t.outRelays
    && s.claims <= t.claims && s.departed <= t.departed
  }

  lemma DropGrows(s: State, gone: set<string>)
    requires gone <= s.entries.Keys
    ensures Grown(s, Drop(s, gone))
  {
  }

  lemma ExpireGrows(s: State, now: int)
    ensures Grown(s, Expire(s, now))
  {
    DropGrows(s, ExpiredKeys(s, now));
  }

  /** What has been closed or handed over stays so, and claims are never forgotten. */
  lemma OutcomesAreFinal(s: State, op: Op)
    ensures Grown(s, Step(s, op))
  {
    hide Drop, Expire, Known, KnownRelay;
    match op
    case DoReserve(_, now) => ExpireGrows(s, now);
    case DoCommit(_, _, now) => ExpireGrows(s, now);
    case DoClaim(_, now) => ExpireGrows(s, now);
    case DoLookupSocket(_, now) => ExpireGrows(s, now);
    case DoLookupRelay(_, now) => ExpireGrows(s, now);
    case DoCancel(session) => if session in s.entries { DropGrows(s, {session}); }
    case DoExpireSession(session, _, _) => if session in s.entries { DropGrows(s, {session}); }
    case DoCloseAll => DropGrows(s, s.entries.Keys);
    case _ =>
  }

  /** A handed-over socket is never closed by the manager, whatever follows. */
  lemma {:induction false} HandedOverStaysOpen(ops: seq<Op>, more: seq<Op>, x: Socket)
    requires x in Run(ops).outSockets
    ensures x in Run(ops + more).outSockets && x !in Run(ops + more).closedSockets
    decreases |more|
  {
    var all := ops + more;
    OwnershipOverRuns(all);
    assert Sole(x in Run(all).held, Stored(Run(all), x), x in Run(all).outSockets, x in Run(all).closedSockets)
      || x !in Run(all).outSockets;
    if more == [] {
      assert all == ops;
    } else {
      assert all[..|all| - 1] == ops + more[..|more| - 1];
      HandedOverStaysOpen(ops, more[..|more| - 1], x);
      OutcomesAreFinal(Run(all[..|all| - 1]), all[|all| - 1]);
    }
  }

  /** A claim is granted only for a socket never claimed before, so at most once per entry. */
  lemma ClaimsWinOnce(ops: seq<Op>, session: string, now: int)
    ensures var (after, won) := Claim(Run(ops), session, now);
            won.Some? ==> won.value !in Run(ops).claims && won.value in after.claims
  {
    OwnershipOverRuns(ops);
    ExpireKeepsOwnership(Run(ops), now);
  }

  /** No time-to-live ever removes a claimed entry. */
  lemma ClaimedSurvivesExpiry(s: State, session: string, other: string, conn: Socket, now: int)
    requires session in s.entries && s.entries[session].claimed
    ensures session in Expire(s, now).entries && Expire(s, now).entries[session] == s.entries[session]
    ensures session in ExpireSession(s, other, conn, now).entries
    ensures ExpireSession(s, other, conn, now).entries[session] == s.entries[session]
  {
  }

  lemma DropClosesStored(s: State, gone: set<string>, x: Socket)
    requires gone <= s.entries.Keys && x in Drop(s, gone).closedSockets && x !in s.closedSockets
    ensures Stored(s, x)
  {
    var k :| k in gone && s.entries[k].conn == x;
  }

  lemma ExpireClosesStored(s: State, now: int, x: Socket)
    ensures x in Expire(s, now).closedSockets && x !in s.closedSockets ==> Stored(s, x)
  {
    if x in Expire(s, now).closedSockets && x !in s.closedSockets { DropClosesStored(s, ExpiredKeys(s, now), x); }
  }

  lemma ClosesStoredOrHeld(s: State, op: Op, x: Socket)
    requires x in Step(s, op).closedSockets && x !in s.closedSockets
    ensures x in s.held || Stored(s, x)
  {
    hide Drop, ExpiredKeys, Stored, Known, KnownRelay;
    match op
    case DoReserve(_, now) => ExpireClosesStored(s, now, x);
    case DoClaim(_, now) => ExpireClosesStored(s, now, x);
    case DoLookupSocket(_, now) => ExpireClosesStored(s, now, x);
    case DoLookupRelay(_, now) => ExpireClosesStored(s, now, x);
    case DoCommit(_, conn, now) => ExpireClosesStored(s, now, x);
    case DoCancel(session) => DropClosesStored(s, {session}, x);
    case DoExpireSession(session, _, _) => DropClosesStored(s, {session}, x);
    case DoCloseAll => DropClosesStored(s, s.entries.Keys, x);
    case DoTransferRelay(session, _) => EntryIsStored(s, session);
    case Abandon(_) =>
  }

  lemma EntryIsStored(s: State, session: string)
    requires session in s.entries
    ensures Stored(s, s.entries[session].conn)
  {
  }

  /** Every step closes only what the manager itself still owned, so nothing is closed twice or after hand-over. */
  lemma ClosesOnlyItsOwn(s: State, op: Op, x: Socket)
    requires OwnershipExact(s)
    requires x in Step(s, op).closedSockets && x !in s.closedSockets
    ensures x in s.held || Stored(s, x)
    ensures x !in s.outSockets
  {
    assert Sole(x in s.held, Stored(s, x), x in s.outSockets, x in s.closedSockets);
    hide OwnershipExact, Step, Stored;
    ClosesStoredOrHeld(s, op, x);
  }

  // ----- hand-over after a claim, with anything in between -----

  /** The operation takes the entry that holds this socket out of the store. */
  ghost predicate TakesOut(s: State, op: Op, session: string, conn: Socket) {
    match op
    case DoCancel(x) => x == session
    case DoCloseAll => true
    case DoTransferSocket(x, c) => x == session && c == conn
    case DoTransferRelay(x, r) => x == session && session in s.entries && s.entries[session].relay == Some(r)
    case _ => false
  }

  ghost predicate Claimed(s: State, session: string, conn: Socket) {
    session in s.entries && s.entries[session].conn == conn && s.entries[session].claimed
  }

  /** The socket went to a session or was closed, so it is never stored again. */
  ghost predicate Gone(s: State, conn: Socket) {
    conn in s.outSockets || conn in s.closedSockets
  }

  ghost predicate RelayGone(s: State, r: Relay) {
    r in s.outRelays || r in s.closedRelays
  }

  lemma DropSpares(s: State, gone: set<string>, session: string)
    requires gone <= s.entries.Keys && session in s.entries && session !in gone
    ensures session in Drop(s, gone).entries && Drop(s, gone).entries[session] == s.entries[session]
  {
  }

  lemma LeavingStep(s: State, op: Op, session: string, conn: Socket)
    requires Claimed(s, session, conn) && !TakesOut(s, op, session, conn)
    ensures Claimed(Step(s, op), session, conn)
    ensures s.entries[session].relay.Some? ==> Step(s, op).entries[session].relay == s.entries[session].relay
  {
    hide Known, KnownRelay, Drop, Expire, ExpireSession;
    match op
    case DoReserve(_, now) => ClaimedSurvivesExpiry(s, session, session, conn, now);
    case DoCommit(_, _, now) => ClaimedSurvivesExpiry(s, session, session, conn, now);
    case DoClaim(_, now) => ClaimedSurvivesExpiry(s, session, session, conn, now);
    case DoLookupSocket(_, now) => ClaimedSurvivesExpiry(s, session, session, conn, now);
    case DoLookupRelay(_, now) => ClaimedSurvivesExpiry(s, session, session, conn, now);
    case DoExpireSession(x, c, now) => ClaimedSurvivesExpiry(s, session, x, c, now);
    case DoCancel(x) => if x in s.entries { DropSpares(s, {x}, session); }
    case _ =>
  }

  lemma TakingStep(s: State, op: Op, session: string, conn: Socket)
    requires Claimed(s, session, conn) && TakesOut(s, op, session, conn)
    ensures Gone(Step(s, op), conn)
    ensures s.entries[session].relay.Some? ==> RelayGone(Step(s, op), s.entries[session].relay.value)
  {
    hide Known, KnownRelay;
  }

  /** Only those operations take a claimed entry out; every other one leaves it, and a relay it has, alone. */
  lemma ClaimedStep(s: State, op: Op, session: string, conn: Socket)
    requires OwnershipExact(s) && Claimed(s, session, conn)
    ensures !TakesOut(s, op, session, conn) ==>
              Claimed(Step(s, op), session, conn)
              && (s.entries[session].relay.Some? ==> Step(s, op).entries[session].relay == s.entries[session].relay)
    ensures TakesOut(s, op, session, conn) ==>
              Gone(Step(s, op), conn)
              && (s.entries[session].relay.Some? ==> RelayGone(Step(s, op), s.entries[session].relay.value))
  {
    hide OwnershipExact, Step, TakesOut, Gone, RelayGone;
    if TakesOut(s, op, session, conn) { TakingStep(s, op, session, conn); } else { LeavingStep(s, op, session, conn); }
  }

  lemma GoneIsNotStored(s: State, session: string, conn: Socket)
    requires OwnershipExact(s) && Gone(s, conn)
    ensures session in s.entries ==> s.entries[session].conn != conn
  {
    assert Sole(conn in s.held, Stored(s, conn), conn in s.outSockets, conn in s.closedSockets);
    if session in s.entries { EntryIsStored(s, session); }
  }

  lemma RelayGoneIsNotStored(s: State, session: string, r: Relay)
    requires OwnershipExact(s) && RelayGone(s, r)
    ensures session in s.entries ==> s.entries[session].relay != Some(r)
  {
    assert Sole(r in s.heldRelays, StoredRelay(s, r), r in s.outRelays, r in s.closedRelays);
  }

  lemma GoneStays(s: State, op: Op, conn: Socket, relay: Option<Relay>)
    requires Gone(s, conn) && (relay.Some? ==> RelayGone(s, relay.value))
    ensures Gone(Step(s, op), conn) && (relay.Some? ==> RelayGone(Step(s, op), relay.value))
  {
    OutcomesAreFinal(s, op);
    hide Step;
  }

  /** From operation n of a run on, nothing takes the entry out. */
  ghost predicate LeftAlone(ops: seq<Op>, n: nat, session: string, conn: Socket) {
    forall k | n <= k < |ops| :: !TakesOut(Run(ops[..k]), ops[k], session, conn)
  }

  lemma LeftAlonePrefix(ops: seq<Op>, n: nat, session: string, conn: Socket)
    requires n < |ops|
    ensures LeftAlone(ops, n, session, conn) <==>
              LeftAlone(ops[..|ops| - 1], n, session, conn) && !TakesOut(Run(ops[..|ops| - 1]), ops[|ops| - 1], session, conn)
  {
    hide TakesOut, Run;
    var prior := ops[..|ops| - 1];
    assert forall k | n <= k < |prior| :: prior[..k] == ops[..k] && prior[k] == ops[k];
  }

  lemma NothingYet(ops: seq<Op>, session: string, conn: Socket)
    ensures LeftAlone(ops, |ops|, session, conn)
  {
  }

  lemma RunLast(ops: seq<Op>, op: Op)
    ensures Run(ops + [op]) == Step(Run(ops), op)
  {
    assert (ops + [op])[..|ops|] == ops;
  }

  /** The claimed entry, with a relay it had, is still there exactly when nothing took it out; otherwise both are gone for good. */
  lemma {:induction false} ClaimedWhileLeftAlone(ops: seq<Op>, n: nat, session: string, conn: Socket)
    requires n <= |ops| && Claimed(Run(ops[..n]), session, conn)
    ensures var relay := Run(ops[..n]).entries[session].relay;
            && (LeftAlone(ops, n, session, conn) ==>
                  Claimed(Run(ops), session, conn) && (relay.Some? ==> Run(ops).entries[session].relay == relay))
            && (!LeftAlone(ops, n, session, conn) ==>
                  Gone(Run(ops), conn) && (relay.Some? ==> RelayGone(Run(ops), relay.value)))
    decreases |ops|
  {
    hide OwnershipExact, Step, TakesOut, Gone, RelayGone, Run, LeftAlone;
    if n == |ops| {
      assert ops[..n] == ops;
      NothingYet(ops, session, conn);
    } else {
      var m := |ops| - 1;
      var prior := ops[..m];
      assert prior[..n] == ops[..n];
      ClaimedWhileLeftAlone(prior, n, session, conn);
      OwnershipOverRuns(prior);
      LeftAlonePrefix(ops, n, session, conn);
      RunLast(prior, ops[m]);
      assert prior + [ops[m]] == ops;
      if LeftAlone(prior, n, session, conn) {
        ClaimedStep(Run(prior), ops[m], session, conn);
      } else {
        GoneStays(Run(prior), ops[m], conn, Run(ops[..n]).entries[session].relay);
      }
    }
  }

  /** A granted claim marks the entry it returns the socket of. */
  lemma ClaimGrants(ops: seq<Op>, session: string, now: int)
    requires Claim(Run(ops), session, now).1.Some?
    ensures Claimed(Run(ops + [DoClaim(session, now)]), session, Claim(Run(ops), session, now).1.value)
  {
    RunLast(ops, DoClaim(session, now));
    hide Expire, Run;
  }

  /** What the winner of the claim does with its result, in one critical section of its own. */
  datatype Connected = Direct | ViaRelay(relay: Relay) | NotConnected

  function Settle(s: State, session: string, conn: Socket, outcome: Connected): State {
    match outcome
    case Direct => TransferSocket(s, session, conn)
    case ViaRelay(r) => TransferRelay(s, session, r)
    case NotConnected => Cancel(s, session)
  }

  /** One half handed over just now and the other closed, or both closed when nothing connected. */
  ghost predicate OneHalf(e: Entry, outcome: Connected, before: State, after: State) {
    match outcome
    case Direct =>
      e.conn in after.outSockets && e.conn !in before.outSockets && e.conn !in after.closedSockets
      && RelaysOf(e.relay) <= after.closedRelays
    case ViaRelay(r) =>
      r in after.outRelays && r !in before.outRelays && r !in after.closedRelays && e.conn in after.closedSockets
    case NotConnected => e.conn in after.closedSockets && RelaysOf(e.relay) <= after.closedRelays
  }

  lemma SettleOneHalf(m: State, session: string, conn: Socket, outcome: Connected)
    requires OwnershipExact(m) && Claimed(m, session, conn)
    requires outcome.ViaRelay? ==> m.entries[session].relay == Some(outcome.relay)
    ensures session !in Settle(m, session, conn, outcome).entries
    ensures OneHalf(m.entries[session], outcome, m, Settle(m, session, conn, outcome))
  {
    var e := m.entries[session];
    assert Stored(m, e.conn);
    assert Sole(e.conn in m.held, Stored(m, e.conn), e.conn in m.outSockets, e.conn in m.closedSockets);
    if e.relay.Some? {
      var r := e.relay.value;
      assert StoredRelay(m, r);
      assert Sole(r in m.heldRelays, StoredRelay(m, r), r in m.outRelays, r in m.closedRelays);
    }
  }

  /** The session's entry has this relay. */
  predicate HasRelay(s: State, session: string, r: Relay) {
    session in s.entries && s.entries[session].relay == Some(r)
  }

  /**
   * With its own entry gone the winner hands no socket over. A cancel drops whatever was prepared
   * under the same session since, and a relay goes out exactly when that later entry has it: the
   * entry is another's, and its socket is closed.
   */
  lemma SettleTooLate(m: State, session: string, conn: Socket, outcome: Connected)
    requires OwnershipExact(m) && Gone(m, conn)
    ensures var after := Settle(m, session, conn, outcome);
            match outcome
            case Direct => after == m
            case NotConnected => after == if session in m.entries then Drop(m, {session}) else m
            case ViaRelay(r) =>
              && (after != m <==> HasRelay(m, session, r))
              && (after != m ==> TakesFromSuccessor(m, after, session, conn, r))
  {
    GoneIsNotStored(m, session, conn);
    if outcome.ViaRelay? && HasRelay(m, session, outcome.relay) {
      RelayLeaves(m, session, outcome.relay);
    }
    hide OwnershipExact, Drop;
  }

  /** The relay of another's entry is handed over and that entry's socket closed. */
  ghost predicate TakesFromSuccessor(before: State, after: State, session: string, conn: Socket, r: Relay) {
    && session in before.entries && before.entries[session].conn != conn && session !in after.entries
    && r in after.outRelays && r !in before.outRelays
    && before.entries[session].conn in after.closedSockets && before.entries[session].conn !in before.closedSockets
  }

  lemma RelayLeaves(m: State, session: string, r: Relay)
    requires OwnershipExact(m) && HasRelay(m, session, r)
    ensures r !in m.outRelays && m.entries[session].conn !in m.closedSockets
  {
    var x := m.entries[session].conn;
    EntryIsStored(m, session);
    assert StoredRelay(m, r);
    assert Sole(x in m.held, Stored(m, x), x in m.outSockets, x in m.closedSockets);
    assert Sole(r in m.heldRelays, StoredRelay(m, r), r in m.outRelays, r in m.closedRelays);
  }

  /** The run in which a claim was granted, and everything that came after it. */
  function Establishing(ops: seq<Op>, session: string, now: int, between: seq<Op>): seq<Op> {
    ops + [DoClaim(session, now)] + between
  }

  /** The relay the winner connects through is what operation l, its lookup by session, returned. */
  ghost predicate LookedUp(all: seq<Op>, l: nat, session: string, relay: Relay)
    requires l < |all|
  {
    && all[l].DoLookupRelay? && all[l].session == session
    && LookupRelay(Run(all[..l]), session, all[l].now).1 == Some(relay)
  }

  lemma LookupFinds(all: seq<Op>, l: nat, session: string, relay: Relay)
    requires l < |all| && LookedUp(all, l, session, relay)
    ensures HasRelay(Run(all[..l + 1]), session, relay)
  {
    assert all[..l + 1] == all[..l] + [all[l]];
    RunLast(all[..l], all[l]);
    hide Run, Expire;
  }

  /** A stored relay stays with its session's entry until it is handed over or closed. */
  lemma RelayStep(s: State, op: Op, session: string, r: Relay)
    requires HasRelay(s, session, r)
    ensures HasRelay(Step(s, op), session, r) || RelayGone(Step(s, op), r)
  {
    hide Known, KnownRelay, Drop, Expire;
    match op
    case DoReserve(_, now) => ExpireOrKeep(s, now, session, r);
    case DoCommit(_, _, now) => ExpireOrKeep(s, now, session, r);
    case DoClaim(_, now) => ExpireOrKeep(s, now, session, r);
    case DoLookupSocket(_, now) => ExpireOrKeep(s, now, session, r);
    case DoLookupRelay(_, now) => ExpireOrKeep(s, now, session, r);
    case DoExpireSession(x, _, _) => if x in s.entries { DropOrKeep(s, {x}, session, r); }
    case DoCancel(x) => if x in s.entries { DropOrKeep(s, {x}, session, r); }
    case DoCloseAll => DropOrKeep(s, s.entries.Keys, session, r);
    case _ =>
  }

  lemma DropOrKeep(s: State, gone: set<string>, session: string, r: Relay)
    requires gone <= s.entries.Keys && HasRelay(s, session, r)
    ensures if session in gone then r in Drop(s, gone).closedRelays else HasRelay(Drop(s, gone), session, r)
  {
    if session in gone {
      assert session in gone && s.entries[session].relay.Some? && s.entries[session].relay.value == r;
    }
  }

  lemma ExpireOrKeep(s: State, now: int, session: string, r: Relay)
    requires HasRelay(s, session, r)
    ensures HasRelay(Expire(s, now), session, r) || r in Expire(s, now).closedRelays
  {
    DropOrKeep(s, ExpiredKeys(s, now), session, r);
  }

  lemma {:induction false} RelayHeldOrGone(all: seq<Op>, n: nat, session: string, r: Relay)
    requires n <= |all| && HasRelay(Run(all[..n]), session, r)
    ensures HasRelay(Run(all), session, r) || RelayGone(Run(all), r)
    decreases |all|
  {
    hide Step, HasRelay, RelayGone, Run;
    if n == |all| {
      assert all[..n] == all;
    } else {
      var m := |all| - 1;
      var prior := all[..m];
      assert prior[..n] == all[..n] && prior + [all[m]] == all;
      RelayHeldOrGone(prior, n, session, r);
      RunLast(prior, all[m]);
      if HasRelay(Run(prior), session, r) { RelayStep(Run(prior), all[m], session, r); } else { RelayStaysGone(Run(prior), all[m], r); }
    }
  }

  lemma RelayStaysGone(s: State, op: Op, r: Relay)
    requires RelayGone(s, r)
    ensures RelayGone(Step(s, op), r)
  {
    OutcomesAreFinal(s, op);
    hide Step;
  }

  /** A relay looked up while the claimed entry was there is that entry's own, and shares its fate. */
  lemma OwnRelay(all: seq<Op>, n: nat, l: nat, session: string, conn: Socket, relay: Relay)
    requires n <= l < |all| && Claimed(Run(all[..n]), session, conn) && LookedUp(all, l, session, relay)
    requires LeftAlone(all[..l], n, session, conn)
    ensures LeftAlone(all, n, session, conn) ==> Claimed(Run(all), session, conn) && Run(all).entries[session].relay == Some(relay)
    ensures !LeftAlone(all, n, session, conn) ==> RelayGone(Run(all), relay)
  {
    hide OwnershipExact, TakesOut, Gone, RelayGone, Run, LookedUp, LeftAlone;
    var after := all[..l + 1];
    assert after[..n] == all[..n] && after[..l] == all[..l] && after[|after| - 1] == all[l];
    LookupFinds(all, l, session, relay);
    LookupTakesNothingOut(all, l, session, relay, conn);
    LeftAlonePrefix(after, n, session, conn);
    ClaimedWhileLeftAlone(after, n, session, conn);
    ClaimedWhileLeftAlone(all, l + 1, session, conn);
    LeftAloneSplits(all, n, l + 1, session, conn);
  }

  lemma LookupTakesNothingOut(all: seq<Op>, l: nat, session: string, relay: Relay, conn: Socket)
    requires l < |all| && LookedUp(all, l, session, relay)
    ensures !TakesOut(Run(all[..l]), all[l], session, conn)
  {
  }

  lemma LeftAloneSplits(all: seq<Op>, n: nat, l: nat, session: string, conn: Socket)
    requires n <= l <= |all| && LeftAlone(all[..l], n, session, conn)
    ensures LeftAlone(all, n, session, conn) <==> LeftAlone(all, l, session, conn)
  {
    hide TakesOut, Run;
    assert forall k | n <= k < l :: all[..l][..k] == all[..k] && all[..l][k] == all[k];
  }

  lemma LeftAloneStart(all: seq<Op>, n: nat, l: nat, session: string, conn: Socket)
    requires n <= l <= |all| && LeftAlone(all, n, session, conn)
    ensures LeftAlone(all[..l], n, session, conn)
  {
    hide TakesOut, Run;
    assert forall k | n <= k < l :: all[..l][..k] == all[..k] && all[..l][k] == all[k];
  }

  /**
   * Main result. A claim was granted, and a relay, if the winner connected through one, was looked
   * up by session after that. Whatever else ran in between, the winner's last step hands over
   * exactly the half of its own entry that connected, and closes the other, if and only if no
   * cancel, no matching transfer of that session and no close of the manager came between.
   * Otherwise its socket is closed or was handed over before. A cancel then drops whatever was
   * prepared under the session since. A relay then goes out exactly when the session's present
   * entry has it: that entry is another's, it was looked up after the winner's own was gone, and
   * its socket is closed. In every other case nothing happens.
   */
  lemma EstablishmentOwnsOneHalf(ops: seq<Op>, session: string, now: int, between: seq<Op>, l: nat, outcome: Connected)
    requires Claim(Run(ops), session, now).1.Some?
    requires outcome.ViaRelay? ==>
               |ops| < l < |Establishing(ops, session, now, between)|
               && LookedUp(Establishing(ops, session, now, between), l, session, outcome.relay)
    ensures var all, conn := Establishing(ops, session, now, between), Claim(Run(ops), session, now).1.value;
            var before, after := Run(all), Settle(Run(all), session, conn, outcome);
            && (LeftAlone(all, |ops| + 1, session, conn) ==>
                  Claimed(before, session, conn) && session !in after.entries && OneHalf(before.entries[session], outcome, before, after))
            && (!LeftAlone(all, |ops| + 1, session, conn) ==>
                  Gone(before, conn) && TooLate(all, |ops| + 1, l, session, conn, outcome, before, after))
  {
    var all, conn := Establishing(ops, session, now, between), Claim(Run(ops), session, now).1.value;
    assert all[..|ops| + 1] == ops + [DoClaim(session, now)];
    ClaimGrants(ops, session, now);
    OwnershipOverRuns(all);
    hide OwnershipExact, Claim, Run, LeftAlone, Gone, OneHalf, Settle, Drop, Claimed, LookedUp;
    ClaimedWhileLeftAlone(all, |ops| + 1, session, conn);
    if LeftAlone(all, |ops| + 1, session, conn) {
      if outcome.ViaRelay? {
        LeftAloneStart(all, |ops| + 1, l, session, conn);
        OwnRelay(all, |ops| + 1, l, session, conn, outcome.relay);
      }
      SettleOneHalf(Run(all), session, conn, outcome);
    } else {
      SettleTooLate(Run(all), session, conn, outcome);
      if outcome.ViaRelay? { RelayTooLate(all, |ops| + 1, l, session, conn, outcome.relay); }
    }
  }

  /** What the winner's last step does once its own entry was taken out. */
  ghost predicate TooLate(all: seq<Op>, n: nat, l: nat, session: string, conn: Socket, outcome: Connected, before: State, after: State) {
    match outcome
    case Direct => after == before
    case NotConnected => after == if session in before.entries then Drop(before, {session}) else before
    case ViaRelay(r) =>
      && (after != before <==> HasRelay(before, session, r))
      && (after != before ==> TakesFromSuccessor(before, after, session, conn, r))
      && (after == before ==> RelayGone(before, r))
      && l <= |all| && (LeftAlone(all[..l], n, session, conn) ==> after == before)
  }

  lemma RelayTooLate(all: seq<Op>, n: nat, l: nat, session: string, conn: Socket, r: Relay)
    requires n <= l < |all| && Claimed(Run(all[..n]), session, conn) && LookedUp(all, l, session, r)
    requires !LeftAlone(all, n, session, conn)
    ensures HasRelay(Run(all), session, r) || RelayGone(Run(all), r)
    ensures LeftAlone(all[..l], n, session, conn) ==> RelayGone(Run(all), r) && !HasRelay(Run(all), session, r)
  {
    hide OwnershipExact, Run, LeftAlone, Claimed, LookedUp, RelayGone;
    LookupFinds(all, l, session, r);
    RelayHeldOrGone(all, l + 1, session, r);
    if LeftAlone(all[..l], n, session, conn) {
      OwnRelay(all, n, l, session, conn, r);
      OwnershipOverRuns(all);
      RelayGoneIsNotStored(Run(all), session, r);
    }
  }

  /**
   * Who loses a claim and what that does, at any point of any run: the session was claimed, expired
   * or never prepared, every claimed entry stays as it was, and no claimed socket is closed.
   */
  lemma LoserLeavesWinners(ops: seq<Op>, session: string, now: int)
    ensures var s := Run(ops);
            var (after, won) := Claim(s, session, now);
            && (won.None? <==> session !in s.entries || s.entries[session].claimed || IsExpired(s.entries[session], now))
            && (won.None? ==>
                  && (forall k | k in s.entries && s.entries[k].claimed :: k in after.entries && after.entries[k] == s.entries[k])
                  && after.claims == s.claims && after.outSockets == s.outSockets && after.outRelays == s.outRelays
                  && (forall x | x in after.closedSockets && x !in s.closedSockets :: x !in s.claims))
  {
    var s := Run(ops);
    OwnershipOverRuns(ops);
    hide Run;
    forall x | x in Expire(s, now).closedSockets && x !in s.closedSockets ensures x !in s.claims {
      var k :| k in ExpiredKeys(s, now) && s.entries[k].conn == x;
    }
  }

  /** A run in which a cancel comes between: the winner is left with a session over a closed socket. */
  lemma CancelBeforeHandOver()
    ensures var ops := [DoReserve("s", 0), Bind(7), DoCommit("s", 7, 0)];
            var all := Establishing(ops, "s", 1, [DoCancel("s")]);
            && Claim(Run(ops), "s", 1).1 == Some(7)
            && Settle(Run(all), "s", 7, Direct) == Run(all)
            && 7 in Run(all).closedSockets && 7 !in Run(all).outSockets
  {
    hide Run, OwnershipExact;
    var ops := [DoReserve("s", 0), Bind(7), DoCommit("s", 7, 0)];
    PreparedRun();
    RunLast(ops, DoClaim("s", 1));
    RunLast(ops + [DoClaim("s", 1)], DoCancel("s"));
    NothingExpires(Run(ops), 1);
    var claimed := Run(ops + [DoClaim("s", 1)]);
    assert claimed.entries == map["s" := Entry(7, None, PREPARED_TTL, true)];
    assert claimed.entries["s"].conn in Drop(claimed, {"s"}).closedSockets;
  }

  /** The state after some more operations. */
  ghost function Steps(s: State, more: seq<Op>): State
    decreases |more|
  {
    if more == [] then s else Steps(Step(s, more[0]), more[1..])
  }

  lemma {:induction false} RunSteps(ops: seq<Op>, more: seq<Op>)
    ensures Run(ops + more) == Steps(Run(ops), more)
    decreases |more|
  {
    hide Step;
    if more == [] {
      assert ops + more == ops;
    } else {
      RunLast(ops, more[0]);
      RunSteps(ops + [more[0]], more[1..]);
      assert (ops + [more[0]]) + more[1..] == ops + more;
    }
  }

  lemma StepsFirst(s: State, op: Op, more: seq<Op>)
    ensures Steps(s, [op] + more) == Steps(Step(s, op), more)
  {
    assert ([op] + more)[1..] == more;
  }

  const CLAIMED_ONCE := INITIAL.(preparing := {"s"}, entries := map["s" := Entry(7, None, PREPARED_TTL, true)], claims := {7})
  const CANCELLED := INITIAL.(claims := {7}, closedSockets := {7}, departed := {Departure(7, None, Dropped)})
  const PREPARED_AGAIN := CANCELLED.(entries := map["s" := Entry(8, None, PREPARED_TTL + 2, false)])
  const CLAIMED_AGAIN := CANCELLED.(entries := map["s" := Entry(8, Some(9), PREPARED_TTL + 2, true)], claims := {7, 8})

  const PREPARE_AGAIN: seq<Op> := [DoReserve("s", 2), Bind(8), DoCommit("s", 8, 2), Unreserve("s", true)]
  const CLAIM_AGAIN: seq<Op> := [Allocate(9), DoAttach("s", 9), DoClaim("s", 3)]

  lemma CancelsFirst()
    ensures Steps(CLAIMED_ONCE, [DoCancel("s"), Unreserve("s", true)]) == CANCELLED
  {
    var s := CLAIMED_ONCE;
    StepsFirst(s, DoCancel("s"), [Unreserve("s", true)]);
    StepsFirst(Step(s, DoCancel("s")), Unreserve("s", true), []);
    assert [DoCancel("s")] + [Unreserve("s", true)] == [DoCancel("s"), Unreserve("s", true)];
    assert [Unreserve("s", true)] + [] == [Unreserve("s", true)];
    var gone := Drop(s, {"s"});
    assert gone.closedSockets == {7} by { assert s.entries["s"].conn == 7; }
    assert gone.closedRelays == {};
    assert gone.departed == {Departure(7, None, Dropped)} by { assert s.entries["s"].conn == 7; }
    assert gone == CANCELLED.(preparing := {"s"});
    assert {"s"} - {"s"} == {};
  }

  lemma PreparesAgain()
    ensures Steps(CANCELLED, PREPARE_AGAIN) == PREPARED_AGAIN
  {
    var s := CANCELLED;
    var reserved := s.(preparing := {"s"});
    var bound := reserved.(held := {8});
    var stored := PREPARED_AGAIN.(preparing := {"s"});
    NothingExpires(s, 2);
    NothingExpires(bound, 2);
    hide Expire;
    assert Step(s, DoReserve("s", 2)) == reserved;
    assert !Known(reserved, 8);
    assert Step(reserved, Bind(8)) == bound;
    assert bound.held - {8} == {};
    assert Step(bound, DoCommit("s", 8, 2)) == stored;
    assert {"s"} - {"s"} == {};
    assert Step(stored, Unreserve("s", true)) == PREPARED_AGAIN;
    hide Step;
    StepsFirst(s, DoReserve("s", 2), PREPARE_AGAIN[1..]);
    StepsFirst(reserved, Bind(8), PREPARE_AGAIN[2..]);
    StepsFirst(bound, DoCommit("s", 8, 2), PREPARE_AGAIN[3..]);
    StepsFirst(stored, Unreserve("s", true), []);
    assert PREPARE_AGAIN == [DoReserve("s", 2)] + PREPARE_AGAIN[1..] && PREPARE_AGAIN[1..] == [Bind(8)] + PREPARE_AGAIN[2..];
    assert PREPARE_AGAIN[2..] == [DoCommit("s", 8, 2)] + PREPARE_AGAIN[3..] && PREPARE_AGAIN[3..] == [Unreserve("s", true)] + [];
  }

  lemma ClaimsAgain()
    ensures Steps(PREPARED_AGAIN, CLAIM_AGAIN) == CLAIMED_AGAIN
  {
    var s := PREPARED_AGAIN;
    var holding := s.(heldRelays := {9});
    var attached := s.(entries := map["s" := Entry(8, Some(9), PREPARED_TTL + 2, false)]);
    NothingExpires(attached, 3);
    hide Expire;
    assert !KnownRelay(s, 9);
    assert Step(s, Allocate(9)) == holding;
    assert holding.heldRelays - {9} == {};
    assert Step(holding, DoAttach("s", 9)) == attached;
    assert Step(attached, DoClaim("s", 3)) == CLAIMED_AGAIN;
    hide Step;
    StepsFirst(s, Allocate(9), CLAIM_AGAIN[1..]);
    StepsFirst(holding, DoAttach("s", 9), CLAIM_AGAIN[2..]);
    StepsFirst(attached, DoClaim("s", 3), []);
    assert CLAIM_AGAIN == [Allocate(9)] + CLAIM_AGAIN[1..] && CLAIM_AGAIN[1..] == [DoAttach("s", 9)] + CLAIM_AGAIN[2..];
    assert CLAIM_AGAIN[2..] == [DoClaim("s", 3)] + [];
  }

  lemma LooksUpSuccessor()
    ensures LookupRelay(CLAIMED_AGAIN, "s", 4) == (CLAIMED_AGAIN, Some(9))
  {
    NothingExpires(CLAIMED_AGAIN, 4);
    hide Expire;
  }

  /**
   * A run in which the session is prepared again after a cancel: the first winner looks up the
   * successor's relay, takes it, and the socket the second winner is using is closed.
   */
  lemma SuccessorLosesItsRelay()
    ensures var ops := [DoReserve("s", 0), Bind(7), DoCommit("s", 7, 0)];
            var between := [DoCancel("s"), Unreserve("s", true)] + PREPARE_AGAIN + CLAIM_AGAIN + [DoLookupRelay("s", 4)];
            var all := Establishing(ops, "s", 1, between);
            var after := Settle(Run(all), "s", 7, ViaRelay(9));
            && Claim(Run(ops), "s", 1).1 == Some(7)
            && LookedUp(all, |all| - 1, "s", 9)
            && Claimed(Run(all), "s", 8)
            && 9 in after.outRelays && 8 in after.closedSockets && "s" !in after.entries
  {
    hide Run, Step, LookupRelay, Expire;
    var ops := [DoReserve("s", 0), Bind(7), DoCommit("s", 7, 0)];
    var a := [DoCancel("s"), Unreserve("s", true)];
    var claimed := ops + [DoClaim("s", 1)];
    var upTo := claimed + a + PREPARE_AGAIN + CLAIM_AGAIN;
    FirstClaim();
    RunSteps(claimed, a);
    CancelsFirst();
    RunSteps(claimed + a, PREPARE_AGAIN);
    PreparesAgain();
    RunSteps(claimed + a + PREPARE_AGAIN, CLAIM_AGAIN);
    ClaimsAgain();
    assert Run(upTo) == CLAIMED_AGAIN;
    LooksUpSuccessor();
    RunLast(upTo, DoLookupRelay("s", 4));
    StepOfLookup(CLAIMED_AGAIN, "s", 4);
    var all := Establishing(ops, "s", 1, a + PREPARE_AGAIN + CLAIM_AGAIN + [DoLookupRelay("s", 4)]);
    assert all == upTo + [DoLookupRelay("s", 4)];
    assert all[..|all| - 1] == upTo;
  }

  lemma StepOfLookup(s: State, session: string, now: int)
    ensures Step(s, DoLookupRelay(session, now)) == LookupRelay(s, session, now).0
  {
    hide Expire;
  }

  lemma FirstClaim()
    ensures var ops := [DoReserve("s", 0), Bind(7), DoCommit("s", 7, 0)];
            Claim(Run(ops), "s", 1).1 == Some(7) && Run(ops + [DoClaim("s", 1)]) == CLAIMED_ONCE
  {
    hide Run;
    var ops := [DoReserve("s", 0), Bind(7), DoCommit("s", 7, 0)];
    PreparedRun();
    RunLast(ops, DoClaim("s", 1));
    NothingExpires(Run(ops), 1);
    hide Expire;
  }

  /** One socket bound and stored. */
  lemma PreparedRun()
    ensures Run([DoReserve("s", 0), Bind(7), DoCommit("s", 7, 0)])
         == INITIAL.(preparing := {"s"}, entries := map["s" := Entry(7, None, PREPARED_TTL, false)])
  {
    assert Run([]) == INITIAL;
    RunLast([], DoReserve("s", 0));
    RunLast([DoReserve("s", 0)], Bind(7));
    RunLast([DoReserve("s", 0), Bind(7)], DoCommit("s", 7, 0));
    hide Run, Step;
    assert [] + [DoReserve("s", 0)] == [DoReserve("s", 0)];
    assert [DoReserve("s", 0)] + [Bind(7)] == [DoReserve("s", 0), Bind(7)];
    assert [DoReserve("s", 0), Bind(7)] + [DoCommit("s", 7, 0)] == [DoReserve("s", 0), Bind(7), DoCommit("s", 7, 0)];
    FirstReservation();
    FirstSocket();
    FirstCommit();
  }

  lemma FirstReservation()
    ensures Step(INITIAL, DoReserve("s", 0)) == INITIAL.(preparing := {"s"})
  {
    NothingExpires(INITIAL, 0);
    hide Expire;
  }

  lemma FirstSocket()
    ensures Step(INITIAL.(preparing := {"s"}), Bind(7)) == INITIAL.(preparing := {"s"}, held := {7})
  {
    assert !Known(INITIAL.(preparing := {"s"}), 7);
  }

  lemma FirstCommit()
    ensures Step(INITIAL.(preparing := {"s"}, held := {7}), DoCommit("s", 7, 0))
         == INITIAL.(preparing := {"s"}, entries := map["s" := Entry(7, None, PREPARED_TTL, false)])
  {
    var s := INITIAL.(preparing := {"s"}, held := {7});
    NothingExpires(s, 0);
    hide Expire;
    assert s.held - {7} == {};
  }

  lemma NothingExpires(s: State, now: int)
    requires forall k | k in s.entries :: !IsExpired(s.entries[k], now)
    ensures Expire(s, now) == s
  {
    assert ExpiredKeys(s, now) == {};
  }

  // ----- closing the manager while calls are in flight -----

  /**
   * Calls of PrepareICE for a session that reserved and may still store a socket: they have neither
   * reached their second critical section nor returned without it. Close forgets the reservation,
   * not the call.
   */
  ghost function Flying(ops: seq<Op>, session: string): nat {
    if ops == [] then 0
    else
      var prior, last := ops[..|ops| - 1], ops[|ops| - 1];
      var before := Flying(prior, session);
      match last
      case DoReserve(x, now) => if x == session && Reserve(Run(prior), x, now).1.Reserved? then before + 1 else before
      case DoCommit(x, conn, _) => if x == session && conn in Run(prior).held && before > 0 then before - 1 else before
      case Unreserve(x, reached) => if x == session && !reached && before > 0 then before - 1 else before
      case _ => before
  }

  /** The second critical section belongs to a call that reserved and has not been through it. */
  ghost predicate Orderly(ops: seq<Op>) {
    forall k | 0 <= k < |ops| && ops[k].DoCommit? :: Flying(ops[..k], ops[k].session) > 0
  }

  /** No call of PrepareICE begins. */
  predicate NoNewCalls(more: seq<Op>) { forall op | op in more :: !op.DoReserve? }

  /** After the close nothing is stored again, unless a new call asks for it. */
  ghost predicate ClosedForGood(ops: seq<Op>) {
    forall more: seq<Op> | NoNewCalls(more) && Orderly(ops + [DoCloseAll] + more) :: Run(ops + [DoCloseAll] + more).entries == map[]
  }

  lemma FlyingLast(ops: seq<Op>, op: Op, session: string)
    requires !op.DoReserve?
    ensures Flying(ops + [op], session) <= Flying(ops, session)
    ensures !op.Unreserve? && !op.DoCommit? ==> Flying(ops + [op], session) == Flying(ops, session)
  {
    assert (ops + [op])[..|ops|] == ops;
  }

  lemma StoresOnlyByCommit(s: State, op: Op)
    requires s.entries == map[] && !op.DoCommit?
    ensures Step(s, op).entries == map[]
  {
    hide Known, KnownRelay;
  }

  lemma {:induction false} NothingFliesIn(ops: seq<Op>, more: seq<Op>)
    requires Run(ops).entries == map[] && NoNewCalls(more) && Orderly(ops + more)
    requires forall session :: Flying(ops, session) == 0
    ensures Run(ops + more).entries == map[] && forall session :: Flying(ops + more, session) == 0
    decreases |more|
  {
    var all := ops + more;
    if more == [] {
      assert all == ops;
    } else {
      var prior, last := more[..|more| - 1], more[|more| - 1];
      assert all == (ops + prior) + [last];
      assert all[..|all| - 1] == ops + prior && last in more;
      forall k | 0 <= k < |ops + prior| && (ops + prior)[k].DoCommit? ensures Flying((ops + prior)[..k], (ops + prior)[k].session) > 0 {
        assert all[..k] == (ops + prior)[..k] && all[k] == (ops + prior)[k];
      }
      NothingFliesIn(ops, prior);
      hide Step;
      forall session ensures Flying(all, session) == 0 { FlyingLast(ops + prior, last, session); }
      assert all[|all| - 1] == last;
      assert !last.DoCommit?;
      StoresOnlyByCommit(Run(ops + prior), last);
    }
  }

  lemma {:induction false} Beyond(taken: set<nat>) returns (x: nat)
    ensures forall y | y in taken :: y < x
  {
    if taken == {} {
      x := 0;
    } else {
      var y :| y in taken;
      var rest := Beyond(taken - {y});
      x := if rest <= y then y + 1 else rest;
      forall k | k in taken ensures k < x {
        if k != y { assert k in taken - {y}; }
      }
    }
  }

  lemma NewSocket(s: State) returns (x: Socket)
    ensures !Known(s, x)
  {
    var stored := set k | k in s.entries :: s.entries[k].conn;
    var all := s.held + stored + s.outSockets + s.closedSockets + s.claims;
    var natural: set<nat> := set y: nat | y in all;
    x := Beyond(natural);
    forall y | y in all ensures y < x {
      if y >= 0 { assert y in natural; }
    }
    assert forall k | k in s.entries :: s.entries[k].conn in stored;
  }

  /** Into an empty store a bound socket is always committed. */
  lemma BindAndCommit(s: State, session: string, x: Socket)
    requires s.entries == map[] && !Known(s, x)
    ensures Step(Step(s, Bind(x)), DoCommit(session, x, 0)).entries == map[session := Entry(x, None, PREPARED_TTL, false)]
  {
    hide Known;
    var bound := s.(held := s.held + {x});
    assert Step(s, Bind(x)) == bound;
    NothingExpires(bound, 0);
    hide Expire;
  }

  lemma ClosedIsEmpty(s: State)
    ensures Step(s, DoCloseAll).entries == map[]
  {
  }

  /** A call in flight at the close stores its socket afterwards. */
  lemma FliesIn(ops: seq<Op>, session: string, x: Socket)
    requires Orderly(ops) && Flying(ops, session) > 0 && !Known(Run(ops + [DoCloseAll]), x)
    ensures var more := [Bind(x), DoCommit(session, x, 0)];
            && NoNewCalls(more) && Orderly(ops + [DoCloseAll] + more)
            && Run(ops + [DoCloseAll] + more).entries == map[session := Entry(x, None, PREPARED_TTL, false)]
  {
    hide Run, Flying, Known, Step;
    var closed := ops + [DoCloseAll];
    var more := [Bind(x), DoCommit(session, x, 0)];
    var bound := closed + [Bind(x)];
    var all := closed + more;
    assert all == bound + [DoCommit(session, x, 0)];
    FlyingLast(ops, DoCloseAll, session);
    FlyingLast(closed, Bind(x), session);
    forall k | 0 <= k < |all| && all[k].DoCommit? ensures Flying(all[..k], all[k].session) > 0 {
      if k < |ops| {
        assert all[..k] == ops[..k] && all[k] == ops[k];
      } else {
        assert k == |bound| && all[..k] == bound;
      }
    }
    RunLast(ops, DoCloseAll);
    RunLast(closed, Bind(x));
    RunLast(bound, DoCommit(session, x, 0));
    ClosedIsEmpty(Run(ops));
    BindAndCommit(Run(closed), session, x);
  }

  /** The exact condition: a close leaves nothing to come if and only if no call of PrepareICE can still reach its second critical section. */
  lemma CloseExactly(ops: seq<Op>)
    requires Orderly(ops)
    ensures ClosedForGood(ops) <==> forall session :: Flying(ops, session) == 0
  {
    var closed := ops + [DoCloseAll];
    hide Run, Orderly, Flying, NoNewCalls;
    if forall session :: Flying(ops, session) == 0 {
      RunLast(ops, DoCloseAll);
      forall session ensures Flying(closed, session) == 0 { FlyingLast(ops, DoCloseAll, session); }
      forall more: seq<Op> | NoNewCalls(more) && Orderly(closed + more) ensures Run(closed + more).entries == map[] {
        NothingFliesIn(closed, more);
      }
    } else {
      var session :| Flying(ops, session) > 0;
      var x := NewSocket(Run(closed));
      FliesIn(ops, session, x);
      var more := [Bind(x), DoCommit(session, x, 0)];
      assert session in Run(closed + more).entries;
    }
  }

  /** The operation claims or looks up what is stored for the session. */
  predicate Asks(op: Op, session: string) {
    match op
    case DoClaim(x, _) => x == session
    case DoLookupSocket(x, _) => x == session
    case DoLookupRelay(x, _) => x == session
    case _ => false
  }

  /** Stored and not claimed, with its first time to live. */
  predicate Waiting(s: State, session: string, conn: Socket, expires: int) {
    session in s.entries && s.entries[session].conn == conn && !s.entries[session].claimed && s.entries[session].expires == expires
  }

  lemma DropOrWait(s: State, gone: set<string>, session: string, conn: Socket, expires: int)
    requires gone <= s.entries.Keys && Waiting(s, session, conn, expires)
    ensures if session in gone then conn in Drop(s, gone).closedSockets else Waiting(Drop(s, gone), session, conn, expires)
  {
    if session in gone { assert s.entries[session].conn == conn; }
  }

  lemma ExpireOrWait(s: State, now: int, session: string, conn: Socket, expires: int)
    requires Waiting(s, session, conn, expires)
    ensures Waiting(Expire(s, now), session, conn, expires) || conn in Expire(s, now).closedSockets
  {
    DropOrWait(s, ExpiredKeys(s, now), session, conn, expires);
  }

  lemma WaitingStep(s: State, op: Op, session: string, conn: Socket, expires: int)
    requires Waiting(s, session, conn, expires) && !Asks(op, session)
    ensures Waiting(Step(s, op), session, conn, expires) || Gone(Step(s, op), conn)
  {
    hide Known, KnownRelay, Drop, Expire;
    match op
    case DoReserve(_, now) => ExpireOrWait(s, now, session, conn, expires);
    case DoCommit(_, _, now) => ExpireOrWait(s, now, session, conn, expires);
    case DoClaim(_, now) => ExpireOrWait(s, now, session, conn, expires);
    case DoLookupSocket(_, now) => ExpireOrWait(s, now, session, conn, expires);
    case DoLookupRelay(_, now) => ExpireOrWait(s, now, session, conn, expires);
    case DoExpireSession(x, _, _) => if x in s.entries { DropOrWait(s, {x}, session, conn, expires); }
    case DoCancel(x) => if x in s.entries { DropOrWait(s, {x}, session, conn, expires); }
    case DoCloseAll => DropOrWait(s, s.entries.Keys, session, conn, expires);
    case _ =>
  }

  lemma {:induction false} WaitsOrGone(ops: seq<Op>, more: seq<Op>, session: string, conn: Socket, expires: int)
    requires Waiting(Run(ops), session, conn, expires) && forall op | op in more :: !Asks(op, session)
    ensures Waiting(Run(ops + more), session, conn, expires) || Gone(Run(ops + more), conn)
    decreases |more|
  {
    hide Step, Waiting, Gone, Run;
    if more == [] {
      assert ops + more == ops;
    } else {
      var prior, last := more[..|more| - 1], more[|more| - 1];
      assert ops + more == (ops + prior) + [last] && last in more;
      WaitsOrGone(ops, prior, session, conn, expires);
      RunLast(ops + prior, last);
      if Waiting(Run(ops + prior), session, conn, expires) {
        WaitingStep(Run(ops + prior), last, session, conn, expires);
      } else {
        GoneStays(Run(ops + prior), last, conn, None);
      }
    }
  }

  lemma CommitWaits(ops: seq<Op>, session: string, conn: Socket, now: int)
    requires conn in Run(ops).held && Commit(Run(ops), session, conn, now).1
    ensures Waiting(Run(ops + [DoCommit(session, conn, now)]), session, conn, now + PREPARED_TTL)
  {
    RunLast(ops, DoCommit(session, conn, now));
    hide Run, Expire;
  }

  /**
   * A stored socket is not kept for ever. Whatever runs after it was stored, if nobody claims or
   * looks up its session, its own timer finds it handed over or closed already, or closes it.
   */
  lemma StoredExpires(ops: seq<Op>, session: string, conn: Socket, now: int, more: seq<Op>, later: int)
    requires conn in Run(ops).held && Commit(Run(ops), session, conn, now).1 && later >= now + PREPARED_TTL
    requires forall op | op in more :: !Asks(op, session)
    ensures var all := ops + [DoCommit(session, conn, now)] + more;
            var after := Run(all + [DoExpireSession(session, conn, later)]);
            && !Stored(after, conn)
            && (conn in after.outSockets <==> conn in Run(all).outSockets)
            && (conn !in Run(all).outSockets ==> conn in after.closedSockets)
  {
    var stored := ops + [DoCommit(session, conn, now)];
    var all := stored + more;
    var timer := DoExpireSession(session, conn, later);
    CommitWaits(ops, session, conn, now);
    WaitsOrGone(stored, more, session, conn, now + PREPARED_TTL);
    RunLast(all, timer);
    OwnershipOverRuns(all + [timer]);
    TimerCloses(Run(all), session, conn, now + PREPARED_TTL, later);
    hide Run, Step;
    var after := Run(all + [timer]);
    assert Sole(conn in after.held, Stored(after, conn), conn in after.outSockets, conn in after.closedSockets);
  }

  lemma TimerCloses(s: State, session: string, conn: Socket, expires: int, later: int)
    requires (Waiting(s, session, conn, expires) || Gone(s, conn)) && later >= expires
    ensures var after := Step(s, DoExpireSession(session, conn, later));
            Gone(after, conn) && after.outSockets == s.outSockets
  {
    if Waiting(s, session, conn, expires) { DropOrWait(s, {session}, session, conn, expires); }
  }

  /** Such a run: a socket stored after the close of its manager, until its timer fires. */
  lemma StoredAfterClose()
    ensures var ops := [DoReserve("s", 0), Bind(7), DoCloseAll, DoCommit("s", 7, 1)];
            && Run(ops).entries == map["s" := Entry(7, None, PREPARED_TTL + 1, false)]
            && Run(ops + [DoExpireSession("s", 7, PREPARED_TTL + 1)]).entries == map[]
            && 7 in Run(ops + [DoExpireSession("s", 7, PREPARED_TTL + 1)]).closedSockets
  {
    hide Run, Step;
    var a, b, c, d := DoReserve("s", 0), Bind(7), DoCloseAll, DoCommit("s", 7, 1);
    BoundRun();
    RunLast([a, b], c);
    RunLast([a, b, c], d);
    RunLast([a, b, c, d], DoExpireSession("s", 7, PREPARED_TTL + 1));
    assert [a, b] + [c] == [a, b, c] && [a, b, c] + [d] == [a, b, c, d];
    LateCommit();
    LateTimer();
  }

  lemma BoundRun()
    ensures Run([DoReserve("s", 0), Bind(7)]) == INITIAL.(preparing := {"s"}, held := {7})
  {
    assert Run([]) == INITIAL;
    RunLast([], DoReserve("s", 0));
    RunLast([DoReserve("s", 0)], Bind(7));
    hide Run, Step;
    assert [] + [DoReserve("s", 0)] == [DoReserve("s", 0)] && [DoReserve("s", 0)] + [Bind(7)] == [DoReserve("s", 0), Bind(7)];
    FirstReservation();
    FirstSocket();
  }

  const STORED_LATE := INITIAL.(entries := map["s" := Entry(7, None, PREPARED_TTL + 1, false)])

  lemma LateCommit()
    ensures Step(Step(INITIAL.(preparing := {"s"}, held := {7}), DoCloseAll), DoCommit("s", 7, 1)) == STORED_LATE
  {
    var bound, closed := INITIAL.(preparing := {"s"}, held := {7}), INITIAL.(held := {7});
    CloseOnce(bound);
    hide CloseAll, Drop;
    assert Step(bound, DoCloseAll) == closed;
    NothingExpires(closed, 1);
    hide Expire;
    assert closed.held - {7} == {};
  }

  lemma LateTimer()
    ensures var after := Step(STORED_LATE, DoExpireSession("s", 7, PREPARED_TTL + 1));
            after.entries == map[] && 7 in after.closedSockets
  {
    var s := STORED_LATE;
    assert s.entries["s"].conn == 7;
    assert Step(s, DoExpireSession("s", 7, PREPARED_TTL + 1)) == Drop(s, {"s"});
  }

  lemma CloseOnce(s: State)
    requires s.entries == map[]
    ensures CloseAll(s) == s.(preparing := {})
  {
    var t := Drop(s, {});
    assert t == s;
    assert s.entries.Keys == {};
  }
}
