/** The manager's maps, updated in place under its lock. */
module PreparedIceManager {
  import opened Basics
  import opened PreparedIce

  class Manager {
    var preparedICE: map<string, Entry>
    var preparingICE: set<string>
    /** Everything outside the two maps: who holds, received or closed what. */
    ghost var world: State

    ghost function Whole(): State
      reads this
    {
      world.(entries := preparedICE, preparing := preparingICE)
    }

    constructor ()
      ensures Whole() == INITIAL
    {
      preparedICE, preparingICE, world := map[], {}, INITIAL;
    }

    /** Close both halves of an entry and delete it. */
    method DropEntry(session: string)
      requires session in preparedICE
      modifies this
      ensures Whole() == Drop(old(Whole()), {session})
    {
      var entry := preparedICE[session];
      world := world.(closedSockets := world.closedSockets + {entry.conn},
                      closedRelays := world.closedRelays + RelaysOf(entry.relay),
                      departed := world.departed + {Departure(entry.conn, entry.relay, Dropped)});
      preparedICE := preparedICE - {session};
    }

    method ExpirePreparedLocked(now: int)
      modifies this
      ensures Whole() == Expire(old(Whole()), now)
    {
      var todo := preparedICE.Keys;
      ghost var gone: set<string> := {};
      assert Drop(Whole(), {}) == Whole() by { DropNothing(Whole()); }
      while todo != {}
        invariant todo <= preparedICE.Keys
        invariant gone <= ExpiredKeys(old(Whole()), now)
        invariant gone + todo >= ExpiredKeys(old(Whole()), now)
        invariant gone !! todo
        invariant Whole() == Drop(old(Whole()), gone)
        decreases todo
      {
        var session :| session in todo;
        todo := todo - {session};
        if !preparedICE[session].claimed && preparedICE[session].expires <= now {
          DropTwice(old(Whole()), gone, session);
          DropEntry(session);
          gone := gone + {session};
        }
      }
      assert gone == ExpiredKeys(old(Whole()), now);
    }

    /** PrepareICE, first critical section. */
    method ReserveSession(session: string, now: int) returns (result: Reservation)
      modifies this
      ensures (Whole(), result) == Reserve(old(Whole()), session, now)
    {
      ExpirePreparedLocked(now);
      if session in preparedICE {
        return AlreadyPrepared;
      }
      if session in preparingICE {
        return Busy;
      }
      if |preparedICE| + |preparingICE| >= MAX_PREPARED {
        return Full;
      }
      preparingICE := preparingICE + {session};
      return Reserved;
    }

    /** PrepareICE, second critical section, with the socket bound in between. */
    method CommitSocket(session: string, conn: Socket, now: int) returns (stored: bool)
      requires conn in world.held
      modifies this
      ensures (Whole(), stored) == Commit(old(Whole()), session, conn, now)
    {
      ExpirePreparedLocked(now);
      world := world.(held := world.held - {conn});
      if session in preparedICE || |preparedICE| >= MAX_PREPARED {
        world := world.(closedSockets := world.closedSockets + {conn});
        return false;
      }
      preparedICE := preparedICE[session := Entry(conn, None, now + PREPARED_TTL, false)];
      return true;
    }

    /** PrepareICEWithRelay, after the allocation succeeded. */
    method AttachAllocation(session: string, relay: Relay) returns (attached: bool)
      modifies this
      ensures (Whole(), attached) == AttachRelay(old(Whole()), session, relay)
    {
      world := world.(heldRelays := world.heldRelays - {relay});
      if session !in preparedICE || preparedICE[session].relay.Some? {
        world := world.(closedRelays := world.closedRelays + {relay});
        return false;
      }
      preparedICE := preparedICE[session := preparedICE[session].(relay := Some(relay))];
      return true;
    }

    method ClaimPrepared(session: string, now: int) returns (conn: Option<Socket>)
      modifies this
      ensures (Whole(), conn) == Claim(old(Whole()), session, now)
    {
      ExpirePreparedLocked(now);
      if session !in preparedICE || preparedICE[session].claimed {
        return None;
      }
      conn := Some(preparedICE[session].conn);
      preparedICE := preparedICE[session := preparedICE[session].(claimed := true)];
      world := world.(claims := world.claims + {conn.value});
    }

    method PreparedSocket(session: string, now: int) returns (conn: Option<Socket>)
      modifies this
      ensures (Whole(), conn) == LookupSocket(old(Whole()), session, now)
    {
      ExpirePreparedLocked(now);
      if session !in preparedICE {
        return None;
      }
      preparedICE := preparedICE[session := preparedICE[session].(expires := now + PREPARED_TTL)];
      return Some(preparedICE[session].conn);
    }

    method PreparedRelay(session: string, now: int) returns (relay: Option<Relay>)
      modifies this
      ensures (Whole(), relay) == LookupRelay(old(Whole()), session, now)
    {
      ExpirePreparedLocked(now);
      if session !in preparedICE || preparedICE[session].relay.None? {
        return None;
      }
      if !preparedICE[session].claimed {
        preparedICE := preparedICE[session := preparedICE[session].(expires := now + PREPARED_TTL)];
      }
      return preparedICE[session].relay;
    }

    method TransferPreparedSocket(session: string, conn: Socket)
      modifies this
      ensures Whole() == TransferSocket(old(Whole()), session, conn)
    {
      if session in preparedICE && preparedICE[session].conn == conn {
        var entry := preparedICE[session];
        world := world.(outSockets := world.outSockets + {conn},
                        closedRelays := world.closedRelays + RelaysOf(entry.relay),
                        departed := world.departed + {Departure(entry.conn, entry.relay, SocketOut)});
        preparedICE := preparedICE - {session};
      }
    }

    method TransferPreparedRelay(session: string, relay: Relay)
      modifies this
      ensures Whole() == TransferRelay(old(Whole()), session, relay)
    {
      if session !in preparedICE || preparedICE[session].relay != Some(relay) {
        return;
      }
      var entry := preparedICE[session];
      world := world.(outRelays := world.outRelays + {relay},
                      closedSockets := world.closedSockets + {entry.conn},
                      departed := world.departed + {Departure(entry.conn, entry.relay, RelayOut)});
      preparedICE := preparedICE - {session};
    }

    method CancelPreparedICE(session: string)
      modifies this
      ensures Whole() == Cancel(old(Whole()), session)
    {
      if session in preparedICE {
        DropEntry(session);
      }
    }

    /** The entry's own timer. */
    method ExpirePreparedSession(session: string, conn: Socket, now: int)
      modifies this
      ensures Whole() == ExpireSession(old(Whole()), session, conn, now)
    {
      if session !in preparedICE || preparedICE[session].conn != conn
         || preparedICE[session].claimed || preparedICE[session].expires > now {
        return;
      }
      DropEntry(session);
    }

    method Close()
      modifies this
      ensures Whole() == CloseAll(old(Whole()))
    {
      var todo := preparedICE.Keys;
      ghost var gone: set<string> := {};
      DropNothing(Whole());
      while todo != {}
        invariant gone !! todo && gone + todo == old(preparedICE).Keys
        invariant todo <= preparedICE.Keys
        invariant Whole() == Drop(old(Whole()), gone)
        decreases todo
      {
        var session :| session in todo;
        DropTwice(old(Whole()), gone, session);
        DropEntry(session);
        todo := todo - {session};
        gone := gone + {session};
      }
      preparingICE := {};
    }
  }

  lemma DropNothing(s: State)
    ensures Drop(s, {}) == s
  {
    assert s.entries - {} == s.entries;
    var t := Drop(s, {});
    assert t.closedSockets == s.closedSockets;
    assert t.closedRelays == s.closedRelays;
    assert t.departed == s.departed;
  }

  lemma DropTwice(s: State, gone: set<string>, session: string)
    requires gone <= s.entries.Keys && session in s.entries && session !in gone
    ensures Drop(Drop(s, gone), {session}) == Drop(s, gone + {session})
  {
    var a, b := Drop(Drop(s, gone), {session}), Drop(s, gone + {session});
    assert a.entries == b.entries;
    assert a.closedSockets == b.closedSockets;
    assert a.closedRelays == b.closedRelays;
    assert a.departed == b.departed;
  }
}
