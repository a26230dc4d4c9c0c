/** The negotiation store object. */
module NegotiationStore {
  import opened Basics
  import opened Negotiation

  class Negotiations {
    var entries: map<string, Entry>
    const capacity: nat
    const ttl: int

    ghost function State(): Store
      reads this
    {
      Store(entries, capacity, ttl)
    }

    constructor (capacity: int, ttl: int)
      ensures State() == NewStore(capacity, ttl)
    {
      entries := map[];
      this.capacity := if capacity <= 0 then 128 else capacity;
      this.ttl := if ttl <= 0 then 30_000 else ttl;
    }

    method ExpireLocked(now: int)
      modifies this`entries
      ensures State() == Negotiation.Expire(old(State()), now)
    {
      var todo := entries.Keys;
      while todo != {}
        invariant todo <= old(entries).Keys && entries.Keys <= old(entries).Keys
        invariant forall k | k in entries :: entries[k] == old(entries)[k]
        invariant forall k | k in old(entries) ::
                    k in entries <==> k in todo || !IsStale(old(entries)[k], now)
        decreases todo
      {
        var peer :| peer in todo;
        todo := todo - {peer};
        if entries[peer].phase != Checking && entries[peer].expires <= now {
          entries := entries - {peer};
        }
      }
      assert entries == Negotiation.Expire(old(State()), now).entries;
    }

    method StartNegotiation(now: int, peer: string, role: Role, session: string, local: seq<Candidate>, remote: seq<Candidate>)
      returns (result: StartResult)
      modifies this`entries
      ensures (State(), result) == Start(old(State()), now, peer, role, session, local, remote)
    {
      if peer == "" || session == "" || role == UnknownRole || |local| > MAX_CANDIDATES || |remote| > MAX_CANDIDATES
         || !AllValid(local + remote) {
        return BadRequest;
      }
      ExpireLocked(now);
      if peer in entries {
        if entries[peer].session != session {
          return OtherSessionActive;
        }
        return Replayed(entries[peer]);
      }
      if |entries| >= capacity {
        return StoreFull;
      }
      var n := Entry(session, role, Pending, local, remote, now + ttl);
      entries := entries[peer := n];
      return Started(n);
    }

    /** Append a batch of remote candidates one by one, skipping those already known. */
    method AddRemoteCandidates(now: int, peer: string, session: string, batch: seq<Candidate>) returns (result: Option<Entry>)
      modifies this`entries
      ensures (State(), result) == AddRemote(old(State()), now, peer, session, batch)
    {
      if batch == [] || |batch| > MAX_CANDIDATES || !AllValid(batch) {
        return None;
      }
      ExpireLocked(now);
      if peer !in entries || entries[peer].session != session || entries[peer].phase != Pending {
        return None;
      }
      ghost var n := entries[peer];
      ghost var kept := Negotiation.Expire(old(State()), now).entries;
      var i := 0;
      while i < |batch|
        invariant 0 <= i <= |batch|
        invariant peer in entries && entries[peer] == n.(remote := entries[peer].remote)
        invariant entries == kept[peer := entries[peer]]
        invariant Append(n.remote, batch) == Append(entries[peer].remote, batch[i..])
      {
        assert batch[i..][0] == batch[i] && batch[i..][1..] == batch[i + 1..];
        var duplicate := IsKnown(entries[peer].remote, batch[i]);
        if !duplicate {
          if |entries[peer].remote| >= MAX_CANDIDATES {
            return None;
          }
          entries := entries[peer := entries[peer].(remote := entries[peer].remote + [batch[i]])];
        }
        i := i + 1;
      }
      assert batch[i..] == [];
      assert Append(n.remote, batch) == (entries[peer].remote, true);
      entries := entries[peer := entries[peer].(expires := now + ttl)];
      assert entries == kept[peer := n.(remote := Append(n.remote, batch).0, expires := now + ttl)];
      return Some(entries[peer]);
    }

    method IsKnown(remote: seq<Candidate>, c: Candidate) returns (duplicate: bool)
      ensures duplicate == Known(remote, c)
    {
      for k := 0 to |remote|
        invariant forall j | 0 <= j < k :: remote[j].id != c.id || remote[j].addr != c.addr
      {
        if remote[k].id == c.id && remote[k].addr == c.addr {
          return true;
        }
      }
      return false;
    }

    method BeginChecking(now: int, peer: string, session: string) returns (won: Option<Entry>)
      modifies this`entries
      ensures (State(), won) == BeginCheck(old(State()), now, peer, session)
    {
      ExpireLocked(now);
      if peer !in entries || entries[peer].session != session || entries[peer].phase != Pending {
        return None;
      }
      entries := entries[peer := entries[peer].(phase := Checking, expires := now + ttl)];
      return Some(entries[peer]);
    }

    method CompleteCheck(now: int, peer: string, session: string) returns (done: bool)
      modifies this`entries
      ensures (State(), done) == Complete(old(State()), now, peer, session)
    {
      if peer !in entries || entries[peer].session != session || entries[peer].phase != Checking {
        return false;
      }
      entries := entries[peer := entries[peer].(phase := Completed, expires := now + ttl)];
      return true;
    }

    method DeleteNegotiation(peer: string, session: string)
      modifies this`entries
      ensures State() == Delete(old(State()), peer, session)
    {
      if peer in entries && entries[peer].session == session {
        entries := entries - {peer};
      }
    }
  }
}
