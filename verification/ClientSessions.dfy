/** A client's established peer sessions: which connection and tunnel serve a peer, and which were closed. */
module ClientSessions {
  import opened Basics

  type Handle = nat

  /** The three maps of the client, and the history of what was installed and closed. */
  datatype Sessions = Sessions(
    active: map<string, string>, conns: map<string, Handle>, tunnels: map<string, Handle>,
    installedConns: set<Handle>, installedTunnels: set<Handle>, closedConns: set<Handle>, closedTunnels: set<Handle>)

  const EMPTY := Sessions(map[], map[], map[], {}, {}, {}, {})

  function Displaced(m: map<string, Handle>, peer: string, fresher: Handle): set<Handle> {
    if peer in m && m[peer] != fresher then {m[peer]} else {}
  }

  /** installP2PSession: the peer's previous connection and tunnel are closed. */
  function Install(s: Sessions, peer: string, session: string, conn: Handle, tunnel: Handle): Sessions {
    Sessions(s.active[peer := session], s.conns[peer := conn], s.tunnels[peer := tunnel],
             s.installedConns + {conn}, s.installedTunnels + {tunnel},
             s.closedConns + Displaced(s.conns, peer, conn), s.closedTunnels + Displaced(s.tunnels, peer, tunnel))
  }

  function ValueAt(m: map<string, Handle>, peer: string): set<Handle> {
    if peer in m then {m[peer]} else {}
  }

  /** removeP2PSessionIfMatch */
  function RemoveIfMatch(s: Sessions, peer: string, session: string): (Sessions, bool) {
    if peer !in s.active || s.active[peer] == "" || s.active[peer] != session then (s, false)
    else (s.(active := s.active - {peer}, conns := s.conns - {peer}, tunnels := s.tunnels - {peer},
             closedConns := s.closedConns + ValueAt(s.conns, peer), closedTunnels := s.closedTunnels + ValueAt(s.tunnels, peer)), true)
  }

  /** What is in place after an installation, and what is closed: the peer's previous handles, unless they are the same. */
  lemma InstallEffect(s: Sessions, peer: string, session: string, conn: Handle, tunnel: Handle)
    ensures var t := Install(s, peer, session, conn, tunnel);
            && t.active == s.active[peer := session] && t.conns == s.conns[peer := conn] && t.tunnels == s.tunnels[peer := tunnel]
            && (forall h :: h in t.closedConns <==> h in s.closedConns || (peer in s.conns && s.conns[peer] == h && h != conn))
            && (forall h :: h in t.closedTunnels <==> h in s.closedTunnels || (peer in s.tunnels && s.tunnels[peer] == h && h != tunnel))
  {
  }

  /** A removal needs the active session's ID, takes the peer out of all three maps and closes what served it. */
  lemma RemoveEffect(s: Sessions, peer: string, session: string)
    ensures var (t, removed) := RemoveIfMatch(s, peer, session);
            && (removed <==> session != "" && peer in s.active && s.active[peer] == session)
            && (!removed ==> t == s)
            && (removed ==>
                  && t.active == s.active - {peer} && t.conns == s.conns - {peer} && t.tunnels == s.tunnels - {peer}
                  && (forall h :: h in t.closedConns <==> h in s.closedConns || (peer in s.conns && s.conns[peer] == h))
                  && (forall h :: h in t.closedTunnels <==> h in s.closedTunnels || (peer in s.tunnels && s.tunnels[peer] == h)))
  {
  }

  /** Every handle ever installed serves exactly one peer or is closed, never both. */
  ghost predicate Accounted(m: map<string, Handle>, installed: set<Handle>, closed: set<Handle>) {
    && (forall p | p in m :: m[p] in installed && m[p] !in closed)
    && (forall p, q | p in m && q in m && p != q :: m[p] != m[q])
    && closed <= installed
    && (forall h | h in installed && h !in closed :: exists p :: p in m && m[p] == h)
  }

  ghost predicate SessionsOk(s: Sessions) {
    && s.active.Keys == s.conns.Keys == s.tunnels.Keys
    && Accounted(s.conns, s.installedConns, s.closedConns)
    && Accounted(s.tunnels, s.installedTunnels, s.closedTunnels)
  }

  datatype Op = OpInstall(peer: string, session: string, conn: Handle, tunnel: Handle) | OpRemove(peer: string, session: string)

  /** Each establishment brings a connection and a tunnel of its own. */
  function Apply(s: Sessions, op: Op): Sessions {
    match op
    case OpInstall(peer, session, conn, tunnel) =>
      if conn in s.installedConns || tunnel in s.installedTunnels then s else Install(s, peer, session, conn, tunnel)
    case OpRemove(peer, session) => RemoveIfMatch(s, peer, session).0
  }

  function Run(ops: seq<Op>): Sessions {
    if ops == [] then EMPTY else Apply(Run(ops[..|ops| - 1]), ops[|ops| - 1])
  }

  lemma InstallAccounts(m: map<string, Handle>, installed: set<Handle>, closed: set<Handle>, peer: string, h: Handle)
    requires Accounted(m, installed, closed) && h !in installed
    ensures Accounted(m[peer := h], installed + {h}, closed + Displaced(m, peer, h))
  {
    var after := m[peer := h];
    forall x | x in installed + {h} && x !in closed + Displaced(m, peer, h) ensures exists p :: p in after && after[p] == x {
      if x == h {
        assert after[peer] == x;
      } else {
        var p :| p in m && m[p] == x;
        assert after[p] == x;
      }
    }
  }

  lemma RemoveAccounts(m: map<string, Handle>, installed: set<Handle>, closed: set<Handle>, peer: string)
    requires Accounted(m, installed, closed)
    ensures Accounted(m - {peer}, installed, closed + ValueAt(m, peer))
  {
    var after := m - {peer};
    forall x | x in installed && x !in closed + ValueAt(m, peer) ensures exists p :: p in after && after[p] == x {
      var p :| p in m && m[p] == x;
      assert after[p] == x;
    }
  }

  lemma ApplyKeepsSessions(s: Sessions, op: Op)
    requires SessionsOk(s)
    ensures SessionsOk(Apply(s, op))
  {
    hide Accounted;
    match op
    case OpInstall(peer, session, conn, tunnel) =>
      if conn !in s.installedConns && tunnel !in s.installedTunnels {
        InstallAccounts(s.conns, s.installedConns, s.closedConns, peer, conn);
        InstallAccounts(s.tunnels, s.installedTunnels, s.closedTunnels, peer, tunnel);
      }
    case OpRemove(peer, session) =>
      RemoveAccounts(s.conns, s.installedConns, s.closedConns, peer);
      RemoveAccounts(s.tunnels, s.installedTunnels, s.closedTunnels, peer);
  }

  /** Main result: over every run nothing installed leaks, serves two peers, or is closed while it serves one. */
  lemma {:induction false} SessionsOverRuns(ops: seq<Op>)
    ensures SessionsOk(Run(ops))
    decreases |ops|
  {
    hide SessionsOk, Apply;
    if ops == [] {
      EmptyOk();
    } else {
      SessionsOverRuns(ops[..|ops| - 1]);
      ApplyKeepsSessions(Run(ops[..|ops| - 1]), ops[|ops| - 1]);
    }
  }

  lemma EmptyOk()
    ensures SessionsOk(EMPTY)
  {
  }

  /**
   * The end of a session, reported by its monitor or by the peer, removes what is active under its
   * ID: a late report about a replaced session leaves its successor serving and open exactly when
   * the successor has another ID.
   */
  lemma StaleEndSparesSuccessor(s: Sessions, peer: string, stale: string, session: string, conn: Handle, tunnel: Handle)
    requires SessionsOk(s) && conn !in s.installedConns && tunnel !in s.installedTunnels
    ensures var installed := Install(s, peer, session, conn, tunnel);
            var (after, removed) := RemoveIfMatch(installed, peer, stale);
            && (removed <==> stale == session && session != "")
            && (!removed ==> after == installed && after.conns[peer] == conn && conn !in after.closedConns && tunnel !in after.closedTunnels)
            && (removed ==> peer !in after.active && conn in after.closedConns && tunnel in after.closedTunnels)
  {
    hide Accounted, Displaced;
    ServesOn(s.conns, s.installedConns, s.closedConns, peer, conn);
    ServesOn(s.tunnels, s.installedTunnels, s.closedTunnels, peer, tunnel);
  }

  /** Such a run: a successor under the same ID is ended by the late report about the first. */
  lemma SameIdEndsSuccessor()
    ensures var ops := [OpInstall("p", "s", 1, 1), OpInstall("p", "s", 2, 2)];
            && Run(ops).active == map["p" := "s"] && Run(ops).conns == map["p" := 2] && 2 !in Run(ops).closedConns
            && Run(ops + [OpRemove("p", "s")]).active == map[] && 2 in Run(ops + [OpRemove("p", "s")]).closedConns
            && 2 in Run(ops + [OpRemove("p", "s")]).closedTunnels
  {
    var a, b, c := OpInstall("p", "s", 1, 1), OpInstall("p", "s", 2, 2), OpRemove("p", "s");
    assert [a][..0] == [] && [a, b][..1] == [a] && ([a, b] + [c])[..2] == [a, b];
    assert Run([a]) == Sessions(map["p" := "s"], map["p" := 1], map["p" := 1], {1}, {1}, {}, {});
    assert Run([a, b]) == Sessions(map["p" := "s"], map["p" := 2], map["p" := 2], {1, 2}, {1, 2}, {1}, {1});
    assert Run([a, b] + [c]) == RemoveIfMatch(Run([a, b]), "p", "s").0;
  }

  /** Installing and ending sessions with one peer leaves what serves every other peer in place and open. */
  lemma OtherPeersUntouched(s: Sessions, peer: string, session: string, conn: Handle, tunnel: Handle, ended: string, other: string)
    requires SessionsOk(s) && conn !in s.installedConns && tunnel !in s.installedTunnels
    requires other in s.active && other != peer
    ensures var after := RemoveIfMatch(Install(s, peer, session, conn, tunnel), peer, ended).0;
            && other in after.active && after.active[other] == s.active[other]
            && after.conns[other] == s.conns[other] && s.conns[other] !in after.closedConns
            && after.tunnels[other] == s.tunnels[other] && s.tunnels[other] !in after.closedTunnels
  {
    hide Accounted, Displaced;
    ServesOn(s.conns, s.installedConns, s.closedConns, peer, conn);
    ServesOn(s.tunnels, s.installedTunnels, s.closedTunnels, peer, tunnel);
  }

  /** A newcomer for one peer closes neither itself nor what serves the other peers. */
  lemma ServesOn(m: map<string, Handle>, installed: set<Handle>, closed: set<Handle>, peer: string, h: Handle)
    requires Accounted(m, installed, closed) && h !in installed
    ensures h !in closed + Displaced(m, peer, h)
    ensures forall q | q in m && q != peer :: m[q] != h && m[q] !in closed + Displaced(m, peer, h)
  {
  }

  class Client {
    var active: map<string, string>
    var conns: map<string, Handle>
    var tunnels: map<string, Handle>
    ghost var installedConns: set<Handle>
    ghost var installedTunnels: set<Handle>
    ghost var closedConns: set<Handle>
    ghost var closedTunnels: set<Handle>

    ghost function State(): Sessions
      reads this
    {
      Sessions(active, conns, tunnels, installedConns, installedTunnels, closedConns, closedTunnels)
    }

    constructor ()
      ensures State() == EMPTY
    {
      active, conns, tunnels := map[], map[], map[];
      installedConns, installedTunnels, closedConns, closedTunnels := {}, {}, {}, {};
    }

    /** The displaced handles are what the caller closes. */
    method InstallSession(peer: string, session: string, conn: Handle, tunnel: Handle) returns (oldConn: Option<Handle>, oldTunnel: Option<Handle>)
      modifies this
      ensures State() == Install(old(State()), peer, session, conn, tunnel)
      ensures oldConn == if peer in old(conns) && old(conns)[peer] != conn then Some(old(conns)[peer]) else None
      ensures oldTunnel == if peer in old(tunnels) && old(tunnels)[peer] != tunnel then Some(old(tunnels)[peer]) else None
    {
      oldConn, oldTunnel := None, None;
      active := active[peer := session];
      if peer in conns && conns[peer] != conn { oldConn := Some(conns[peer]); }
      conns := conns[peer := conn];
      if peer in tunnels && tunnels[peer] != tunnel { oldTunnel := Some(tunnels[peer]); }
      tunnels := tunnels[peer := tunnel];
      installedConns, installedTunnels := installedConns + {conn}, installedTunnels + {tunnel};
      closedConns := closedConns + if oldConn.Some? then {oldConn.value} else {};
      closedTunnels := closedTunnels + if oldTunnel.Some? then {oldTunnel.value} else {};
    }

    method RemoveSessionIfMatch(peer: string, session: string) returns (removed: bool)
      modifies this
      ensures (State(), removed) == RemoveIfMatch(old(State()), peer, session)
    {
      if peer !in active || active[peer] == "" || active[peer] != session {
        return false;
      }
      closedConns := closedConns + if peer in conns then {conns[peer]} else {};
      closedTunnels := closedTunnels + if peer in tunnels then {tunnels[peer]} else {};
      active, conns, tunnels := active - {peer}, conns - {peer}, tunnels - {peer};
      return true;
    }
  }
}
