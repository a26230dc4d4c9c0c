/** Stream writers of one tunnel over the record link, and what the tunnel at the other end takes in. */
module TunnelRun {
  import opened Basics
  import opened TunnelMux
  import ConsentConn
  import RL = ReliableLink

  /**
   * The writing tunnel over a run of the link: per stream the buffers passed to Write so far and the
   * chunks its call in progress has not handed over; the stream whose frame the connection is
   * blocked on; the streams that were refused before the connection; and every frame sealed.
   */
  datatype Sys = Sys(rl: seq<RL.Step>, calls: map<u32, seq<bytes>>, todo: map<u32, seq<bytes>>,
                     flying: Option<u32>, refused: set<u32>, sent: seq<Message>)

  const IDLE := Sys([], map[], map[], None, {}, [])

  function ListOf(m: map<u32, seq<bytes>>, id: u32): seq<bytes> {
    if id in m then m[id] else []
  }

  /**
   * `Call` is the start of P2PStream.Write, `Frame` its next writeFrame, `Refuse` a Write or a
   * writeFrame that finds its stream or the tunnel closed, `Control` a frame that carries no data,
   * and `Net` any other step of the link.
   */
  datatype Step =
    | Call(id: u32, p: bytes)
    | Frame(id: u32, transportOk: bool)
    | Refuse(id: u32)
    | Control(m: Message, transportOk: bool)
    | Net(step: RL.Step)

  function LinkOf(session: RL.Session, s: Sys): RL.Link { RL.Run(session, s.rl) }

  function NodeOf(session: RL.Session, from: RL.Side, s: Sys): RL.Node { RL.At(LinkOf(session, s), from) }

  /** One frame given to the connection; a Write that returns at once has failed. */
  function Push(session: RL.Session, from: RL.Side, s: Sys, m: Message, transportOk: bool): Sys
    requires |m.payload| <= MAX_CHUNK
  {
    s.(rl := s.rl + [RL.Step(from, RL.Write(Encode(m), transportOk))], sent := s.sent + [m])
  }

  predicate Blocked(session: RL.Session, from: RL.Side, s: Sys) { NodeOf(session, from, s).ep.writing.Some? }

  function Apply(session: RL.Session, from: RL.Side, s: Sys, step: Step): Sys {
    match step
    case Call(id, p) =>
      if ListOf(s.todo, id) != [] || s.flying == Some(id) then s
      else s.(calls := s.calls[id := ListOf(s.calls, id) + [p]], todo := s.todo[id := Fragments(p)])
    case Frame(id, transportOk) =>
      var todo := ListOf(s.todo, id);
      if todo == [] || |todo[0]| > MAX_CHUNK || id in s.refused || s.flying.Some? || Blocked(session, from, s) then s
      else
        var t := Push(session, from, s, Message(MSG_DATA, id, todo[0]), transportOk);
        if Blocked(session, from, t) then t.(todo := s.todo[id := todo[1..]], flying := Some(id)) else t.(todo := s.todo[id := []])
    case Refuse(id) => s.(todo := s.todo[id := []], refused := s.refused + {id})
    case Control(m, transportOk) =>
      if m.kind == MSG_DATA || |m.payload| > MAX_CHUNK || s.flying.Some? || Blocked(session, from, s) then s
      else Push(session, from, s, m, transportOk)
    case Net(step) =>
      if step.side == from && step.action.Write? then s
      else
        var t := s.(rl := s.rl + [step]);
        if s.flying.None? || Blocked(session, from, t) then t
        else
          var returned := NodeOf(session, from, t).returned;
          var ok := returned != [] && returned[|returned| - 1];
          t.(flying := None, todo := if ok then s.todo else s.todo[s.flying.value := []])
  }

  function Run(session: RL.Session, from: RL.Side, steps: seq<Step>): Sys {
    if steps == [] then IDLE else Apply(session, from, Run(session, from, steps[..|steps| - 1]), steps[|steps| - 1])
  }

  /**
   * What a writer's own steps do: a call is split into chunks and recorded, one at a time per stream;
   * a refusal drops the rest of the call and marks the stream.
   */
  lemma WriterSteps(session: RL.Session, from: RL.Side, s: Sys, id: u32, p: bytes)
    ensures var t := Apply(session, from, s, Call(id, p));
            var busy := ListOf(s.todo, id) != [] || s.flying == Some(id);
            && (busy ==> t == s)
            && (!busy ==> ListOf(t.calls, id) == ListOf(s.calls, id) + [p] && Flatten(ListOf(t.todo, id)) == p
                          && t.rl == s.rl && t.sent == s.sent)
    ensures var t := Apply(session, from, s, Refuse(id));
            ListOf(t.todo, id) == [] && id in t.refused && t.calls == s.calls && t.rl == s.rl && t.sent == s.sent
  {
    FragmentsPartition(p);
    hide Fragments;
  }

  // ----- the invariant -----

  predicate Fit(sent: seq<Message>) { forall m | m in sent :: |m.payload| <= MAX_CHUNK }

  ghost predicate AllTrue(returned: seq<bool>) { forall i | 0 <= i < |returned| :: returned[i] }

  /** What is sealed is what the writers handed over, one frame at a time. */
  ghost predicate Sealed(n: RL.Node, s: Sys) {
    && Fit(s.sent) && n.written == EncodeAll(s.sent)
    && |n.returned| + (if n.ep.writing.Some? then 1 else 0) == |s.sent|
    && (s.flying.Some? ==> n.ep.writing.Some?)
    && (!n.ep.closed ==> AllTrue(n.returned))
  }

  /** Frames 0 to n were sealed after successes only. */
  ghost predicate Reached(returned: seq<bool>, n: nat) {
    n - 1 <= |returned| && forall i | 0 <= i < n - 1 :: returned[i]
  }

  /** The frames of a stream that can arrive carry a prefix of what its writer wrote. */
  ghost predicate StreamOk(returned: seq<bool>, s: Sys, id: u32) {
    && (forall c | c in ListOf(s.todo, id) :: |c| <= MAX_CHUNK)
    && (AllTrue(returned) && id !in s.refused ==>
          Flatten(ChunksOf(id, s.sent)) + Flatten(ListOf(s.todo, id)) == Flatten(ListOf(s.calls, id)))
    && (forall n | 0 <= n <= |s.sent| && Reached(returned, n) ::
          Flatten(ChunksOf(id, s.sent[..n])) <= Flatten(ListOf(s.calls, id)))
  }

  ghost predicate Inv(n: RL.Node, s: Sys) {
    Sealed(n, s) && forall id: u32 :: StreamOk(n.returned, s, id)
  }

  function ChunkIn(id: u32, m: Message): seq<bytes> {
    if m.kind == MSG_DATA && m.id == id then [m.payload] else []
  }

  lemma ChunksFirst(id: u32, m: Message, rest: seq<Message>)
    ensures ChunksOf(id, [m] + rest) == ChunkIn(id, m) + ChunksOf(id, rest)
  {
    assert ([m] + rest)[1..] == rest;
  }

  lemma {:induction false} ChunksAppend(id: u32, sent: seq<Message>, m: Message)
    ensures ChunksOf(id, sent + [m]) == ChunksOf(id, sent) + ChunkIn(id, m)
  {
    hide ChunksOf, ChunkIn;
    if sent == [] {
      ChunksFirst(id, m, []);
      NoChunks(id);
      assert sent + [m] == [m] + [];
      assert ChunkIn(id, m) + [] == [] + ChunkIn(id, m);
    } else {
      var rest := sent[1..];
      ChunksAppend(id, rest, m);
      ChunksFirst(id, sent[0], rest);
      ChunksFirst(id, sent[0], rest + [m]);
      assert sent == [sent[0]] + rest && sent + [m] == [sent[0]] + (rest + [m]);
      assert ChunkIn(id, sent[0]) + (ChunksOf(id, rest) + ChunkIn(id, m)) == (ChunkIn(id, sent[0]) + ChunksOf(id, rest)) + ChunkIn(id, m);
    }
  }

  lemma NoChunks(id: u32)
    ensures ChunksOf(id, []) == []
  {
  }

  lemma {:induction false} EncodeAppend(sent: seq<Message>, m: Message)
    requires Fit(sent) && |m.payload| <= MAX_CHUNK
    ensures Fit(sent + [m]) && EncodeAll(sent + [m]) == EncodeAll(sent) + [Encode(m)]
  {
    if sent == [] {
      assert [m][1..] == [];
    } else {
      assert (sent + [m])[1..] == sent[1..] + [m];
      EncodeAppend(sent[1..], m);
    }
  }

  /** The chunk a frame carries moves from the rest of the call to what was sent. */
  lemma ChunkMoves(id: u32, sent: seq<Message>, m: Message, todo: seq<bytes>)
    requires m.kind == MSG_DATA && m.id == id ==> todo != [] && m.payload == todo[0]
    ensures var rest := if m.kind == MSG_DATA && m.id == id then todo[1..] else todo;
            Flatten(ChunksOf(id, sent + [m])) + Flatten(rest) == Flatten(ChunksOf(id, sent)) + Flatten(todo)
  {
    ChunksAppend(id, sent, m);
    hide ChunksOf;
    if m.kind == MSG_DATA && m.id == id {
      FlattenSingle(ChunksOf(id, sent), m.payload);
      assert Flatten(todo) == todo[0] + Flatten(todo[1..]);
      assert (Flatten(ChunksOf(id, sent)) + m.payload) + Flatten(todo[1..]) == Flatten(ChunksOf(id, sent)) + Flatten(todo);
    } else {
      assert ChunksOf(id, sent) + [] == ChunksOf(id, sent);
    }
  }

  /** One more frame of a stream, the next chunk of its call, or of another stream. */
  lemma PushedStreamOk(returned: seq<bool>, s: Sys, t: Sys, m: Message, id: u32)
    requires StreamOk(returned, s, id) && |s.sent| == |returned| && t.sent == s.sent + [m] && t.calls == s.calls && t.refused == s.refused
    requires m.kind == MSG_DATA && m.id == id ==>
               ListOf(s.todo, id) != [] && m.payload == ListOf(s.todo, id)[0] && id !in s.refused
    requires ListOf(t.todo, id) == (if m.kind == MSG_DATA && m.id == id then ListOf(s.todo, id)[1..] else ListOf(s.todo, id))
    ensures StreamOk(returned, t, id)
  {
    hide ChunksOf, Flatten, ListOf;
    ChunkMoves(id, s.sent, m, ListOf(s.todo, id));
    forall n | 0 <= n <= |t.sent| && Reached(returned, n)
      ensures Flatten(ChunksOf(id, t.sent[..n])) <= Flatten(ListOf(t.calls, id))
    {
      if n <= |s.sent| {
        assert t.sent[..n] == s.sent[..n];
      } else {
        assert t.sent[..n] == t.sent && AllTrue(returned);
        LastFrame(returned, s, t, m, id);
      }
    }
  }

  lemma LastFrame(returned: seq<bool>, s: Sys, t: Sys, m: Message, id: u32)
    requires StreamOk(returned, s, id) && |s.sent| == |returned| && AllTrue(returned) && t.sent == s.sent + [m]
    requires m.kind == MSG_DATA && m.id == id ==>
               ListOf(s.todo, id) != [] && m.payload == ListOf(s.todo, id)[0] && id !in s.refused
    ensures Flatten(ChunksOf(id, t.sent)) <= Flatten(ListOf(s.calls, id))
  {
    ChunkMoves(id, s.sent, m, ListOf(s.todo, id));
    if !(m.kind == MSG_DATA && m.id == id) {
      ChunksAppend(id, s.sent, m);
      hide ChunksOf, Flatten;
      assert ChunksOf(id, s.sent) + [] == ChunksOf(id, s.sent);
      assert s.sent[..|s.sent|] == s.sent && Reached(returned, |s.sent|);
    }
    hide ChunksOf, Flatten;
  }

  /** A write that failed ends the call: nothing sealed after it can arrive. */
  lemma FailedStreamOk(returned: seq<bool>, s: Sys, t: Sys, id: u32)
    requires StreamOk(returned, s, id) && |returned| + 1 == |s.sent|
    requires t.sent == s.sent && t.calls == s.calls && t.refused == s.refused
    requires ListOf(t.todo, id) == ListOf(s.todo, id) || ListOf(t.todo, id) == []
    ensures StreamOk(returned + [false], t, id)
  {
    assert (returned + [false])[|returned|] == false;
    forall n | 0 <= n <= |t.sent| && Reached(returned + [false], n) ensures Reached(returned, n) {
      forall i | 0 <= i < n - 1 ensures returned[i] { assert (returned + [false])[i]; }
    }
  }

  lemma SucceededStreamOk(returned: seq<bool>, s: Sys, t: Sys, id: u32)
    requires StreamOk(returned, s, id) && |returned| + 1 == |s.sent|
    requires t.sent == s.sent && t.calls == s.calls && t.refused == s.refused && ListOf(t.todo, id) == ListOf(s.todo, id)
    ensures StreamOk(returned + [true], t, id)
  {
    if AllTrue(returned + [true]) {
      forall i | 0 <= i < |returned| ensures returned[i] { assert (returned + [true])[i]; }
    }
    forall n | 0 <= n <= |t.sent| && Reached(returned + [true], n) ensures Reached(returned, n) {
      forall i | 0 <= i < n - 1 ensures returned[i] { assert (returned + [true])[i]; }
    }
  }

  lemma CalledStreamOk(returned: seq<bool>, s: Sys, t: Sys, id: u32, p: bytes)
    requires StreamOk(returned, s, id) && ListOf(s.todo, id) == []
    requires t.sent == s.sent && t.refused == s.refused
    requires ListOf(t.calls, id) == ListOf(s.calls, id) + [p] && ListOf(t.todo, id) == Fragments(p)
    ensures StreamOk(returned, t, id)
  {
    FragmentsPartition(p);
    FlattenSingle(ListOf(s.calls, id), p);
    assert Flatten(ChunksOf(id, s.sent)) + Flatten<byte>([]) == Flatten(ChunksOf(id, s.sent));
    forall c | c in Fragments(p) ensures |c| <= MAX_CHUNK {
      var k :| 0 <= k < |Fragments(p)| && Fragments(p)[k] == c;
    }
    hide Fragments;
    forall n | 0 <= n <= |t.sent| && Reached(returned, n)
      ensures Flatten(ChunksOf(id, t.sent[..n])) <= Flatten(ListOf(t.calls, id))
    {
      PrefixTransitive(Flatten(ChunksOf(id, s.sent[..n])), Flatten(ListOf(s.calls, id)), Flatten(ListOf(t.calls, id)));
    }
  }

  lemma PrefixTransitive(a: bytes, b: bytes, c: bytes)
    requires a <= b <= c
    ensures a <= c
  {
  }

  lemma RefusedStreamOk(returned: seq<bool>, s: Sys, t: Sys, id: u32)
    requires StreamOk(returned, s, id) && t.sent == s.sent && t.calls == s.calls && id in t.refused && ListOf(t.todo, id) == []
    ensures StreamOk(returned, t, id)
  {
  }

  // ----- what the link does to the writing end -----

  /** A frame given to an end that is not blocked is sealed, and blocks it or fails. */
  lemma WriteActs(n: RL.Node, net: set<ConsentConn.Record>, frame: bytes, transportOk: bool, delivered: nat)
    requires RL.SenderOk(n, delivered) && n.ep.writing.None? && |frame| <= ConsentConn.MAX_APPLICATION_RECORD
    ensures RL.Enabled(n, net, RL.Write(frame, transportOk))
    ensures var n2 := RL.Act(n, net, RL.Write(frame, transportOk)).0;
            && n2.written == n.written + [frame]
            && n2.returned == (if n2.ep.writing.Some? then n.returned else n.returned + [false])
            && (n2.ep.writing.None? ==> n2.ep.closed)
            && (n2.ep.writing.Some? ==> n2.ep.closed == n.ep.closed)
  {
    assert |n.ep.pendingData| == 0;
  }

  /** Any other step of this end seals nothing, and returns the write it was blocked on or not. */
  lemma OtherActs(n: RL.Node, net: set<ConsentConn.Record>, a: RL.Action)
    requires RL.Enabled(n, net, a) && !a.Write?
    ensures var n2 := RL.Act(n, net, a).0;
            && n2.written == n.written
            && (n.ep.writing.None? ==> n2.ep.writing.None? && n2.returned == n.returned)
            && (n.ep.writing.Some? && n2.ep.writing.Some? ==> n2.returned == n.returned)
            && (n.ep.writing.Some? && n2.ep.writing.None? ==>
                  exists ok: bool :: n2.returned == n.returned + [ok] && (!ok ==> n2.ep.closed))
            && (n.ep.closed ==> n2.ep.closed)
  {
    if a.WakeUp? {
      var step := ConsentConn.Select(n.ep, a.wake);
      if step.result.Some? {
        assert RL.Act(n, net, a).0.returned == n.returned + [step.result.value.Wrote?];
      } else {
        assert n.returned + [] == n.returned;
      }
    }
  }

  /** The run after one more step of the link. */
  lemma OneMore(session: RL.Session, s: Sys, t: Sys, step: RL.Step)
    requires t.rl == s.rl + [step]
    ensures LinkOf(session, t) == RL.Next(LinkOf(session, s), step)
  {
    assert t.rl[..|t.rl| - 1] == s.rl;
  }

  // ----- the invariant is kept -----

  /** A frame handed to an end that is not blocked. */
  lemma FrameKeeps(n: RL.Node, n2: RL.Node, s: Sys, t: Sys, m: Message)
    requires Inv(n, s) && n.ep.writing.None? && |m.payload| <= MAX_CHUNK
    requires n2.written == n.written + [Encode(m)]
    requires n2.returned == if n2.ep.writing.Some? then n.returned else n.returned + [false]
    requires n2.ep.closed == (n2.ep.writing.None? || n.ep.closed)
    requires t.sent == s.sent + [m] && t.calls == s.calls && t.refused == s.refused
    requires t.flying.Some? ==> n2.ep.writing.Some?
    requires m.kind == MSG_DATA ==> ListOf(s.todo, m.id) != [] && m.payload == ListOf(s.todo, m.id)[0] && m.id !in s.refused
    requires forall id: u32 :: ListOf(t.todo, id) ==
               if m.kind == MSG_DATA && m.id == id then (if n2.ep.writing.Some? then ListOf(s.todo, id)[1..] else [])
               else ListOf(s.todo, id)
    ensures Inv(n2, t)
  {
    EncodeAppend(s.sent, m);
    hide StreamOk, EncodeAll, Encode, ListOf;
    forall id: u32 ensures StreamOk(n2.returned, t, id) {
      var rest := if m.kind == MSG_DATA && m.id == id then ListOf(s.todo, id)[1..] else ListOf(s.todo, id);
      var u := t.(todo := s.todo[id := rest]);
      assert ListOf(u.todo, id) == rest by { ListOfUpdated(s.todo, id, rest); }
      PushedStreamOk(n.returned, s, u, m, id);
      if n2.ep.writing.Some? {
        SameStreamOk(n.returned, u, t, id);
      } else {
        FailedStreamOk(n.returned, u, t, id);
      }
    }
  }

  lemma ListOfUpdated(m: map<u32, seq<bytes>>, id: u32, chunks: seq<bytes>)
    ensures ListOf(m[id := chunks], id) == chunks
    ensures forall k: u32 | k != id :: ListOf(m[id := chunks], k) == ListOf(m, k)
  {
  }

  lemma SameStreamOk(returned: seq<bool>, s: Sys, t: Sys, id: u32)
    requires StreamOk(returned, s, id) && t.sent == s.sent && t.calls == s.calls && t.refused == s.refused
    requires ListOf(t.todo, id) == ListOf(s.todo, id)
    ensures StreamOk(returned, t, id)
  {
  }

  /** A step of the link that returns no write. */
  lemma WaitKeeps(n: RL.Node, n2: RL.Node, s: Sys, t: Sys)
    requires Inv(n, s) && n2.written == n.written && n2.returned == n.returned
    requires n2.ep.writing.Some? == n.ep.writing.Some? && (n.ep.closed ==> n2.ep.closed)
    requires t == s.(rl := t.rl)
    ensures Inv(n2, t)
  {
    forall id: u32 ensures StreamOk(n2.returned, t, id) { SameStreamOk(n.returned, s, t, id); }
  }

  /** A step of the link that returns the write it was blocked on; a failure drops the rest of that call. */
  lemma ReturnKeeps(n: RL.Node, n2: RL.Node, s: Sys, t: Sys, ok: bool)
    requires Inv(n, s) && n.ep.writing.Some? && n2.ep.writing.None?
    requires n2.written == n.written && n2.returned == n.returned + [ok]
    requires (!ok ==> n2.ep.closed) && (n.ep.closed ==> n2.ep.closed)
    requires t.sent == s.sent && t.calls == s.calls && t.refused == s.refused && t.flying.None?
    requires forall id: u32 :: ListOf(t.todo, id) == ListOf(s.todo, id) || (!ok && ListOf(t.todo, id) == [])
    ensures Inv(n2, t)
  {
    hide StreamOk, EncodeAll, ListOf;
    forall id: u32 ensures StreamOk(n2.returned, t, id) {
      if ok { SucceededStreamOk(n.returned, s, t, id); } else { FailedStreamOk(n.returned, s, t, id); }
    }
  }

  lemma CallKeeps(n: RL.Node, s: Sys, id: u32, p: bytes)
    requires Inv(n, s) && ListOf(s.todo, id) == []
    ensures Inv(n, s.(calls := s.calls[id := ListOf(s.calls, id) + [p]], todo := s.todo[id := Fragments(p)]))
  {
    var t := s.(calls := s.calls[id := ListOf(s.calls, id) + [p]], todo := s.todo[id := Fragments(p)]);
    ListOfUpdated(s.calls, id, ListOf(s.calls, id) + [p]);
    ListOfUpdated(s.todo, id, Fragments(p));
    hide StreamOk, Fragments, ListOf;
    forall k: u32 ensures StreamOk(n.returned, t, k) {
      if k == id { CalledStreamOk(n.returned, s, t, id, p); } else { OtherCalled(n.returned, s, t, k); }
    }
  }

  lemma OtherCalled(returned: seq<bool>, s: Sys, t: Sys, id: u32)
    requires StreamOk(returned, s, id) && t.sent == s.sent && (id in t.refused <==> id in s.refused)
    requires ListOf(t.todo, id) == ListOf(s.todo, id) && ListOf(t.calls, id) == ListOf(s.calls, id)
    ensures StreamOk(returned, t, id)
  {
  }

  lemma RefuseKeeps(n: RL.Node, s: Sys, id: u32)
    requires Inv(n, s)
    ensures Inv(n, s.(todo := s.todo[id := []], refused := s.refused + {id}))
  {
    var t := s.(todo := s.todo[id := []], refused := s.refused + {id});
    ListOfUpdated(s.todo, id, []);
    forall k: u32 ensures StreamOk(n.returned, t, k) {
      if k == id { RefusedStreamOk(n.returned, s, t, id); } else { OtherCalled(n.returned, s, t, k); }
    }
  }

  /** One frame given to the connection of a run that stays below the wrap. */
  lemma PushActs(session: RL.Session, from: RL.Side, s: Sys, m: Message, transportOk: bool)
    requires session.leftLabel != session.rightLabel && !Blocked(session, from, s) && |m.payload| <= MAX_CHUNK
    requires RL.BelowWrap(LinkOf(session, Push(session, from, s, m, transportOk)))
    ensures var n, n2 := NodeOf(session, from, s), NodeOf(session, from, Push(session, from, s, m, transportOk));
            && n2.written == n.written + [Encode(m)]
            && n2.returned == (if n2.ep.writing.Some? then n.returned else n.returned + [false])
            && n2.ep.closed == (n2.ep.writing.None? || n.ep.closed)
  {
    hide RL.Run, RL.Act, RL.DirectionOk, Encode;
    var t := Push(session, from, s, m, transportOk);
    var step := RL.Step(from, RL.Write(Encode(m), transportOk));
    OneMore(session, s, t, step);
    var l := LinkOf(session, s);
    RL.NextGrows(l, step);
    RL.RunInvariant(session, s.rl);
    assert RL.DirectionOk(RL.At(l, from), RL.At(l, RL.Peer(from)), l.net);
    SenderOf(RL.At(l, from), RL.At(l, RL.Peer(from)), l.net);
    WriteActs(RL.At(l, from), l.net, Encode(m), transportOk, |RL.At(l, RL.Peer(from)).released|);
  }

  lemma SenderOf(src: RL.Node, dst: RL.Node, net: set<ConsentConn.Record>)
    requires RL.DirectionOk(src, dst, net)
    ensures RL.SenderOk(src, |dst.released|)
  {
  }

  lemma FrameStepKeeps(session: RL.Session, from: RL.Side, s: Sys, id: u32, transportOk: bool)
    requires session.leftLabel != session.rightLabel && Inv(NodeOf(session, from, s), s)
    requires RL.BelowWrap(LinkOf(session, Apply(session, from, s, Frame(id, transportOk))))
    ensures var t := Apply(session, from, s, Frame(id, transportOk)); Inv(NodeOf(session, from, t), t)
  {
    hide RL.Run, Inv, Encode, RL.BelowWrap, ListOf;
    var todo := ListOf(s.todo, id);
    if todo != [] && |todo[0]| <= MAX_CHUNK && id !in s.refused && s.flying.None? && !Blocked(session, from, s) {
      var m := Message(MSG_DATA, id, todo[0]);
      var pushed := Push(session, from, s, m, transportOk);
      var t := Apply(session, from, s, Frame(id, transportOk));
      assert LinkOf(session, t) == LinkOf(session, pushed);
      PushActs(session, from, s, m, transportOk);
      ListOfUpdated(s.todo, id, if Blocked(session, from, pushed) then todo[1..] else []);
      FrameKeeps(NodeOf(session, from, s), NodeOf(session, from, t), s, t, m);
    }
  }

  lemma ControlStepKeeps(session: RL.Session, from: RL.Side, s: Sys, m: Message, transportOk: bool)
    requires session.leftLabel != session.rightLabel && Inv(NodeOf(session, from, s), s)
    requires RL.BelowWrap(LinkOf(session, Apply(session, from, s, Control(m, transportOk))))
    ensures var t := Apply(session, from, s, Control(m, transportOk)); Inv(NodeOf(session, from, t), t)
  {
    hide RL.Run, Inv, Encode, RL.BelowWrap, ListOf;
    if m.kind != MSG_DATA && |m.payload| <= MAX_CHUNK && s.flying.None? && !Blocked(session, from, s) {
      PushActs(session, from, s, m, transportOk);
      var t := Push(session, from, s, m, transportOk);
      FrameKeeps(NodeOf(session, from, s), NodeOf(session, from, t), s, t, m);
    }
  }

  /** The writing end after a step of the link other than its own Write. */
  lemma NetActs(session: RL.Session, from: RL.Side, s: Sys, t: Sys, step: RL.Step)
    requires t.rl == s.rl + [step] && !(step.side == from && step.action.Write?)
    ensures var n, n2 := NodeOf(session, from, s), NodeOf(session, from, t);
            && n2.written == n.written && (n.ep.closed ==> n2.ep.closed)
            && (n.ep.writing.None? ==> n2.ep.writing.None?)
            && (n.ep.writing.Some? == n2.ep.writing.Some? ==> n2.returned == n.returned)
            && (n.ep.writing.Some? && n2.ep.writing.None? ==>
                  exists ok: bool :: n2.returned == n.returned + [ok] && (!ok ==> n2.ep.closed))
  {
    hide RL.Run, RL.Act, RL.Enabled;
    OneMore(session, s, t, step);
    var l := LinkOf(session, s);
    if step.side == from && RL.Enabled(RL.At(l, from), l.net, step.action) {
      OtherActs(RL.At(l, from), l.net, step.action);
    }
  }

  lemma NetStepKeeps(session: RL.Session, from: RL.Side, s: Sys, step: RL.Step)
    requires Inv(NodeOf(session, from, s), s)
    ensures var t := Apply(session, from, s, Net(step)); Inv(NodeOf(session, from, t), t)
  {
    hide RL.Run, Inv, Encode, ListOf;
    if !(step.side == from && step.action.Write?) {
      var t := Apply(session, from, s, Net(step));
      var n, n2 := NodeOf(session, from, s), NodeOf(session, from, t);
      NetActs(session, from, s, s.(rl := s.rl + [step]), step);
      assert LinkOf(session, t) == LinkOf(session, s.(rl := s.rl + [step]));
      if n.ep.writing.Some? && n2.ep.writing.None? {
        var ok: bool :| n2.returned == n.returned + [ok] && (!ok ==> n2.ep.closed);
        if s.flying.Some? { ListOfUpdated(s.todo, s.flying.value, []); }
        ReturnKeeps(n, n2, s, t, ok);
      } else {
        BlockedWhileFlying(n, s);
        WaitKeeps(n, n2, s, t);
      }
    }
  }

  lemma BlockedWhileFlying(n: RL.Node, s: Sys)
    requires Inv(n, s)
    ensures s.flying.Some? ==> n.ep.writing.Some?
  {
  }

  lemma StepKeeps(session: RL.Session, from: RL.Side, s: Sys, step: Step)
    requires session.leftLabel != session.rightLabel && Inv(NodeOf(session, from, s), s)
    requires RL.BelowWrap(LinkOf(session, Apply(session, from, s, step)))
    ensures var t := Apply(session, from, s, step); Inv(NodeOf(session, from, t), t)
  {
    hide RL.Run, Inv, RL.BelowWrap, ListOf, Fragments;
    match step
    case Call(id, p) =>
      if ListOf(s.todo, id) == [] && s.flying != Some(id) {
        CallKeeps(NodeOf(session, from, s), s, id, p);
      }
    case Frame(id, transportOk) => FrameStepKeeps(session, from, s, id, transportOk);
    case Refuse(id) => RefuseKeeps(NodeOf(session, from, s), s, id);
    case Control(m, transportOk) => ControlStepKeeps(session, from, s, m, transportOk);
    case Net(netStep) => NetStepKeeps(session, from, s, netStep);
  }

  lemma StepGrows(session: RL.Session, from: RL.Side, s: Sys, step: Step)
    requires RL.BelowWrap(LinkOf(session, Apply(session, from, s, step)))
    ensures RL.BelowWrap(LinkOf(session, s))
  {
    hide RL.Run, RL.BelowWrap, RL.Next;
    var t := Apply(session, from, s, step);
    if t.rl != s.rl {
      var last := t.rl[|t.rl| - 1];
      OneMore(session, s, t, last);
      RL.NextGrows(LinkOf(session, s), last);
    }
  }

  lemma IdleOk(session: RL.Session, from: RL.Side)
    ensures Inv(NodeOf(session, from, IDLE), IDLE)
  {
  }

  /** Over every run, whatever the interleaving of writers, what is sealed is what the writers handed over. */
  lemma {:induction false} InvariantOverRuns(session: RL.Session, from: RL.Side, steps: seq<Step>)
    requires session.leftLabel != session.rightLabel
    requires RL.BelowWrap(LinkOf(session, Run(session, from, steps)))
    ensures var s := Run(session, from, steps); Inv(NodeOf(session, from, s), s)
    decreases |steps|
  {
    hide Inv, Apply, RL.BelowWrap;
    if steps == [] {
      IdleOk(session, from);
    } else {
      var prior, last := steps[..|steps| - 1], steps[|steps| - 1];
      StepGrows(session, from, Run(session, from, prior), last);
      InvariantOverRuns(session, from, prior);
      StepKeeps(session, from, Run(session, from, prior), last);
    }
  }

  // ----- the main result -----

  lemma {:induction false} EncodePrefix(sent: seq<Message>, n: nat)
    requires Fit(sent) && n <= |sent|
    ensures Fit(sent[..n]) && |EncodeAll(sent)| == |sent| && EncodeAll(sent)[..n] == EncodeAll(sent[..n])
  {
    if n == 0 {
      if sent != [] { EncodePrefix(sent[1..], 0); }
    } else {
      EncodePrefix(sent[1..], n - 1);
      assert sent[..n][1..] == sent[1..][..n - 1];
      assert EncodeAll(sent)[..n] == [Encode(sent[0])] + EncodeAll(sent[1..])[..n - 1];
    }
  }

  /** Data of a stream among the records released: what its writer wrote, up to a point. */
  lemma ReleasedPrefix(session: RL.Session, from: RL.Side, steps: seq<Step>, id: u32)
    requires session.leftLabel != session.rightLabel
    requires RL.BelowWrap(LinkOf(session, Run(session, from, steps)))
    ensures var s := Run(session, from, steps);
            DataOf(id, RL.At(LinkOf(session, s), RL.Peer(from)).released) <= Flatten(ListOf(s.calls, id))
  {
    hide Run, RL.Run, RL.Act, EncodeAll, DataOf, ChunksOf;
    var s := Run(session, from, steps);
    InvariantOverRuns(session, from, steps);
    RL.EveryRunDelivers(session, s.rl);
    RL.OnlyTheLastMayHaveFailed(session, s.rl);
    var n := NodeOf(session, from, s);
    var released := RL.At(LinkOf(session, s), RL.Peer(from)).released;
    assert released == n.written[..|released|];
    EncodePrefix(s.sent, 0);
    EncodePrefix(s.sent, |released|);
    assert Reached(n.returned, |released|);
    assert StreamOk(n.returned, s, id);
    DataOfEncoded(id, s.sent[..|released|]);
  }

  /**
   * Main result: in either direction, a stream that stays open at the reader takes in a prefix of
   * what was passed to Write, although writers run on after a failed Write and share the connection.
   */
  lemma StreamDeliversPrefix(session: RL.Session, from: RL.Side, steps: seq<Step>,
                             id: u32, streams: map<u32, bytes>, events: seq<Event>)
    requires session.leftLabel != session.rightLabel
    requires var s := Run(session, from, steps);
             && RL.BelowWrap(LinkOf(session, s))
             && ReadsWholeRecords(s.rl, RL.Peer(from))
             && Arrivals(events) == Reads(session, s.rl, RL.Peer(from))
    requires TakenIn(id, streams) == [] && StaysOpen(id, streams, events)
    ensures TakenIn(id, HandleAll(streams, events)) <= Flatten(ListOf(Run(session, from, steps).calls, id))
  {
    hide Run, RL.Run, RL.BelowWrap, ReadsWholeRecords, Reads, DataOf, HandleAll, StaysOpen;
    var s := Run(session, from, steps);
    OpenStreamTakesItsData(id, streams, events);
    ReadsCarryReleased(session, s.rl, RL.Peer(from), id);
    ReleasedPrefix(session, from, steps, id);
    assert TakenIn(id, streams) + DataOf(id, Arrivals(events)) == DataOf(id, Arrivals(events));
  }

  /** When every call has returned on an open connection, every frame sealed was released. */
  lemma ReleasedWhole(session: RL.Session, from: RL.Side, steps: seq<Step>, id: u32)
    requires session.leftLabel != session.rightLabel
    requires var s := Run(session, from, steps);
             && RL.BelowWrap(LinkOf(session, s))
             && !NodeOf(session, from, s).ep.closed && !Blocked(session, from, s)
             && ListOf(s.todo, id) == [] && id !in s.refused
    ensures var s := Run(session, from, steps);
            DataOf(id, RL.At(LinkOf(session, s), RL.Peer(from)).released) == Flatten(ListOf(s.calls, id))
  {
    hide Run, RL.Run, RL.Act, EncodeAll, DataOf, ChunksOf;
    var s := Run(session, from, steps);
    InvariantOverRuns(session, from, steps);
    RL.EveryRunDelivers(session, s.rl);
    EncodePrefix(s.sent, 0);
    var n := NodeOf(session, from, s);
    var released := RL.At(LinkOf(session, s), RL.Peer(from)).released;
    if n.returned != [] { assert n.returned[|n.returned| - 1]; }
    assert released == n.written;
    assert StreamOk(n.returned, s, id);
    assert Flatten(ChunksOf(id, s.sent)) + Flatten<byte>([]) == Flatten(ChunksOf(id, s.sent));
    DataOfEncoded(id, s.sent);
  }

  /** The other half: once a stream's calls have returned on an open connection, all they wrote is taken in. */
  lemma StreamDeliversAll(session: RL.Session, from: RL.Side, steps: seq<Step>,
                          id: u32, streams: map<u32, bytes>, events: seq<Event>)
    requires session.leftLabel != session.rightLabel
    requires var s := Run(session, from, steps);
             && RL.BelowWrap(LinkOf(session, s))
             && ReadsWholeRecords(s.rl, RL.Peer(from))
             && Arrivals(events) == Reads(session, s.rl, RL.Peer(from))
             && !NodeOf(session, from, s).ep.closed && !Blocked(session, from, s)
             && ListOf(s.todo, id) == [] && id !in s.refused
    requires TakenIn(id, streams) == [] && StaysOpen(id, streams, events)
    ensures TakenIn(id, HandleAll(streams, events)) == Flatten(ListOf(Run(session, from, steps).calls, id))
  {
    hide Run, RL.Run, RL.BelowWrap, ReadsWholeRecords, Reads, DataOf, HandleAll, StaysOpen;
    var s := Run(session, from, steps);
    OpenStreamTakesItsData(id, streams, events);
    ReadsCarryReleased(session, s.rl, RL.Peer(from), id);
    ReleasedWhole(session, from, steps, id);
    assert TakenIn(id, streams) + DataOf(id, Arrivals(events)) == DataOf(id, Arrivals(events));
  }

  // ----- a writer that runs on -----

  /** A stream whose first frame fails, and whose writer then writes one more byte. */
  function RunsOn(p: bytes): seq<Step> { [Call(1, p), Frame(1, false), Call(1, [7]), Frame(1, true)] }

  lemma RunFour(session: RL.Session, from: RL.Side, a: Step, b: Step, c: Step, d: Step)
    ensures Run(session, from, [a, b, c, d]) ==
            Apply(session, from, Apply(session, from, Apply(session, from, Apply(session, from, IDLE, a), b), c), d)
  {
    hide Apply;
    assert [a, b, c, d][..3] == [a, b, c] && [a, b, c][..2] == [a, b] && [a, b][..1] == [a] && [a][..0] == [];
    assert Run(session, from, [a]) == Apply(session, from, IDLE, a);
    assert Run(session, from, [a, b]) == Apply(session, from, Run(session, from, [a]), b);
    assert Run(session, from, [a, b, c]) == Apply(session, from, Run(session, from, [a, b]), c);
  }

  lemma FragmentsOfOneMore(p: bytes)
    requires |p| == MAX_CHUNK + 1
    ensures Fragments(p) == [p[..MAX_CHUNK], p[MAX_CHUNK..]] && Fragments([7]) == [[7]]
  {
    assert Fragments(p[MAX_CHUNK..]) == [p[MAX_CHUNK..][..1]] + Fragments([]);
    assert p[MAX_CHUNK..][..1] == p[MAX_CHUNK..];
    assert [7][..1] == [7] && [7][1..] == [];
  }

  /** An end that is at rest, before or after it was closed. */
  predicate Resting(e: ConsentConn.Endpoint) { e.writing.None? && e.pendingData == {} }

  lemma FailedWrite(n: RL.Node, net: set<ConsentConn.Record>, frame: bytes, transportOk: bool)
    requires Resting(n.ep) && (n.ep.closed || !transportOk) && |frame| <= ConsentConn.MAX_APPLICATION_RECORD
    ensures RL.Enabled(n, net, RL.Write(frame, transportOk))
    ensures var n2 := RL.Act(n, net, RL.Write(frame, transportOk)).0; Resting(n2.ep) && n2.ep.closed
  {
    var sequence: u64 := (n.ep.sendSeq + 1) % TWO_64;
    assert |n.ep.pendingData| == 0 && n.ep.pendingData + {sequence} - {sequence} == {};
  }

  lemma FailsAtOnce(session: RL.Session, from: RL.Side, s: Sys, id: u32, transportOk: bool)
    requires Resting(NodeOf(session, from, s).ep) && (NodeOf(session, from, s).ep.closed || !transportOk)
    requires ListOf(s.todo, id) != [] && |ListOf(s.todo, id)[0]| <= MAX_CHUNK && id !in s.refused && s.flying.None?
    ensures var t := Apply(session, from, s, Frame(id, transportOk));
            && Resting(NodeOf(session, from, t).ep) && NodeOf(session, from, t).ep.closed
            && t == s.(rl := t.rl, sent := s.sent + [Message(MSG_DATA, id, ListOf(s.todo, id)[0])], todo := s.todo[id := []])
  {
    hide RL.Run, RL.Act, RL.Enabled, Encode, Resting;
    var m := Message(MSG_DATA, id, ListOf(s.todo, id)[0]);
    var pushed := Push(session, from, s, m, transportOk);
    OneMore(session, s, pushed, RL.Step(from, RL.Write(Encode(m), transportOk)));
    FailedWrite(NodeOf(session, from, s), LinkOf(session, s).net, Encode(m), transportOk);
    assert Resting(NodeOf(session, from, pushed).ep) && NodeOf(session, from, pushed).ep.closed;
    RestingIsFree(NodeOf(session, from, s).ep);
    RestingIsFree(NodeOf(session, from, pushed).ep);
    var t := Apply(session, from, s, Frame(id, transportOk));
    assert LinkOf(session, t) == LinkOf(session, pushed);
  }

  lemma RestingIsFree(e: ConsentConn.Endpoint)
    requires Resting(e)
    ensures e.writing.None?
  {
  }

  /**
   * What is sealed need not be a prefix of what was written: a failed first frame and the byte
   * after the dropped rest. The main result holds of this run because neither record can arrive.
   */
  lemma SealedIsNoPrefix(session: RL.Session, from: RL.Side, p: bytes)
    requires |p| == MAX_CHUNK + 1 && p[MAX_CHUNK] == 0
    ensures var s := Run(session, from, RunsOn(p));
            && ListOf(s.calls, 1) == [p, [7]] && ChunksOf(1, s.sent) == [p[..MAX_CHUNK], [7]]
            && !(Flatten(ChunksOf(1, s.sent)) <= Flatten(ListOf(s.calls, 1)))
  {
    hide RL.Run, Fragments;
    FragmentsOfOneMore(p);
    RunFour(session, from, Call(1, p), Frame(1, false), Call(1, [7]), Frame(1, true));
    var s1 := Apply(session, from, IDLE, Call(1, p));
    assert Resting(NodeOf(session, from, s1).ep) by { IdleRests(session, from, s1); }
    FailsAtOnce(session, from, s1, 1, false);
    var s2 := Apply(session, from, s1, Frame(1, false));
    var s3 := Apply(session, from, s2, Call(1, [7]));
    assert LinkOf(session, s3) == LinkOf(session, s2);
    FailsAtOnce(session, from, s3, 1, true);
    var s4 := Apply(session, from, s3, Frame(1, true));
    assert s4.sent == [Message(MSG_DATA, 1, p[..MAX_CHUNK]), Message(MSG_DATA, 1, [7])];
    assert s4.calls[1] == [p, [7]];
    TwoChunks(p);
  }

  lemma IdleRests(session: RL.Session, from: RL.Side, s: Sys)
    requires s.rl == []
    ensures Resting(NodeOf(session, from, s).ep) && !NodeOf(session, from, s).ep.closed
  {
  }

  lemma TwoChunks(p: bytes)
    requires |p| == MAX_CHUNK + 1 && p[MAX_CHUNK] == 0
    ensures ChunksOf(1, [Message(MSG_DATA, 1, p[..MAX_CHUNK]), Message(MSG_DATA, 1, [7])]) == [p[..MAX_CHUNK], [7]]
    ensures !(Flatten([p[..MAX_CHUNK], [7]]) <= Flatten([p, [7]]))
  {
    ChunksAppend(1, [Message(MSG_DATA, 1, p[..MAX_CHUNK])], Message(MSG_DATA, 1, [7]));
    ChunksAppend(1, [], Message(MSG_DATA, 1, p[..MAX_CHUNK]));
    assert [] + [Message(MSG_DATA, 1, p[..MAX_CHUNK])] == [Message(MSG_DATA, 1, p[..MAX_CHUNK])];
    assert [Message(MSG_DATA, 1, p[..MAX_CHUNK])] + [Message(MSG_DATA, 1, [7])]
        == [Message(MSG_DATA, 1, p[..MAX_CHUNK]), Message(MSG_DATA, 1, [7])];
    FlattenSingle([p[..MAX_CHUNK]], [7]);
    FlattenSingle([p], [7]);
    FlattenSingle([], p);
    FlattenSingle([], p[..MAX_CHUNK]);
    assert [] + [p] == [p] && [] + [p[..MAX_CHUNK]] == [p[..MAX_CHUNK]];
    assert [p[..MAX_CHUNK]] + [[7]] == [p[..MAX_CHUNK], [7]] && [p] + [[7]] == [p, [7]];
    assert Flatten([p[..MAX_CHUNK], [7]])[MAX_CHUNK] == 7;
    assert Flatten([p, [7]])[MAX_CHUNK] == 0;
  }
}
