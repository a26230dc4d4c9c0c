/** The receiver's 64-record sliding replay window and the set it stands for. */
module ReplayWindow {
  import opened Basics
  import opened Word64

  /** recvSalt / recvSaltSet, recvHighest and recvWindow. */
  datatype Window = Window(salt: Option<bytes>, highest: u64, bits: u64)

  const EMPTY := Window(None, 0, 0)

  /** The replay part of openData: the window afterwards and whether the record is fresh. */
  function Accept(w: Window, salt: bytes, sequence: u64): (Window, bool) {
    if w.salt.Some? && w.salt.value != salt then (w, false)
    else
      var w := w.(salt := Some(salt));
      if sequence > w.highest then
        var shift := sequence - w.highest;
        var shifted := if shift >= BITS then 0 else ShiftLeft(w.bits, shift);
        (w.(highest := sequence, bits := SetBit64(shifted, 0)), true)
      else
        var delta := w.highest - sequence;
        if delta >= BITS || Bit(w.bits, delta) then (w, false)
        else (w.(bits := SetBit64(w.bits, delta)), true)
  }

  /** The same decision on a plain set of accepted numbers. */
  predicate MayAccept(accepted: set<u64>, sequence: u64) {
    sequence !in accepted && forall a | a in accepted :: a < sequence + BITS
  }

  /** Bit d stands for `highest - d`. */
  ghost predicate Represents(w: Window, accepted: set<u64>) {
    && (forall a | a in accepted :: a <= w.highest)
    && (accepted != {} ==> w.highest in accepted)
    && (accepted == {} ==> w.highest == 0)
    && (forall d: nat | d < BITS :: Bit(w.bits, d) <==> (d <= w.highest && w.highest - d in accepted))
  }

  lemma EmptyRepresents()
    ensures Represents(EMPTY, {})
  {
    forall d: nat ensures !Bit(0, d) { ZeroHasNoBits(d); }
  }

  /** One step: the word and the set take the same decision and stay in step. */
  lemma AcceptRefinesSet(w: Window, accepted: set<u64>, salt: bytes, sequence: u64)
    requires Represents(w, accepted)
    requires w.salt.None? || w.salt.value == salt
    ensures Accept(w, salt, sequence).1 == MayAccept(accepted, sequence)
    ensures Accept(w, salt, sequence).0.salt == Some(salt)
    ensures Represents(Accept(w, salt, sequence).0,
                       if MayAccept(accepted, sequence) then accepted + {sequence} else accepted)
  {
    var (next, isNew) := Accept(w, salt, sequence);
    if sequence > w.highest {
      var shift := sequence - w.highest;
      var shifted := if shift >= BITS then 0 else ShiftLeft(w.bits, shift);
      forall d: nat | d < BITS
        ensures Bit(next.bits, d) <==> (d <= sequence && sequence - d in accepted + {sequence})
      {
        SetBitBit(shifted, 0, d);
        if shift >= BITS { ZeroHasNoBits(d); } else { ShiftLeftBit(w.bits, shift, d); }
        if d >= shift { assert sequence - d == w.highest - (d - shift); }
      }
    } else {
      var delta := w.highest - sequence;
      if delta < BITS {
        assert Bit(w.bits, delta) <==> sequence in accepted;
        forall d: nat | d < BITS ensures Bit(SetBit(w.bits, delta), d) == (d == delta || Bit(w.bits, d)) {
          SetBitBit(w.bits, delta, d);
        }
      }
    }
  }

  datatype Arrival = Arrival(salt: bytes, sequence: u64)

  /** The window after a run of authenticated records, and the verdict on each. */
  function Run(w: Window, arrivals: seq<Arrival>): (Window, seq<bool>)
    decreases |arrivals|
  {
    if arrivals == [] then (w, [])
    else
      var (w1, isNew) := Accept(w, arrivals[0].salt, arrivals[0].sequence);
      var (w2, rest) := Run(w1, arrivals[1..]);
      (w2, [isNew] + rest)
  }

  /** Reference: remember every accepted number, under the first salt seen. */
  function Reference(salt: bytes, accepted: set<u64>, arrivals: seq<Arrival>): (set<u64>, seq<bool>)
    decreases |arrivals|
  {
    if arrivals == [] then (accepted, [])
    else
      var isNew := arrivals[0].salt == salt && MayAccept(accepted, arrivals[0].sequence);
      var (set2, rest) := Reference(salt, if isNew then accepted + {arrivals[0].sequence} else accepted, arrivals[1..]);
      (set2, [isNew] + rest)
  }

  lemma {:induction false} RunRefinesReferenceFrom(w: Window, accepted: set<u64>, salt: bytes, arrivals: seq<Arrival>)
    requires Represents(w, accepted) && w.salt == Some(salt)
    ensures Run(w, arrivals).1 == Reference(salt, accepted, arrivals).1
    ensures Represents(Run(w, arrivals).0, Reference(salt, accepted, arrivals).0)
    decreases |arrivals|
  {
    if arrivals != [] {
      var n := arrivals[0];
      var (w1, isNew) := Accept(w, n.salt, n.sequence);
      if n.salt == salt {
        AcceptRefinesSet(w, accepted, salt, n.sequence);
      }
      RunRefinesReferenceFrom(w1, if isNew then accepted + {n.sequence} else accepted, salt, arrivals[1..]);
    }
  }

  /** Main result: over every run the 64-bit word decides exactly as the unbounded set. */
  lemma RunRefinesReference(arrivals: seq<Arrival>)
    requires arrivals != []
    ensures Run(EMPTY, arrivals).1 == Reference(arrivals[0].salt, {}, arrivals).1
    ensures Represents(Run(EMPTY, arrivals).0, Reference(arrivals[0].salt, {}, arrivals).0)
  {
    var n := arrivals[0];
    EmptyRepresents();
    AcceptRefinesSet(EMPTY, {}, n.salt, n.sequence);
    var (w1, isNew) := Accept(EMPTY, n.salt, n.sequence);
    RunRefinesReferenceFrom(w1, if isNew then {n.sequence} else {}, n.salt, arrivals[1..]);
    assert {} + {n.sequence} == {n.sequence};
  }

  lemma {:induction false} ReferenceVerdicts(salt: bytes, accepted: set<u64>, arrivals: seq<Arrival>)
    ensures |Reference(salt, accepted, arrivals).1| == |arrivals|
    ensures forall k | 0 <= k < |arrivals| && Reference(salt, accepted, arrivals).1[k] ::
              arrivals[k].salt == salt && arrivals[k].sequence !in accepted
    ensures forall j, k | 0 <= j < k < |arrivals|
              && Reference(salt, accepted, arrivals).1[j] && Reference(salt, accepted, arrivals).1[k] ::
              arrivals[j].sequence != arrivals[k].sequence
    decreases |arrivals|
  {
    if arrivals != [] {
      var isNew := arrivals[0].salt == salt && MayAccept(accepted, arrivals[0].sequence);
      var next := if isNew then accepted + {arrivals[0].sequence} else accepted;
      ReferenceVerdicts(salt, next, arrivals[1..]);
      var rest := Reference(salt, next, arrivals[1..]).1;
      var all := Reference(salt, accepted, arrivals).1;
      assert all == [isNew] + rest;
      forall k | 0 < k < |arrivals| && all[k] ensures arrivals[k].salt == salt && arrivals[k].sequence !in next {
        assert rest[k - 1] && arrivals[1..][k - 1] == arrivals[k];
      }
      forall j, k | 0 <= j < k < |arrivals| && all[j] && all[k] ensures arrivals[j].sequence != arrivals[k].sequence {
        assert rest[k - 1] && arrivals[1..][k - 1] == arrivals[k];
        if j > 0 { assert rest[j - 1] && arrivals[1..][j - 1] == arrivals[j]; }
      }
    }
  }

  /** No sequence number is ever accepted twice, and none under a second salt. */
  lemma NeverAcceptedTwice(arrivals: seq<Arrival>, j: nat, k: nat)
    requires j < k < |arrivals|
    ensures |Run(EMPTY, arrivals).1| == |arrivals|
    ensures Run(EMPTY, arrivals).1[j] && Run(EMPTY, arrivals).1[k] ==>
              arrivals[j].sequence != arrivals[k].sequence && arrivals[j].salt == arrivals[k].salt
  {
    RunRefinesReference(arrivals);
    ReferenceVerdicts(arrivals[0].salt, {}, arrivals);
  }
}
