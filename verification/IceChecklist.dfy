/** Ordering candidate pairs, checking them within a shared budget, and keeping consent fresh. */
module IceChecklist {
  import opened Basics
  import opened Negotiation

  // ----- pair priority -----

  function CandidatePriority(c: Candidate): u32 {
    if c.priority != 0 then c.priority
    else match c.kind
      case Host => 126
      case Srflx => 100
      case RelayType => 1
      case OtherType => 0
  }

  /** A priority of its own counts; without one a host outranks a reflexive address, a relay is last, and unknown types count nothing. */
  lemma DefaultPriorities(c: Candidate, d: Candidate)
    ensures c.priority != 0 ==> CandidatePriority(c) == c.priority
    ensures c.priority == 0 ==> CandidatePriority(c) == (if c.kind == Host then 126 else if c.kind == Srflx then 100 else if c.kind == RelayType then 1 else 0)
    ensures c.priority == 0 && d.priority == 0 && c.kind == Host && d.kind != Host ==> CandidatePriority(c) > CandidatePriority(d)
    ensures c.priority == 0 && d.priority == 0 && c.kind == Srflx && d.kind == RelayType ==> CandidatePriority(c) > CandidatePriority(d)
  {
  }

  /** (min << 32) + (max << 1) + tie, on a 64-bit word. */
  function PairPriority(g: u32, d: u32): u64 {
    (Min(g, d) * TWO_32 + Max(g, d) * 2 + (if g > d then 1 else 0)) % TWO_64
  }

  /** Smaller priority first, then larger, then who controls: the order the formula is meant to encode. */
  predicate Outranks(g: int, d: int, g2: int, d2: int) {
    || Min(g, d) > Min(g2, d2)
    || (Min(g, d) == Min(g2, d2) && Max(g, d) > Max(g2, d2))
    || (Min(g, d) == Min(g2, d2) && Max(g, d) == Max(g2, d2) && g > d && g2 <= d2)
  }

  /** The priority of a pair of candidates, and the order it is meant to encode. */
  function RankOf(l: Candidate, r: Candidate): u64 {
    PairPriority(CandidatePriority(l), CandidatePriority(r))
  }

  predicate PairOutranks(l: Candidate, r: Candidate, l2: Candidate, r2: Candidate) {
    Outranks(CandidatePriority(l), CandidatePriority(r), CandidatePriority(l2), CandidatePriority(r2))
  }

  /** A validated candidate whose effective priority is at most `top`. */
  predicate InPlay(c: Candidate, top: int) {
    ValidCandidate(c) && CandidatePriority(c) <= top
  }

  /** Pairs of validated candidates with effective priorities up to `top` are ranked as intended. */
  ghost predicate FaithfulUpTo(top: int) {
    forall l, r, l2, r2: Candidate {:trigger PairOutranks(l, r, l2, r2)} |
      InPlay(l, top) && InPlay(r, top) && InPlay(l2, top) && InPlay(r2, top) ::
      RankOf(l, r) > RankOf(l2, r2) <==> PairOutranks(l, r, l2, r2)
  }

  /** The same of candidates nobody validated, whose type may be unknown. */
  ghost predicate FaithfulUnvalidated(top: int) {
    forall l, r, l2, r2: Candidate {:trigger PairOutranks(l, r, l2, r2)} |
      CandidatePriority(l) <= top && CandidatePriority(r) <= top && CandidatePriority(l2) <= top && CandidatePriority(r2) <= top ::
      RankOf(l, r) > RankOf(l2, r2) <==> PairOutranks(l, r, l2, r2)
  }

  /** Up to 2^31 nothing wraps and the order is lexicographic; without zero priorities one more fits. */
  lemma PriorityIsLexicographic(g: u32, d: u32, g2: u32, d2: u32)
    requires || (Max(g, d) <= 0x8000_0000 && Max(g2, d2) <= 0x8000_0000)
             || (Max(g, d) <= 0x8000_0001 && Max(g2, d2) <= 0x8000_0001 && Min(g, d) > 0 && Min(g2, d2) > 0)
    ensures PairPriority(g, d) == Min(g, d) * TWO_32 + Max(g, d) * 2 + (if g > d then 1 else 0)
    ensures PairPriority(g, d) > PairPriority(g2, d2) <==> Outranks(g, d, g2, d2)
  {
    NoWrap(g, d);
    NoWrap(g2, d2);
    hide PairPriority;
    if Min(g, d) == Min(g2, d2) {
    } else if Min(g, d) > Min(g2, d2) {
      SmallerSideDecides(g, d, g2, d2);
    } else {
      SmallerSideDecides(g2, d2, g, d);
    }
  }

  lemma NoWrap(g: u32, d: u32)
    requires Max(g, d) <= 0x8000_0001
    ensures PairPriority(g, d) == Min(g, d) * TWO_32 + Max(g, d) * 2 + (if g > d then 1 else 0)
  {
  }

  lemma SmallerSideDecides(g: u32, d: u32, g2: u32, d2: u32)
    requires Min(g, d) > Min(g2, d2)
    requires Max(g2, d2) <= 0x8000_0000 || (Max(g2, d2) <= 0x8000_0001 && Min(g2, d2) > 0)
    ensures Min(g, d) * TWO_32 + Max(g, d) * 2 > Min(g2, d2) * TWO_32 + Max(g2, d2) * 2 + 1
  {
    assert Min(g, d) * TWO_32 >= Min(g2, d2) * TWO_32 + TWO_32;
  }

  /** Only an unknown type yields effective priority 0, and validation refuses it. */
  lemma ValidatedIsPositive(c: Candidate)
    ensures CandidatePriority(c) == 0 <==> c.priority == 0 && c.kind == OtherType
    ensures ValidCandidate(c) ==> CandidatePriority(c) > 0
  {
  }

  function HostWith(priority: u32): Candidate {
    Candidate("host", Host, "192.0.2.1:1", true, priority)
  }

  /** Two pairs of validated candidates that are ranked the wrong way round. */
  lemma MisrankedPair()
    ensures var big, one, two := HostWith(0x8000_0002), HostWith(1), HostWith(2);
            && InPlay(big, 0x8000_0002) && InPlay(one, 0x8000_0002) && InPlay(two, 0x8000_0002)
            && RankOf(big, one) > RankOf(two, two) && !PairOutranks(big, one, two, two)
  {
    assert RankOf(HostWith(0x8000_0002), HostWith(1)) == 2 * TWO_32 + 5;
    assert RankOf(HostWith(2), HostWith(2)) == 2 * TWO_32 + 4;
  }

  /** The exact range: validated pairs are ranked as intended for priorities up to 2^31 + 1, and not one further. */
  lemma FaithfulExactly(top: int)
    ensures FaithfulUpTo(top) <==> top <= 0x8000_0001
  {
    hide CandidatePriority, ValidCandidate;
    if top <= 0x8000_0001 {
      forall l, r, l2, r2: Candidate | InPlay(l, top) && InPlay(r, top) && InPlay(l2, top) && InPlay(r2, top)
        ensures RankOf(l, r) > RankOf(l2, r2) <==> PairOutranks(l, r, l2, r2)
      {
        ValidatedIsPositive(l);
        ValidatedIsPositive(r);
        ValidatedIsPositive(l2);
        ValidatedIsPositive(r2);
        PriorityIsLexicographic(CandidatePriority(l), CandidatePriority(r), CandidatePriority(l2), CandidatePriority(r2));
      }
    } else {
      MisrankedPair();
    }
  }

  /** Without validation the range ends at 2^31, where a candidate of unknown type ranks too high. */
  lemma FaithfulUnvalidatedExactly(top: int)
    ensures FaithfulUnvalidated(top) <==> top <= 0x8000_0000
  {
    if top <= 0x8000_0000 {
      forall l, r, l2, r2: Candidate |
        CandidatePriority(l) <= top && CandidatePriority(r) <= top && CandidatePriority(l2) <= top && CandidatePriority(r2) <= top
        ensures RankOf(l, r) > RankOf(l2, r2) <==> PairOutranks(l, r, l2, r2)
      {
        PriorityIsLexicographic(CandidatePriority(l), CandidatePriority(r), CandidatePriority(l2), CandidatePriority(r2));
      }
    } else {
      var unknown := Candidate("other", OtherType, "192.0.2.1:1", true, 0);
      assert RankOf(HostWith(0x8000_0001), unknown) == TWO_32 + 3 && RankOf(HostWith(1), HostWith(1)) == TWO_32 + 2;
      assert !PairOutranks(HostWith(0x8000_0001), unknown, HostWith(1), HostWith(1));
    }
  }

  // ----- the checklist -----

  datatype Pair = Pair(local: Candidate, remote: Candidate, priority: u64)

  predicate Usable(c: Candidate) {
    c.addr != "" && c.kind != RelayType
  }

  function Row(l: Candidate, remote: seq<Candidate>): seq<Pair> {
    if remote == [] then []
    else (if Usable(remote[0]) then [Pair(l, remote[0], PairPriority(CandidatePriority(l), CandidatePriority(remote[0])))] else [])
         + Row(l, remote[1..])
  }

  /** Every usable pair, local candidates in the outer loop. */
  function AllPairs(local: seq<Candidate>, remote: seq<Candidate>): seq<Pair> {
    if local == [] then []
    else (if Usable(local[0]) then Row(local[0], remote) else []) + AllPairs(local[1..], remote)
  }

  /** The comparison given to the stable sort. */
  predicate Before(p: Pair, q: Pair) {
    if p.priority != q.priority then p.priority > q.priority
    else if p.local.id != q.local.id then StringLess(p.local.id, q.local.id)
    else StringLess(p.remote.id, q.remote.id)
  }

  predicate Tied(p: Pair, q: Pair) {
    !Before(p, q) && !Before(q, p)
  }

  /** Before is a strict weak order: ties are exactly equal keys. */
  lemma BeforeIsOrder(p: Pair, q: Pair, r: Pair)
    ensures Tied(p, q) <==> p.priority == q.priority && p.local.id == q.local.id && p.remote.id == q.remote.id
    ensures Before(p, q) ==> !Before(q, p)
    ensures !Before(q, p) && !Before(r, q) ==> !Before(r, p)
    ensures Before(p, q) && !Before(r, q) ==> Before(p, r)
  {
    StringLessTrichotomy(p.local.id, q.local.id);
    StringLessTrichotomy(p.remote.id, q.remote.id);
    StringLessTrichotomy(q.local.id, r.local.id);
    StringLessTrichotomy(q.remote.id, r.remote.id);
    StringLessTrichotomy(p.local.id, r.local.id);
    StringLessTrichotomy(p.remote.id, r.remote.id);
    if StringLess(p.local.id, q.local.id) && StringLess(q.local.id, r.local.id) {
      StringLessTransitive(p.local.id, q.local.id, r.local.id);
    }
    if StringLess(p.remote.id, q.remote.id) && StringLess(q.remote.id, r.remote.id) {
      StringLessTransitive(p.remote.id, q.remote.id, r.remote.id);
    }
  }

  /** The order itself: higher priority first, then the local ID, then the remote one, as Go compares strings. */
  lemma BeforeRanks(p: Pair, q: Pair)
    ensures p.priority > q.priority ==> Before(p, q)
    ensures p.priority == q.priority && StringLess(p.local.id, q.local.id) ==> Before(p, q)
    ensures p.priority == q.priority && p.local.id == q.local.id && StringLess(p.remote.id, q.remote.id) ==> Before(p, q)
    ensures Before(p, q) ==> p.priority >= q.priority
  {
    StringLessTrichotomy(p.local.id, q.local.id);
    StringLessTrichotomy(p.remote.id, q.remote.id);
  }

  /** Insert behind everything it does not precede. */
  function Insert(p: Pair, sorted: seq<Pair>): seq<Pair> {
    if sorted == [] || Before(p, sorted[0]) then [p] + sorted
    else [sorted[0]] + Insert(p, sorted[1..])
  }

  /** The stable sort of the checklist. */
  function StableSort(pairs: seq<Pair>): seq<Pair> {
    if pairs == [] then [] else Insert(pairs[|pairs| - 1], StableSort(pairs[..|pairs| - 1]))
  }

  ghost predicate InOrder(pairs: seq<Pair>) {
    forall i, j | 0 <= i < j < |pairs| :: !Before(pairs[j], pairs[i])
  }

  /** The elements tied with a key, in the order they appear. */
  function TiedWith(key: Pair, pairs: seq<Pair>): seq<Pair> {
    if pairs == [] then [] else (if Tied(key, pairs[0]) then [pairs[0]] else []) + TiedWith(key, pairs[1..])
  }

  lemma {:induction false} InsertSorts(p: Pair, sorted: seq<Pair>)
    requires InOrder(sorted)
    ensures InOrder(Insert(p, sorted)) && multiset(Insert(p, sorted)) == multiset(sorted) + multiset{p}
  {
    if sorted == [] || Before(p, sorted[0]) {
      assert [p] + sorted == Insert(p, sorted);
      forall j | 0 <= j < |sorted| ensures !Before(sorted[j], p) {
        if j > 0 { BeforeIsOrder(p, sorted[0], sorted[j]); }
        BeforeIsOrder(p, sorted[0], sorted[j]);
      }
    } else {
      var head, tail := sorted[0], sorted[1..];
      assert sorted == [head] + tail;
      InsertSorts(p, tail);
      var rest := Insert(p, tail);
      forall j | 0 <= j < |rest| ensures !Before(rest[j], head) {
        assert rest[j] in multiset(rest);
        if rest[j] in tail {
          var k :| 0 <= k < |tail| && tail[k] == rest[j];
          assert sorted[k + 1] == rest[j];
        } else {
          assert rest[j] == p;
          BeforeIsOrder(head, p, p);
        }
      }
    }
  }

  lemma {:induction false} InsertIsStable(p: Pair, sorted: seq<Pair>, key: Pair)
    requires InOrder(sorted)
    ensures TiedWith(key, Insert(p, sorted)) == TiedWith(key, sorted) + (if Tied(key, p) then [p] else [])
  {
    if sorted == [] {
      assert Insert(p, sorted)[1..] == [];
    } else if Before(p, sorted[0]) {
      assert Insert(p, sorted)[1..] == sorted;
      if Tied(key, p) {
        NothingTiedBehind(p, sorted, key);
      }
    } else {
      var head, tail := sorted[0], sorted[1..];
      InsertIsStable(p, tail, key);
      assert Insert(p, sorted) == [head] + Insert(p, tail);
      assert Insert(p, sorted)[1..] == Insert(p, tail);
    }
  }

  lemma {:induction false} NothingTiedBehind(p: Pair, sorted: seq<Pair>, key: Pair)
    requires InOrder(sorted) && Tied(key, p)
    requires sorted != [] ==> Before(p, sorted[0])
    ensures TiedWith(key, sorted) == []
  {
    if sorted != [] {
      BeforeIsOrder(key, p, sorted[0]);
      BeforeIsOrder(p, key, sorted[0]);
      if |sorted| > 1 { BeforeIsOrder(p, sorted[0], sorted[1]); }
      NothingTiedBehind(p, sorted[1..], key);
    }
  }

  lemma {:induction false} TiedWithAppend(key: Pair, a: seq<Pair>, p: Pair)
    ensures TiedWith(key, a + [p]) == TiedWith(key, a) + (if Tied(key, p) then [p] else [])
  {
    if a == [] {
      assert ([] + [p])[1..] == [];
    } else {
      assert (a + [p])[1..] == a[1..] + [p];
      TiedWithAppend(key, a[1..], p);
    }
  }

  lemma EmptyInOrder()
    ensures InOrder([])
  {
  }

  /** Main result: the checklist order is a permutation, sorted, and stable among equal keys. */
  lemma {:induction false} StableSortCorrect(pairs: seq<Pair>, key: Pair)
    ensures multiset(StableSort(pairs)) == multiset(pairs)
    ensures InOrder(StableSort(pairs))
    ensures TiedWith(key, StableSort(pairs)) == TiedWith(key, pairs)
  {
    hide Insert, InOrder;
    if pairs == [] {
      EmptyInOrder();
    } else {
      var n := |pairs| - 1;
      StableSortCorrect(pairs[..n], key);
      InsertSorts(pairs[n], StableSort(pairs[..n]));
      InsertIsStable(pairs[n], StableSort(pairs[..n]), key);
      assert pairs == pairs[..n] + [pairs[n]];
      TiedWithAppend(key, pairs[..n], pairs[n]);
    }
  }

  lemma {:induction false} RowContents(l: Candidate, remote: seq<Candidate>, p: Pair)
    ensures p in Row(l, remote) <==>
              p.local == l && p.remote in remote && Usable(p.remote)
              && p.priority == PairPriority(CandidatePriority(l), CandidatePriority(p.remote))
  {
    if remote != [] { RowContents(l, remote[1..], p); }
  }

  /** A pair is listed exactly when both ends are usable candidates of their sides. */
  lemma {:induction false} AllPairsContents(local: seq<Candidate>, remote: seq<Candidate>, p: Pair)
    ensures p in AllPairs(local, remote) <==>
              p.local in local && p.remote in remote && Usable(p.local) && Usable(p.remote)
              && p.priority == PairPriority(CandidatePriority(p.local), CandidatePriority(p.remote))
  {
    if local != [] {
      AllPairsContents(local[1..], remote, p);
      RowContents(local[0], remote, p);
    }
  }

  /** The list in the terms of its candidates: no relay and no empty address, every other pair, and never a lower priority first. */
  lemma ListedExactly(local: seq<Candidate>, remote: seq<Candidate>, p: Pair)
    ensures p in StableSort(AllPairs(local, remote)) <==>
              && p.local in local && p.remote in remote
              && p.local.addr != "" && p.local.kind != RelayType && p.remote.addr != "" && p.remote.kind != RelayType
              && p.priority == RankOf(p.local, p.remote)
    ensures var list := StableSort(AllPairs(local, remote));
            forall i, j | 0 <= i < j < |list| ::
              list[i].priority > list[j].priority
              || (list[i].priority == list[j].priority && !StringLess(list[j].local.id, list[i].local.id))
  {
    var pairs := AllPairs(local, remote);
    var list := StableSort(pairs);
    AllPairsContents(local, remote, p);
    StableSortCorrect(pairs, p);
    assert p in list <==> p in multiset(list);
    assert p in pairs <==> p in multiset(pairs);
    forall i, j | 0 <= i < j < |list|
      ensures list[i].priority > list[j].priority
              || (list[i].priority == list[j].priority && !StringLess(list[j].local.id, list[i].local.id))
    {
      assert !Before(list[j], list[i]);
      BeforeRanks(list[j], list[i]);
    }
  }

  lemma {:induction false} RowAppend(l: Candidate, a: seq<Candidate>, r: Candidate)
    ensures Row(l, a + [r]) == Row(l, a) + (if Usable(r) then [Pair(l, r, PairPriority(CandidatePriority(l), CandidatePriority(r)))] else [])
  {
    if a == [] {
      assert ([] + [r])[1..] == [];
    } else {
      assert (a + [r])[1..] == a[1..] + [r];
      RowAppend(l, a[1..], r);
    }
  }

  lemma {:induction false} AllPairsAppend(a: seq<Candidate>, l: Candidate, remote: seq<Candidate>)
    ensures AllPairs(a + [l], remote) == AllPairs(a, remote) + (if Usable(l) then Row(l, remote) else [])
  {
    if a == [] {
      assert ([] + [l])[1..] == [];
    } else {
      assert (a + [l])[1..] == a[1..] + [l];
      AllPairsAppend(a[1..], l, remote);
    }
  }

  /** Checklist: two loops that skip unusable candidates, then the stable sort. */
  method Checklist(local: seq<Candidate>, remote: seq<Candidate>) returns (list: seq<Pair>)
    ensures list == StableSort(AllPairs(local, remote))
    ensures multiset(list) == multiset(AllPairs(local, remote)) && InOrder(list)
  {
    var pairs: seq<Pair> := [];
    for i := 0 to |local|
      invariant pairs == AllPairs(local[..i], remote)
    {
      assert local[..i + 1] == local[..i] + [local[i]];
      AllPairsAppend(local[..i], local[i], remote);
      if local[i].addr == "" || local[i].kind == RelayType {
        continue;
      }
      for j := 0 to |remote|
        invariant pairs == AllPairs(local[..i], remote) + Row(local[i], remote[..j])
      {
        assert remote[..j + 1] == remote[..j] + [remote[j]];
        RowAppend(local[i], remote[..j], remote[j]);
        if remote[j].addr == "" || remote[j].kind == RelayType {
          continue;
        }
        pairs := pairs + [Pair(local[i], remote[j], PairPriority(CandidatePriority(local[i]), CandidatePriority(remote[j])))];
      }
      assert remote[..|remote|] == remote;
    }
    assert local[..|local|] == local;
    if pairs != [] { StableSortCorrect(pairs, pairs[0]); }
    list := StableSort(pairs);
  }

  // ----- checking within the budget -----

  /** What one connectivity check did: the time it took and whether it connected. */
  datatype Attempt = Attempt(elapsed: nat, connected: bool)

  /** The timeout given to a check with `left` pairs to go and `remaining` time. */
  function CheckTimeout(configured: nat, remaining: int, left: nat): nat
    requires left > 0 && remaining > 0
  {
    var share := remaining / left;
    if 0 < share < configured then share else configured
  }

  /** The timeout is the configured one, unless an equal share of the time left is a shorter whole number of ticks. */
  lemma TimeoutExactly(configured: nat, remaining: int, left: nat)
    requires left > 0 && remaining > 0
    ensures var t := CheckTimeout(configured, remaining, left);
            && t <= configured
            && (remaining < left ==> t == configured)
            && (remaining >= left && t < configured ==> t * left <= remaining < (t + 1) * left)
            && (remaining >= left && t == configured ==> t * left <= remaining)
  {
    var share := remaining / left;
    assert share * left <= remaining < (share + 1) * left;
    if configured <= share {
      assert configured * left <= share * left by { assert (share - configured) * left >= 0; }
    }
  }

  datatype Direct = Nominated(index: nat) | AllFailed | Exhausted(attempted: nat)

  /** The direct phase over the attempts' outcomes, from pair `index` of `total`. */
  function DirectPhase(configured: nat, remaining: int, index: nat, total: nat, attempts: seq<Attempt>): Direct
    requires index <= total && |attempts| == total
    decreases total - index
  {
    if index == total then AllFailed
    else if remaining <= 0 then Exhausted(index)
    else if attempts[index].connected then Nominated(index)
    else DirectPhase(configured, remaining - attempts[index].elapsed, index + 1, total, attempts)
  }

  /** When a check's context ends: its timeout, cut short by the deadline of the direct phase. */
  function Deadline(configured: nat, remaining: int, left: nat): nat
    requires left > 0 && remaining > 0
  {
    Min(CheckTimeout(configured, remaining, left), remaining)
  }

  /** Every check that is started returns by the end of its context. */
  predicate Punctual(configured: nat, remaining: int, index: nat, total: nat, attempts: seq<Attempt>)
    requires index <= total && |attempts| == total
    decreases total - index
  {
    index == total || remaining <= 0 || attempts[index].connected ||
    (attempts[index].elapsed <= Deadline(configured, remaining, total - index)
     && Punctual(configured, remaining - attempts[index].elapsed, index + 1, total, attempts))
  }

  lemma ShareLeavesEnough(remaining: int, left: nat)
    requires left > 0 && remaining >= left
    ensures remaining / left >= 1 && remaining - remaining / left >= left - 1
  {
    var q := remaining / left;
    assert left * q <= remaining;
    TakingAShare(remaining, left, q);
  }

  lemma TakingAShare(remaining: int, left: nat, q: int)
    requires left > 0 && q >= 1 && left * q <= remaining
    ensures remaining - q >= left - 1
  {
    assert (left - 1) * (q - 1) >= 0;
    assert left * q - q - left + 1 == (left - 1) * (q - 1);
  }

  lemma {:induction false} EnoughTimeForAll(configured: nat, remaining: int, index: nat, total: nat, attempts: seq<Attempt>)
    requires index <= total && |attempts| == total
    requires remaining >= total - index && Punctual(configured, remaining, index, total, attempts)
    ensures !DirectPhase(configured, remaining, index, total, attempts).Exhausted?
    decreases total - index
  {
    if index < total && !attempts[index].connected {
      var left := total - index;
      ShareLeavesEnough(remaining, left);
      EnoughTimeForAll(configured, remaining - attempts[index].elapsed, index + 1, total, attempts);
    }
  }

  /** Every check that is started fails at the end of its context. */
  predicate AllTimeOut(configured: nat, remaining: int, index: nat, total: nat, attempts: seq<Attempt>)
    requires index <= total && |attempts| == total
    decreases total - index
  {
    index == total || remaining <= 0 ||
    (attempts[index] == Attempt(Deadline(configured, remaining, total - index), false)
     && AllTimeOut(configured, remaining - attempts[index].elapsed, index + 1, total, attempts))
  }

  /** With less than a tick for each pair the share is zero and the configured timeout stands. */
  lemma NoShare(configured: nat, remaining: int, left: nat)
    requires 0 < remaining < left
    ensures Deadline(configured, remaining, left) == Min(configured, remaining)
  {
    assert remaining / left == 0;
  }

  /** Checks that all time out when time is already short. */
  lemma {:induction false} ShortTimeRunsOut(configured: nat, remaining: int, index: nat, total: nat, attempts: seq<Attempt>)
    requires index < total && |attempts| == total && configured > 0
    requires remaining < total - index
    requires AllTimeOut(configured, remaining, index, total, attempts)
    ensures Punctual(configured, remaining, index, total, attempts)
    ensures DirectPhase(configured, remaining, index, total, attempts).Exhausted?
    decreases total - index
  {
    if remaining > 0 {
      NoShare(configured, remaining, total - index);
      hide Deadline;
      ShortTimeRunsOut(configured, remaining - attempts[index].elapsed, index + 1, total, attempts);
    }
  }

  /** The outcomes of `left` checks that all time out. */
  function TimedOut(configured: nat, remaining: int, left: nat): (attempts: seq<Attempt>)
    ensures |attempts| == left
  {
    if left == 0 then []
    else
      var elapsed := if remaining > 0 then Deadline(configured, remaining, left) else 0;
      [Attempt(elapsed, false)] + TimedOut(configured, remaining - elapsed, left - 1)
  }

  lemma {:induction false} TimedOutTimesOut(configured: nat, remaining: int, left: nat, before: seq<Attempt>)
    ensures AllTimeOut(configured, remaining, |before|, |before| + left, before + TimedOut(configured, remaining, left))
    decreases left
  {
    if left > 0 && remaining > 0 {
      var first := Attempt(Deadline(configured, remaining, left), false);
      TimedOutTimesOut(configured, remaining - first.elapsed, left - 1, before + [first]);
      assert before + TimedOut(configured, remaining, left)
          == (before + [first]) + TimedOut(configured, remaining - first.elapsed, left - 1);
    }
  }

  ghost predicate NeverExhausted(configured: nat, budget: int, total: nat) {
    forall attempts: seq<Attempt> | |attempts| == total && Punctual(configured, budget, 0, total, attempts) ::
      !DirectPhase(configured, budget, 0, total, attempts).Exhausted?
  }

  /** Main result: punctual checks reach every pair, whatever happens, iff the budget has a tick for each. */
  lemma FairShareReachesEveryPair(configured: nat, budget: int, total: nat)
    requires configured > 0
    ensures NeverExhausted(configured, budget, total) <==> total == 0 || budget >= total
  {
    if total == 0 || budget >= total {
      forall attempts: seq<Attempt> | |attempts| == total && Punctual(configured, budget, 0, total, attempts)
        ensures !DirectPhase(configured, budget, 0, total, attempts).Exhausted?
      {
        if total > 0 { EnoughTimeForAll(configured, budget, 0, total, attempts); }
      }
    } else {
      var attempts := TimedOut(configured, budget, total);
      TimedOutTimesOut(configured, budget, total, []);
      assert [] + attempts == attempts;
      ShortTimeRunsOut(configured, budget, 0, total, attempts);
    }
  }

  /** A nominated pair is the first that connected; every earlier one was checked and failed. */
  lemma {:induction false} FirstConnectedWins(configured: nat, remaining: int, index: nat, total: nat, attempts: seq<Attempt>)
    requires index <= total && |attempts| == total
    ensures match DirectPhase(configured, remaining, index, total, attempts)
            case Nominated(k) => index <= k < total && attempts[k].connected && forall j | index <= j < k :: !attempts[j].connected
            case AllFailed => forall j | index <= j < total :: !attempts[j].connected
            case Exhausted(k) => index <= k < total && forall j | index <= j < k :: !attempts[j].connected
    decreases total - index
  {
    if index < total && remaining > 0 && !attempts[index].connected {
      FirstConnectedWins(configured, remaining - attempts[index].elapsed, index + 1, total, attempts);
    }
  }

  /** What is left of the budget when check k starts. */
  function TimeLeft(budget: int, attempts: seq<Attempt>, k: nat): int
    requires k <= |attempts|
  {
    if k == 0 then budget else TimeLeft(budget, attempts, k - 1) - attempts[k - 1].elapsed
  }

  /** The timeout Connect computes before each check. */
  method FairShare(configured: nat, remaining: int, left: nat) returns (checkTimeout: nat)
    requires left > 0 && remaining > 0
    ensures checkTimeout == CheckTimeout(configured, remaining, left)
  {
    checkTimeout := configured;
    var share := remaining / left;
    if share > 0 && share < checkTimeout {
      checkTimeout := share;
    }
  }

  /** The direct phase of Connect; `granted` lists the timeouts it handed out, each the fair share of what was left. */
  method ConnectDirect(list: seq<Pair>, configured: nat, budget: int, attempts: seq<Attempt>)
    returns (outcome: Direct, granted: seq<nat>)
    requires |attempts| == |list|
    ensures outcome == DirectPhase(configured, budget, 0, |list|, attempts)
    ensures |granted| <= |list|
    ensures forall k | 0 <= k < |granted| ::
              TimeLeft(budget, attempts, k) > 0 && granted[k] == CheckTimeout(configured, TimeLeft(budget, attempts, k), |list| - k)
    ensures |granted| == match outcome case Nominated(k) => k + 1 case AllFailed => |list| case Exhausted(k) => k
  {
    hide CheckTimeout;
    granted := [];
    var remaining := budget;
    for index := 0 to |list|
      invariant |granted| == index
      invariant remaining == TimeLeft(budget, attempts, index)
      invariant forall k | 0 <= k < |granted| ::
                  TimeLeft(budget, attempts, k) > 0 && granted[k] == CheckTimeout(configured, TimeLeft(budget, attempts, k), |list| - k)
      invariant DirectPhase(configured, budget, 0, |list|, attempts) == DirectPhase(configured, remaining, index, |list|, attempts)
    {
      if remaining <= 0 {
        return Exhausted(index), granted;
      }
      var checkTimeout := FairShare(configured, remaining, |list| - index);
      granted := granted + [checkTimeout];
      if attempts[index].connected {
        return Nominated(index), granted;
      }
      remaining := remaining - attempts[index].elapsed;
    }
    return AllFailed, granted;
  }

  // ----- consent -----

  datatype Tick = ProbeOk | ProbeFailed | TicksClosed | Cancelled

  /** The number of failed probes at the end of a list. */
  function TrailingFailures(ticks: seq<Tick>): nat {
    if ticks == [] || ticks[|ticks| - 1] != ProbeFailed then 0 else 1 + TrailingFailures(ticks[..|ticks| - 1])
  }

  predicate EndsSession(ticks: seq<Tick>, limit: nat) {
    ticks != [] &&
    (ticks[|ticks| - 1].TicksClosed? || ticks[|ticks| - 1].Cancelled?
     || (ticks[|ticks| - 1].ProbeFailed? && TrailingFailures(ticks) >= limit))
  }

  /** The last n ticks are failed probes. */
  predicate FailedLast(ticks: seq<Tick>, n: nat) {
    n <= |ticks| && forall k | |ticks| - n <= k < |ticks| :: ticks[k] == ProbeFailed
  }

  lemma {:induction false} TrailingExactly(ticks: seq<Tick>, n: nat)
    ensures TrailingFailures(ticks) >= n <==> FailedLast(ticks, n)
  {
    if ticks != [] && ticks[|ticks| - 1] == ProbeFailed && n > 0 {
      TrailingExactly(ticks[..|ticks| - 1], n - 1);
    }
  }

  /** A session ends when the ticks close, when it is cancelled, or when the last `limit` probes, at least one, all failed. */
  lemma EndsExactly(ticks: seq<Tick>, limit: nat)
    ensures EndsSession(ticks, limit) <==>
              ticks != [] && (ticks[|ticks| - 1] == TicksClosed || ticks[|ticks| - 1] == Cancelled || FailedLast(ticks, Max(limit, 1)))
  {
    TrailingExactly(ticks, limit);
    TrailingExactly(ticks, 1);
    if ticks != [] && ticks[|ticks| - 1] == ProbeFailed { assert FailedLast(ticks, 1); }
  }

  /** monitorConsent: the session ends at the first tick that closes it or completes `limit` failures in a row. */
  method MonitorConsent(ticks: seq<Tick>, limit: nat) returns (ended: bool, used: nat)
    ensures used <= |ticks|
    ensures ended <==> EndsSession(ticks[..used], limit)
    ensures !ended ==> used == |ticks|
    ensures forall k | 0 <= k < used :: !EndsSession(ticks[..k], limit)
  {
    var failures := 0;
    used := 0;
    while used < |ticks|
      invariant used <= |ticks| && failures == TrailingFailures(ticks[..used])
      invariant forall k | 0 <= k <= used :: !EndsSession(ticks[..k], limit)
    {
      var tick := ticks[used];
      ghost var before := ticks[..used];
      used := used + 1;
      assert ticks[..used] == before + [tick];
      match tick {
        case TicksClosed => return true, used;
        case Cancelled => return true, used;
        case ProbeOk => failures := 0;
        case ProbeFailed =>
          failures := failures + 1;
          assert ticks[..used][..used - 1] == before;
          if failures >= limit {
            return true, used;
          }
      }
    }
    return false, used;
  }
}
