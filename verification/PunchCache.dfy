/** The bounded cache that refuses repeated hole-punch messages. */
module PunchCache {
  import opened Basics

  function Purge(seen: map<string, int>, now: int): map<string, int> {
    map k | k in seen && seen[k] > now :: seen[k]
  }

  predicate Oldest(seen: map<string, int>, victim: string) {
    victim in seen && forall k | k in seen :: seen[victim] <= seen[k]
  }

  /** What consume may do: which of several oldest entries is evicted is not determined. */
  ghost predicate Consumes(seen: map<string, int>, capacity: nat, key: string, now: int, ttl: int, accepted: bool, after: map<string, int>) {
    var live := Purge(seen, now);
    && accepted == (key !in live)
    && (!accepted ==> after == live)
    && (accepted && |live| < capacity ==> after == live[key := now + ttl])
    && (accepted && |live| >= capacity ==>
          exists victim :: Oldest(live, victim) && after == (live - {victim})[key := now + ttl])
  }

  datatype Use = Use(key: string, now: int, accepted: bool)

  /**
   * One cache across uses: contents after each, one time to live. Callers read the clock before they
   * take the lock, so the readings need not come in order.
   */
  ghost predicate IsRun(capacity: nat, ttl: int, uses: seq<Use>, states: seq<map<string, int>>) {
    && |states| == |uses| + 1 && states[0] == map[]
    && (forall i | 0 <= i < |uses| :: Consumes(states[i], capacity, uses[i].key, uses[i].now, ttl, uses[i].accepted, states[i + 1]))
  }

  /** Keys accepted in use i or after it, or at a clock reading of t or later. */
  function AcceptedSince(uses: seq<Use>, i: nat, t: int): (keys: set<string>)
    ensures forall k :: k in keys <==> exists j :: 0 <= j < |uses| && uses[j].accepted && (j >= i || uses[j].now >= t) && uses[j].key == k
  {
    if uses == [] then {}
    else
      var last := uses[|uses| - 1];
      var before := AcceptedSince(uses[..|uses| - 1], i, t);
      if last.accepted && (|uses| - 1 >= i || last.now >= t) then before + {last.key} else before
  }

  /** Some later use read the clock at or past the end of the time to live of use i. */
  ghost predicate Lapsed(ttl: int, uses: seq<Use>, i: nat)
    requires i < |uses|
  {
    exists m :: i < m < |uses| && uses[m].now >= uses[i].now + ttl
  }

  ghost predicate Remembered(seen: map<string, int>, capacity: nat, ttl: int, uses: seq<Use>, i: nat)
    requires i < |uses|
  {
    || (uses[i].key in seen && seen[uses[i].key] >= uses[i].now + ttl)
    || Lapsed(ttl, uses, i)
    || |AcceptedSince(uses, i, uses[i].now) - {uses[i].key}| >= capacity
  }

  ghost predicate Backed(ttl: int, uses: seq<Use>, key: string, expires: int) {
    exists i :: 0 <= i < |uses| && uses[i].accepted && uses[i].key == key && uses[i].now + ttl == expires
  }

  ghost predicate AllBacked(seen: map<string, int>, ttl: int, uses: seq<Use>) {
    forall k | k in seen :: Backed(ttl, uses, k, seen[k])
  }

  /** The first n uses are remembered by the cache, as far as they were accepted. */
  ghost predicate RemembersFirst(seen: map<string, int>, capacity: nat, ttl: int, uses: seq<Use>, n: nat)
    requires n <= |uses|
  {
    forall i: nat | i < n && uses[i].accepted :: Remembered(seen, capacity, ttl, uses, i)
  }

  ghost predicate CacheOk(seen: map<string, int>, capacity: nat, ttl: int, uses: seq<Use>) {
    |seen| <= capacity && AllBacked(seen, ttl, uses) && RemembersFirst(seen, capacity, ttl, uses, |uses|)
  }

  lemma SinceGrows(uses: seq<Use>, u: Use, i: nat, t: int)
    ensures AcceptedSince(uses, i, t) <= AcceptedSince(uses + [u], i, t)
    ensures u.accepted && (|uses| >= i || u.now >= t) ==> u.key in AcceptedSince(uses + [u], i, t)
  {
    assert (uses + [u])[..|uses|] == uses;
  }

  /** Another use of the cache, at whatever clock reading, forgets nothing that still counts. */
  lemma RememberedStays(seen: map<string, int>, capacity: nat, ttl: int, uses: seq<Use>, u: Use, i: nat)
    requires i < |uses| && Remembered(seen, capacity, ttl, uses, i)
    ensures Remembered(seen, capacity, ttl, uses + [u], i)
  {
    var all := uses + [u];
    assert all[i] == uses[i];
    SinceGrows(uses, u, i, uses[i].now);
    SubsetCount(AcceptedSince(uses, i, uses[i].now) - {uses[i].key}, AcceptedSince(all, i, uses[i].now) - {uses[i].key});
    if m :| i < m < |uses| && uses[m].now >= uses[i].now + ttl {
      assert all[m] == uses[m];
      assert Lapsed(ttl, all, i);
    }
  }

  /** Dropping what has expired at the clock reading of the newest use. */
  lemma PurgeKeepsOne(seen: map<string, int>, capacity: nat, ttl: int, uses: seq<Use>, u: Use, i: nat)
    requires i < |uses| && Remembered(seen, capacity, ttl, uses, i)
    ensures Remembered(Purge(seen, u.now), capacity, ttl, uses + [u], i)
  {
    var all := uses + [u];
    RememberedStays(seen, capacity, ttl, uses, u, i);
    assert all[i] == uses[i] && all[|uses|] == u;
    if u.now >= uses[i].now + ttl { assert Lapsed(ttl, all, i); }
  }

  lemma PurgeKeepsCache(seen: map<string, int>, capacity: nat, ttl: int, uses: seq<Use>, u: Use)
    requires CacheOk(seen, capacity, ttl, uses)
    ensures var live := Purge(seen, u.now);
            |live| <= capacity && AllBacked(live, ttl, uses) && RemembersFirst(live, capacity, ttl, uses + [u], |uses|)
  {
    hide Remembered;
    var live := Purge(seen, u.now);
    assert |live| == |live.Keys| && |seen| == |seen.Keys|;
    SubsetCount(live.Keys, seen.Keys);
    forall i: nat | i < |uses| && (uses + [u])[i].accepted ensures Remembered(live, capacity, ttl, uses + [u], i) {
      PurgeKeepsOne(seen, capacity, ttl, uses, u, i);
    }
  }

  /** Evicting an oldest entry from a full cache: the rest, with the newcomer, are capacity other keys accepted since. */
  lemma EvictionIsCovered(live: map<string, int>, capacity: nat, ttl: int, uses: seq<Use>, victim: string, i: nat, u: Use)
    requires AllBacked(live, ttl, uses) && |live| >= capacity && Oldest(live, victim)
    requires i < |uses| && uses[i].key == victim && live[victim] >= uses[i].now + ttl
    requires u.accepted && u.key !in live
    ensures |AcceptedSince(uses + [u], i, uses[i].now) - {victim}| >= capacity
  {
    var t := uses[i].now;
    SinceGrows(uses, u, i, t);
    var others := (live.Keys - {victim}) + {u.key};
    forall k | k in others ensures k in AcceptedSince(uses + [u], i, t) - {victim} {
      if k in live {
        assert Backed(ttl, uses, k, live[k]);
        var j :| 0 <= j < |uses| && uses[j].accepted && uses[j].key == k && uses[j].now + ttl == live[k];
        assert uses[j].now >= t;
        assert k in AcceptedSince(uses, i, t);
      }
    }
    assert |live.Keys - {victim}| == |live| - 1 && |others| == |live|;
    SubsetCount(others, AcceptedSince(uses + [u], i, t) - {victim});
  }

  lemma BackedStays(ttl: int, uses: seq<Use>, u: Use, key: string, expires: int)
    requires Backed(ttl, uses, key, expires)
    ensures Backed(ttl, uses + [u], key, expires)
  {
    var i :| 0 <= i < |uses| && uses[i].accepted && uses[i].key == key && uses[i].now + ttl == expires;
    assert (uses + [u])[i] == uses[i];
  }

  lemma AllBackedStays(live: map<string, int>, ttl: int, uses: seq<Use>, u: Use)
    requires AllBacked(live, ttl, uses)
    ensures AllBacked(live, ttl, uses + [u])
    ensures u.accepted ==> Backed(ttl, uses + [u], u.key, u.now + ttl)
  {
    forall k | k in live ensures Backed(ttl, uses + [u], k, live[k]) { BackedStays(ttl, uses, u, k, live[k]); }
    assert (uses + [u])[|uses|] == u;
  }

  /** Storing the newcomer, after evicting an oldest entry if the cache is full. */
  lemma StoreKeepsCache(live: map<string, int>, capacity: nat, ttl: int, uses: seq<Use>, u: Use, kept: map<string, int>)
    requires |live| <= capacity && AllBacked(live, ttl, uses) && RemembersFirst(live, capacity, ttl, uses + [u], |uses|)
    requires u.accepted && u.key !in live
    requires || (|live| < capacity && kept == live)
             || (|live| >= capacity && exists victim :: Oldest(live, victim) && kept == live - {victim})
    ensures CacheOk(kept[u.key := u.now + ttl], capacity, ttl, uses + [u])
  {
    hide Remembered, AllBacked, Oldest;
    var all, after := uses + [u], kept[u.key := u.now + ttl];
    assert all[|uses|] == u;
    StoreFits(live, capacity, u.key, u.now + ttl, kept);
    StoreBacked(live, ttl, uses, u, kept);
    forall i: nat | i < |all| && all[i].accepted ensures Remembered(after, capacity, ttl, all, i) {
      if i < |uses| {
        StoreRemembers(live, capacity, ttl, uses, u, kept, i);
      } else {
        NewcomerRemembered(after, capacity, ttl, all, i);
      }
    }
  }

  lemma StoreBacked(live: map<string, int>, ttl: int, uses: seq<Use>, u: Use, kept: map<string, int>)
    requires AllBacked(live, ttl, uses) && u.accepted
    requires forall k | k in kept :: k in live && kept[k] == live[k]
    ensures AllBacked(kept[u.key := u.now + ttl], ttl, uses + [u])
  {
    hide Backed;
    AllBackedStays(live, ttl, uses, u);
  }

  lemma StoreFits(live: map<string, int>, capacity: nat, key: string, expires: int, kept: map<string, int>)
    requires |live| <= capacity && key !in live
    requires || (|live| < capacity && kept == live)
             || (|live| >= capacity && exists victim :: Oldest(live, victim) && kept == live - {victim})
    ensures |kept[key := expires]| <= capacity
    ensures forall k | k in kept :: k in live && kept[k] == live[k]
  {
    if |live| >= capacity {
      var victim :| Oldest(live, victim) && kept == live - {victim};
      assert |kept.Keys| == |live.Keys - {victim}| == |live| - 1;
    }
    var after := kept[key := expires];
    assert after.Keys == kept.Keys + {key} && |after| == |after.Keys|;
  }

  lemma NewcomerRemembered(after: map<string, int>, capacity: nat, ttl: int, uses: seq<Use>, i: nat)
    requires i < |uses| && uses[i].key in after && after[uses[i].key] == uses[i].now + ttl
    ensures Remembered(after, capacity, ttl, uses, i)
  {
  }

  lemma StoreRemembers(live: map<string, int>, capacity: nat, ttl: int, uses: seq<Use>, u: Use, kept: map<string, int>, i: nat)
    requires AllBacked(live, ttl, uses) && i < |uses| && Remembered(live, capacity, ttl, uses + [u], i)
    requires u.accepted && u.key !in live
    requires || (|live| < capacity && kept == live)
             || (|live| >= capacity && exists victim :: Oldest(live, victim) && kept == live - {victim})
    ensures Remembered(kept[u.key := u.now + ttl], capacity, ttl, uses + [u], i)
  {
    assert (uses + [u])[i] == uses[i];
    if |live| >= capacity {
      var victim :| Oldest(live, victim) && kept == live - {victim};
      if uses[i].key == victim && live[victim] >= uses[i].now + ttl {
        EvictionIsCovered(live, capacity, ttl, uses, victim, i, u);
      }
    }
  }

  lemma UseKeepsCache(seen: map<string, int>, capacity: nat, ttl: int, uses: seq<Use>, u: Use, after: map<string, int>)
    requires CacheOk(seen, capacity, ttl, uses)
    requires Consumes(seen, capacity, u.key, u.now, ttl, u.accepted, after)
    ensures CacheOk(after, capacity, ttl, uses + [u])
  {
    hide AllBacked, Remembered;
    PurgeKeepsCache(seen, capacity, ttl, uses, u);
    var live := Purge(seen, u.now);
    AllBackedStays(live, ttl, uses, u);
    assert (uses + [u])[|uses|] == u;
    if u.accepted {
      if |live| < capacity {
        StoreKeepsCache(live, capacity, ttl, uses, u, live);
      } else {
        var victim :| Oldest(live, victim) && after == (live - {victim})[u.key := u.now + ttl];
        StoreKeepsCache(live, capacity, ttl, uses, u, live - {victim});
      }
    }
  }

  lemma RunPrefix(capacity: nat, ttl: int, uses: seq<Use>, states: seq<map<string, int>>, j: nat)
    requires IsRun(capacity, ttl, uses, states) && j <= |uses|
    ensures |states| == |uses| + 1 && states[0] == map[]
    ensures IsRun(capacity, ttl, uses[..j], states[..j + 1])
    ensures j < |uses| ==> Consumes(states[j], capacity, uses[j].key, uses[j].now, ttl, uses[j].accepted, states[j + 1])
  {
  }

  lemma EmptyCache(capacity: nat, ttl: int)
    ensures CacheOk(map[], capacity, ttl, [])
  {
  }

  lemma {:induction false} RunKeepsCache(capacity: nat, ttl: int, uses: seq<Use>, states: seq<map<string, int>>)
    requires IsRun(capacity, ttl, uses, states)
    ensures |states| == |uses| + 1 && CacheOk(states[|uses|], capacity, ttl, uses)
    decreases |uses|
  {
    hide IsRun, CacheOk, Consumes;
    RunPrefix(capacity, ttl, uses, states, if uses == [] then 0 else |uses| - 1);
    if uses == [] {
      EmptyCache(capacity, ttl);
    } else {
      var n := |uses| - 1;
      assert uses == uses[..n] + [uses[n]];
      RunKeepsCache(capacity, ttl, uses[..n], states[..n + 1]);
      UseKeepsCache(states[n], capacity, ttl, uses[..n], uses[n], states[n + 1]);
    }
  }

  /**
   * Over every run the cache stays within its capacity, and an accepted key is refused as long as
   * no later use has read the clock past its time to live, unless capacity other keys were accepted
   * in later uses or at later clock readings.
   */
  lemma AcceptedKeyIsRefused(capacity: nat, ttl: int, uses: seq<Use>, states: seq<map<string, int>>, i: nat, j: nat)
    requires IsRun(capacity, ttl, uses, states)
    requires i < j < |uses| && uses[i].accepted && uses[i].key == uses[j].key
    requires forall m | i < m <= j :: uses[m].now < uses[i].now + ttl
    requires |AcceptedSince(uses[..j], i, uses[i].now) - {uses[i].key}| < capacity
    ensures !uses[j].accepted
    ensures |states[j]| <= capacity
  {
    RunPrefix(capacity, ttl, uses, states, j);
    RunKeepsCache(capacity, ttl, uses[..j], states[..j + 1]);
    assert uses[..j][i] == uses[i];
    assert Remembered(states[j], capacity, ttl, uses[..j], i);
    assert !Lapsed(ttl, uses[..j], i);
  }

  /** The last acceptance of its key before use n. */
  ghost predicate LastAcceptance(uses: seq<Use>, i: nat, n: nat)
    requires n <= |uses|
  {
    i < n && uses[i].accepted && forall m | i < m < n && uses[m].key == uses[i].key :: !uses[m].accepted
  }

  /** Between two acceptances a key is stored under the older one, and only while no use has seen it lapse. */
  lemma {:induction false} StoredMeansAlive(capacity: nat, ttl: int, uses: seq<Use>, states: seq<map<string, int>>, i: nat, n: nat)
    requires IsRun(capacity, ttl, uses, states) && n <= |uses| && LastAcceptance(uses, i, n)
    requires uses[i].key in states[n]
    ensures states[n][uses[i].key] == uses[i].now + ttl && !Lapsed(ttl, uses[..n], i)
    decreases n
  {
    RunPrefix(capacity, ttl, uses, states, n - 1);
    if n > i + 1 {
      assert uses[i].key in states[n - 1];
      StoredMeansAlive(capacity, ttl, uses, states, i, n - 1);
    }
  }

  /** A key that some use has seen lapse is accepted again, whatever the capacity. */
  lemma LapsedIsAccepted(capacity: nat, ttl: int, uses: seq<Use>, states: seq<map<string, int>>, i: nat, j: nat)
    requires IsRun(capacity, ttl, uses, states) && j < |uses| && LastAcceptance(uses, i, j) && uses[i].key == uses[j].key
    requires Lapsed(ttl, uses[..j + 1], i)
    ensures uses[j].accepted
  {
    RunPrefix(capacity, ttl, uses, states, j);
    if !uses[j].accepted {
      StoredMeansAlive(capacity, ttl, uses, states, i, j);
    }
  }

  /**
   * Main result: with fewer than capacity other keys accepted since, a replay gets through if and
   * only if some use after the last acceptance read the clock at or past its time to live.
   */
  lemma ReplayAcceptedExactly(capacity: nat, ttl: int, uses: seq<Use>, states: seq<map<string, int>>, i: nat, j: nat)
    requires IsRun(capacity, ttl, uses, states) && j < |uses| && LastAcceptance(uses, i, j) && uses[i].key == uses[j].key
    requires |AcceptedSince(uses[..j], i, uses[i].now) - {uses[i].key}| < capacity
    ensures uses[j].accepted <==> Lapsed(ttl, uses[..j + 1], i)
  {
    if Lapsed(ttl, uses[..j + 1], i) {
      LapsedIsAccepted(capacity, ttl, uses, states, i, j);
    } else {
      forall m | i < m <= j ensures uses[m].now < uses[i].now + ttl { assert uses[..j + 1][m] == uses[m]; }
      AcceptedKeyIsRefused(capacity, ttl, uses, states, i, j);
    }
  }

  // ----- how many other keys a replay needs -----

  /** In no run is a key accepted twice within its time to live beside at most n other keys. */
  ghost predicate RefusesBeside(capacity: nat, n: nat) {
    forall ttl: int, uses: seq<Use>, states: seq<map<string, int>>, i: nat, j: nat |
      IsRun(capacity, ttl, uses, states) && j < |uses| && LastAcceptance(uses, i, j) && uses[i].key == uses[j].key
      && !Lapsed(ttl, uses[..j + 1], i) && |AcceptedSince(uses[..j], i, uses[i].now) - {uses[i].key}| <= n ::
      !uses[j].accepted
  }

  function Key(t: nat): (k: string)
    ensures |k| == t + 1
  {
    seq(t + 1, _ => 'k')
  }

  /** The keys of ticks lo to hi, each stored under its own tick. */
  function Names(lo: nat, hi: nat): set<string> { set t: nat | lo <= t < hi :: Key(t) }

  function Ticks(capacity: nat, lo: nat, hi: nat): map<string, int> {
    map k | k in Names(lo, hi) :: |k| - 1 + (capacity + 2)
  }

  /** One key a tick, until the first has been crowded out, and then the first again. */
  function Crowd(capacity: nat): seq<Use> {
    seq(capacity + 2, t requires 0 <= t => CrowdUse(capacity, t))
  }

  function CrowdUse(capacity: nat, t: nat): Use { Use(if t == capacity + 1 then Key(0) else Key(t), t, true) }

  function CrowdStates(capacity: nat): seq<map<string, int>> {
    seq(capacity + 3, t requires 0 <= t => CrowdState(capacity, t))
  }

  function CrowdState(capacity: nat, t: nat): map<string, int> {
    if t <= capacity then Ticks(capacity, 0, t)
    else if t == capacity + 1 then Ticks(capacity, 1, t)
    else Ticks(capacity, 2, capacity + 1)[Key(0) := capacity + 1 + (capacity + 2)]
  }

  lemma NameIn(lo: nat, hi: nat, t: nat)
    ensures Key(t) in Names(lo, hi) <==> lo <= t < hi
  {
    hide Key;
  }

  lemma NamesGrow(lo: nat, hi: nat)
    requires lo <= hi
    ensures Names(lo, hi + 1) == Names(lo, hi) + {Key(hi)} && Key(hi) !in Names(lo, hi)
  {
    hide Key;
  }

  lemma NamesShift(lo: nat, hi: nat)
    requires lo < hi
    ensures Names(lo, hi) == Names(lo + 1, hi) + {Key(lo)} && Key(lo) !in Names(lo + 1, hi)
  {
    hide Key;
  }

  lemma {:induction false} NamesSize(lo: nat, hi: nat)
    requires lo <= hi
    ensures |Names(lo, hi)| == hi - lo
    decreases hi
  {
    if lo == hi {
      assert Names(lo, hi) == {};
    } else {
      NamesSize(lo, hi - 1);
      NamesGrow(lo, hi - 1);
    }
  }

  lemma TicksSize(capacity: nat, lo: nat, hi: nat)
    requires lo <= hi
    ensures |Ticks(capacity, lo, hi)| == hi - lo
  {
    NamesSize(lo, hi);
    hide Names;
    assert Ticks(capacity, lo, hi).Keys == Names(lo, hi);
    assert |Ticks(capacity, lo, hi)| == |Ticks(capacity, lo, hi).Keys|;
  }

  lemma NothingLapses(capacity: nat, lo: nat, hi: nat, now: int)
    requires now < lo + capacity + 2
    ensures Purge(Ticks(capacity, lo, hi), now) == Ticks(capacity, lo, hi)
  {
    hide Key;
  }

  /** Without its first tick, the ticks start one later. */
  lemma FirstTickOut(capacity: nat, lo: nat, hi: nat)
    requires lo < hi
    ensures Oldest(Ticks(capacity, lo, hi), Key(lo)) && Ticks(capacity, lo, hi) - {Key(lo)} == Ticks(capacity, lo + 1, hi)
  {
    hide Key;
    NameIn(lo, hi, lo);
    NamesShift(lo, hi);
    forall k | k in Ticks(capacity, lo, hi) ensures |k| >= lo + 1 {}
    hide Names;
  }

  lemma TickIn(capacity: nat, lo: nat, hi: nat)
    requires lo <= hi
    ensures Ticks(capacity, lo, hi)[Key(hi) := hi + (capacity + 2)] == Ticks(capacity, lo, hi + 1)
    ensures Key(hi) !in Ticks(capacity, lo, hi)
  {
    NamesGrow(lo, hi);
    hide Names, Key;
  }

  /** A cache that is not full, and one that is. */
  lemma CrowdStep(capacity: nat, t: nat)
    requires 0 < capacity && t <= capacity + 1
    ensures var u := CrowdUse(capacity, t);
            Consumes(CrowdState(capacity, t), capacity, u.key, u.now, capacity + 2, true, CrowdState(capacity, t + 1))
  {
    hide Ticks, Purge, Key, Oldest;
    if t < capacity {
      NothingLapses(capacity, 0, t, t);
      TickIn(capacity, 0, t);
      TicksSize(capacity, 0, t);
    } else if t == capacity {
      NothingLapses(capacity, 0, t, t);
      FirstTickOut(capacity, 0, t);
      TickIn(capacity, 0, t);
      TickIn(capacity, 1, t);
      TicksSize(capacity, 0, t);
    } else {
      NothingLapses(capacity, 1, t, t);
      FirstTickOut(capacity, 1, t);
      TicksSize(capacity, 1, t);
      NotTicking(capacity, 1, t);
    }
  }

  lemma NotTicking(capacity: nat, lo: nat, hi: nat)
    requires lo > 0
    ensures Key(0) !in Ticks(capacity, lo, hi)
  {
    hide Key;
  }

  lemma CrowdIsRun(capacity: nat)
    requires capacity > 0
    ensures IsRun(capacity, capacity + 2, Crowd(capacity), CrowdStates(capacity))
  {
    hide Consumes, Ticks, Key;
    forall t: nat | t < capacity + 2
      ensures var u := CrowdUse(capacity, t);
              Consumes(CrowdStates(capacity)[t], capacity, u.key, u.now, capacity + 2, u.accepted, CrowdStates(capacity)[t + 1])
    {
      CrowdStep(capacity, t);
    }
    NoTicks(capacity);
  }

  lemma NoTicks(capacity: nat)
    ensures Ticks(capacity, 0, 0) == map[]
  {
  }

  lemma CrowdKeys(capacity: nat)
    ensures |AcceptedSince(Crowd(capacity)[..capacity + 1], 0, 0) - {Key(0)}| <= capacity
  {
    hide Key;
    var uses := Crowd(capacity)[..capacity + 1];
    var others := AcceptedSince(uses, 0, 0) - {Key(0)};
    hide AcceptedSince;
    forall k | k in others ensures k in Names(1, capacity + 1) {
      var t :| 0 <= t < |uses| && uses[t].key == k;
      assert k == Key(t) && t != 0;
    }
    NamesSize(1, capacity + 1);
    SubsetCount(others, Names(1, capacity + 1));
  }

  /** Capacity other keys, each within the time to live and in the order of the clock, and the first key is accepted again. */
  lemma CrowdedOut(capacity: nat)
    requires capacity > 0
    ensures var uses := Crowd(capacity);
            && IsRun(capacity, capacity + 2, uses, CrowdStates(capacity))
            && LastAcceptance(uses, 0, capacity + 1) && uses[capacity + 1].key == uses[0].key && uses[capacity + 1].accepted
            && !Lapsed(capacity + 2, uses, 0)
            && |AcceptedSince(uses[..capacity + 1], 0, 0) - {Key(0)}| <= capacity
  {
    hide IsRun, AcceptedSince, Key;
    CrowdIsRun(capacity);
    CrowdKeys(capacity);
  }

  /** The exact number: a cache refuses every live replay beside n other keys if and only if n is below its capacity. */
  lemma RefusesExactlyBelowCapacity(capacity: nat, n: nat)
    requires capacity > 0
    ensures RefusesBeside(capacity, n) <==> n < capacity
  {
    if n < capacity {
      forall ttl: int, uses: seq<Use>, states: seq<map<string, int>>, i: nat, j: nat |
        IsRun(capacity, ttl, uses, states) && j < |uses| && LastAcceptance(uses, i, j) && uses[i].key == uses[j].key
        && !Lapsed(ttl, uses[..j + 1], i) && |AcceptedSince(uses[..j], i, uses[i].now) - {uses[i].key}| <= n
        ensures !uses[j].accepted
      {
        ReplayAcceptedExactly(capacity, ttl, uses, states, i, j);
      }
    } else {
      hide IsRun, AcceptedSince, LastAcceptance, Lapsed, Key;
      CrowdedOut(capacity);
      assert Crowd(capacity)[..capacity + 2] == Crowd(capacity);
    }
  }

  /** Why the clock matters: a use that read it late, but took the lock early, forgets a key that is still alive. */
  lemma LateReadingForgets()
    ensures var uses := [Use("k", 0, true), Use("x", 10, true), Use("k", 5, true)];
            IsRun(2, 10, uses, [map[], map["k" := 10], map["x" := 20], map["x" := 20, "k" := 15]])
  {
    var states := [map[], map["k" := 10], map["x" := 20], map["x" := 20, "k" := 15]];
    assert Purge(states[0], 0) == map[];
    assert Purge(states[1], 10) == map[];
    assert Purge(states[2], 5) == map["x" := 20];
    assert |map["x" := 20]| == 1;
    var uses := [Use("k", 0, true), Use("x", 10, true), Use("k", 5, true)];
    forall i | 0 <= i < |uses| ensures Consumes(states[i], 2, uses[i].key, uses[i].now, 10, uses[i].accepted, states[i + 1]) {
      if i == 0 {} else if i == 1 {} else {}
    }
  }

  /** The bound alone, at every point of every run. */
  lemma NeverAboveCapacity(capacity: nat, ttl: int, uses: seq<Use>, states: seq<map<string, int>>)
    requires IsRun(capacity, ttl, uses, states) && capacity > 0
    ensures |states[|uses|]| <= capacity
  {
    RunKeepsCache(capacity, ttl, uses, states);
  }

  class PunchReplayCache {
    var seen: map<string, int>
    const capacity: nat

    predicate Valid()
      reads this
    {
      capacity > 0 && "" !in seen
    }

    constructor (capacity: int)
      ensures Valid() && seen == map[] && (this.capacity == if capacity <= 0 then 4096 else capacity)
    {
      seen := map[];
      this.capacity := if capacity <= 0 then 4096 else capacity;
    }

    /** consume; keys are never empty, so the empty string can stand for "none found yet". */
    method Consume(key: string, now: int, ttl: int) returns (accepted: bool)
      requires Valid() && key != ""
      modifies this`seen
      ensures Valid()
      ensures Consumes(old(seen), capacity, key, now, ttl, accepted, seen)
    {
      var todo := seen.Keys;
      while todo != {}
        invariant todo <= old(seen).Keys && seen.Keys <= old(seen).Keys
        invariant forall k | k in seen :: seen[k] == old(seen)[k]
        invariant forall k | k in old(seen) :: k in seen <==> k in todo || old(seen)[k] > now
        decreases todo
      {
        var k :| k in todo;
        todo := todo - {k};
        if seen[k] <= now {
          seen := seen - {k};
        }
      }
      assert seen == Purge(old(seen), now);
      if key in seen {
        return false;
      }
      if |seen| >= capacity {
        var oldestKey, oldest := "", 0;
        todo := seen.Keys;
        assert seen.Keys != {};
        while todo != {}
          invariant todo <= seen.Keys
          invariant oldestKey == "" ==> todo == seen.Keys
          invariant oldestKey != "" ==> oldestKey in seen && oldest == seen[oldestKey]
          invariant oldestKey != "" ==> forall k | k in seen && k !in todo :: oldest <= seen[k]
          decreases todo
        {
          var k :| k in todo;
          todo := todo - {k};
          if oldestKey == "" || seen[k] < oldest {
            oldestKey, oldest := k, seen[k];
          }
        }
        assert Oldest(seen, oldestKey);
        seen := seen - {oldestKey};
      }
      seen := seen[key := now + ttl];
      return true;
    }
  }
}
