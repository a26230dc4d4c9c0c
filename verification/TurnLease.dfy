/** When the refresh loop of a relay connection renews its allocation and its permission. Times are nanoseconds. */
module TurnLease {
  import opened Basics

  const SECOND := 1_000_000_000
  const FOUR_MINUTES := 240 * SECOND
  const PERMISSION_LIFETIME := 300 * SECOND

  /** safeTURNRefreshInterval. */
  function SafeInterval(requested: int, lifetime: int): int {
    if lifetime <= 0 then SECOND
    else
      var half := Min(lifetime / 2, FOUR_MINUTES);
      var maximum := if half <= 0 then lifetime else half;
      var minimum := Min(SECOND, maximum);
      if requested <= 0 || requested > maximum then maximum
      else if requested < minimum then minimum
      else requested
  }

  /** Positive, at most four minutes, at most half a lifetime, and longest when nothing is requested. */
  lemma IntervalBounds(requested: int, lifetime: int)
    ensures 0 < SafeInterval(requested, lifetime) <= FOUR_MINUTES
    ensures lifetime >= 2 ==> 2 * SafeInterval(requested, lifetime) <= lifetime
    ensures lifetime > 0 ==> SafeInterval(requested, lifetime) <= SafeInterval(0, lifetime)
    ensures lifetime > 0 && requested > 0 ==>
              (SafeInterval(requested, lifetime) == requested
               <==> Min(SECOND, SafeInterval(0, lifetime)) <= requested <= SafeInterval(0, lifetime))
  {
  }

  /**
   * The interval exactly. The longest is half the lifetime, at most 240 s, and a second without a
   * usable lifetime; a request is cut to the longest, raised to a second where that is shorter, and
   * otherwise granted.
   */
  lemma IntervalExactly(requested: int, lifetime: int)
    ensures lifetime <= 0 ==> SafeInterval(requested, lifetime) == 1_000_000_000
    ensures lifetime >= 2 ==> SafeInterval(0, lifetime) == Min(lifetime / 2, 240_000_000_000)
    ensures lifetime == 1 ==> SafeInterval(0, lifetime) == 1
    ensures lifetime > 0 && (requested <= 0 || requested >= SafeInterval(0, lifetime)) ==>
              SafeInterval(requested, lifetime) == SafeInterval(0, lifetime)
    ensures lifetime > 0 && 0 < requested < SafeInterval(0, lifetime) ==>
              SafeInterval(requested, lifetime) == Max(requested, Min(1_000_000_000, SafeInterval(0, lifetime)))
  {
  }

  /** One successful refresh: the server renews the lease at granted and the permission at permitted. */
  datatype Refresh = Refresh(start: int, granted: int, permitted: int, done: int, lifetime: int)

  predicate WellTimed(r: Refresh, timeout: int) {
    r.start <= r.granted <= r.permitted <= r.done <= r.start + timeout && r.lifetime > 0
  }

  predicate Follows(requested: int, r: Refresh, next: Refresh) {
    next.start == r.done + SafeInterval(requested, r.lifetime)
  }

  /** A run of the refresh loop in which every refresh succeeds. */
  predicate Steady(requested: int, timeout: int, run: seq<Refresh>) {
    && (forall k | 0 <= k < |run| :: WellTimed(run[k], timeout))
    && (forall k | 0 <= k < |run| - 1 :: Follows(requested, run[k], run[k + 1]))
  }

  ghost predicate LeaseNeverLapses(timeout: int, lifetime: int) {
    forall requested: int, r: Refresh, next: Refresh ::
      r.lifetime == lifetime && WellTimed(r, timeout) && WellTimed(next, timeout) && Follows(requested, r, next) ==>
        next.granted <= r.granted + lifetime
  }

  /** The exact margin: two timeouts and the longest interval fit the lifetime. */
  lemma LeaseMargin(timeout: int, lifetime: int)
    requires lifetime > 0 && timeout >= 0
    ensures LeaseNeverLapses(timeout, lifetime) <==> 2 * timeout + SafeInterval(0, lifetime) <= lifetime
    ensures lifetime >= 2 && 4 * timeout <= lifetime ==> LeaseNeverLapses(timeout, lifetime)
  {
    IntervalBounds(0, lifetime);
    if 2 * timeout + SafeInterval(0, lifetime) <= lifetime {
      forall requested: int, r: Refresh, next: Refresh |
        r.lifetime == lifetime && WellTimed(r, timeout) && WellTimed(next, timeout) && Follows(requested, r, next)
        ensures next.granted <= r.granted + lifetime
      {
        IntervalBounds(requested, lifetime);
      }
    } else {
      var r := Refresh(0, 0, 0, timeout, lifetime);
      var at := timeout + SafeInterval(0, lifetime);
      var next := Refresh(at, at + timeout, at + timeout, at + timeout, lifetime);
      assert Follows(0, r, next) && WellTimed(next, timeout) && WellTimed(r, timeout);
    }
  }

  /** Some refresh of the run holds the lease at time t. */
  predicate LeaseHeld(run: seq<Refresh>, t: int) {
    exists k :: 0 <= k < |run| && run[k].granted <= t <= run[k].granted + run[k].lifetime
  }

  predicate PermissionHeld(run: seq<Refresh>, t: int) {
    exists k :: 0 <= k < |run| && run[k].permitted <= t <= run[k].permitted + PERMISSION_LIFETIME
  }

  /**
   * Main result: over a whole run, if every refresh takes at most a quarter of the lifetime it
   * renews, the lease is live at every instant from the first grant to the end of the last refresh.
   */
  lemma {:induction false} LeaseHeldThroughout(requested: int, timeout: int, run: seq<Refresh>, t: int)
    requires Steady(requested, timeout, run) && run != [] && timeout >= 0
    requires forall k | 0 <= k < |run| :: run[k].lifetime >= 2 && 4 * timeout <= run[k].lifetime
    requires run[0].granted <= t <= run[|run| - 1].done
    ensures LeaseHeld(run, t)
    decreases |run|
  {
    var last := |run| - 1;
    if run[last].granted <= t {
      assert t <= run[last].granted + run[last].lifetime;
    } else {
      var prior := run[..last];
      if t <= prior[last - 1].done {
        LeaseHeldThroughout(requested, timeout, prior, t);
        var k :| 0 <= k < |prior| && prior[k].granted <= t <= prior[k].granted + prior[k].lifetime;
        assert run[k] == prior[k];
      } else {
        LeaseMargin(timeout, run[last - 1].lifetime);
        assert Follows(requested, run[last - 1], run[last - 1 + 1]);
        assert run[last - 1].granted <= t <= run[last - 1].granted + run[last - 1].lifetime;
      }
    }
  }

  /** The same for the five-minute permission, which every refresh renews: thirty seconds per refresh suffice. */
  lemma {:induction false} PermissionHeldThroughout(requested: int, timeout: int, run: seq<Refresh>, t: int)
    requires Steady(requested, timeout, run) && run != [] && 0 <= timeout <= 30 * SECOND
    requires run[0].permitted <= t <= run[|run| - 1].done
    ensures PermissionHeld(run, t)
    decreases |run|
  {
    var last := |run| - 1;
    if run[last].permitted <= t {
      assert t <= run[last].permitted + PERMISSION_LIFETIME;
    } else {
      var prior := run[..last];
      if t <= prior[last - 1].done {
        PermissionHeldThroughout(requested, timeout, prior, t);
        var k :| 0 <= k < |prior| && prior[k].permitted <= t <= prior[k].permitted + PERMISSION_LIFETIME;
        assert run[k] == prior[k];
      } else {
        IntervalBounds(requested, run[last - 1].lifetime);
        assert Follows(requested, run[last - 1], run[last - 1 + 1]);
        assert run[last - 1].permitted <= t <= run[last - 1].permitted + PERMISSION_LIFETIME;
      }
    }
  }

  /** What one refresh attempt yields: the lifetime granted, or nothing when it failed. */
  function Usable(lifetimes: seq<Option<int>>): (n: nat)
    ensures n <= |lifetimes|
    ensures forall k | 0 <= k < n :: lifetimes[k].Some? && lifetimes[k].value > 0
    ensures n < |lifetimes| ==> lifetimes[n].None? || lifetimes[n].value <= 0
  {
    if lifetimes == [] || lifetimes[0].None? || lifetimes[0].value <= 0 then 0 else 1 + Usable(lifetimes[1..])
  }

  class RefreshTimer {
    const requestedInterval: int
    var interval: int
    var terminated: bool

    constructor (requested: int, lifetime: int)
      ensures requestedInterval == requested && interval == SafeInterval(requested, lifetime) && !terminated
    {
      requestedInterval := requested;
      interval := SafeInterval(requested, lifetime);
      terminated := false;
    }

    /**
     * refreshLoop over the answers it gets: each wait is computed from the requested value, never
     * from the previous one, and the first failed refresh terminates the connection.
     */
    method Loop(lifetimes: seq<Option<int>>) returns (waits: seq<int>)
      requires !terminated
      modifies this
      ensures terminated <==> Usable(lifetimes) < |lifetimes|
      ensures |waits| == Usable(lifetimes)
      ensures forall k | 0 <= k < |waits| :: waits[k] == SafeInterval(requestedInterval, lifetimes[k].value)
      ensures waits != [] ==> interval == waits[|waits| - 1]
    {
      hide SafeInterval;
      waits := [];
      var i := 0;
      while i < |lifetimes|
        invariant 0 <= i <= |lifetimes| && |waits| == i && !terminated
        invariant Usable(lifetimes) == i + Usable(lifetimes[i..])
        invariant forall k | 0 <= k < i :: lifetimes[k].Some? && waits[k] == SafeInterval(requestedInterval, lifetimes[k].value)
        invariant i > 0 ==> interval == waits[i - 1]
      {
        assert lifetimes[i..][1..] == lifetimes[i + 1..];
        if lifetimes[i].None? || lifetimes[i].value <= 0 {
          terminated := true;
          return;
        }
        interval := SafeInterval(requestedInterval, lifetimes[i].value);
        waits := waits + [interval];
        i := i + 1;
      }
    }
  }
}
