/** The health monitor of watch.go: each tick checks the least recently
    checked router, stamps its check time first, steers the probe route
    through it, pings the health-check destination and applies the
    single-sample health rule. */
module Watch {
  import opened Wrappers
  import opened Net
  import opened Pool
  import opened Routes

  /** What the pinger does on this tick: it cannot be created, it fails while
      running, or it reports a packet-loss percentage. */
  datatype PingResult = CreateFailed | RunFailed | Stats(packetLoss: real)

  /** The health-check settings: the probe destination, as configured text,
      and the largest tolerated packet loss in percent. */
  datatype HealthConfig = HealthConfig(destination: string, maxPacketLoss: int)

  /** Everything a tick observes from outside: the clock, netlink and the pinger. */
  datatype Sample = Sample(now: Time, netlink: Netlink, ping: PingResult)

  /** The monitor's state: the router pool and the interface's route table. */
  datatype Monitor = Monitor(pool: RouterPool, routes: seq<Route>)

  datatype CheckError = RouteFailed(cause: RouteError) | PingerCreateFailed | PingRunFailed

  /** A finished check: the new state and the error it returned, if any. */
  datatype Checked = Checked(monitor: Monitor, err: Option<CheckError>)

  /** A tick either checks the router at `checked` or dereferences the nil
      router that the scan of an empty pool leaves behind. */
  datatype TickOutcome = Ticked(checked: nat, after: Checked) | Panicked

  /** The single-sample health rule: loss above the maximum marks the router
      unhealthy; otherwise an unhealthy router becomes healthy again and a
      healthy one stays healthy. */
  function NextHealth(healthy: bool, loss: real, maxPacketLoss: int): (h: bool)
    ensures h <==> loss <= maxPacketLoss as real
  {
    if loss > maxPacketLoss as real then false
    else if !healthy then true
    else healthy
  }

  /** `checkRouter` on the router at `i`. */
  function CheckRouter(c: Codec, cfg: HealthConfig, m: Monitor, i: nat, s: Sample): (r: Checked)
    requires i < |m.pool|
    // the check time advances whatever happens next
    ensures |r.monitor.pool| == |m.pool|
    ensures r.monitor.pool[i].lastCheck == s.now
    ensures r.monitor.pool[i].ip == m.pool[i].ip
    // no other router changes
    ensures forall j :: 0 <= j < |m.pool| && j != i ==> r.monitor.pool[j] == m.pool[j]
    // a failed step leaves the health verdict as it was
    ensures r.err.Some? ==> r.monitor.pool[i].healthy == m.pool[i].healthy
    ensures r.err.None? ==> s.ping.Stats? && r.monitor.pool[i].healthy == (s.ping.packetLoss <= cfg.maxPacketLoss as real)
    // the route step decides whether the pinger runs at all
    ensures match ChangeDefaultRoute(c, m.routes, cfg.destination, m.pool[i].ip, s.netlink)
      case Failure(e) => r.err == Some(RouteFailed(e)) && r.monitor.routes == m.routes
      case Success(routes) =>
        && r.monitor.routes == routes
        && r.err == (match s.ping
                     case CreateFailed => Some(PingerCreateFailed)
                     case RunFailed => Some(PingRunFailed)
                     case Stats(_) => None)
  {
    var stamped := m.pool[i := m.pool[i].(lastCheck := s.now)];
    match ChangeDefaultRoute(c, m.routes, cfg.destination, m.pool[i].ip, s.netlink)
    case Failure(e) => Checked(Monitor(stamped, m.routes), Some(RouteFailed(e)))
    case Success(routes) =>
      match s.ping
      case CreateFailed => Checked(Monitor(stamped, routes), Some(PingerCreateFailed))
      case RunFailed => Checked(Monitor(stamped, routes), Some(PingRunFailed))
      case Stats(loss) =>
        var healthy := NextHealth(stamped[i].healthy, loss, cfg.maxPacketLoss);
        Checked(Monitor(stamped[i := stamped[i].(healthy := healthy)], routes), None)
  }

  /** One tick of `watchRouters`. */
  function Tick(c: Codec, cfg: HealthConfig, m: Monitor, s: Sample): (t: TickOutcome)
    ensures t.Panicked? <==> |m.pool| == 0
    ensures t.Ticked? ==> t.checked < |m.pool|
    ensures t.Ticked? ==> forall j :: 0 <= j < |m.pool| ==> m.pool[t.checked].lastCheck <= m.pool[j].lastCheck
    ensures t.Ticked? ==> forall j :: 0 <= j < t.checked ==> m.pool[t.checked].lastCheck < m.pool[j].lastCheck
    ensures t.Ticked? ==> t.after == CheckRouter(c, cfg, m, t.checked, s)
  {
    if |m.pool| == 0 then Panicked
    else
      var i := Oldest(m.pool);
      Ticked(i, CheckRouter(c, cfg, m, i, s))
  }

  /** The result of a run of ticks: the final state and the routers checked,
      in order. */
  datatype Schedule = Schedule(final: Monitor, checked: seq<nat>)

  /** A sequence of ticks. A panic ends the run. */
  function RunTicks(c: Codec, cfg: HealthConfig, m: Monitor, samples: seq<Sample>): (r: Schedule)
    ensures |r.final.pool| == |m.pool|
    ensures |m.pool| > 0 ==> |r.checked| == |samples|
    ensures forall k :: 0 <= k < |r.checked| ==> r.checked[k] < |m.pool|
    decreases |samples|
  {
    if |samples| == 0 then Schedule(m, [])
    else
      match Tick(c, cfg, m, samples[0])
      case Panicked => Schedule(m, [])
      case Ticked(i, after) =>
        var rest := RunTicks(c, cfg, after.monitor, samples[1..]);
        Schedule(rest.final, [i] + rest.checked)
  }

  /** The routers checked at or after time `t`. */
  ghost function Fresh(pool: RouterPool, t: Time): set<nat>
  {
    set j: nat | j < |pool| && pool[j].lastCheck >= t
  }

  /** `j < n` under a name, so that quantifiers over index sets have a
      term to trigger on. */
  predicate InRange(j: nat, n: nat)
  {
    j < n
  }

  /** The indices below n. The bare `j < n` bounds the comprehension for
      Dafny; `InRange` is the term its quantifier triggers on. */
  ghost function Range(n: nat): set<nat>
  {
    set j: nat | j < n && InRange(j, n)
  }

  lemma {:induction false} RangeSize(n: nat)
    ensures |Range(n)| == n
  {
    if n > 0 {
      RangeSize(n - 1);
      assert Range(n) == Range(n - 1) + {n - 1};
    }
  }

  /** While fewer routers than the pool holds were checked since `t`, some
      router still carries an older check time. */
  lemma StaleExists(pool: RouterPool, t: Time) returns (j: nat)
    requires |Fresh(pool, t)| < |pool|
    ensures j < |pool| && pool[j].lastCheck < t
  {
    if forall k: nat :: k < |pool| ==> pool[k].lastCheck >= t {
      assert Fresh(pool, t) == Range(|pool|);
      RangeSize(|pool|);
      assert false;
    }
    var k: nat :| k < |pool| && pool[k].lastCheck < t;
    j := k;
  }

  /** With every tick at or after `t`, and no more ticks than routers not yet
      checked since `t`, each tick checks a router not yet checked since `t`,
      so no router is checked twice. */
  lemma {:induction false} StaleFirst(c: Codec, cfg: HealthConfig, m: Monitor, samples: seq<Sample>, t: Time)
    requires |m.pool| > 0
    requires forall k :: 0 <= k < |samples| ==> samples[k].now >= t
    requires |Fresh(m.pool, t)| + |samples| <= |m.pool|
    ensures forall k :: 0 <= k < |RunTicks(c, cfg, m, samples).checked| ==>
      m.pool[RunTicks(c, cfg, m, samples).checked[k]].lastCheck < t
    ensures forall a, b :: 0 <= a < b < |RunTicks(c, cfg, m, samples).checked| ==>
      RunTicks(c, cfg, m, samples).checked[a] != RunTicks(c, cfg, m, samples).checked[b]
    decreases |samples|
  {
    if |samples| > 0 {
      var i := Oldest(m.pool);
      var stale := StaleExists(m.pool, t);
      assert m.pool[i].lastCheck < t;
      var m1 := CheckRouter(c, cfg, m, i, samples[0]).monitor;
      assert Fresh(m1.pool, t) == Fresh(m.pool, t) + {i};
      assert i !in Fresh(m.pool, t);
      StaleFirst(c, cfg, m1, samples[1..], t);
      var rest := RunTicks(c, cfg, m1, samples[1..]).checked;
      var sel := RunTicks(c, cfg, m, samples).checked;
      assert sel == [i] + rest;
      forall k | 0 <= k < |rest|
        ensures m.pool[rest[k]].lastCheck < t && rest[k] != i
      {
        assert m1.pool[rest[k]].lastCheck < t;
      }
    }
  }

  /** A duplicate-free list of n indices below n names every index. */
  lemma {:induction false} CoversRange(s: seq<nat>, n: nat)
    requires |s| == n
    requires forall k :: 0 <= k < |s| ==> s[k] < n
    requires forall a, b :: 0 <= a < b < |s| ==> s[a] != s[b]
    ensures forall j :: 0 <= j < n ==> j in s
  {
    forall j | 0 <= j < n
      ensures j in s
    {
      if j !in s {
        // the n distinct entries would fit among the n - 1 other indices
        var others := Range(n) - {j};
        RangeSize(n);
        DistinctSize(s);
        SubsetSize(Elems(s), others);
        assert false;
      }
    }
  }

  lemma SubsetSize<T>(a: set<T>, b: set<T>)
    requires a <= b
    ensures |a| <= |b|
  {
    assert b == a + (b - a);
    assert a * (b - a) == {};
  }

  /** The indices a list names. */
  ghost function Elems(s: seq<nat>): set<nat>
  {
    set x | x in s
  }

  lemma {:induction false} DistinctSize(s: seq<nat>)
    requires forall a, b :: 0 <= a < b < |s| ==> s[a] != s[b]
    ensures |Elems(s)| == |s|
    decreases |s|
  {
    if |s| > 0 {
      var init := s[..|s| - 1];
      DistinctSize(init);
      var last := s[|s| - 1];
      assert s == init + [last];
      assert last !in init;
      assert Elems(s) == Elems(init) + {last};
    }
  }

  /** The latest check time recorded in the pool. */
  ghost function LatestCheck(pool: RouterPool): (t: Time)
    ensures forall j :: 0 <= j < |pool| ==> pool[j].lastCheck <= t
    ensures |pool| > 0 ==> exists j :: 0 <= j < |pool| && pool[j].lastCheck == t
    decreases |pool|
  {
    if |pool| == 0 then 0
    else
      var rest := LatestCheck(pool[1..]);
      assert forall j :: 1 <= j < |pool| ==> pool[j] == pool[1..][j - 1];
      if pool[0].lastCheck >= rest then pool[0].lastCheck else rest
  }

  /** Round robin: when every tick happens after every check recorded in the
      pool, N consecutive ticks over N routers check each router exactly once. */
  lemma RoundRobin(c: Codec, cfg: HealthConfig, m: Monitor, samples: seq<Sample>)
    requires |m.pool| > 0 && |samples| == |m.pool|
    requires forall k, j :: 0 <= k < |samples| && 0 <= j < |m.pool| ==> m.pool[j].lastCheck < samples[k].now
    ensures var sel := RunTicks(c, cfg, m, samples).checked;
      && |sel| == |m.pool|
      && (forall a, b :: 0 <= a < b < |sel| ==> sel[a] != sel[b])
      && (forall j :: 0 <= j < |m.pool| ==> j in sel)
  {
    var t := LatestCheck(m.pool) + 1;
    forall k | 0 <= k < |samples|
      ensures samples[k].now >= t
    {
      var j :| 0 <= j < |m.pool| && m.pool[j].lastCheck == t - 1;
      assert m.pool[j].lastCheck < samples[k].now;
    }
    assert Fresh(m.pool, t) == {};
    StaleFirst(c, cfg, m, samples, t);
    var sel := RunTicks(c, cfg, m, samples).checked;
    CoversRange(sel, |m.pool|);
  }
}
