/** The router pool: the `Router` records of plugin.go, the scan that picks the
    least recently checked router (watch.go) and the healthy filter that the
    request handler applies (plugin.go). */
module Pool {
  import opened Net

  /** A clock reading. 0 is Go's zero `time.Time`, which is earlier than any
      reading of `time.Now()`. */
  type Time = nat

  const ZeroTime: Time := 0

  datatype Router = Router(ip: IP, healthy: bool, lastCheck: Time)

  type RouterPool = seq<Router>

  /** The router that the next health check targets: no router was checked
      less recently, and every router before it in pool order was checked
      strictly more recently (ties go to the earliest). */
  function Oldest(pool: RouterPool): (i: nat)
    requires |pool| > 0
    ensures i < |pool|
    ensures forall j :: 0 <= j < |pool| ==> pool[i].lastCheck <= pool[j].lastCheck
    ensures forall j :: 0 <= j < i ==> pool[i].lastCheck < pool[j].lastCheck
  {
    OldestFrom(pool, 0, 1)
  }

  /** The scan over the pool: `best` is the oldest among `pool[..k]`, and a
      later router replaces it only when its check is strictly earlier. */
  function OldestFrom(pool: RouterPool, best: nat, k: nat): (i: nat)
    requires best < k <= |pool|
    requires forall j :: 0 <= j < k ==> pool[best].lastCheck <= pool[j].lastCheck
    requires forall j :: 0 <= j < best ==> pool[best].lastCheck < pool[j].lastCheck
    ensures best <= i < |pool|
    ensures forall j :: 0 <= j < |pool| ==> pool[i].lastCheck <= pool[j].lastCheck
    ensures forall j :: 0 <= j < i ==> pool[i].lastCheck < pool[j].lastCheck
    decreases |pool| - k
  {
    if k == |pool| then best
    else if pool[k].lastCheck < pool[best].lastCheck then OldestFrom(pool, k, k + 1)
    else OldestFrom(pool, best, k + 1)
  }

  /** The addresses of the healthy routers, in pool order. */
  function HealthyIPs(pool: RouterPool): (ips: seq<IP>)
    ensures |ips| <= |pool|
    ensures forall j :: 0 <= j < |pool| && pool[j].healthy ==> pool[j].ip in ips
    ensures forall ip :: ip in ips ==> exists j :: 0 <= j < |pool| && pool[j].healthy && pool[j].ip == ip
    ensures |ips| == 0 <==> forall j :: 0 <= j < |pool| ==> !pool[j].healthy
    decreases |pool|
  {
    if |pool| == 0 then []
    else
      var rest := HealthyIPs(pool[1..]);
      assert forall j :: 1 <= j < |pool| ==> pool[j] == pool[1..][j - 1];
      if pool[0].healthy then [pool[0].ip] + rest else rest
  }

  /** The healthy filter keeps pool order: filtering a concatenation is the
      concatenation of the filtered parts, so a healthy router that comes first
      in the pool also comes first among the candidates. */
  lemma {:induction false} HealthyIPsAppend(a: RouterPool, b: RouterPool)
    ensures HealthyIPs(a + b) == HealthyIPs(a) + HealthyIPs(b)
    decreases |a|
  {
    if |a| == 0 {
      assert a + b == b;
    } else {
      assert (a + b)[1..] == a[1..] + b;
      HealthyIPsAppend(a[1..], b);
    }
  }

  /** A single router contributes its address exactly when it is healthy. */
  lemma HealthyIPsSingle(r: Router)
    ensures HealthyIPs([r]) == (if r.healthy then [r.ip] else [])
  {
  }

  /** Every router that the first health check sees has the zero timestamp, so
      the first router in the pool is checked first. */
  lemma FreshPoolChecksFirstRouter(pool: RouterPool)
    requires |pool| > 0
    requires forall j :: 0 <= j < |pool| ==> pool[j].lastCheck == ZeroTime
    ensures Oldest(pool) == 0
  {
  }
}
