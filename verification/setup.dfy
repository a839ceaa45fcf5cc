/** Pool construction (`setup` in setup.go): every configured router string is
    parsed, the first invalid one fails the whole setup, and every router
    starts healthy with the zero check time. */
module Setup {
  import opened Wrappers
  import opened Net
  import opened Pool
  import opened Routes
  import opened Watch

  datatype SetupError = InvalidRouterIP(entry: string) | NoRouters

  /** The loop over the configured routers, as written: an empty list is
      accepted and yields an empty pool. */
  function BuildPool(c: Codec, entries: seq<string>): (r: Result<RouterPool, SetupError>)
    ensures r.Failure? <==> exists i :: 0 <= i < |entries| && c.parse(entries[i]).None?
    ensures r.Failure? ==>
      exists i :: 0 <= i < |entries| && c.parse(entries[i]).None? && r.error == InvalidRouterIP(entries[i])
        && forall j :: 0 <= j < i ==> c.parse(entries[j]).Some?
    ensures r.Success? ==> |r.value| == |entries|
    ensures r.Success? ==> forall i :: 0 <= i < |entries| ==>
      c.parse(entries[i]) == Some(r.value[i].ip) && r.value[i].healthy && r.value[i].lastCheck == ZeroTime
    decreases |entries|
  {
    if |entries| == 0 then Success([])
    else
      assert forall j :: 1 <= j < |entries| ==> entries[j] == entries[1..][j - 1];
      match c.parse(entries[0])
      case None => Failure(InvalidRouterIP(entries[0]))
      case Some(ip) =>
        match BuildPool(c, entries[1..])
        case Failure(e) => Failure(e)
        case Success(rest) => Success([Router(ip, true, ZeroTime)] + rest)
  }

  /** Every address of a pool that setup built reads back from its printed
      form, so what the handler writes to the store names the router it
      picked. */
  lemma PoolReadsBack(c: Codec, entries: seq<string>)
    requires ReadsBack(c)
    requires BuildPool(c, entries).Success?
    ensures forall j :: 0 <= j < |entries| ==>
      c.parse(c.format(BuildPool(c, entries).value[j].ip)) == Some(BuildPool(c, entries).value[j].ip)
  {
    var pool := BuildPool(c, entries).value;
    forall j | 0 <= j < |entries|
      ensures c.parse(c.format(pool[j].ip)) == Some(pool[j].ip)
    {
      assert c.parse(entries[j]) == Some(pool[j].ip);
    }
  }

  /** The source accepts a configuration without routers; the scan of the
      first tick then finds no router and dereferences nil. */
  lemma EmptyRouterListPanics(c: Codec, cfg: HealthConfig, routes: seq<Route>, s: Sample)
    ensures BuildPool(c, []) == Success([])
    ensures Tick(c, cfg, Monitor([], routes), s) == Panicked
  {
  }

  /** Pool construction that refuses an empty router list, as a pool that
      the monitor can tick over requires. */
  function SetupChecked(c: Codec, entries: seq<string>): (r: Result<RouterPool, SetupError>)
    ensures |entries| == 0 ==> r == Failure(NoRouters)
    ensures |entries| > 0 ==> r == BuildPool(c, entries)
    ensures r.Success? ==> |r.value| > 0
  {
    if |entries| == 0 then Failure(NoRouters) else BuildPool(c, entries)
  }

  /** A pool built by the checked setup never makes a tick panic, and its
      first tick checks the first configured router. */
  lemma CheckedPoolTicks(c: Codec, cfg: HealthConfig, entries: seq<string>, routes: seq<Route>, s: Sample)
    requires SetupChecked(c, entries).Success?
    ensures var t := Tick(c, cfg, Monitor(SetupChecked(c, entries).value, routes), s);
      t.Ticked? && t.checked == 0
  {
  }
}
