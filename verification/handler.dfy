/** The DHCPv4 request handler of plugin.go (`Handler4` and `random`): filter
    the pool to its healthy routers, pick a random candidate, record it for
    the client's transaction with a create-if-absent write, and answer with
    whatever the store holds for that transaction. */
module Handler {
  import opened Wrappers
  import opened Net
  import opened Pool
  import opened Etcd

  /** The fields of a DHCPv4 packet the handler reads or writes: the client
      hardware address and transaction ID, each as the text they print as,
      and the router option (None when the packet carries none). */
  datatype Packet = Packet(clientHWAddr: string, transactionID: string, routers: Option<seq<IP>>)

  /** How the store calls of one request go: the lease grant, the transaction
      commit and the read-back. A failed commit writes nothing. */
  datatype StoreEnv = StoreEnv(grantOk: bool, commitOk: bool, getOk: bool)

  /** The handler's return pair: the response (None for Go's nil) and whether
      the plugin chain stops here. */
  datatype Reply = Reply(resp: Option<Packet>, stop: bool)

  /** A handled request: the reply and the store after it. */
  datatype Served = Served(reply: Reply, store: Store)

  const Refused := Reply(None, true)

  /** `random`: some element of a non-empty list; `pick` is the value
      `rand.Intn` returned. */
  function Random(ips: seq<IP>, pick: nat): (ip: IP)
    requires pick < |ips|
    ensures ip in ips
  {
    ips[pick]
  }

  /** Every element is a possible outcome of `random`. */
  lemma RandomReachesAll(ips: seq<IP>, ip: IP)
    requires ip in ips
    ensures exists pick :: 0 <= pick < |ips| && Random(ips, pick) == ip
  {
    var pick :| 0 <= pick < |ips| && ips[pick] == ip;
    assert Random(ips, pick) == ip;
  }

  /** The key that records the router chosen for one DHCP transaction. */
  function NicTransactionKey(prefix: string, hwAddr: string, xid: string): string
  {
    prefix + "/nics/transactions/" + hwAddr + "/" + xid
  }

  /** Distinct transactions never share a key, as long as hardware addresses
      print without a '/' (Go prints them as colon-separated hex). */
  lemma NicTransactionKeyInjective(prefix: string, hw1: string, xid1: string, hw2: string, xid2: string)
    requires '/' !in hw1 && '/' !in hw2
    requires NicTransactionKey(prefix, hw1, xid1) == NicTransactionKey(prefix, hw2, xid2)
    ensures hw1 == hw2 && xid1 == xid2
  {
    var p := prefix + "/nics/transactions/";
    var r1 := hw1 + "/" + xid1;
    var r2 := hw2 + "/" + xid2;
    assert NicTransactionKey(prefix, hw1, xid1) == p + r1;
    assert NicTransactionKey(prefix, hw2, xid2) == p + r2;
    assert r1 == (p + r1)[|p|..];
    assert r2 == (p + r2)[|p|..];
    assert r1 == r2;
    assert r1[|hw1|] == '/' && r2[|hw2|] == '/';
    assert hw1 == r1[..|hw1|] == r2[..|hw2|] == hw2;
    assert xid1 == r1[|hw1| + 1..] == r2[|hw2| + 1..] == xid2;
  }

  /** A random index is only drawn when there is something to draw from. */
  predicate PickInRange(pool: RouterPool, pick: nat)
  {
    |HealthyIPs(pool)| > 0 ==> pick < |HealthyIPs(pool)|
  }

  /** `Handler4`. */
  function Handle(c: Codec, prefix: string, pool: RouterPool, store: Store, req: Packet, resp: Packet, pick: nat, env: StoreEnv): (r: Served)
    requires PickInRange(pool, pick)
    // no healthy router: refuse and leave the store alone
    ensures |HealthyIPs(pool)| == 0 ==> r == Served(Refused, store)
    ensures r.reply.stop <==> r.reply.resp.None?
    // the store only ever gains the transaction's key, and only with a healthy candidate
    ensures var key := NicTransactionKey(prefix, req.clientHWAddr, req.transactionID);
      && r.store.Keys <= store.Keys + {key}
      && (forall k :: k in store ==> k in r.store && r.store[k] == store[k])
      && (key in r.store && key !in store ==> r.store[key] == c.format(HealthyIPs(pool)[pick]))
      && (|HealthyIPs(pool)| > 0 && env.grantOk && env.commitOk ==> key in r.store)
    // exactly: a granted and committed request is one create-if-absent of the
    // candidate; a refused grant or a failed commit writes nothing
    ensures r.store == (if |HealthyIPs(pool)| > 0 && env.grantOk && env.commitOk
      then CreateIfAbsent(store, NicTransactionKey(prefix, req.clientHWAddr, req.transactionID), c.format(HealthyIPs(pool)[pick]))
      else store)
    // the answer is the router the store holds for the transaction, read back
    ensures var key := NicTransactionKey(prefix, req.clientHWAddr, req.transactionID);
      && (r.reply.resp.Some? <==>
            |HealthyIPs(pool)| > 0 && env.grantOk && env.getOk && key in r.store && c.parse(r.store[key]).Some?)
      && (r.reply.resp.Some? ==> r.reply.resp.value == resp.(routers := Some([c.parse(r.store[key]).value])))
  {
    var healthy := HealthyIPs(pool);
    if |healthy| == 0 then Served(Refused, store)
    else
      var candidate := Random(healthy, pick);
      if !env.grantOk then Served(Refused, store)
      else
        var key := NicTransactionKey(prefix, req.clientHWAddr, req.transactionID);
        NicTxnIsCreateIfAbsent(store, key, c.format(candidate));
        var written := if env.commitOk then Commit(store, NicTxn(key, c.format(candidate))) else store;
        if !env.getOk then Served(Refused, written)
        else
          match Get(written, key)
          case None => Served(Refused, written)
          case Some(v) =>
            match c.parse(v)
            case None => Served(Refused, written)
            case Some(router) => Served(Reply(Some(resp.(routers := Some([router]))), false), written)
  }

  /** The router a reply hands out, if any. */
  function Answered(r: Reply): Option<IP>
  {
    match r.resp
    case Some(Packet(_, _, Some(routers))) => if |routers| == 1 then Some(routers[0]) else None
    case _ => None
  }

  /** A transaction that already has a router gets that router back, even when
      the router is unhealthy now and the local candidate is another one; the
      store does not change. */
  lemma RecordedRouterWins(c: Codec, prefix: string, pool: RouterPool, store: Store, req: Packet, resp: Packet, pick: nat, env: StoreEnv, v: IP)
    requires PickInRange(pool, pick)
    requires |HealthyIPs(pool)| > 0 && env.grantOk && env.getOk
    requires NicTransactionKey(prefix, req.clientHWAddr, req.transactionID) in store
    requires c.parse(store[NicTransactionKey(prefix, req.clientHWAddr, req.transactionID)]) == Some(v)
    ensures var r := Handle(c, prefix, pool, store, req, resp, pick, env);
      r.store == store && r.reply == Reply(Some(resp.(routers := Some([v]))), false) && Answered(r.reply) == Some(v)
  {
  }

  /** A new transaction whose write commits is answered with the random
      candidate, which is the address of a healthy router of the pool, as
      long as the candidate reads back from its printed form (every address
      of a pool that setup parsed does, by `Setup.PoolReadsBack`). */
  lemma NewTransactionGetsCandidate(c: Codec, prefix: string, pool: RouterPool, store: Store, req: Packet, resp: Packet, pick: nat, env: StoreEnv)
    requires PickInRange(pool, pick)
    requires |HealthyIPs(pool)| > 0 && env == StoreEnv(true, true, true)
    requires c.parse(c.format(HealthyIPs(pool)[pick])) == Some(HealthyIPs(pool)[pick])
    requires NicTransactionKey(prefix, req.clientHWAddr, req.transactionID) !in store
    ensures var r := Handle(c, prefix, pool, store, req, resp, pick, env);
      && Answered(r.reply) == Some(HealthyIPs(pool)[pick])
      && exists j :: 0 <= j < |pool| && pool[j].healthy && pool[j].ip == HealthyIPs(pool)[pick]
  {
  }

  /** A failed commit is only logged: the read-back still runs, so a
      transaction that already has a router is answered all the same, while
      a new one is refused because its key is missing. */
  lemma CommitFailureStillReadsBack(c: Codec, prefix: string, pool: RouterPool, store: Store, req: Packet, resp: Packet, pick: nat)
    requires PickInRange(pool, pick)
    requires |HealthyIPs(pool)| > 0
    ensures var key := NicTransactionKey(prefix, req.clientHWAddr, req.transactionID);
      var r := Handle(c, prefix, pool, store, req, resp, pick, StoreEnv(true, false, true));
      && r.store == store
      && (key in store && c.parse(store[key]).Some? ==> Answered(r.reply) == c.parse(store[key]))
      && (key !in store ==> r.reply == Refused)
  {
  }
}
