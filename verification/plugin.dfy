/** The plugin as a whole: the health monitor and the request handler share
    the router pool, and every request consults the store. A run interleaves
    requests, health-check ticks and lease expiries in any order; the lemmas
    show that a transaction's router, once recorded, is the only router any
    request of that transaction is answered with. */
module Plugin {
  import opened Wrappers
  import opened Net
  import opened Pool
  import opened Routes
  import opened Watch
  import opened Etcd
  import opened Handler
  import opened Setup

  /** The settings the core reads: the address codec, the key prefix and the
      health-check settings. */
  datatype Config = Config(codec: Codec, prefix: string, health: HealthConfig)

  datatype State = State(monitor: Monitor, store: Store)

  datatype Event =
    | Serve(req: Packet, resp: Packet, pick: nat, env: StoreEnv)
    | Check(sample: Sample)
    | LeaseExpiry(key: string)

  /** What a request was answered with, filed under its transaction key. */
  datatype Answer = Answer(key: string, router: Option<IP>)

  /** One event's effect: the next state and, for a request, its answer. */
  datatype Outcome = Outcome(next: State, answer: Option<Answer>)

  /** A run: the last state reached and the answers given, in order. */
  datatype Trace = Trace(final: State, answers: seq<Answer>)

  function RequestKey(cfg: Config, req: Packet): string
  {
    NicTransactionKey(cfg.prefix, req.clientHWAddr, req.transactionID)
  }

  predicate Allowed(st: State, e: Event)
  {
    e.Serve? ==> PickInRange(st.monitor.pool, e.pick)
  }

  /** One event. None when a tick panics, which ends the process. */
  function Step(cfg: Config, st: State, e: Event): (r: Option<Outcome>)
    requires Allowed(st, e)
    ensures r.None? <==> e.Check? && |st.monitor.pool| == 0
    // membership and addresses of the pool never change
    ensures r.Some? ==> |r.value.next.monitor.pool| == |st.monitor.pool|
    ensures r.Some? ==> forall j :: 0 <= j < |st.monitor.pool| ==> r.value.next.monitor.pool[j].ip == st.monitor.pool[j].ip
    // only a request is answered, under its own key, with what the store holds
    ensures r.Some? ==> (r.value.answer.Some? <==> e.Serve?)
    ensures r.Some? && r.value.answer.Some? ==> r.value.answer.value.key == RequestKey(cfg, e.req)
    ensures r.Some? && r.value.answer.Some? && r.value.answer.value.router.Some? ==>
      && r.value.answer.value.key in r.value.next.store
      && cfg.codec.parse(r.value.next.store[r.value.answer.value.key]) == r.value.answer.value.router
    // a recorded key keeps its value until its lease expires
    ensures r.Some? ==> forall k :: k in st.store && !(e.LeaseExpiry? && e.key == k) ==>
      k in r.value.next.store && r.value.next.store[k] == st.store[k]
    // a request only reads the monitor, a tick never touches the store, and
    // an expiry removes its key and nothing else
    ensures e.Serve? ==> r.Some? && r.value.next.monitor == st.monitor
    ensures e.Check? && r.Some? ==> r.value.next.store == st.store
    ensures e.LeaseExpiry? ==> r.Some? && r.value.next.monitor == st.monitor && r.value.next.store == Expire(st.store, e.key)
  {
    match e
    case Serve(req, resp, pick, env) =>
      var served := Handle(cfg.codec, cfg.prefix, st.monitor.pool, st.store, req, resp, pick, env);
      Some(Outcome(State(st.monitor, served.store), Some(Answer(RequestKey(cfg, req), Answered(served.reply)))))
    case Check(sample) =>
      (match Tick(cfg.codec, cfg.health, st.monitor, sample)
       case Panicked => None
       case Ticked(_, after) => Some(Outcome(State(after.monitor, st.store), None)))
    case LeaseExpiry(key) => Some(Outcome(State(st.monitor, Expire(st.store, key)), None))
  }

  /** Every request of the run draws its random index in range. */
  predicate Feasible(cfg: Config, st: State, evs: seq<Event>)
    decreases |evs|
  {
    |evs| == 0 ||
    (Allowed(st, evs[0]) &&
     match Step(cfg, st, evs[0])
     case None => true
     case Some(next) => Feasible(cfg, next.next, evs[1..]))
  }

  /** The plugin right after setup, as written: the pool the router loop
      builds (empty for an empty list), the host's route table and whatever
      the store already holds. */
  function Start(cfg: Config, entries: seq<string>, routes: seq<Route>, store: Store): (r: Result<State, SetupError>)
    ensures r.Success? <==> forall i :: 0 <= i < |entries| ==> cfg.codec.parse(entries[i]).Some?
    ensures r.Success? ==> |r.value.monitor.pool| == |entries| && r.value.store == store && r.value.monitor.routes == routes
    // each router is its entry's parsed address, healthy, never checked
    ensures r.Success? ==> forall i :: 0 <= i < |entries| ==>
      && cfg.codec.parse(entries[i]) == Some(r.value.monitor.pool[i].ip)
      && r.value.monitor.pool[i].healthy && r.value.monitor.pool[i].lastCheck == ZeroTime
  {
    match BuildPool(cfg.codec, entries)
    case Failure(e) => Failure(e)
    case Success(pool) => Success(State(Monitor(pool, routes), store))
  }

  /** The plugin after the corrected setup, which refuses an empty router
      list; over every run from it each request gets a router or a refusal. */
  function StartChecked(cfg: Config, entries: seq<string>, routes: seq<Route>, store: Store): (r: Result<State, SetupError>)
    ensures r.Success? <==> |entries| > 0 && forall i :: 0 <= i < |entries| ==> cfg.codec.parse(entries[i]).Some?
    ensures r.Success? ==> |r.value.monitor.pool| == |entries| > 0 && r.value.store == store && r.value.monitor.routes == routes
    // each router is its entry's parsed address, healthy, never checked
    ensures r.Success? ==> forall i :: 0 <= i < |entries| ==>
      && cfg.codec.parse(entries[i]) == Some(r.value.monitor.pool[i].ip)
      && r.value.monitor.pool[i].healthy && r.value.monitor.pool[i].lastCheck == ZeroTime
    ensures r.Success? ==> forall evs :: Feasible(cfg, r.value, evs) ==> |Run(cfg, r.value, evs).answers| == Requests(evs)
  {
    match SetupChecked(cfg.codec, entries)
    case Failure(e) => Failure(e)
    case Success(pool) => Success(State(Monitor(pool, routes), store))
  }

  function Requests(evs: seq<Event>): (n: nat)
    ensures n <= |evs|
    decreases |evs|
  {
    if |evs| == 0 then 0 else (if evs[0].Serve? then 1 else 0) + Requests(evs[1..])
  }

  function Run(cfg: Config, st: State, evs: seq<Event>): (r: Trace)
    requires Feasible(cfg, st, evs)
    ensures |r.final.monitor.pool| == |st.monitor.pool|
    ensures forall j :: 0 <= j < |st.monitor.pool| ==> r.final.monitor.pool[j].ip == st.monitor.pool[j].ip
    // over a non-empty pool no tick panics, so every request is handled:
    // it gets a router or a refusal
    ensures |st.monitor.pool| > 0 ==> |r.answers| == Requests(evs)
    decreases |evs|
  {
    if |evs| == 0 then Trace(st, [])
    else
      match Step(cfg, st, evs[0])
      case None => Trace(st, [])
      case Some(next) =>
        var rest := Run(cfg, next.next, evs[1..]);
        Trace(rest.final, (if next.answer.Some? then [next.answer.value] else []) + rest.answers)
  }

  predicate NoExpiryOf(evs: seq<Event>, key: string)
  {
    forall i :: 0 <= i < |evs| ==> !(evs[i].LeaseExpiry? && evs[i].key == key)
  }

  /** Once the store holds `v` for a transaction key, and that key's lease
      does not run out, the value stays `v` and every request of the
      transaction that gets an answer gets the router `v` names, whatever
      the health checks decide in between. */
  lemma {:induction false} StickyAfterWrite(cfg: Config, st: State, evs: seq<Event>, key: string, v: string)
    requires Feasible(cfg, st, evs)
    requires key in st.store && st.store[key] == v
    requires NoExpiryOf(evs, key)
    ensures key in Run(cfg, st, evs).final.store && Run(cfg, st, evs).final.store[key] == v
    ensures forall i :: 0 <= i < |Run(cfg, st, evs).answers| && Run(cfg, st, evs).answers[i].key == key ==>
      Run(cfg, st, evs).answers[i].router.None? || Run(cfg, st, evs).answers[i].router == cfg.codec.parse(v)
    decreases |evs|
  {
    if |evs| > 0 {
      match Step(cfg, st, evs[0])
      case None =>
      case Some(next) =>
        assert NoExpiryOf(evs[1..], key) by {
          forall i | 0 <= i < |evs| - 1
            ensures !(evs[1..][i].LeaseExpiry? && evs[1..][i].key == key)
          {
            assert evs[1..][i] == evs[i + 1];
          }
        }
        StickyAfterWrite(cfg, next.next, evs[1..], key, v);
    }
  }

  /** Every answered request for `key` got the router that `store` holds
      for it. */
  ghost predicate ReadsStore(c: Codec, answers: seq<Answer>, store: Store, key: string)
  {
    forall i :: 0 <= i < |answers| && answers[i].key == key && answers[i].router.Some? ==>
      key in store && answers[i].router == c.parse(store[key])
  }

  /** One step of a run: the first event's answer, if any, comes first and
      the rest of the run continues from the state it leaves. */
  lemma RunFirstStep(cfg: Config, st: State, evs: seq<Event>)
    requires |evs| > 0 && Feasible(cfg, st, evs) && Step(cfg, st, evs[0]).Some?
    ensures Feasible(cfg, Step(cfg, st, evs[0]).value.next, evs[1..])
    ensures var next := Step(cfg, st, evs[0]).value;
      var rest := Run(cfg, next.next, evs[1..]);
      Run(cfg, st, evs) == Trace(rest.final, (if next.answer.Some? then [next.answer.value] else []) + rest.answers)
  {
  }

  lemma ReadsStoreAppend(c: Codec, head: seq<Answer>, rest: seq<Answer>, store: Store, key: string)
    requires ReadsStore(c, head, store, key) && ReadsStore(c, rest, store, key)
    ensures ReadsStore(c, head + rest, store, key)
  {
    forall i | 0 <= i < |head + rest| && (head + rest)[i].key == key && (head + rest)[i].router.Some?
      ensures key in store && (head + rest)[i].router == c.parse(store[key])
    {
      if i >= |head| {
        assert (head + rest)[i] == rest[i - |head|];
      }
    }
  }

  /** With no expiry of the key, every answered request of the transaction
      gets the router that the key holds at the end of the run. */
  lemma {:induction false} AnswersReadFinalStore(cfg: Config, st: State, evs: seq<Event>, key: string)
    requires Feasible(cfg, st, evs)
    requires NoExpiryOf(evs, key)
    ensures ReadsStore(cfg.codec, Run(cfg, st, evs).answers, Run(cfg, st, evs).final.store, key)
    decreases |evs|
  {
    if key in st.store {
      StickyAfterWrite(cfg, st, evs, key, st.store[key]);
    } else if |evs| > 0 && Step(cfg, st, evs[0]).Some? {
      var next := Step(cfg, st, evs[0]).value;
      RunFirstStep(cfg, st, evs);
      NoExpiryOfTail(evs, key);
      var rest := Run(cfg, next.next, evs[1..]);
      var head := if next.answer.Some? then [next.answer.value] else [];
      if key in next.next.store {
        StickyAfterWrite(cfg, next.next, evs[1..], key, next.next.store[key]);
      } else {
        AnswersReadFinalStore(cfg, next.next, evs[1..], key);
      }
      assert ReadsStore(cfg.codec, head, rest.final.store, key);
      ReadsStoreAppend(cfg.codec, head, rest.answers, rest.final.store, key);
    }
  }

  lemma NoExpiryOfTail(evs: seq<Event>, key: string)
    requires |evs| > 0 && NoExpiryOf(evs, key)
    ensures NoExpiryOf(evs[1..], key)
  {
    forall i | 0 <= i < |evs| - 1
      ensures !(evs[1..][i].LeaseExpiry? && evs[1..][i].key == key)
    {
      assert evs[1..][i] == evs[i + 1];
    }
  }

  /** First writer wins: with no expiry of the key, all answered requests of
      one transaction get the same router, namely the one the first
      committed write recorded, which the key still holds at the end. */
  lemma FirstWriterWins(cfg: Config, st: State, evs: seq<Event>, key: string)
    requires Feasible(cfg, st, evs)
    requires NoExpiryOf(evs, key)
    ensures forall i, j ::
      && 0 <= i < |Run(cfg, st, evs).answers| && 0 <= j < |Run(cfg, st, evs).answers|
      && Run(cfg, st, evs).answers[i].key == key && Run(cfg, st, evs).answers[j].key == key
      && Run(cfg, st, evs).answers[i].router.Some? && Run(cfg, st, evs).answers[j].router.Some?
      ==> Run(cfg, st, evs).answers[i].router == Run(cfg, st, evs).answers[j].router
    // and that router is the one the key still holds at the end: the first
    // value written, since nothing overwrites it
    ensures ReadsStore(cfg.codec, Run(cfg, st, evs).answers, Run(cfg, st, evs).final.store, key)
  {
    AnswersReadFinalStore(cfg, st, evs, key);
  }
}
