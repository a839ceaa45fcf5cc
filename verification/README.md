# Advanced routing for CoreDHCP — a Dafny model of its decision logic

The plugin hands DHCPv4 clients a gateway ("router") address. It keeps a pool
of candidate routers. A background monitor checks one router per tick: it
steers the host's route to the health-check destination through that router,
pings the destination, and marks the router healthy or unhealthy. Each request
draws a random healthy router. The request then makes the choice sticky for its
DHCP transaction with an etcd create-if-absent write. It answers with whatever
the store holds for that transaction.

This project models that logic in Dafny with immutable datatypes and pure
functions. The host's route table, the ping result, the clock and the etcd
store are all explicit values. IP parsing and printing are an abstract codec.

| file | module | models |
|---|---|---|
| wrappers.dfy | `Wrappers` | `Option` and `Result` |
| net.dfy | `Net` | `net.IP` as bytes; `net.ParseIP` and `IP.String()` as an abstract `Codec` |
| pool.dfy | `Pool` | `Router` records, the oldest-router scan, the healthy filter |
| routes.dfy | `Routes` | `changeDefaultRoute` as a pure step on a route list |
| watch.dfy | `Watch` | `checkRouter`, one tick of `watchRouters`, runs of ticks, round robin |
| etcd.dfy | `Etcd` | the store as a map, guarded (nested) transactions, `Get`, lease expiry |
| handler.dfy | `Handler` | `Handler4` and `random` |
| setup.dfy | `Setup` | the router-pool loop of `setup` |
| plugin.dfy | `Plugin` | runs that interleave requests, ticks and lease expiries; stickiness |

Modelling choices:
- A clock reading is a `nat`. The zero `time.Time` is 0, which is earlier than any `time.Now()`.
- Packet loss is a `real` compared against the integer maximum, as the Go code compares `float64`s.
- `rand.Intn(n)` is a parameter `pick` with `pick < n`: any index in range.
- Netlink is modelled by its outcomes: the interface index or a lookup failure, whether the route listing succeeds, and whether the change or add succeeds. The interface's IPv4 route list is part of the monitor state.
- The pinger is modelled by its outcome: it cannot be created, it fails while running, or it reports a packet loss.
- etcd evaluates every guard of a transaction, nested ones included, against the store as it was when the transaction started. `Etcd.NicTxnIsCreateIfAbsent` proves the handler's nested `If(KeyMissing) Then(OpTxn(If(KeyMissing), Put))` is exactly one create-if-absent.
- A commit that reports an error writes nothing.
- A lease running out is an explicit `LeaseExpiry(key)` event.
- A tick over an empty pool is `Panicked`. The Go scan leaves `oldest` nil, and `checkRouter` dereferences it.

Two behaviours of the request handler are worth stating plainly:
- A transaction whose key already names a router is answered with that router, even when that router is unhealthy now (`Handler.RecordedRouterWins`). Only a transaction that the request itself records is answered with a currently healthy router (`Handler.NewTransactionGetsCandidate`).
- A failed commit is only logged, and the read-back still runs (`Handler.CommitFailureStillReadsBack`).

## Model

| member | source | states |
|---|---|---|
| Pool.Oldest | watch.go:24-29 | the router to check is one with the least `lastCheck`; every router before it in pool order was checked strictly later, so ties go to the earliest |
| Pool.OldestFrom | watch.go:24-29 | the scan keeps the first router with the least check time among those seen; a later router replaces it only when strictly older |
| Pool.HealthyIPs | plugin.go:53-61 | the candidates are the addresses of the healthy routers: each healthy router's address is in the list, each listed address is a healthy router's, and the list is empty exactly when no router is healthy |
| Pool.HealthyIPsAppend | plugin.go:54-61 | the filter preserves pool order: filtering a concatenation is concatenating the filtered parts |
| Pool.HealthyIPsSingle | plugin.go:57-60 | one router contributes its address when healthy and nothing otherwise |
| Pool.FreshPoolChecksFirstRouter | setup.go:53-57 | when every router carries the zero check time, the first router in the pool is checked first |
| Routes.FirstMatch | watch.go:103-104 | finds the first route whose destination prints as the health-check destination, or reports that none does |
| Routes.UpsertChangesFirstMatch | watch.go:103-111 | when a route toward the destination exists, only the first such route changes, and only its gateway |
| Routes.UpsertAddsHostRoute | watch.go:114-125 | when none exists, exactly one /32 route to the parsed destination through the gateway is appended and the rest is kept |
| Routes.UpsertSteersDestination | watch.go:102-125 | after the step, the first route toward a canonical destination goes through the router under test |
| Routes.UpsertSettles | watch.go:102-125 | once a route toward a canonical destination exists, later steps change it instead of adding routes, so the table stops growing |
| Routes.ChangeDefaultRoute | watch.go:87-128 | succeeds exactly when the link lookup, the route listing and the change or add all succeed; it reports which call failed; on success the table is the route upsert through the router's address printed and parsed again, which for an address that came from parsing is the router itself |
| Watch.NextHealth | watch.go:65-82 | after a successful probe the router is healthy exactly when the loss is at most the maximum |
| Watch.CheckRouter | watch.go:39-85 | `lastCheck` becomes now whatever fails afterwards; a failed route step, pinger creation or ping leaves `healthy` as it was; a failed route step also leaves the routes as they were; a completed probe sets `healthy` to whether loss is at most the maximum; no other router changes |
| Watch.Tick | watch.go:22-34 | a tick checks the oldest router, earliest on ties, and panics exactly when the pool is empty |
| Watch.RunTicks | watch.go:18-36 | a run of ticks over a non-empty pool checks one in-range router per tick and keeps the pool's size |
| Watch.StaleFirst | watch.go:24-42 | while ticks come after a threshold time, each tick checks a router not checked since then, so none is checked twice |
| Watch.RoundRobin | watch.go:24-42 | when every tick comes after every recorded check, N ticks over N routers check each router exactly once |
| Etcd.CreateIfAbsent | plugin.go:83-91 | a missing key gains the value, a present key keeps its value, and no other key changes |
| Etcd.NicTxnIsCreateIfAbsent | plugin.go:83-91 | committing the nested key-missing transaction is exactly one create-if-absent |
| Etcd.ReadAfterCreate | plugin.go:83-98 | reading a key back after a create-if-absent finds the value already there, or else the one just written; other keys read as before |
| Etcd.ReadAfterExpire | plugin.go:71-89 | once a leased key expires it reads as missing, and the next create-if-absent on it writes afresh; other keys read as before |
| Handler.Random | plugin.go:123-125 | `random` returns an element of the non-empty list |
| Handler.RandomReachesAll | plugin.go:123-125 | every element of the list is a possible outcome of `random` |
| Handler.NicTransactionKeyInjective | plugin.go:78-79 | two transactions share a key only if they have the same hardware address and transaction ID, given addresses print without '/' |
| Handler.Handle | plugin.go:46-121 | with no healthy router it refuses with `(nil, true)` and leaves the store untouched; the store only gains the transaction's key, only with a healthy candidate, and existing keys keep their values; exactly, a granted and committed request is one create-if-absent of the candidate and a refused grant or failed commit writes nothing; it answers exactly when the grant and read succeed and the key holds a parsable address; the answer is the response with its router option set to that address alone, with `stop == false` |
| Handler.RecordedRouterWins | plugin.go:96-120 | a transaction whose key already names `v` is answered with `v`, even when `v` is unhealthy or the candidate differs, and the store does not change |
| Handler.NewTransactionGetsCandidate | plugin.go:68-120 | a new transaction whose write commits is answered with the random candidate, which is a healthy router of the pool, provided the candidate reads back from its printed form |
| Handler.CommitFailureStillReadsBack | plugin.go:92-106 | after a failed commit the read-back still runs: a recorded transaction is answered from the store and a new one is refused |
| Setup.BuildPool | setup.go:46-58 | it fails exactly when some entry does not parse, naming the first such entry; on success it builds one router per entry, in order, each with the parsed address, healthy, at the zero time |
| Setup.PoolReadsBack | setup.go:53-57 | every address of a pool the router loop built reads back from its printed form, so what the handler records names the router it picked |
| Setup.EmptyRouterListPanics | setup.go:46-64 | an empty router list builds an empty pool, and the first tick over it panics |
| Setup.SetupChecked | setup.go:46-58 | the corrected setup rejects an empty router list and otherwise builds what the loop builds, so every pool it returns is non-empty |
| Setup.CheckedPoolTicks | setup.go:53-57 | a tick over a pool from the corrected setup never panics, and the first one checks the first configured router |
| Plugin.Start | setup.go:46-71 | as written, the plugin starts exactly when every entry parses, an empty list included; it then holds one router per entry, in order, each with its entry's parsed address, healthy and never checked, along with the given route table and the given store |
| Plugin.StartChecked | setup.go:46-71 | the corrected setup of the Findings table: it starts exactly when the list is non-empty and every entry parses, with one healthy, never-checked router per entry holding its parsed address, and over every run from it each request is handled: it gets a router or a refusal |
| Plugin.Step | plugin.go:46-121 | only a tick over an empty pool ends the process; pool membership and addresses never change; each request is answered under its own key with what the store holds; a recorded key keeps its value until its lease expires; a request leaves the monitor alone, a tick leaves the store exactly as it was, and an expiry removes its key and changes nothing else |
| Plugin.Run | setup.go:60-69 | pool membership and addresses stay fixed over a whole run, and over a non-empty pool every request is handled: it gets a router or a refusal |
| Plugin.StickyAfterWrite | plugin.go:83-108 | once a transaction's key holds `v` and its lease does not expire, every answered request of the transaction gets the router `v` names, across any health-check ticks |
| Plugin.AnswersReadFinalStore | plugin.go:98-118 | with no expiry of its key, every answered request of a transaction gets the router its key holds at the end of the run |
| Plugin.FirstWriterWins | plugin.go:78-108 | with no expiry of its key, all answered requests of one transaction get the same router, and it is the router the key still holds at the end, which is the first value written since nothing overwrites it |

## Left out
- I/O and foreign libraries are left out: netlink, pro-bing, the etcd client, viper and the properties codec, and `NewClient`. Only their outcomes are modelled: route list, packet loss, store map.
- `net.ParseIP` and `IP.String()` are abstract (`Net.Codec`). Properties that need them to agree assume `Net.ReadsBack`, which says that an address `parse` produced reads back from its printed form, or else a canonical destination. Go's pair satisfies `Net.ReadsBack`, but not a round trip for every byte slice: a 4-byte IPv4 address prints like its 16-byte form.
- The ticker, context deadlines, `RWMutex` locking and the goroutine launch are left out; they only affect concurrency and timing. Events happen one at a time, and a whole request is one atomic step: lease grant, commit and read-back together. So no expiry and no other request comes between a request's commit and its read. The handler holding the read lock across store calls is not modelled.
- The probe parameters (10 echoes, 500 ms apart, 10 s timeout, 15 s context) are left out. Only the probe's outcome is modelled.
- The lease TTL of 30 s and lease IDs are left out. Expiry is the explicit `LeaseExpiry` event.
- `rand.Seed` and the distribution of `math/rand` are left out. Only "some index in range" is modelled.
- Logging and the plugin registration record are left out.
- config.go is left out: a plain struct with a `String()` formatter and no logic.
- The configuration parsing and client creation steps of `setup` before the router loop are left out. Their failures are I/O or parsing errors outside this model.
- Handler.Handle: a commit error returned after etcd actually applied the write is not modelled; a failed commit writes nothing.

## Findings

| source | as written | input that shows it | evidently intended | confidence | as-written member | corrected member |
|---|---|---|---|---|---|---|
| setup.go:46-64 | an empty router list is accepted and builds an empty pool; the first tick's scan leaves `oldest` nil and `checkRouter` dereferences it | a configuration with no `routers` entry | setup refuses a configuration without routers | high; not executed | Setup.EmptyRouterListPanics | Setup.SetupChecked |
