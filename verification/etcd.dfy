/** The slice of etcd the plugin uses: a key-value map, transactions guarded
    by "key missing" comparisons (nested transactions included), reads, and
    the expiry of a leased key. */
module Etcd {
  import opened Wrappers

  type Store = map<string, string>

  /** A transaction guard; the plugin only ever asks whether a key is missing. */
  datatype Cmp = KeyMissing(key: string)

  datatype Op =
    | Put(key: string, value: string)
    | Txn(conds: seq<Cmp>, thenOps: seq<Op>, elseOps: seq<Op>)

  predicate Holds(view: Store, cmp: Cmp)
  {
    cmp.key !in view
  }

  predicate AllHold(view: Store, conds: seq<Cmp>)
  {
    forall k :: 0 <= k < |conds| ==> Holds(view, conds[k])
  }

  /** Applies `op` to `s`. Every guard, nested ones included, is evaluated
      against `view`, the store as it was when the transaction started: etcd
      decides the branches of a whole transaction before it writes. */
  function Apply(view: Store, s: Store, op: Op): Store
    decreases op, 1
  {
    match op
    case Put(k, v) => s[k := v]
    case Txn(conds, thenOps, elseOps) =>
      if AllHold(view, conds) then ApplyAll(view, s, op, thenOps) else ApplyAll(view, s, op, elseOps)
  }

  /** Applies the branch `ops` of the transaction `parent` in order. */
  function ApplyAll(view: Store, s: Store, ghost parent: Op, ops: seq<Op>): Store
    requires forall k :: 0 <= k < |ops| ==> ops[k] < parent
    decreases parent, 0, |ops|
  {
    if |ops| == 0 then s
    else ApplyAll(view, Apply(view, s, ops[0]), parent, ops[1..])
  }

  /** `Txn(...).Commit()`: one atomic step over the store. */
  function Commit(s: Store, txn: Op): Store
  {
    Apply(s, s, txn)
  }

  /** The transaction the request handler sends for a nic transaction key:
      if the key is missing, run a nested transaction that puts `value` if
      the key is (still) missing. */
  function NicTxn(key: string, value: string): Op
  {
    Txn([KeyMissing(key)], [Txn([KeyMissing(key)], [Put(key, value)], [])], [])
  }

  /** Create-if-absent: a missing key gains `value`; a present key keeps its
      value; no other key changes. */
  function CreateIfAbsent(s: Store, key: string, value: string): (s': Store)
    ensures s'.Keys == s.Keys + {key}
    ensures s'[key] == (if key in s then s[key] else value)
    ensures forall k :: k in s ==> s'[k] == s[k]
  {
    if key in s then s else s[key := value]
  }

  /** The nested guard adds nothing: committing the handler's transaction is
      exactly one create-if-absent. */
  lemma NicTxnIsCreateIfAbsent(s: Store, key: string, value: string)
    ensures Commit(s, NicTxn(key, value)) == CreateIfAbsent(s, key, value)
  {
    var guard := [KeyMissing(key)];
    var put := [Put(key, value)];
    var inner := Txn(guard, put, []);
    var outer := Txn(guard, [inner], []);
    assert guard[0] == KeyMissing(key);
    if key in s {
      assert !AllHold(s, guard);
      assert Apply(s, s, outer) == ApplyAll(s, s, outer, []) == s;
    } else {
      assert AllHold(s, guard);
      assert put[1..] == [] && [inner][1..] == [];
      calc {
        Apply(s, s, inner);
        ApplyAll(s, s, inner, put);
        ApplyAll(s, s[key := value], inner, []);
        s[key := value];
      }
      calc {
        Apply(s, s, outer);
        ApplyAll(s, s, outer, [inner]);
        ApplyAll(s, s[key := value], outer, []);
      }
    }
  }

  /** `Get` of one key. */
  function Get(s: Store, key: string): (v: Option<string>)
    ensures v.Some? <==> key in s
    ensures v.Some? ==> v.value == s[key]
  {
    if key in s then Some(s[key]) else None
  }

  /** The lease bound to a key runs out and etcd deletes the key. */
  function Expire(s: Store, key: string): (s': Store)
    ensures s'.Keys == s.Keys - {key}
    ensures forall k :: k in s' ==> s'[k] == s[k]
  {
    s - {key}
  }

  /** Read-after-create: reading the key back after a create-if-absent finds
      the value that was already there, or else the one just written; any
      other key reads as before. */
  lemma ReadAfterCreate(s: Store, key: string, value: string, other: string)
    ensures Get(CreateIfAbsent(s, key, value), key) == Some(if key in s then s[key] else value)
    ensures other != key ==> Get(CreateIfAbsent(s, key, value), other) == Get(s, other)
  {
  }

  /** Read-after-expire: an expired key reads as missing, so the next
      create-if-absent on it writes afresh; any other key reads as before. */
  lemma ReadAfterExpire(s: Store, key: string, value: string, other: string)
    ensures Get(Expire(s, key), key) == None
    ensures Get(CreateIfAbsent(Expire(s, key), key, value), key) == Some(value)
    ensures other != key ==> Get(Expire(s, key), other) == Get(s, other)
  {
  }
}
