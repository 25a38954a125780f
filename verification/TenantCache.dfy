/** Tenants that share one cache store: `get`, `set` and `delete` (src/caching/caching.service.ts). */
module TenantCache {
  import opened Prelude
  import opened TenantKeys

  /** A stored value; the store may hold null, which reads as absent. */
  datatype Value = Null | Data(id: int)

  type Store = map<string, Value>

  datatype Command = Get | Set(value: Value) | Delete

  datatype Operation = Operation(tenant: string, key: string, command: Command)

  function Lookup(store: Store, key: string): Option<Value> {
    if key in store && store[key] != Null then Some(store[key]) else None
  }

  function Updated(store: Store, key: string, command: Command): Store {
    match command
    case Get => store
    case Set(value) => store[key := value]
    case Delete => store - {key}
  }

  class CachingService {
    var store: Store
    var isolationTenant: Option<string>    // what the isolation service answers for the current request

    constructor ()
      ensures store == map[] && isolationTenant == None
    {
      store, isolationTenant := map[], None;
    }

    /** `buildTenantScopedKey` */
    function ScopedKey(key: string, tenantId: Option<string>): string
      reads this`isolationTenant
    {
      BuildTenantScopedKey(key, ResolveTenant(tenantId, isolationTenant))
    }

    method Get(key: string, tenantId: Option<string>) returns (value: Option<Value>)
      ensures value == Lookup(store, ScopedKey(key, tenantId))
    {
      var scopedKey := ScopedKey(key, tenantId);
      if scopedKey !in store || store[scopedKey] == Null { return None; }
      value := Some(store[scopedKey]);
    }

    method Set(key: string, value: Value, tenantId: Option<string>)
      modifies this`store
      ensures store == Updated(old(store), ScopedKey(key, tenantId), Command.Set(value))
    {
      store := store[ScopedKey(key, tenantId) := value];
    }

    method Delete(key: string, tenantId: Option<string>)
      modifies this`store
      ensures store == Updated(old(store), ScopedKey(key, tenantId), Command.Delete)
    {
      store := store - {ScopedKey(key, tenantId)};
    }
  }

  // ---- Whole runs --------------------------------------------------------

  function After(store: Store, op: Operation): Store {
    Updated(store, ScopedTo(op.key, op.tenant), op.command)
  }

  function Run(store: Store, ops: seq<Operation>): Store
    decreases ops
  {
    if ops == [] then store else Run(After(store, ops[0]), ops[1..])
  }

  /** What one operation answers the tenant, if it is its own read. */
  function Heard(store: Store, op: Operation, tenant: string): seq<Option<Value>> {
    if op.tenant == tenant && op.command == Command.Get then [Lookup(store, ScopedTo(op.key, tenant))] else []
  }

  /** The answers one tenant's reads get, in order. */
  function Answers(store: Store, ops: seq<Operation>, tenant: string): seq<Option<Value>>
    decreases ops
  {
    if ops == [] then []
    else Heard(store, ops[0], tenant) + Answers(After(store, ops[0]), ops[1..], tenant)
  }

  /** The operations one tenant issued. */
  function Own(ops: seq<Operation>, tenant: string): seq<Operation> {
    if ops == [] then []
    else (if ops[0].tenant == tenant then [ops[0]] else []) + Own(ops[1..], tenant)
  }

  /** The two stores hold the same entries in the tenant's namespace. */
  ghost predicate Agree(a: Store, b: Store, tenant: string) {
    forall k :: Namespace(tenant) <= k ==> (k in a <==> k in b) && (k in a ==> a[k] == b[k])
  }

  lemma OwnStepAgrees(a: Store, b: Store, op: Operation)
    requires Agree(a, b, op.tenant)
    ensures Agree(After(a, op), After(b, op), op.tenant)
    ensures Lookup(a, ScopedTo(op.key, op.tenant)) == Lookup(b, ScopedTo(op.key, op.tenant))
  {
    ScopedIsInNamespace(op.key, op.tenant);
  }

  lemma OtherStepUnseen(store: Store, op: Operation, tenant: string)
    requires !Meet(op.tenant, tenant)
    ensures Agree(After(store, op), store, tenant)
  {
    ScopedIsInNamespace(op.key, op.tenant);
    if Namespace(tenant) <= ScopedTo(op.key, op.tenant) {
      CommonExtension(op.tenant, tenant, ScopedTo(op.key, op.tenant));
    }
  }

  /** No other tenant's namespace meets this one's. */
  predicate Apart(ops: seq<Operation>, tenant: string) {
    forall i :: 0 <= i < |ops| && ops[i].tenant != tenant ==> !Meet(ops[i].tenant, tenant)
  }

  /**
   * What a tenant sees in any sequence of operations is what it sees when only its own are run,
   * as long as no other tenant's namespace meets its own.
   */
  lemma {:induction false} NonInterference(a: Store, b: Store, ops: seq<Operation>, tenant: string)
    requires Agree(a, b, tenant)
    requires Apart(ops, tenant)
    ensures Answers(a, ops, tenant) == Answers(b, Own(ops, tenant), tenant)
    ensures Agree(Run(a, ops), Run(b, Own(ops, tenant)), tenant)
    decreases |ops|
  {
    if ops != [] {
      var op, rest := ops[0], ops[1..];
      if op.tenant == tenant {
        OwnStepAgrees(a, b, op);
        NonInterference(After(a, op), After(b, op), rest, tenant);
        assert Own(ops, tenant)[1..] == Own(rest, tenant);
      } else {
        OtherStepUnseen(a, op, tenant);
        NonInterference(After(a, op), b, rest, tenant);
        assert Own(ops, tenant) == Own(rest, tenant);
      }
    }
  }

  /** The sequences that two tenants can issue together. */
  predicate Issue(ops: seq<Operation>, t: string, u: string) {
    forall i :: 0 <= i < |ops| ==> ops[i].tenant == t || ops[i].tenant == u
  }

  /** Two tenants never influence one another exactly when their namespaces do not meet. */
  lemma IsolationExactly(t: string, u: string)
    requires t != u
    ensures (forall ops: seq<Operation> :: Issue(ops, t, u) ==>
               Answers(map[], ops, t) == Answers(map[], Own(ops, t), t) &&
               Answers(map[], ops, u) == Answers(map[], Own(ops, u), u))
       <==> !Meet(t, u)
  {
    if Meet(t, u) {
      NamespacesMeetExactly(t, u);
      var j, k :| ScopedTo(j, t) == ScopedTo(k, u);
      var ops := LeakingRun(t, u, j, k);
      assert Issue(ops, t, u);
    } else {
      forall ops: seq<Operation> | Issue(ops, t, u)
        ensures Answers(map[], ops, t) == Answers(map[], Own(ops, t), t)
        ensures Answers(map[], ops, u) == Answers(map[], Own(ops, u), u)
      {
        NonInterference(map[], map[], ops, t);
        NonInterference(map[], map[], ops, u);
      }
    }
  }

  /** One tenant writes, the other reads it. */
  lemma LeakingRun(t: string, u: string, j: string, k: string) returns (ops: seq<Operation>)
    requires t != u && ScopedTo(j, t) == ScopedTo(k, u)
    ensures Issue(ops, t, u) && Answers(map[], ops, t) != Answers(map[], Own(ops, t), t)
  {
    var write, read := Operation(u, k, Command.Set(Data(0))), Operation(t, j, Command.Get);
    ops := [write, read];
    assert ops[1..] == [read] && [read][1..] == [];
    assert Own([read], t) == [read] + Own([], t) && Own(ops, t) == Own([read], t);
    assert Answers(map[], [read], t)[0] == None;
    assert Answers(map[], ops, t) == Answers(After(map[], write), [read], t);
    assert Answers(After(map[], write), [read], t)[0] == Some(Data(0));
  }

  /** In particular colon-free tenant ids are isolated, whatever keys they use. */
  lemma ColonFreeTenantsIsolated(ops: seq<Operation>, tenant: string)
    requires ':' !in tenant && forall i :: 0 <= i < |ops| ==> ':' !in ops[i].tenant
    ensures Answers(map[], ops, tenant) == Answers(map[], Own(ops, tenant), tenant)
  {
    forall i | 0 <= i < |ops| && ops[i].tenant != tenant ensures !Meet(ops[i].tenant, tenant) {
      ColonFreeApart(ops[i].tenant, tenant);
    }
    NonInterference(map[], map[], ops, tenant);
  }

  // ---- What a tenant reads -----------------------------------------------

  /** The last thing a tenant did to what a key names: the value it set, or nothing. */
  function LastWrite(ops: seq<Operation>, tenant: string, key: string): Option<Value> {
    if ops == [] then None
    else
      var last := ops[|ops| - 1];
      if last.tenant != tenant || NameIn(last.key, tenant) != NameIn(key, tenant) || last.command.Get? then
        LastWrite(ops[..|ops| - 1], tenant, key)
      else if last.command.Delete? || last.command.value == Null then None
      else Some(last.command.value)
  }

  lemma {:induction false} RunLast(store: Store, ops: seq<Operation>, op: Operation)
    ensures Run(store, ops + [op]) == After(Run(store, ops), op)
    decreases |ops|
  {
    if ops == [] {
      assert [op][1..] == [];
    } else {
      assert (ops + [op])[1..] == ops[1..] + [op];
      RunLast(After(store, ops[0]), ops[1..], op);
    }
  }

  lemma OtherEntryUntouched(store: Store, op: Operation, tenant: string, key: string)
    requires op.tenant != tenant ==> !Meet(op.tenant, tenant)
    requires op.tenant != tenant || NameIn(op.key, tenant) != NameIn(key, tenant) || op.command.Get?
    ensures Lookup(After(store, op), ScopedTo(key, tenant)) == Lookup(store, ScopedTo(key, tenant))
  {
    ScopedIsInNamespace(key, tenant);
    if op.tenant != tenant { OtherStepUnseen(store, op, tenant); } else { KeysShareExactly(op.key, key, tenant); }
  }

  /**
   * In every run of tenants whose namespaces do not meet, a tenant reads under a key the value it last set
   * under any key of the same name, and nothing after a delete, or when it has set none.
   */
  lemma {:induction false} ReadsLastWrite(ops: seq<Operation>, tenant: string, key: string)
    requires Apart(ops, tenant)
    ensures Lookup(Run(map[], ops), ScopedTo(key, tenant)) == LastWrite(ops, tenant, key)
    decreases |ops|
  {
    if ops != [] {
      var n := |ops| - 1;
      ReadsLastWrite(ops[..n], tenant, key);
      RunSplits(ops);
      if ops[n].tenant != tenant || NameIn(ops[n].key, tenant) != NameIn(key, tenant) || ops[n].command.Get? {
        OtherEntryUntouched(Run(map[], ops[..n]), ops[n], tenant, key);
      } else {
        OwnEntryWritten(Run(map[], ops[..n]), ops[n], key);
      }
    }
  }

  lemma RunSplits(ops: seq<Operation>)
    requires ops != []
    ensures Run(map[], ops) == After(Run(map[], ops[..|ops| - 1]), ops[|ops| - 1])
  {
    assert ops[..|ops| - 1] + [ops[|ops| - 1]] == ops;
    RunLast(map[], ops[..|ops| - 1], ops[|ops| - 1]);
  }

  lemma OwnEntryWritten(store: Store, op: Operation, key: string)
    requires NameIn(op.key, op.tenant) == NameIn(key, op.tenant) && !op.command.Get?
    ensures Lookup(After(store, op), ScopedTo(key, op.tenant)) ==
            if op.command.Delete? || op.command.value == Null then None else Some(op.command.value)
  {
    KeysShareExactly(op.key, key, op.tenant);
  }

  lemma {:induction false} AnswersLast(store: Store, ops: seq<Operation>, op: Operation, tenant: string)
    ensures Answers(store, ops + [op], tenant) == Answers(store, ops, tenant) + Heard(Run(store, ops), op, tenant)
    decreases |ops|
  {
    if ops == [] {
      assert [op][1..] == [];
    } else {
      var next := After(store, ops[0]);
      AnswersLast(next, ops[1..], op, tenant);
      assert Answers(store, ops + [op], tenant) == Heard(store, ops[0], tenant) + Answers(next, ops[1..] + [op], tenant) by {
        assert (ops + [op])[0] == ops[0] && (ops + [op])[1..] == ops[1..] + [op];
      }
      Assoc(Heard(store, ops[0], tenant), Answers(next, ops[1..], tenant), Heard(Run(next, ops[1..]), op, tenant));
    }
  }

  lemma Assoc<T>(a: seq<T>, b: seq<T>, c: seq<T>)
    ensures a + b + c == a + (b + c)
  {}

  /** And that is what its next read is answered. */
  lemma NextAnswer(ops: seq<Operation>, tenant: string, key: string)
    requires Apart(ops, tenant)
    ensures Answers(map[], ops + [Operation(tenant, key, Command.Get)], tenant) ==
            Answers(map[], ops, tenant) + [LastWrite(ops, tenant, key)]
  {
    AnswersLast(map[], ops, Operation(tenant, key, Command.Get), tenant);
    ReadsLastWrite(ops, tenant, key);
  }
}
