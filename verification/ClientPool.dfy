/** The sharded client pool: sixteen maps, each under its own lock, that must behave like one map, and
    the double-checked creation of clients on top of it. Keys, hashes, clients and times are abstract. */
module ClientPool {
  import opened Text
  import opened Machine

  type Key = string

  datatype Entry = Entry(client: nat, created: int, lastUsed: int)

  type Pool = map<Key, Entry>

  const SHARDS: nat := 16

  // ---- One flat map ----------------------------------------------------------------------------------------

  /** A hit refreshes the time of last use. */
  function Touch(p: Pool, k: Key, now: int): Pool {
    if k in p then p[k := p[k].(lastUsed := now)] else p
  }

  /** Find or create: `made` is the client a successful creation would give. */
  function Obtain(p: Pool, k: Key, now: int, made: Option<nat>): (Pool, Option<nat>) {
    if k in p then (Touch(p, k, now), Some(p[k].client))
    else match made
      case None => (p, None)
      case Some(c) => (p[k := Entry(c, now, now)], Some(c))
  }

  function Stale(e: Entry, now: int, maxAge: int): bool {
    now - e.lastUsed > maxAge
  }

  function Evict(p: Pool, now: int, maxAge: int): Pool {
    map k | k in p && !Stale(p[k], now, maxAge) :: p[k]
  }

  /** Age counts from the last use: a client obtained or found at `t` survives an eviction at `now` exactly when
      no more than `maxAge` has passed since, and is then still the same client; a use of one key changes no
      other. A caller gets the client that is there, or the one it made. */
  lemma EvictedByLastUse(p: Pool, k: Key, t: int, made: Option<nat>, now: int, maxAge: int, other: Key)
    requires k in p || made.Some?
    ensures var (q, client) := Obtain(p, k, t, made);
            && client == Some(if k in p then p[k].client else made.value)
            && k in q && Some(q[k].client) == client && q[k].created == (if k in p then p[k].created else t)
            && (k in Evict(q, now, maxAge) <==> now - t <= maxAge)
            && (k in Evict(q, now, maxAge) ==> Some(Evict(q, now, maxAge)[k].client) == client)
            && (other != k ==> (other in q <==> other in p) && (other in p ==> q[other] == p[other]))
            && (other in p && other != k ==> (other in Evict(q, now, maxAge) <==> now - p[other].lastUsed <= maxAge))
    ensures k in p ==> Touch(p, k, t) == Obtain(p, k, t, made).0
    ensures k !in p ==> Touch(p, k, t) == p && Obtain(p, k, t, None) == (p, None)
  {
  }

  function Clients(p: Pool): set<nat> {
    set k | k in p :: p[k].client
  }

  // ---- The shards --------------------------------------------------------------------------------------------

  class ShardedPool {
    const hash: Key -> nat
    const shards: array<Pool>

    function Home(k: Key): (i: nat)
      ensures i < 16 && (hash(k) - i) % 16 == 0
    {
      hash(k) % SHARDS
    }

    /** Every key is in the shard its hash names. */
    ghost predicate Valid()
      reads this, shards
    {
      shards.Length == SHARDS && forall i, k :: 0 <= i < SHARDS && k in shards[i] ==> Home(k) == i
    }

    /** The flat map the shards stand for. */
    ghost function Flat(): (p: Pool)
      requires Valid()
      reads this, shards
      ensures forall k :: k in p <==> k in shards[Home(k)]
      ensures forall k :: k in p ==> p[k] == shards[Home(k)][k]
    {
      var keys := set i, k | 0 <= i < SHARDS && k in shards[i] :: k;
      map k | k in keys :: shards[Home(k)][k]
    }

    constructor (hash: Key -> nat)
      ensures Valid() && Flat() == map[] && this.hash == hash
    {
      this.hash := hash;
      this.shards := new Pool[SHARDS](_ => map[]);
    }

    /** Writing an entry into its shard writes it into the flat map. */
    method Put(k: Key, e: Entry)
      requires Valid()
      modifies shards
      ensures Valid() && Flat() == old(Flat())[k := e]
    {
      shards[Home(k)] := shards[Home(k)][k := e];
    }

    /** The path under the read lock. */
    method Lookup(k: Key, now: int) returns (client: Option<nat>)
      requires Valid()
      modifies shards
      ensures Valid() && Flat() == Touch(old(Flat()), k, now)
      ensures client == if k in old(Flat()) then Some(old(Flat())[k].client) else None
    {
      var i := Home(k);
      if k !in shards[i] {
        return None;
      }
      var e := shards[i][k];
      Put(k, e.(lastUsed := now));
      return Some(e.client);
    }

    /** The path under the write lock, which looks again before creating. */
    method LookupOrCreate(k: Key, now: int, made: Option<nat>) returns (client: Option<nat>)
      requires Valid()
      modifies shards
      ensures Valid() && Flat() == Obtain(old(Flat()), k, now, made).0
      ensures client == Obtain(old(Flat()), k, now, made).1
    {
      var i := Home(k);
      if k in shards[i] {
        var e := shards[i][k];
        Put(k, e.(lastUsed := now));
        return Some(e.client);
      }
      if made.None? {
        return None;
      }
      Put(k, Entry(made.value, now, now));
      return made;
    }

    /** One shard's eviction loop, keys in any order. */
    method EvictShard(shard: Pool, now: int, maxAge: int) returns (left: Pool)
      ensures left == Evict(shard, now, maxAge)
    {
      left := shard;
      var todo := shard.Keys;
      while todo != {}
        invariant todo <= left.Keys <= shard.Keys
        invariant forall k :: k in left ==> left[k] == shard[k] && (k in todo || !Stale(shard[k], now, maxAge))
        invariant forall k :: k in shard && !Stale(shard[k], now, maxAge) ==> k in left
        decreases |todo|
      {
        var k :| k in todo;
        todo := todo - {k};
        if Stale(left[k], now, maxAge) {
          left := left - {k};
        }
      }
    }

    /** `cleanupClientPool`: shard by shard, with one reading of the clock. */
    method Cleanup(now: int, maxAge: int)
      requires Valid()
      modifies shards
      ensures Valid() && Flat() == Evict(old(Flat()), now, maxAge)
    {
      for i := 0 to SHARDS
        invariant shards.Length == SHARDS
        invariant forall j :: 0 <= j < i ==> shards[j] == Evict(old(shards[j]), now, maxAge)
        invariant forall j :: i <= j < SHARDS ==> shards[j] == old(shards[j])
      {
        shards[i] := EvictShard(shards[i], now, maxAge);
      }
      assert forall j :: 0 <= j < SHARDS ==> shards[j].Keys <= old(shards[j]).Keys;
    }

    /** The clients of one shard whose idle connections are closed. */
    method CloseShard(shard: Pool) returns (shut: set<nat>)
      ensures shut == Clients(shard)
    {
      shut := {};
      var todo := shard.Keys;
      while todo != {}
        invariant todo <= shard.Keys
        invariant shut == set k | k in shard && k !in todo :: shard[k].client
        decreases |todo|
      {
        var k :| k in todo;
        todo := todo - {k};
        shut := shut + {shard[k].client};
      }
    }

    lemma FlatClients()
      requires Valid()
      ensures AllClients(shards[..], SHARDS) == Clients(Flat())
    {
      hide Clients;
      ClientsOfShards(shards[..], Flat(), Home);
    }

    /** `clearAllConnections`: every client's idle connections are closed before it is forgotten. */
    method Clear() returns (shut: set<nat>)
      requires Valid()
      modifies shards
      ensures Valid() && Flat() == map[]
      ensures shut == Clients(old(Flat()))
    {
      hide Clients;
      ghost var all := shards[..];
      FlatClients();
      shut := {};
      for i := 0 to SHARDS
        invariant shards.Length == SHARDS
        invariant forall j :: 0 <= j < i ==> shards[j] == map[]
        invariant forall j :: i <= j < SHARDS ==> shards[j] == all[j]
        invariant shut == AllClients(all, i)
      {
        var more := CloseShard(shards[i]);
        shut := shut + more;
        shards[i] := map[];
      }
    }
  }

  /** The clients of the first `n` shards. */
  ghost function AllClients(shards: seq<Pool>, n: nat): set<nat>
    requires n <= |shards|
  {
    if n == 0 then {} else AllClients(shards, n - 1) + Clients(shards[n - 1])
  }

  lemma {:induction false} InAllClients(shards: seq<Pool>, n: nat, c: nat)
    requires n <= |shards|
    ensures c in AllClients(shards, n) <==> exists j :: 0 <= j < n && c in Clients(shards[j])
  {
    if n > 0 {
      InAllClients(shards, n - 1, c);
    }
  }

  lemma ClientsOfShards(shards: seq<Pool>, flat: Pool, home: Key -> nat)
    requires forall k :: home(k) < |shards|
    requires forall j, k :: 0 <= j < |shards| && k in shards[j] ==> home(k) == j
    requires forall k :: k in flat <==> k in shards[home(k)]
    requires forall k :: k in flat ==> flat[k] == shards[home(k)][k]
    ensures AllClients(shards, |shards|) == Clients(flat)
  {
    forall c
      ensures c in AllClients(shards, |shards|) <==> c in Clients(flat)
    {
      InAllClients(shards, |shards|, c);
      if c in Clients(flat) {
        var k :| k in flat && flat[k].client == c;
        assert c in Clients(shards[home(k)]);
      }
      if j :| 0 <= j < |shards| && c in Clients(shards[j]) {
        var k :| k in shards[j] && shards[j][k].client == c;
        assert home(k) == j && k in flat;
      }
    }
  }

  // ---- Interleavings -------------------------------------------------------------------------------------------

  /** A caller of `getOrCreateClient`: it has missed under the read lock, or it has its answer. */
  datatype Caller = Missed(key: Key) | Finished(key: Key, client: Option<nat>)

  /** The history of the pool: a client stored, or keys removed. */
  datatype Event = Stored(key: Key, client: nat) | Removed(keys: set<Key>)

  /** `next` numbers clients in order of creation. */
  datatype State = State(pool: Pool, next: nat, callers: map<nat, Caller>, log: seq<Event>)

  datatype Action =
    | Read(caller: nat, key: Key, now: int)
    | Write(caller: nat, now: int, works: bool)
    | EvictSome(shard: nat, now: int, maxAge: int)
    | ClearSome(shard: nat)

  const START: State := State(map[], 0, map[], [])

  function Remove(s: State, gone: set<Key>): State {
    s.(pool := s.pool - gone, log := s.log + [Removed(gone)])
  }

  /** Each step is one critical section; a shard is named by what `home` gives its keys. */
  function Step(home: Key -> nat, s: State, a: Action): Option<State> {
    match a
    case Read(c, k, now) =>
      if c in s.callers then None
      else if k in s.pool then
        Some(s.(pool := Touch(s.pool, k, now), callers := s.callers[c := Finished(k, Some(s.pool[k].client))]))
      else Some(s.(callers := s.callers[c := Missed(k)]))
    case Write(c, now, works) =>
      if c !in s.callers || !s.callers[c].Missed? then None
      else
        var k := s.callers[c].key;
        var (pool, client) := Obtain(s.pool, k, now, if works then Some(s.next) else None);
        Some(State(pool, if k !in s.pool && works then s.next + 1 else s.next, s.callers[c := Finished(k, client)],
                   if k !in s.pool && works then s.log + [Stored(k, s.next)] else s.log))
    case EvictSome(i, now, maxAge) =>
      Some(Remove(s, set k | k in s.pool && home(k) == i && Stale(s.pool[k], now, maxAge)))
    case ClearSome(i) => Some(Remove(s, set k | k in s.pool && home(k) == i))
  }

  function Stepper(home: Key -> nat): (State, Action) -> Option<State> {
    (s: State, a: Action) => Step(home, s, a)
  }

  function Change(e: Event, k: Key): int {
    match e
    case Stored(j, _) => if j == k then 1 else 0
    case Removed(ks) => if k in ks then -1 else 0
  }

  /** Clients stored under `k` minus removals of `k`. */
  function Net(log: seq<Event>, k: Key): int {
    if log == [] then 0
    else
      Net(log[..|log| - 1], k) + Change(log[|log| - 1], k)
  }

  lemma NetSnoc(log: seq<Event>, e: Event, k: Key)
    ensures Net(log + [e], k) == Net(log, k) + Change(e, k)
  {
    assert (log + [e])[..|log|] == log;
  }

  /** At every point of the history a key has no client or exactly one. */
  ghost predicate Alternating(log: seq<Event>) {
    forall i, k :: 0 <= i <= |log| ==> 0 <= Net(log[..i], k) <= 1
  }

  ghost predicate Inv(s: State) {
    Alternating(s.log) &&
    (forall k :: Net(s.log, k) == if k in s.pool then 1 else 0) &&
    (forall k :: k in s.pool ==> s.pool[k].client < s.next) &&
    (forall j, k :: j in s.pool && k in s.pool && s.pool[j].client == s.pool[k].client ==> j == k)
  }

  lemma LogsKeepInv(s: State, t: State, e: Event)
    requires Inv(s) && t.log == s.log + [e]
    requires forall k :: (if k in t.pool then 1 else 0) - (if k in s.pool then 1 else 0) == Change(e, k)
    ensures Alternating(t.log) && forall k :: Net(t.log, k) == if k in t.pool then 1 else 0
  {
    hide Net;
    forall k
      ensures Net(t.log, k) == if k in t.pool then 1 else 0
    {
      NetSnoc(s.log, e, k);
    }
    forall i, k | 0 <= i <= |t.log|
      ensures 0 <= Net(t.log[..i], k) <= 1
    {
      if i == |t.log| {
        assert t.log[..i] == t.log;
      } else {
        assert t.log[..i] == s.log[..i];
      }
    }
  }

  lemma StepKeepsInv(home: Key -> nat, s: State, a: Action)
    requires Inv(s) && Step(home, s, a).Some?
    ensures Inv(Step(home, s, a).value)
  {
    hide Net, Alternating;
    var t := Step(home, s, a).value;
    if t.log != s.log {
      LogsKeepInv(s, t, t.log[|s.log|]);
    }
  }

  /** In every interleaving of callers and evictions at most one client is stored per key between two
      removals of it, and no two keys share a client. */
  lemma OneClientPerKey(home: Key -> nat, actions: seq<Action>)
    requires Run(Stepper(home), START, actions).Some?
    ensures Inv(Run(Stepper(home), START, actions).value)
  {
    hide Step;
    forall t, a | Inv(t) && Stepper(home)(t, a).Some?
      ensures Inv(Stepper(home)(t, a).value)
    {
      StepKeepsInv(home, t, a);
    }
    assert Inv(START);
    RunKeeps(Stepper(home), Inv, START, actions);
  }

  /** `k` was not removed between the two states. */
  ghost predicate Undisturbed(s: State, t: State, k: Key) {
    s.log <= t.log && forall i :: |s.log| <= i < |t.log| ==> t.log[i].Stored? || k !in t.log[i].keys
  }

  predicate FinishedSince(s: State, t: State, c: nat) {
    c in t.callers && t.callers[c].Finished? && !(c in s.callers && s.callers[c].Finished?)
  }

  /** While a key is not removed, every caller that finishes with it gets the client stored there. */
  ghost predicate SameClient(k: Key, s: State, t: State) {
    s.log <= t.log && s.callers.Keys <= t.callers.Keys &&
    (k in s.pool && Undisturbed(s, t, k) ==>
       k in t.pool && t.pool[k].client == s.pool[k].client &&
       forall c :: FinishedSince(s, t, c) && t.callers[c].key == k ==> t.callers[c].client == Some(s.pool[k].client)) &&
    (forall c :: c in s.callers && s.callers[c].Finished? ==> t.callers[c] == s.callers[c])
  }

  lemma SameClientStep(home: Key -> nat, k: Key, s: State, a: Action)
    requires Step(home, s, a).Some?
    ensures SameClient(k, s, Step(home, s, a).value)
  {
    var t := Step(home, s, a).value;
    if t.log != s.log && t.log[|s.log|].Removed? && k in s.pool && Undisturbed(s, t, k) {
      assert k !in t.log[|s.log|].keys;
    }
  }

  lemma SameClientCompose(k: Key, s: State, t: State, u: State)
    requires SameClient(k, s, t) && SameClient(k, t, u)
    ensures SameClient(k, s, u)
  {
    if k in s.pool && Undisturbed(s, u, k) {
      assert Undisturbed(s, t, k);
      assert Undisturbed(t, u, k);
    }
  }

  /** Callers that share a key share the client for as long as the key is not evicted. */
  lemma CallersShareClient(home: Key -> nat, k: Key, s: State, actions: seq<Action>)
    requires Run(Stepper(home), s, actions).Some?
    ensures SameClient(k, s, Run(Stepper(home), s, actions).value)
  {
    hide Step, SameClient;
    var rel := (t: State, u: State) => SameClient(k, t, u);
    forall t, a | Stepper(home)(t, a).Some?
      ensures rel(t, Stepper(home)(t, a).value)
    {
      SameClientStep(home, k, t, a);
    }
    forall t ensures rel(t, t) { SameClientReflexive(k, t); }
    forall t, u, v | rel(t, u) && rel(u, v) ensures rel(t, v) { SameClientCompose(k, t, u, v); }
    RunRelates(Stepper(home), (t: State) => true, rel, s, actions);
  }

  lemma SameClientReflexive(k: Key, s: State)
    ensures SameClient(k, s, s)
  {
  }
}
