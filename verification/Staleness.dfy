/** Two stacked caches over the edge store: how old an answer can be. */
module Staleness {
  import opened Wrappers

  const L1_TTL_MS: int := 15_000
  const BATCH_LIMIT: nat := 100

  datatype Value = Value(content: string, kind: string)

  /** A write to the edge store; None deletes. */
  datatype Write = Write(at: int, key: string, value: Option<Value>)

  datatype Cached<T> = Cached(value: T, expires: int)

  datatype Route = Configs | Flags

  type L1 = map<string, Cached<Option<Value>>>

  /** What a client gets for a key: nothing, a record with the key alone, or the key with its value. */
  datatype Record = Missing | KeyOnly | Of(value: Value)

  /** A client's cache is keyed by request path: route and key. */
  type ClientCache = map<(Route, string), Cached<Record>>

  const PROTO: string := "__proto__"

  /** The names every JavaScript object finds on its prototype, by section 20.1.3 of ECMA-262. */
  const INHERITED: set<string> := {
    "constructor", "hasOwnProperty", "isPrototypeOf", "propertyIsEnumerable", "toLocaleString", "toString", "valueOf",
    PROTO, "__defineGetter__", "__defineSetter__", "__lookupGetter__", "__lookupSetter__"
  }

  /** Keys whose path a URL parser leaves as it is: dot segments are removed, and the route wants a key. */
  predicate Reaches(key: string) {
    key != "" && key != "." && key != ".."
  }

  /** Dropping an entry before replacing it changes nothing. */
  lemma Replaced<K, V>(m: map<K, V>, k: K, v: V)
    ensures (m - {k})[k := v] == m[k := v]
  {
  }

  // ------------------------------------------------------- the store's past

  /** The store's entry after a series of writes. */
  function Current(writes: seq<Write>, key: string): Option<Value> {
    if writes == [] then None
    else
      var last := writes[|writes| - 1];
      if last.key == key then last.value else Current(writes[..|writes| - 1], key)
  }

  /** At moment `t` the store held `v`: after the first `k` writes and before the rest. */
  ghost predicate HeldAfter(writes: seq<Write>, key: string, v: Option<Value>, t: int, k: nat) {
    && k <= |writes| && Current(writes[..k], key) == v
    && (k > 0 ==> writes[k - 1].at <= t) && (k < |writes| ==> t <= writes[k].at)
  }

  ghost predicate Held(writes: seq<Write>, key: string, v: Option<Value>, t: int) {
    exists k :: HeldAfter(writes, key, v, t, k)
  }

  /** At some moment from `from` to `to` the store held a value that the route shows as `shown`. */
  ghost predicate Shown(writes: seq<Write>, route: Route, key: string, shown: Record, from: int, to: int) {
    exists t, v :: from <= t <= to && Held(writes, key, v, t) && View(route, v) == shown
  }

  lemma HeldNow(writes: seq<Write>, key: string, now: int)
    requires forall w :: w in writes ==> w.at <= now
    ensures Held(writes, key, Current(writes, key), now)
  {
    assert writes[..|writes|] == writes;
    assert HeldAfter(writes, key, Current(writes, key), now, |writes|);
  }

  lemma HeldStays(writes: seq<Write>, w: Write, key: string, v: Option<Value>, t: int)
    requires Held(writes, key, v, t) && t <= w.at
    ensures Held(writes + [w], key, v, t)
  {
    var k: nat :| HeldAfter(writes, key, v, t, k);
    assert (writes + [w])[..k] == writes[..k];
    assert HeldAfter(writes + [w], key, v, t, k);
  }

  // -------------------------------------------------------- the edge worker

  /** The flag route shows only flags; the other shows everything. */
  predicate Visible(route: Route, v: Option<Value>) {
    v.Some? && (route == Flags ==> v.value.kind == "flag")
  }

  function View(route: Route, v: Option<Value>): Record {
    if Visible(route, v) then Of(v.value) else Missing
  }

  predicate Live(cache: L1, key: string, now: int) {
    key in cache && cache[key].expires >= now
  }

  /** The worker's answer and its L1 afterwards, when the store holds `stored`. */
  function ResolveL1(l1: L1, key: string, stored: Option<Value>, now: int): (Option<Value>, L1) {
    if Live(l1, key, now) then (l1[key].value, l1)
    else (stored, l1[key := Cached(stored, now + L1_TTL_MS)])
  }

  /** One isolate of the delivery worker. */
  class Isolate {
    var l1: L1

    constructor ()
      ensures l1 == map[]
    {
      l1 := map[];
    }

    method L1Get(key: string, now: int) returns (hit: Option<Cached<Option<Value>>>)
      modifies this
      ensures hit == if Live(old(l1), key, now) then Some(old(l1)[key]) else None
      ensures l1 == if hit.Some? then old(l1) else old(l1) - {key}
    {
      if key !in l1 { return None; }
      if l1[key].expires < now {
        l1 := l1 - {key};
        return None;
      }
      hit := Some(l1[key]);
    }

    method L1Set(key: string, value: Option<Value>, now: int)
      modifies this
      ensures l1 == old(l1)[key := Cached(value, now + L1_TTL_MS)]
    {
      l1 := l1[key := Cached(value, now + L1_TTL_MS)];
    }

    method Resolve(key: string, writes: seq<Write>, now: int) returns (value: Option<Value>)
      modifies this
      ensures (value, l1) == ResolveL1(old(l1), key, Current(writes, key), now)
    {
      var local := L1Get(key, now);
      if local.Some? { return local.value.value; }
      var fromKv := Current(writes, key);
      Replaced(old(l1), key, Cached(fromKv, now + L1_TTL_MS));
      L1Set(key, fromKv, now);
      value := fromKv;
    }

    /** The batch route looks at no more than the first hundred keys. */
    method Batch(keys: seq<string>, writes: seq<Write>, now: int) returns (configs: map<string, Option<Value>>)
      modifies this
      ensures (configs, l1) == BatchL1(old(l1), First(keys), writes, now)
    {
      configs := map[];
      var taken := First(keys);
      assert taken[..|taken|] == taken;
      for i := 0 to |taken|
        invariant (configs, l1) == BatchL1(old(l1), taken[..i], writes, now)
      {
        assert taken[..i + 1][..i] == taken[..i];
        var value := Resolve(taken[i], writes, now);
        configs := configs[taken[i] := value];
      }
    }
  }

  function First(keys: seq<string>): seq<string> {
    if |keys| > BATCH_LIMIT then keys[..BATCH_LIMIT] else keys
  }

  function BatchL1(l1: L1, keys: seq<string>, writes: seq<Write>, now: int): (map<string, Option<Value>>, L1) {
    if keys == [] then (map[], l1)
    else
      var last := keys[|keys| - 1];
      var (configs, l1') := BatchL1(l1, keys[..|keys| - 1], writes, now);
      var (value, l1'') := ResolveL1(l1', last, Current(writes, last), now);
      (configs[last := value], l1'')
  }

  // ------------------------------------------------------------ the client

  function Remember(cache: ClientCache, ttl: int, path: (Route, string), shown: Record, now: int): ClientCache {
    if ttl <= 0 then cache else cache[path := Cached(shown, now + ttl)]
  }

  predicate Fresh(cache: ClientCache, ttl: int, path: (Route, string), now: int) {
    ttl > 0 && path in cache && cache[path].expires >= now
  }

  function RememberAll(cache: ClientCache, ttl: int, keys: seq<string>, configs: map<string, Option<Value>>, now: int):
    ClientCache
  {
    if keys == [] then cache
    else
      var last := keys[|keys| - 1];
      Remember(RememberAll(cache, ttl, keys[..|keys| - 1], configs, now), ttl, (Configs, last),
               Answer(configs, last), now)
  }

  /** A parsed answer without the key still has what it inherits, of which a copy keeps nothing. */
  function Answer(configs: map<string, Option<Value>>, key: string): Record {
    if key in configs then View(Configs, configs[key]) else StrayRecord(key)
  }

  /** What a client makes of a key that the worker did not look at. */
  function StrayRecord(key: string): Record {
    if key in INHERITED then KeyOnly else Missing
  }

  lemma OneMoreKey(
    cache: ClientCache, ttl: int, keys: seq<string>, i: nat, configs: map<string, Option<Value>>, now: int)
    requires i < |keys|
    ensures RememberAll(cache, ttl, keys[..i + 1], configs, now)
         == Remember(RememberAll(cache, ttl, keys[..i], configs, now), ttl, (Configs, keys[i]),
                     Answer(configs, keys[i]), now)
  {
    assert keys[..i + 1][..i] == keys[..i];
  }

  /** An object being filled: its own fields, and whether it still inherits from the root prototype. */
  datatype Dict = Dict(own: map<string, Record>, rooted: bool)

  /** Setting a field; on an object of the root, `__proto__` sets the prototype, and null takes it away. */
  function Put(d: Dict, key: string, r: Record): Dict {
    if key == PROTO && d.rooted && key !in d.own then d.(rooted := r != Missing)
    else d.(own := d.own[key := r])
  }

  function Records(keys: seq<string>, configs: map<string, Option<Value>>): Dict {
    if keys == [] then Dict(map[], true)
    else
      var last := keys[|keys| - 1];
      Put(Records(keys[..|keys| - 1], configs), last, Answer(configs, last))
  }

  ghost predicate Twice(keys: seq<string>, key: string) {
    exists i, j :: 0 <= i < j < |keys| && keys[i] == key && keys[j] == key
  }

  /** A key comes back as a field: any but `__proto__`, and that one if it is missing and asked for twice. */
  ghost predicate Listed(keys: seq<string>, configs: map<string, Option<Value>>, key: string) {
    key in keys && (key != PROTO || (Answer(configs, PROTO) == Missing && Twice(keys, PROTO)))
  }

  lemma TwiceOneMore(init: seq<string>, last: string, key: string)
    ensures Twice(init + [last], key) <==> Twice(init, key) || (last == key && key in init)
  {
    var keys := init + [last];
    if Twice(keys, key) {
      var i, j :| 0 <= i < j < |keys| && keys[i] == key && keys[j] == key;
      assert init[i] == key;
      if j < |init| { assert init[j] == key; }
    }
    if last == key && key in init {
      var i :| 0 <= i < |init| && init[i] == key;
      assert keys[i] == key && keys[|init|] == key;
    }
    if Twice(init, key) {
      var i, j :| 0 <= i < j < |init| && init[i] == key && init[j] == key;
      assert keys[i] == key && keys[j] == key;
    }
  }

  lemma ListedOneMore(init: seq<string>, last: string, configs: map<string, Option<Value>>, key: string)
    ensures Listed(init + [last], configs, key) <==>
      Listed(init, configs, key)
      || (key == last && (key != PROTO || (Answer(configs, PROTO) == Missing && PROTO in init)))
  {
    TwiceOneMore(init, last, PROTO);
  }

  /** The records a batch returns: exactly the listed keys, each with its answer. */
  lemma {:induction false} RecordsExactly(keys: seq<string>, configs: map<string, Option<Value>>)
    ensures var d := Records(keys, configs);
      && (forall k :: k in d.own <==> Listed(keys, configs, k))
      && (forall k :: k in d.own ==> d.own[k] == Answer(configs, k))
      && (d.rooted <==> !(PROTO in keys && Answer(configs, PROTO) == Missing))
  {
    if keys != [] {
      var init, last := keys[..|keys| - 1], keys[|keys| - 1];
      assert keys == init + [last];
      RecordsExactly(init, configs);
      forall k ensures k in Records(keys, configs).own <==> Listed(keys, configs, k) {
        ListedOneMore(init, last, configs, k);
      }
    }
  }

  /** Every key asked for is among the records, except `__proto__`. */
  lemma AllAnsweredExactly(keys: seq<string>, configs: map<string, Option<Value>>)
    ensures (forall k :: k in keys ==> k in Records(keys, configs).own) <==>
      (PROTO in keys ==> Answer(configs, PROTO) == Missing && Twice(keys, PROTO))
  {
    RecordsExactly(keys, configs);
    forall k | k in keys && k != PROTO ensures k in Records(keys, configs).own {
      assert Listed(keys, configs, k);
    }
  }

  class EdgeVault {
    const ttl: int
    var cache: ClientCache

    constructor (ttl: int)
      ensures this.ttl == ttl && cache == map[]
    {
      this.ttl := ttl;
      cache := map[];
    }

    method GetRecord(isolate: Isolate, route: Route, key: string, writes: seq<Write>, now: int)
      returns (record: Record)
      modifies this, isolate
      ensures (record, cache, isolate.l1) == Read(old(cache), ttl, old(isolate.l1), route, key, writes, now)
    {
      var path := (route, key);
      if ttl > 0 && path in cache {
        if cache[path].expires >= now { return cache[path].value; }
        cache := cache - {path};
      }
      record := Missing;
      if Reaches(key) {
        var value := isolate.Resolve(key, writes, now);
        record := View(route, value);
      }
      Replaced(old(cache), path, Cached(record, now + ttl));
      if ttl > 0 { cache := cache[path := Cached(record, now + ttl)]; }
    }

    method Batch(isolate: Isolate, keys: seq<string>, writes: seq<Write>, now: int)
      returns (records: Dict)
      modifies this, isolate
      ensures keys == [] ==> records == Dict(map[], true) && cache == old(cache) && isolate.l1 == old(isolate.l1)
      ensures keys != [] ==>
        var (configs, l1') := BatchL1(old(isolate.l1), First(keys), writes, now);
        && isolate.l1 == l1'
        && cache == RememberAll(old(cache), ttl, keys, configs, now)
        && records == Records(keys, configs)
    {
      records := Dict(map[], true);
      if |keys| == 0 { return; }
      var configs := isolate.Batch(keys, writes, now);
      records := StoreAll(keys, configs, now);
    }

    /** The loop: every key asked for is answered and remembered. */
    method StoreAll(keys: seq<string>, configs: map<string, Option<Value>>, now: int)
      returns (records: Dict)
      modifies this
      ensures cache == RememberAll(old(cache), ttl, keys, configs, now)
      ensures records == Records(keys, configs)
    {
      records := Dict(map[], true);
      assert keys[..|keys|] == keys;
      for i := 0 to |keys|
        invariant cache == RememberAll(old(cache), ttl, keys[..i], configs, now)
        invariant records == Records(keys[..i], configs)
      {
        var key := keys[i];
        OneMoreKey(old(cache), ttl, keys, i, configs, now);
        assert keys[..i + 1][..i] == keys[..i];
        var record := if key in configs then View(Configs, configs[key]) else StrayRecord(key);
        records := Put(records, key, record);
        if ttl > 0 { cache := cache[(Configs, key) := Cached(record, now + ttl)]; }
      }
    }

    method ClearCache()
      modifies this
      ensures cache == map[]
    {
      cache := map[];
    }
  }

  /** A single read through both caches: the record, the client's cache, the isolate's L1. */
  function Read(
    cache: ClientCache, ttl: int, l1: L1, route: Route, key: string, writes: seq<Write>, now: int):
    (Record, ClientCache, L1)
  {
    if Fresh(cache, ttl, (route, key), now) then (cache[(route, key)].value, cache, l1)
    else if !Reaches(key) then (Missing, Remember(cache, ttl, (route, key), Missing, now), l1)
    else
      var (value, l1') := ResolveL1(l1, key, Current(writes, key), now);
      (View(route, value), Remember(cache, ttl, (route, key), View(route, value), now), l1')
  }

  // ------------------------------------------------------------- the system

  /** `lost` are the paths whose entry was last written without the worker's having looked at the key. */
  datatype Client = Client(ttl: int, cache: ClientCache, lost: set<(Route, string)>)

  datatype World = World(now: int, writes: seq<Write>, isolates: map<nat, L1>, clients: map<nat, Client>)

  datatype Event =
    | Wait(ms: nat)
    | Store(key: string, value: Option<Value>)
    | Recycle(isolate: nat)
    | Get(client: nat, isolate: nat, route: Route, key: string)
    | GetMany(client: nat, isolate: nat, keys: seq<string>)
    | Clear(client: nat)

  /** An isolate not seen before starts empty. */
  function L1Of(w: World, isolate: nat): L1 {
    if isolate in w.isolates then w.isolates[isolate] else map[]
  }

  function Next(w: World, e: Event): World {
    match e
    case Wait(ms) => w.(now := w.now + ms)
    case Store(key, value) => w.(writes := w.writes + [Write(w.now, key, value)])
    case Recycle(isolate) => w.(isolates := w.isolates - {isolate})
    case Get(client, isolate, route, key) =>
      if client !in w.clients then w
      else
        var c := w.clients[client];
        var (_, cache, l1) := Read(c.cache, c.ttl, L1Of(w, isolate), route, key, w.writes, w.now);
        var lost := LostByRead(c.cache, c.ttl, c.lost, (route, key), w.now);
        w.(isolates := w.isolates[isolate := l1], clients := w.clients[client := c.(cache := cache, lost := lost)])
    case GetMany(client, isolate, keys) =>
      if client !in w.clients || keys == [] then w
      else
        var c := w.clients[client];
        var (configs, l1) := BatchL1(L1Of(w, isolate), First(keys), w.writes, w.now);
        w.(isolates := w.isolates[isolate := l1],
           clients := w.clients[client := c.(cache := RememberAll(c.cache, c.ttl, keys, configs, w.now),
                                             lost := LostAll(c.lost, c.ttl, keys, First(keys)))])
    case Clear(client) =>
      if client !in w.clients then w
      else w.(clients := w.clients[client := w.clients[client].(cache := map[], lost := {})])
  }

  /** An entry written from the store is not lost; nothing is written without a lifetime. */
  function Found(lost: set<(Route, string)>, ttl: int, path: (Route, string)): set<(Route, string)> {
    if ttl <= 0 then lost else lost - {path}
  }

  function Lost(lost: set<(Route, string)>, ttl: int, path: (Route, string)): set<(Route, string)> {
    if ttl <= 0 then lost else lost + {path}
  }

  function LostByRead(
    cache: ClientCache, ttl: int, lost: set<(Route, string)>, path: (Route, string), now: int): set<(Route, string)>
  {
    if Fresh(cache, ttl, path, now) then lost
    else if Reaches(path.1) then Found(lost, ttl, path)
    else Lost(lost, ttl, path)
  }

  /** A batch of `keys` of which the worker looked at `taken`. */
  function LostAll(lost: set<(Route, string)>, ttl: int, keys: seq<string>, taken: seq<string>):
    set<(Route, string)>
  {
    if keys == [] then lost
    else
      var last := keys[|keys| - 1];
      var before := LostAll(lost, ttl, keys[..|keys| - 1], taken);
      if last in taken then Found(before, ttl, (Configs, last)) else Lost(before, ttl, (Configs, last))
  }

  // -------------------------------------------------------------- invariant

  /** An L1 entry was the store's value when it was fetched. */
  ghost predicate L1Ok(l1: L1, writes: seq<Write>, now: int) {
    forall key :: key in l1 ==>
      l1[key].expires - L1_TTL_MS <= now && Held(writes, key, l1[key].value, l1[key].expires - L1_TTL_MS)
  }

  /**
   A client entry was shown from a value at most one L1 lifetime old when it was
   fetched, unless it was lost: then it does not depend on the store.
   */
  ghost predicate EntryOk(
    e: Cached<Record>, path: (Route, string), ttl: int, lost: bool, writes: seq<Write>, now: int)
  {
    var fetched := e.expires - ttl;
    && fetched <= now
    && if lost then e.value == StrayRecord(path.1)
       else Shown(writes, path.0, path.1, e.value, fetched - L1_TTL_MS, fetched)
  }

  /** Batches are about the route of configs. */
  predicate MayBeLost(path: (Route, string)) {
    path.0 == Configs || !Reaches(path.1)
  }

  ghost predicate ClientOk(
    cache: ClientCache, ttl: int, lost: set<(Route, string)>, writes: seq<Write>, now: int)
  {
    && (forall path :: path in cache ==> EntryOk(cache[path], path, ttl, path in lost, writes, now))
    && (forall path :: path in lost ==> MayBeLost(path))
  }

  ghost predicate ClientsOk(clients: map<nat, Client>, writes: seq<Write>, now: int) {
    forall c :: c in clients ==> ClientOk(clients[c].cache, clients[c].ttl, clients[c].lost, writes, now)
  }

  ghost predicate IsolatesOk(isolates: map<nat, L1>, writes: seq<Write>, now: int) {
    forall i :: i in isolates ==> L1Ok(isolates[i], writes, now)
  }

  ghost predicate Past(writes: seq<Write>, now: int) {
    forall x :: x in writes ==> x.at <= now
  }

  ghost predicate Good(w: World) {
    Past(w.writes, w.now) && IsolatesOk(w.isolates, w.writes, w.now) && ClientsOk(w.clients, w.writes, w.now)
  }

  lemma ShownStays(
    writes: seq<Write>, w: Write, route: Route, key: string, shown: Record, from: int, to: int)
    requires Shown(writes, route, key, shown, from, to) && to <= w.at
    ensures Shown(writes + [w], route, key, shown, from, to)
  {
    var t, v :| from <= t <= to && Held(writes, key, v, t) && View(route, v) == shown;
    HeldStays(writes, w, key, v, t);
  }

  lemma ShownWider(
    writes: seq<Write>, route: Route, key: string, shown: Record, from: int, to: int, from': int, to': int)
    requires Shown(writes, route, key, shown, from, to) && from' <= from && to <= to'
    ensures Shown(writes, route, key, shown, from', to')
  {
    var t, v :| from <= t <= to && Held(writes, key, v, t) && View(route, v) == shown;
    assert from' <= t <= to';
  }

  ghost predicate HeldWithin(writes: seq<Write>, key: string, v: Option<Value>, from: int, to: int) {
    exists t :: from <= t <= to && Held(writes, key, v, t)
  }

  /** What the worker answers was the store's value at some moment in the last L1 lifetime. */
  lemma L1Answers(l1: L1, key: string, writes: seq<Write>, now: int)
    requires L1Ok(l1, writes, now) && Past(writes, now)
    ensures var (value, l1') := ResolveL1(l1, key, Current(writes, key), now);
      L1Ok(l1', writes, now) && HeldWithin(writes, key, value, now - L1_TTL_MS, now)
  {
    if Live(l1, key, now) {
      var t := l1[key].expires - L1_TTL_MS;
      assert now - L1_TTL_MS <= t <= now && Held(writes, key, l1[key].value, t);
    } else {
      HeldNow(writes, key, now);
      L1Refilled(l1, key, writes, now);
    }
  }

  lemma L1Refilled(l1: L1, key: string, writes: seq<Write>, now: int)
    requires L1Ok(l1, writes, now) && Held(writes, key, Current(writes, key), now)
    ensures L1Ok(l1[key := Cached(Current(writes, key), now + L1_TTL_MS)], writes, now)
  {
  }

  lemma RouteAnswers(l1: L1, route: Route, key: string, writes: seq<Write>, now: int)
    requires L1Ok(l1, writes, now) && Past(writes, now)
    ensures var (value, l1') := ResolveL1(l1, key, Current(writes, key), now);
      L1Ok(l1', writes, now) && Shown(writes, route, key, View(route, value), now - L1_TTL_MS, now)
  {
    L1Answers(l1, key, writes, now);
    var (value, _) := ResolveL1(l1, key, Current(writes, key), now);
    var t :| now - L1_TTL_MS <= t <= now && Held(writes, key, value, t);
  }

  lemma {:induction false} BatchAnswers(l1: L1, keys: seq<string>, writes: seq<Write>, now: int)
    requires L1Ok(l1, writes, now) && Past(writes, now)
    ensures var (configs, l1') := BatchL1(l1, keys, writes, now);
      && L1Ok(l1', writes, now) && configs.Keys == (set k | k in keys)
      && forall k :: k in configs ==> Shown(writes, Configs, k, Answer(configs, k), now - L1_TTL_MS, now)
  {
    if keys != [] {
      var init, last := keys[..|keys| - 1], keys[|keys| - 1];
      assert keys == init + [last];
      BatchAnswers(l1, init, writes, now);
      RouteAnswers(BatchL1(l1, init, writes, now).1, Configs, last, writes, now);
    }
  }

  /** The bound: both lifetimes together. */
  function Bound(ttl: int): int {
    (if ttl > 0 then ttl else 0) + L1_TTL_MS
  }

  /** The answer does not come from the store: its entry is still fresh and lost, or its path leads nowhere. */
  predicate Astray(cache: ClientCache, ttl: int, lost: set<(Route, string)>, path: (Route, string), now: int) {
    if Fresh(cache, ttl, path, now) then path in lost else !Reaches(path.1)
  }

  /** One read keeps both caches honest, and its answer is no older than both lifetimes together, or astray. */
  lemma ReadAnswers(
    cache: ClientCache, ttl: int, lost: set<(Route, string)>, l1: L1, route: Route, key: string, writes: seq<Write>,
    now: int)
    requires L1Ok(l1, writes, now) && ClientOk(cache, ttl, lost, writes, now) && Past(writes, now)
    ensures var (record, cache', l1') := Read(cache, ttl, l1, route, key, writes, now);
      && L1Ok(l1', writes, now)
      && ClientOk(cache', ttl, LostByRead(cache, ttl, lost, (route, key), now), writes, now)
      && if Astray(cache, ttl, lost, (route, key), now) then record == StrayRecord(key)
         else Shown(writes, route, key, record, now - Bound(ttl), now)
  {
    var path := (route, key);
    if Fresh(cache, ttl, path, now) {
      assert EntryOk(cache[path], path, ttl, path in lost, writes, now);
      var fetched := cache[path].expires - ttl;
      if path !in lost {
        ShownWider(writes, route, key, cache[path].value, fetched - L1_TTL_MS, fetched, now - Bound(ttl), now);
      }
    } else if !Reaches(key) {
      RememberLost(cache, ttl, lost, path, writes, now);
    } else {
      RouteAnswers(l1, route, key, writes, now);
      var (value, _) := ResolveL1(l1, key, Current(writes, key), now);
      ShownWider(writes, route, key, View(route, value), now - L1_TTL_MS, now, now - Bound(ttl), now);
      RememberFound(cache, ttl, lost, path, View(route, value), writes, now);
    }
  }

  lemma RememberFound(
    cache: ClientCache, ttl: int, lost: set<(Route, string)>, path: (Route, string), shown: Record,
    writes: seq<Write>, now: int)
    requires ClientOk(cache, ttl, lost, writes, now)
    requires Shown(writes, path.0, path.1, shown, now - L1_TTL_MS, now)
    ensures ClientOk(Remember(cache, ttl, path, shown, now), ttl, Found(lost, ttl, path), writes, now)
  {
    var after, lost' := Remember(cache, ttl, path, shown, now), Found(lost, ttl, path);
    forall p | p in after ensures EntryOk(after[p], p, ttl, p in lost', writes, now) {
      if p == path && ttl > 0 {
        assert now + ttl - ttl == now;
      } else {
        assert EntryOk(cache[p], p, ttl, p in lost, writes, now);
      }
    }
  }

  lemma RememberLost(
    cache: ClientCache, ttl: int, lost: set<(Route, string)>, path: (Route, string), writes: seq<Write>, now: int)
    requires ClientOk(cache, ttl, lost, writes, now) && MayBeLost(path)
    ensures ClientOk(Remember(cache, ttl, path, StrayRecord(path.1), now), ttl, Lost(lost, ttl, path), writes, now)
  {
    var after, lost' := Remember(cache, ttl, path, StrayRecord(path.1), now), Lost(lost, ttl, path);
    forall p | p in after ensures EntryOk(after[p], p, ttl, p in lost', writes, now) {
      if p != path || ttl <= 0 { assert EntryOk(cache[p], p, ttl, p in lost, writes, now); }
    }
  }

  lemma {:induction false} RememberKeepsOk(
    cache: ClientCache, ttl: int, lost: set<(Route, string)>, keys: seq<string>, taken: seq<string>,
    configs: map<string, Option<Value>>, writes: seq<Write>, now: int)
    requires ClientOk(cache, ttl, lost, writes, now)
    requires forall k :: k in taken ==> Shown(writes, Configs, k, Answer(configs, k), now - L1_TTL_MS, now)
    requires forall k :: k !in taken ==> Answer(configs, k) == StrayRecord(k)
    ensures ClientOk(RememberAll(cache, ttl, keys, configs, now), ttl, LostAll(lost, ttl, keys, taken), writes, now)
  {
    if keys != [] {
      var init, last := keys[..|keys| - 1], keys[|keys| - 1];
      RememberKeepsOk(cache, ttl, lost, init, taken, configs, writes, now);
      var before, lost' := RememberAll(cache, ttl, init, configs, now), LostAll(lost, ttl, init, taken);
      if last in taken {
        RememberFound(before, ttl, lost', (Configs, last), Answer(configs, last), writes, now);
      } else {
        RememberLost(before, ttl, lost', (Configs, last), writes, now);
      }
    }
  }

  /** What a read leaves behind: one isolate's L1 and one client's cache replaced. */
  lemma LeaveKeepsGood(w: World, isolate: nat, l1: L1, client: nat, cache: ClientCache, lost: set<(Route, string)>)
    requires Good(w) && client in w.clients
    requires L1Ok(l1, w.writes, w.now) && ClientOk(cache, w.clients[client].ttl, lost, w.writes, w.now)
    ensures Good(w.(isolates := w.isolates[isolate := l1],
                    clients := w.clients[client := w.clients[client].(cache := cache, lost := lost)]))
  {
  }

  lemma NextKeepsGood(w: World, e: Event)
    requires Good(w)
    ensures Good(Next(w, e))
  {
    match e
    case Wait(ms) => WaitKeepsGood(w, ms);
    case Store(key, value) => StoreKeepsGood(w, key, value);
    case Recycle(isolate) =>
    case Get(client, isolate, route, key) => GetKeepsGood(w, client, isolate, route, key);
    case GetMany(client, isolate, keys) => GetManyKeepsGood(w, client, isolate, keys);
    case Clear(client) =>
  }

  lemma WaitKeepsGood(w: World, ms: nat)
    requires Good(w)
    ensures Good(Next(w, Wait(ms)))
  {
    forall i | i in w.isolates ensures L1Ok(w.isolates[i], w.writes, w.now + ms) {
      assert L1Ok(w.isolates[i], w.writes, w.now);
    }
    forall c | c in w.clients
      ensures ClientOk(w.clients[c].cache, w.clients[c].ttl, w.clients[c].lost, w.writes, w.now + ms)
    {
      WaitKeepsClient(w.clients[c], w.writes, w.now, ms);
    }
  }

  lemma WaitKeepsClient(c: Client, writes: seq<Write>, now: int, ms: nat)
    requires ClientOk(c.cache, c.ttl, c.lost, writes, now)
    ensures ClientOk(c.cache, c.ttl, c.lost, writes, now + ms)
  {
    forall p | p in c.cache ensures EntryOk(c.cache[p], p, c.ttl, p in c.lost, writes, now + ms) {
      assert EntryOk(c.cache[p], p, c.ttl, p in c.lost, writes, now);
    }
  }

  lemma GetKeepsGood(w: World, client: nat, isolate: nat, route: Route, key: string)
    requires Good(w)
    ensures Good(Next(w, Get(client, isolate, route, key)))
  {
    if client in w.clients {
      var c := w.clients[client];
      ReadAnswers(c.cache, c.ttl, c.lost, L1Of(w, isolate), route, key, w.writes, w.now);
      var (_, cache, l1) := Read(c.cache, c.ttl, L1Of(w, isolate), route, key, w.writes, w.now);
      LeaveKeepsGood(w, isolate, l1, client, cache, LostByRead(c.cache, c.ttl, c.lost, (route, key), w.now));
    }
  }

  lemma GetManyKeepsGood(w: World, client: nat, isolate: nat, keys: seq<string>)
    requires Good(w)
    ensures Good(Next(w, GetMany(client, isolate, keys)))
  {
    if client in w.clients && keys != [] {
      var c, taken := w.clients[client], First(keys);
      BatchAnswers(L1Of(w, isolate), taken, w.writes, w.now);
      var (configs, l1) := BatchL1(L1Of(w, isolate), taken, w.writes, w.now);
      RememberKeepsOk(c.cache, c.ttl, c.lost, keys, taken, configs, w.writes, w.now);
      LeaveKeepsGood(w, isolate, l1, client, RememberAll(c.cache, c.ttl, keys, configs, w.now),
                     LostAll(c.lost, c.ttl, keys, taken));
    }
  }

  lemma StoreKeepsGood(w: World, key: string, value: Option<Value>)
    requires Good(w)
    ensures Good(Next(w, Store(key, value)))
  {
    var x := Write(w.now, key, value);
    forall i | i in w.isolates ensures L1Ok(w.isolates[i], w.writes + [x], w.now) {
      StoreKeepsL1(w.isolates[i], w.writes, x);
    }
    forall c | c in w.clients
      ensures ClientOk(w.clients[c].cache, w.clients[c].ttl, w.clients[c].lost, w.writes + [x], w.now)
    {
      StoreKeepsClient(w.clients[c], w.writes, x);
    }
  }

  lemma StoreKeepsL1(l1: L1, writes: seq<Write>, x: Write)
    requires L1Ok(l1, writes, x.at)
    ensures L1Ok(l1, writes + [x], x.at)
  {
    forall k | k in l1 ensures Held(writes + [x], k, l1[k].value, l1[k].expires - L1_TTL_MS) {
      HeldStays(writes, x, k, l1[k].value, l1[k].expires - L1_TTL_MS);
    }
  }

  lemma StoreKeepsClient(c: Client, writes: seq<Write>, x: Write)
    requires ClientOk(c.cache, c.ttl, c.lost, writes, x.at)
    ensures ClientOk(c.cache, c.ttl, c.lost, writes + [x], x.at)
  {
    forall p | p in c.cache ensures EntryOk(c.cache[p], p, c.ttl, p in c.lost, writes + [x], x.at) {
      assert EntryOk(c.cache[p], p, c.ttl, p in c.lost, writes, x.at);
      if p !in c.lost {
        ShownStays(writes, x, p.0, p.1, c.cache[p].value, c.cache[p].expires - c.ttl - L1_TTL_MS,
                   c.cache[p].expires - c.ttl);
      }
    }
  }

  // --------------------------------------------------------------- theorems

  function Run(w: World, events: seq<Event>): World
    decreases |events|
  {
    if events == [] then w else Run(Next(w, events[0]), events[1..])
  }

  lemma {:induction false} RunKeepsGood(w: World, events: seq<Event>)
    requires Good(w)
    ensures Good(Run(w, events))
    decreases |events|
  {
    if events != [] {
      NextKeepsGood(w, events[0]);
      RunKeepsGood(Next(w, events[0]), events[1..]);
    }
  }

  /** Any past of the store and any set of clients, with every cache empty. */
  ghost predicate Start(w: World) {
    && Past(w.writes, w.now) && w.isolates == map[]
    && forall c :: c in w.clients ==> w.clients[c].cache == map[] && w.clients[c].lost == {}
  }

  lemma RunFromStart(w: World, events: seq<Event>)
    requires Start(w)
    ensures Good(Run(w, events))
  {
    RunKeepsGood(w, events);
  }

  /** The record was shown by what the store held at some moment within the two lifetimes together. */
  ghost predicate WithinBound(w: World, c: Client, route: Route, key: string, record: Record) {
    Shown(w.writes, route, key, record, w.now - Bound(c.ttl), w.now)
  }

  /** At some moment the store held nothing that the route shows. */
  ghost predicate HiddenWithin(writes: seq<Write>, route: Route, key: string, from: int, to: int) {
    exists t, v :: from <= t <= to && Held(writes, key, v, t) && !Visible(route, v)
  }

  /**
   After any interleaving of writes, reads, batches, clears, recycled isolates
   and passing time, a record read through any isolate, found or missing, is
   within the bound, unless it is astray; that is a record with the key alone for
   an inherited name, which no store ever shows, and otherwise a miss, within the
   bound exactly when the store held nothing to show at some moment within it.
   */
  lemma ReadsAreBounded(w: World, events: seq<Event>, client: nat, isolate: nat, route: Route, key: string)
    requires Start(w) && client in Run(w, events).clients
    ensures var w' := Run(w, events);
      var c := w'.clients[client];
      var (record, _, _) := Read(c.cache, c.ttl, L1Of(w', isolate), route, key, w'.writes, w'.now);
      && (Astray(c.cache, c.ttl, c.lost, (route, key), w'.now) ==> record == StrayRecord(key))
      && (WithinBound(w', c, route, key, record) <==>
            (Astray(c.cache, c.ttl, c.lost, (route, key), w'.now) ==>
               key !in INHERITED && HiddenWithin(w'.writes, route, key, w'.now - Bound(c.ttl), w'.now)))
  {
    RunFromStart(w, events);
    var w' := Run(w, events);
    var c := w'.clients[client];
    ReadAnswers(c.cache, c.ttl, c.lost, L1Of(w', isolate), route, key, w'.writes, w'.now);
    StrayIsShownExactly(w'.writes, route, key, w'.now - Bound(c.ttl), w'.now);
  }

  lemma StrayIsShownExactly(writes: seq<Write>, route: Route, key: string, from: int, to: int)
    ensures Shown(writes, route, key, StrayRecord(key), from, to)
       <==> key !in INHERITED && HiddenWithin(writes, route, key, from, to)
  {
    if HiddenWithin(writes, route, key, from, to) {
      var t, v :| from <= t <= to && Held(writes, key, v, t) && !Visible(route, v);
      assert View(route, v) == Missing;
    }
  }

  /** The same bound for a batch, which never reads the client's cache: one L1 lifetime. */
  lemma BatchesAreBounded(w: World, events: seq<Event>, isolate: nat, keys: seq<string>, key: string)
    requires Start(w) && key in First(keys)
    ensures var w' := Run(w, events);
      var (configs, _) := BatchL1(L1Of(w', isolate), First(keys), w'.writes, w'.now);
      key in configs && Shown(w'.writes, Configs, key, Answer(configs, key), w'.now - L1_TTL_MS, w'.now)
  {
    RunFromStart(w, events);
    var w' := Run(w, events);
    BatchAnswers(L1Of(w', isolate), First(keys), w'.writes, w'.now);
  }

  /**
   A batch answers a key from the store exactly when the key is among its first
   hundred; any other key is reported missing, or as a record with the key alone
   if its name is inherited, and remembered so, whatever the store has ever held.
   */
  lemma BatchAnswersFirstHundred(
    l1: L1, cache: ClientCache, ttl: int, keys: seq<string>, key: string, writes: seq<Write>, now: int)
    requires L1Ok(l1, writes, now) && Past(writes, now) && key in keys
    ensures var (configs, _) := BatchL1(l1, First(keys), writes, now);
      && (key in configs <==> exists i :: 0 <= i < |keys| && i < 100 && keys[i] == key)
      && (key in configs <==> key in First(keys))
      && (key in First(keys) ==> Shown(writes, Configs, key, Answer(configs, key), now - L1_TTL_MS, now))
      && (key !in First(keys) ==> Answer(configs, key) == StrayRecord(key))
      && (key !in First(keys) && ttl > 0 ==>
            Fresh(RememberAll(cache, ttl, keys, configs, now), ttl, (Configs, key), now)
            && RememberAll(cache, ttl, keys, configs, now)[(Configs, key)].value == StrayRecord(key))
  {
    BatchAnswers(l1, First(keys), writes, now);
    var (configs, _) := BatchL1(l1, First(keys), writes, now);
    if ttl > 0 { Remembered(cache, ttl, keys, configs, key, now); }
  }

  lemma {:induction false} Remembered(
    cache: ClientCache, ttl: int, keys: seq<string>, configs: map<string, Option<Value>>, key: string, now: int)
    requires ttl > 0 && key in keys
    ensures var cache' := RememberAll(cache, ttl, keys, configs, now);
      (Configs, key) in cache' && cache'[(Configs, key)] == Cached(Answer(configs, key), now + ttl)
  {
    if keys[|keys| - 1] != key { Remembered(cache, ttl, keys[..|keys| - 1], configs, key, now); }
  }

  // ------------------------------------------------- in terms of the store

  /** What the store holds is what was last written for the key. */
  lemma {:induction false} CurrentIsLastWrite(writes: seq<Write>, key: string, i: nat)
    requires i < |writes| && writes[i].key == key
    requires forall j :: i < j < |writes| ==> writes[j].key != key
    ensures Current(writes, key) == writes[i].value
  {
    if i < |writes| - 1 { CurrentIsLastWrite(writes[..|writes| - 1], key, i); }
  }

  lemma {:induction false} NeverWrittenIsMissing(writes: seq<Write>, key: string)
    requires forall j :: 0 <= j < |writes| ==> writes[j].key != key
    ensures Current(writes, key) == None
  {
    if writes != [] { NeverWrittenIsMissing(writes[..|writes| - 1], key); }
  }

  /** A read through empty caches gives what was last written, on the flag route if that is a flag. */
  lemma ColdReadExactly(ttl: int, route: Route, key: string, writes: seq<Write>, now: int, v: Value)
    requires key != "" && key != "." && key != ".."
    ensures var (record, _, _) := Read(map[], ttl, map[], route, key, writes, now);
      && (record == Of(v) <==> Current(writes, key) == Some(v) && (route == Configs || v.kind == "flag"))
      && (record == Missing <==>
            match Current(writes, key) case None => true case Some(u) => route == Flags && u.kind != "flag")
  {
  }

  /**
   The bound in these words: a record found was held by the store within it, as a
   flag if read on the flag route; a miss means that within it the store held
   nothing, or on the flag route something that is no flag.
   */
  lemma ReadsWereHeld(w: World, events: seq<Event>, client: nat, isolate: nat, route: Route, key: string)
    requires Start(w) && client in Run(w, events).clients
    requires var w' := Run(w, events);
      var c := w'.clients[client];
      !Astray(c.cache, c.ttl, c.lost, (route, key), w'.now)
    ensures var w' := Run(w, events);
      var c := w'.clients[client];
      var (record, _, _) := Read(c.cache, c.ttl, L1Of(w', isolate), route, key, w'.writes, w'.now);
      var from := w'.now - (if c.ttl > 0 then c.ttl else 0) - 15_000;
      match record
      case KeyOnly => false
      case Of(v) => HeldWithin(w'.writes, key, Some(v), from, w'.now) && (route == Flags ==> v.kind == "flag")
      case Missing =>
        || HeldWithin(w'.writes, key, None, from, w'.now)
        || (route == Flags && exists v: Value :: v.kind != "flag" && HeldWithin(w'.writes, key, Some(v), from, w'.now))
  {
    ReadsAreBounded(w, events, client, isolate, route, key);
    var w' := Run(w, events);
    var c := w'.clients[client];
    var (record, _, _) := Read(c.cache, c.ttl, L1Of(w', isolate), route, key, w'.writes, w'.now);
    ShownWasHeld(w'.writes, route, key, record, w'.now - Bound(c.ttl), w'.now);
  }

  lemma ShownWasHeld(writes: seq<Write>, route: Route, key: string, shown: Record, from: int, to: int)
    requires Shown(writes, route, key, shown, from, to)
    ensures match shown
      case KeyOnly => false
      case Of(v) => HeldWithin(writes, key, Some(v), from, to) && (route == Flags ==> v.kind == "flag")
      case Missing =>
        || HeldWithin(writes, key, None, from, to)
        || (route == Flags && exists v: Value :: v.kind != "flag" && HeldWithin(writes, key, Some(v), from, to))
  {
    var t, v :| from <= t <= to && Held(writes, key, v, t) && View(route, v) == shown;
    assert HeldWithin(writes, key, v, from, to);
  }

  /** An isolate answers from its cache through the fifteen seconds after it asked the store, and no longer. */
  lemma L1LastsFifteenSeconds(key: string, stored: Option<Value>, now: int, later: Option<Value>, after: int)
    ensures var (_, l1) := ResolveL1(map[], key, stored, now);
      ResolveL1(l1, key, later, after).0 == if after <= now + 15_000 then stored else later
  {
  }

  /** A client answers from its cache through its lifetime, and not at all without one. */
  lemma ClientCacheLasts(
    ttl: int, l1: L1, l1': L1, route: Route, key: string, writes: seq<Write>, now: int, writes': seq<Write>, after: int)
    requires key != "" && key != "." && key != ".."
    ensures var (record, cache, _) := Read(map[], ttl, l1, route, key, writes, now);
      Read(cache, ttl, l1', route, key, writes', after).0 ==
        if ttl > 0 && after <= now + ttl then record else Read(map[], ttl, l1', route, key, writes', after).0
  {
  }

  // ---------------------------------------------------------- failing runs

  function NthKey(i: nat): (key: string)
    ensures |key| == i + 1 && forall j :: 0 <= j < |key| ==> key[j] == 'k'
  {
    if i == 0 then "k" else NthKey(i - 1) + "k"
  }

  /** The first `n` of the keys: pairwise distinct, since no two have the same length. */
  function FirstKeys(n: nat): (keys: seq<string>)
    ensures |keys| == n && forall i :: 0 <= i < n ==> keys[i] == NthKey(i)
  {
    if n == 0 then [] else FirstKeys(n - 1) + [NthKey(n - 1)]
  }

  /** A hundred distinct keys and one more. */
  function KeysAnd(last: string): seq<string> { FirstKeys(BATCH_LIMIT) + [last] }

  function LastKey(): string { NthKey(BATCH_LIMIT) }

  /** One client, nothing stored. */
  function NewClient(ttl: int): World { World(0, [], map[], map[0 := Client(ttl, map[], {})]) }

  /** The last key is stored, both lifetimes pass and more, and the client asks for all the keys. */
  function LongBatch(ttl: int, value: Value): seq<Event> {
    [Store(LastKey(), Some(value)), Wait(Bound(ttl) + 1), GetMany(0, 0, KeysAnd(LastKey()))]
  }

  lemma LastIsBeyond(last: string)
    requires last == LastKey() || last == "constructor"
    ensures last in KeysAnd(last) && last !in First(KeysAnd(last))
  {
    assert KeysAnd(last)[BATCH_LIMIT] == last;
    forall i | 0 <= i < BATCH_LIMIT ensures First(KeysAnd(last))[i] != last {
      assert First(KeysAnd(last))[i] == NthKey(i);
      assert NthKey(i)[0] == 'k';
    }
  }

  lemma RunThree(w: World, a: Event, b: Event, c: Event)
    ensures Run(w, [a, b, c]) == Next(Next(Next(w, a), b), c)
  {
    RunTwo(Next(w, a), b, c);
    assert [a, b, c][1..] == [b, c];
  }

  lemma RunTwo(w: World, a: Event, b: Event)
    ensures Run(w, [a, b]) == Next(Next(w, a), b)
  {
    RunOne(Next(w, a), b);
    assert [a, b][1..] == [b];
  }

  lemma RunOne(w: World, a: Event)
    ensures Run(w, [a]) == Next(w, a)
  {
    assert [a][1..] == [];
  }

  /** After such a batch the next read says missing, though the store held the key all the time. */
  lemma LongBatchHidesAStoredKey(ttl: int, value: Value, isolate: nat)
    requires ttl > 0
    ensures Start(NewClient(ttl))
    ensures var w' := Run(NewClient(ttl), LongBatch(ttl, value));
      && 0 in w'.clients
      && var c := w'.clients[0];
         var (record, _, _) := Read(c.cache, c.ttl, L1Of(w', isolate), Configs, LastKey(), w'.writes, w'.now);
         record == Missing && !WithinBound(w', c, Configs, LastKey(), record)
  {
    var events := LongBatch(ttl, value);
    var w1 := Next(NewClient(ttl), events[0]);
    var w2 := Next(w1, events[1]);
    var w3 := Next(w2, events[2]);
    RunThree(NewClient(ttl), events[0], events[1], events[2]);
    LastIsBeyond(LastKey());
    NotInherited(LastKey());
    BatchAnswersFirstHundred(map[], map[], ttl, KeysAnd(LastKey()), LastKey(), w2.writes, w2.now);
    HeldThroughout(LastKey(), value, Configs, w3.now - Bound(ttl), w3.now);
    assert w3.writes == [Write(0, LastKey(), Some(value))];
  }

  lemma NotInherited(key: string)
    requires key != "" && key[0] == 'k'
    ensures StrayRecord(key) == Missing
  {
    forall name | name in INHERITED ensures name != "" && name[0] != 'k' {}
  }

  lemma HeldThroughout(key: string, value: Value, route: Route, from: int, to: int)
    requires from > 0 && Visible(route, Some(value))
    ensures !Shown([Write(0, key, Some(value))], route, key, Missing, from, to)
  {
    var writes := [Write(0, key, Some(value))];
    assert writes[..1] == writes;
  }

  /** After a long batch that ends in `constructor` the next read finds a record, though nothing was ever stored. */
  lemma LongBatchInventsARecord(ttl: int, isolate: nat)
    requires ttl > 0
    ensures Start(NewClient(ttl))
    ensures var w' := Run(NewClient(ttl), [GetMany(0, 0, KeysAnd("constructor"))]);
      && 0 in w'.clients && w'.writes == []
      && var c := w'.clients[0];
         var (record, _, _) := Read(c.cache, c.ttl, L1Of(w', isolate), Configs, "constructor", w'.writes, w'.now);
         record == KeyOnly && !WithinBound(w', c, Configs, "constructor", record)
  {
    var w := NewClient(ttl);
    RunOne(w, GetMany(0, 0, KeysAnd("constructor")));
    LastIsBeyond("constructor");
    BatchAnswersFirstHundred(map[], map[], ttl, KeysAnd("constructor"), "constructor", w.writes, w.now);
  }

  /** A key that is a dot segment is never found, though the store held it all the time, with no batch at all. */
  lemma DotSegmentIsNeverFound(ttl: int, key: string, value: Value, isolate: nat, route: Route)
    requires key == "." || key == ".."
    requires Visible(route, Some(value))
    ensures Start(NewClient(ttl))
    ensures var w' := Run(NewClient(ttl), [Store(key, Some(value)), Wait(Bound(ttl) + 1)]);
      && 0 in w'.clients
      && var c := w'.clients[0];
         var (record, _, _) := Read(c.cache, c.ttl, L1Of(w', isolate), route, key, w'.writes, w'.now);
         record == Missing && !WithinBound(w', c, route, key, record)
  {
    RunTwo(NewClient(ttl), Store(key, Some(value)), Wait(Bound(ttl) + 1));
    HeldThroughout(key, value, route, 1, Bound(ttl) + 1);
  }
}
