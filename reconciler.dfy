/** send_routes_to_redis and cleanup_via_keys: the store is made a mirror of
    the parsed routes of one container. The pipeline is planned against the
    store as it is before the cycle, then executed, then read back. */
module Reconciler {
  import opened Text
  import opened RouteParser
  import opened RedisStore

  /** Seconds of life given to every route key. */
  const RouteTtl: nat := 60

  /** The fields of a stored route hash. */
  const WireKeys: set<string> :=
    {"destination", "type", "protocol", "status", "metric", "next_hop", "interface", "container"}

  /** The prefix `route:<container>:` of the container's keys. */
  function RoutePrefix(container: string): string {
    "route:" + container + ":"
  }

  function RouteKey(container: string, destination: string): (k: string)
    ensures StartsWith(k, RoutePrefix(container))
    ensures k[|RoutePrefix(container)|..] == destination
  {
    RoutePrefix(container) + destination
  }

  /** Unset optional fields go on the wire as the empty string. */
  function OrEmpty(o: Option<string>): string {
    if o.Some? then o.value else ""
  }

  /** The mapping HSET writes for a route; None becomes '' and an integer
      metric its decimal text. */
  function WireFields(r: Route): (m: map<string, string>)
    ensures m.Keys == WireKeys
  {
    map["destination" := r.destination, "type" := r.kind, "protocol" := r.protocol,
        "status" := r.status.Glyph(),
        "metric" := if r.metric.Some? then DecimalString(r.metric.value) else "",
        "next_hop" := OrEmpty(r.nextHop), "interface" := OrEmpty(r.iface),
        "container" := r.container]
  }

  function StatusOfGlyph(g: string): Status {
    if g == "*" then Primary else if g == "!" then Problem else Unmarked
  }

  function OptionOf(s: string): Option<string> {
    if s == "" then None else Some(s)
  }

  /** Reading a stored route hash back: '' is an unset field. */
  function ReadWire(m: map<string, string>): Option<Route> {
    if !(WireKeys <= m.Keys) then None
    else
      var metric := m["metric"];
      if metric != "" && !AllDigits(metric) then None
      else
        Some(Route(m["destination"], m["type"], m["protocol"], StatusOfGlyph(m["status"]),
                   if metric == "" then None else Some(DecimalValue(metric)),
                   OptionOf(m["next_hop"]), OptionOf(m["interface"]), m["container"]))
  }

  /** The stored hash determines the route, as long as no optional field is
      set to the empty string (parsed routes never are, see
      RouteParser.OptionalFieldsNonEmpty). */
  lemma WireRoundTrip(r: Route)
    requires r.nextHop != Some("") && r.iface != Some("")
    ensures ReadWire(WireFields(r)) == Some(r)
  {
    var m := WireFields(r);
    if r.metric.Some? {
      DecimalRoundTrip(r.metric.value);
    }
    assert StatusOfGlyph(r.status.Glyph()) == r.status;
  }

  /** And the empty marker is where the two would otherwise be confused. */
  lemma WireConflatesEmpty(r: Route)
    requires r.nextHop == None
    ensures WireFields(r) == WireFields(r.(nextHop := Some("")))
  {
  }

  // ---------------------------------------------------------------------------
  // The pipeline

  /** The container's keys present before the cycle. */
  function StaleKeys(db: Db, container: string): set<string> {
    KeysWithPrefix(db, RoutePrefix(container))
  }

  /** The commands queued for one route: DEL of a non-hash found at its key
      before the cycle, then HSET of its fields and EXPIRE. */
  function OpsFor(db: Db, container: string, r: Route): seq<Op> {
    var key := RouteKey(container, r.destination);
    (if TypeOf(db, key) == StringType then [Del({key})] else [])
      + [HSet(key, WireFields(r)), Expire(key, RouteTtl)]
  }

  function RouteOps(db: Db, container: string, rs: seq<Route>): seq<Op>
    decreases |rs|
  {
    if rs == [] then []
    else RouteOps(db, container, rs[..|rs| - 1]) + OpsFor(db, container, rs[|rs| - 1])
  }

  lemma RouteOpsSnoc(db: Db, container: string, rs: seq<Route>, i: nat)
    requires i < |rs|
    ensures RouteOps(db, container, rs[..i + 1]) == RouteOps(db, container, rs[..i]) + OpsFor(db, container, rs[i])
  {
    assert rs[..i + 1][..i] == rs[..i];
  }

  lemma AppendAssoc(a: seq<Op>, b: seq<Op>, c: seq<Op>)
    ensures (a + b) + c == a + (b + c)
  {
  }

  /** The whole pipeline: one DEL of every old key of the container, when
      there is one, then the commands of each route in order. */
  function SyncOps(db: Db, container: string, rs: seq<Route>): seq<Op> {
    var stale := StaleKeys(db, container);
    (if stale == {} then [] else [Del(stale)]) + RouteOps(db, container, rs)
  }

  // ---------------------------------------------------------------------------
  // What the store should be afterwards

  /** The entries of m outside the prefix p. */
  function Outside<V>(m: map<string, V>, p: string): (r: map<string, V>)
    ensures forall k :: k in r <==> k in m && !StartsWith(k, p)
    ensures forall k | k in r :: r[k] == m[k]
  {
    map k | k in m && !StartsWith(k, p) :: m[k]
  }

  /** The route hashes of the container, the later route winning for a
      destination given twice. */
  function Published(container: string, rs: seq<Route>): map<string, Value>
    decreases |rs|
  {
    if rs == [] then map[]
    else
      var last := rs[|rs| - 1];
      Published(container, rs[..|rs| - 1])[RouteKey(container, last.destination) := Hash(WireFields(last))]
  }

  function TtlOf(keys: set<string>): map<string, nat> {
    map k | k in keys :: RouteTtl
  }

  /** Keys of other containers and of anything else untouched; the
      container's keys exactly those of the routes, each a fresh hash with
      the full time-to-live. */
  function Mirror(db: Db, container: string, rs: seq<Route>): Db {
    var p := RoutePrefix(container);
    var pub := Published(container, rs);
    Db(Outside(db.data, p) + pub, Outside(db.ttl, p) + TtlOf(pub.Keys))
  }

  /** The keys of the routes. */
  function RouteKeys(container: string, rs: seq<Route>): set<string> {
    set j | 0 <= j < |rs| :: RouteKey(container, rs[j].destination)
  }

  /** Index j holds the last route for its destination. */
  predicate LastFor(rs: seq<Route>, j: nat) {
    j < |rs| && forall j' | j < j' < |rs| :: rs[j'].destination != rs[j].destination
  }

  lemma {:induction false} PublishedShape(container: string, rs: seq<Route>)
    ensures Published(container, rs).Keys == RouteKeys(container, rs)
    ensures forall k | k in Published(container, rs) ::
      Published(container, rs)[k].Hash? && Published(container, rs)[k].fields.Keys == WireKeys
    decreases |rs|
  {
    if rs != [] {
      var n := |rs| - 1;
      PublishedShape(container, rs[..n]);
      RouteKeysSnoc(container, rs);
    }
  }

  lemma RouteKeysSnoc(container: string, rs: seq<Route>)
    requires rs != []
    ensures var n := |rs| - 1;
      RouteKeys(container, rs) == RouteKeys(container, rs[..n]) + {RouteKey(container, rs[n].destination)}
  {
    var n := |rs| - 1;
    forall k | k in RouteKeys(container, rs)
      ensures k in RouteKeys(container, rs[..n]) + {RouteKey(container, rs[n].destination)}
    {
      var j :| 0 <= j < |rs| && k == RouteKey(container, rs[j].destination);
      if j < n {
        assert rs[..n][j] == rs[j];
      }
    }
    forall k | k in RouteKeys(container, rs[..n]) ensures k in RouteKeys(container, rs) {
      var j :| 0 <= j < n && k == RouteKey(container, rs[..n][j].destination);
      assert rs[..n][j] == rs[j];
    }
  }

  lemma UpdateOther<V>(m: map<string, V>, k: string, k': string, v: V)
    requires k != k' && k in m
    ensures k in m[k' := v] && m[k' := v][k] == m[k]
  {
  }

  /** Distinct destinations have distinct keys. */
  lemma RouteKeyInjective(container: string, d: string, d': string)
    ensures RouteKey(container, d) == RouteKey(container, d') ==> d == d'
  {
    var p := RoutePrefix(container);
    if RouteKey(container, d) == RouteKey(container, d') {
      assert RouteKey(container, d)[|p|..] == RouteKey(container, d')[|p|..];
    }
  }

  /** The hash at a destination's key holds the last route for it. */
  lemma {:induction false} PublishedLastWins(container: string, rs: seq<Route>, j: nat)
    requires LastFor(rs, j)
    ensures RouteKey(container, rs[j].destination) in Published(container, rs)
    ensures Published(container, rs)[RouteKey(container, rs[j].destination)] == Hash(WireFields(rs[j]))
    decreases |rs|
  {
    var n := |rs| - 1;
    var k' := RouteKey(container, rs[n].destination);
    var before := Published(container, rs[..n]);
    assert Published(container, rs) == before[k' := Hash(WireFields(rs[n]))];
    if j < n {
      assert LastFor(rs[..n], j) by {
        assert forall j' | j < j' < n :: rs[..n][j'] == rs[j'];
      }
      PublishedLastWins(container, rs[..n], j);
      assert rs[..n][j] == rs[j];
      assert rs[n].destination != rs[j].destination;
      RouteKeyInjective(container, rs[j].destination, rs[n].destination);
      UpdateOther(before, RouteKey(container, rs[j].destination), k', Hash(WireFields(rs[n])));
    }
  }

  // ---------------------------------------------------------------------------
  // Running the pipeline yields the mirror

  lemma RunOne(db: Db, op: Op)
    ensures RunOps(db, [op]) == Step(db, op)
  {
    assert [op][..0] == [];
  }

  /** HSET then EXPIRE of a full mapping at a key that is absent or holds a
      hash with no other fields. */
  lemma WriteRun(s: Db, k: string, w: map<string, string>)
    requires k in s.data ==> s.data[k].Hash? && s.data[k].fields.Keys <= w.Keys
    ensures RunOps(s, [HSet(k, w), Expire(k, RouteTtl)])
         == Outcome(Db(s.data[k := Hash(w)], s.ttl[k := RouteTtl]), true)
  {
    RunOpsAppend(s, [HSet(k, w)], [Expire(k, RouteTtl)]);
    RunOne(s, HSet(k, w));
    if k in s.data {
      assert s.data[k].fields + w == w;
    }
    var s1 := Step(s, HSet(k, w)).db;
    assert s1 == Db(s.data[k := Hash(w)], s.ttl);
    RunOne(s1, Expire(k, RouteTtl));
  }

  /** The same after a DEL of the key. */
  lemma DelWriteRun(s: Db, k: string, w: map<string, string>)
    ensures RunOps(s, [Del({k})] + [HSet(k, w), Expire(k, RouteTtl)])
         == Outcome(Db(s.data[k := Hash(w)], s.ttl[k := RouteTtl]), true)
  {
    var tail := [HSet(k, w), Expire(k, RouteTtl)];
    RunOpsAppend(s, [Del({k})], tail);
    RunOne(s, Del({k}));
    var s0 := Step(s, Del({k})).db;
    assert s0 == Db(s.data - {k}, s.ttl - {k});
    WriteRun(s0, k, w);
    RemoveThenSet(s.data, k, Hash(w));
    RemoveThenSet(s.ttl, k, RouteTtl);
  }

  lemma RemoveThenSet<V>(m: map<string, V>, k: string, v: V)
    ensures (m - {k})[k := v] == m[k := v]
  {
  }

  /** A fresh or refreshed route hash at a key outside the base. */
  lemma OpsForRun(db: Db, container: string, r: Route, s: Db)
    requires var k := RouteKey(container, r.destination);
      k in s.data ==> s.data[k].Hash? && s.data[k].fields.Keys == WireKeys
    ensures var k := RouteKey(container, r.destination);
      RunOps(s, OpsFor(db, container, r))
        == Outcome(Db(s.data[k := Hash(WireFields(r))], s.ttl[k := RouteTtl]), true)
  {
    var k := RouteKey(container, r.destination);
    if TypeOf(db, k) == StringType {
      DelWriteRun(s, k, WireFields(r));
    } else {
      WriteRun(s, k, WireFields(r));
      assert OpsFor(db, container, r) == [HSet(k, WireFields(r)), Expire(k, RouteTtl)];
    }
  }

  /** The per-route commands write Published over a base that holds no key
      of the container. */
  lemma {:induction false} RouteOpsRun(db: Db, container: string, rs: seq<Route>, base: Db)
    requires forall k | k in base.data :: !StartsWith(k, RoutePrefix(container))
    ensures var pub := Published(container, rs);
      RunOps(base, RouteOps(db, container, rs)) == Outcome(Db(base.data + pub, base.ttl + TtlOf(pub.Keys)), true)
    decreases |rs|
  {
    var pub := Published(container, rs);
    if rs == [] {
      assert base.data + pub == base.data;
      assert base.ttl + TtlOf(pub.Keys) == base.ttl;
    } else {
      var n := |rs| - 1;
      var before := Published(container, rs[..n]);
      var k := RouteKey(container, rs[n].destination);
      var w := Hash(WireFields(rs[n]));
      assert pub == before[k := w];
      var ops := RouteOps(db, container, rs[..n]);
      var more := OpsFor(db, container, rs[n]);
      assert RouteOps(db, container, rs) == ops + more;
      RouteOpsRun(db, container, rs[..n], base);
      var s := Db(base.data + before, base.ttl + TtlOf(before.Keys));
      assert RunOps(base, ops) == Outcome(s, true);
      PublishedShape(container, rs[..n]);
      assert k !in base.data;
      OpsForRun(db, container, rs[n], s);
      RunOpsAppend(base, ops, more);
      OverlayUpdate(base.data, before, k, w);
      OverlayUpdate(base.ttl, TtlOf(before.Keys), k, RouteTtl);
      TtlOfAdd(before.Keys, k);
      assert pub.Keys == before.Keys + {k};
    }
  }

  lemma OverlayUpdate<V>(base: map<string, V>, top: map<string, V>, k: string, v: V)
    ensures (base + top)[k := v] == base + top[k := v]
  {
  }

  lemma TtlOfAdd(keys: set<string>, k: string)
    ensures TtlOf(keys)[k := RouteTtl] == TtlOf(keys + {k})
  {
  }

  /** The pipeline never answers with an error, and leaves the store the
      mirror of the routes. */
  lemma SyncMirrors(db: Db, container: string, rs: seq<Route>)
    requires db.Valid()
    ensures RunOps(db, SyncOps(db, container, rs)) == Outcome(Mirror(db, container, rs), true)
  {
    var p := RoutePrefix(container);
    var stale := StaleKeys(db, container);
    var head: seq<Op> := if stale == {} then [] else [Del(stale)];
    var base := Db(Outside(db.data, p), Outside(db.ttl, p));
    assert RunOps(db, head) == Outcome(base, true) by {
      if stale == {} {
        assert forall k | k in db.data :: !StartsWith(k, p) by {
          forall k | k in db.data ensures !StartsWith(k, p) {
            assert k !in KeysWithPrefix(db, p);
          }
        }
        assert db.data == Outside(db.data, p);
        assert db.ttl == Outside(db.ttl, p);
      } else {
        RunOne(db, Del(stale));
        assert db.data - stale == Outside(db.data, p);
        assert db.ttl - stale == Outside(db.ttl, p);
      }
    }
    RunOpsAppend(db, head, RouteOps(db, container, rs));
    RouteOpsRun(db, container, rs, base);
  }

  // ---------------------------------------------------------------------------
  // Properties of the mirror

  /** The container's keys are exactly the destinations' keys; nothing else
      changes, value or time-to-live. */
  lemma MirrorKeys(db: Db, container: string, rs: seq<Route>)
    ensures var m := Mirror(db, container, rs);
      forall k | StartsWith(k, RoutePrefix(container)) :: k in m.data <==> k in RouteKeys(container, rs)
    ensures var m := Mirror(db, container, rs);
      forall k | !StartsWith(k, RoutePrefix(container)) ::
        && (k in m.data <==> k in db.data) && (k in m.data ==> m.data[k] == db.data[k])
        && (k in m.ttl <==> k in db.ttl) && (k in m.ttl ==> m.ttl[k] == db.ttl[k])
  {
    PublishedShape(container, rs);
  }

  /** Each destination's key holds the fields of its last route, with a
      time-to-live of 60 seconds. */
  lemma MirrorLastWins(db: Db, container: string, rs: seq<Route>, j: nat)
    requires LastFor(rs, j)
    ensures var m := Mirror(db, container, rs);
      var k := RouteKey(container, rs[j].destination);
      k in m.data && m.data[k] == Hash(WireFields(rs[j])) && k in m.ttl && m.ttl[k] == RouteTtl
  {
    PublishedLastWins(container, rs, j);
  }

  lemma MirrorValid(db: Db, container: string, rs: seq<Route>)
    requires db.Valid()
    ensures Mirror(db, container, rs).Valid()
  {
  }

  /** A second cycle with the same routes leaves the same store. */
  lemma MirrorIdempotent(db: Db, container: string, rs: seq<Route>)
    ensures Mirror(Mirror(db, container, rs), container, rs) == Mirror(db, container, rs)
  {
    var p := RoutePrefix(container);
    var pub := Published(container, rs);
    PublishedPrefixed(container, rs);
    OutsideOverlay(db.data, pub, p);
    OutsideOverlay(db.ttl, TtlOf(pub.Keys), p);
  }

  /** Every published key is one of the container's. */
  lemma PublishedPrefixed(container: string, rs: seq<Route>)
    ensures forall k | k in Published(container, rs) :: StartsWith(k, RoutePrefix(container))
  {
    PublishedShape(container, rs);
  }

  /** Overlaying keys under a prefix does not change what lies outside it. */
  lemma OutsideOverlay<V>(m: map<string, V>, top: map<string, V>, p: string)
    requires forall k | k in top :: StartsWith(k, p)
    ensures Outside(Outside(m, p) + top, p) == Outside(m, p)
  {
  }

  /** Two pipelines planned and run one after the other with the same routes
      give what one gives. */
  lemma SyncTwice(db: Db, container: string, rs: seq<Route>)
    requires db.Valid()
    ensures var once := RunOps(db, SyncOps(db, container, rs)).db;
      RunOps(once, SyncOps(once, container, rs)).db == once
  {
    SyncMirrors(db, container, rs);
    var once := Mirror(db, container, rs);
    MirrorValid(db, container, rs);
    SyncMirrors(once, container, rs);
    MirrorIdempotent(db, container, rs);
  }

  // ---------------------------------------------------------------------------
  // Reading back, and the `via` key

  /** The route keys, in route order, at which the store holds no hash. */
  function NonHashKeys(db: Db, container: string, rs: seq<Route>): seq<string>
    decreases |rs|
  {
    if rs == [] then []
    else
      var key := RouteKey(container, rs[|rs| - 1].destination);
      NonHashKeys(db, container, rs[..|rs| - 1]) + (if TypeOf(db, key) == HashType then [] else [key])
  }

  lemma {:induction false} NonHashKeysIff(db: Db, container: string, rs: seq<Route>)
    ensures NonHashKeys(db, container, rs) == [] <==>
      forall j | 0 <= j < |rs| :: TypeOf(db, RouteKey(container, rs[j].destination)) == HashType
    decreases |rs|
  {
    if rs != [] {
      var n := |rs| - 1;
      NonHashKeysIff(db, container, rs[..n]);
      assert forall j | 0 <= j < n :: rs[..n][j] == rs[j];
    }
  }

  /** After the pipeline the read-back finds a hash at every route key. */
  lemma MirrorAllHashes(db: Db, container: string, rs: seq<Route>)
    ensures NonHashKeys(Mirror(db, container, rs), container, rs) == []
  {
    PublishedShape(container, rs);
    forall j | 0 <= j < |rs| ensures TypeOf(Mirror(db, container, rs), RouteKey(container, rs[j].destination)) == HashType {
      assert RouteKey(container, rs[j].destination) in RouteKeys(container, rs);
    }
    NonHashKeysIff(Mirror(db, container, rs), container, rs);
  }

  function ViaKey(container: string): string {
    RouteKey(container, "via")
  }

  /** A route list without a "via" destination leaves no `via` key. */
  lemma MirrorHasNoVia(db: Db, container: string, rs: seq<Route>)
    requires forall r | r in rs :: r.destination != "via"
    ensures ViaKey(container) !in Mirror(db, container, rs).data
  {
    PublishedShape(container, rs);
    forall j | 0 <= j < |rs| ensures RouteKey(container, rs[j].destination) != ViaKey(container) {
      assert rs[j] in rs;
      assert ViaKey(container)[|RoutePrefix(container)|..] == "via";
    }
  }

  // ---------------------------------------------------------------------------
  // The methods

  /** The commands for one route, asking the store whether its key holds a
      non-hash. */
  method PlanRoute(store: Store, container: string, r: Route) returns (ops: seq<Op>)
    ensures ops == OpsFor(store.Snapshot(), container, r)
  {
    var key := RouteKey(container, r.destination);
    ops := [];
    var present := store.Exists(key);
    if present {
      var kind := store.Type(key);
      if kind != HashType {
        ops := [Del({key})];
      }
    }
    ops := ops + [HSet(key, WireFields(r)), Expire(key, RouteTtl)];
  }

  /** Queue the pipeline, looking at the store as it is now. */
  method PlanPipeline(store: Store, container: string, routes: seq<Route>) returns (ops: seq<Op>)
    ensures ops == SyncOps(store.Snapshot(), container, routes)
  {
    var existing := store.Keys(RoutePrefix(container));
    ops := if existing == {} then [] else [Del(existing)];
    ghost var head := ops;
    ghost var db := store.Snapshot();
    var i := 0;
    while i < |routes|
      invariant i <= |routes|
      invariant ops == head + RouteOps(db, container, routes[..i])
    {
      var more := PlanRoute(store, container, routes[i]);
      RouteOpsSnoc(db, container, routes, i);
      AppendAssoc(head, RouteOps(db, container, routes[..i]), more);
      ops := ops + more;
      i := i + 1;
    }
    assert routes[..i] == routes;
  }

  /** The read-back pass: the keys whose TYPE is not hash, in route order. */
  method VerifyWrites(store: Store, container: string, routes: seq<Route>) returns (anomalies: seq<string>)
    ensures anomalies == NonHashKeys(store.Snapshot(), container, routes)
  {
    anomalies := [];
    var i := 0;
    while i < |routes|
      invariant i <= |routes|
      invariant anomalies == NonHashKeys(store.Snapshot(), container, routes[..i])
    {
      assert routes[..i + 1][..i] == routes[..i];
      var key := RouteKey(container, routes[i].destination);
      var kind := store.Type(key);
      if kind == HashType {
        var _ := store.GetAll(key);
      } else {
        anomalies := anomalies + [key];
      }
      i := i + 1;
    }
    assert routes[..i] == routes;
  }

  /** send_routes_to_redis: plan, execute, read back. The pipeline's
      execute() would raise on an error answer; it never gets one. */
  method SendRoutesToRedis(store: Store, container: string, routes: seq<Route>) returns (anomalies: seq<string>)
    requires store.Snapshot().Valid()
    modifies store
    ensures store.Snapshot() == Mirror(old(store.Snapshot()), container, routes)
    ensures anomalies == []
  {
    ghost var db := store.Snapshot();
    var ops := PlanPipeline(store, container, routes);
    var ok := store.Execute(ops);
    SyncMirrors(db, container, routes);
    assert ok;
    anomalies := VerifyWrites(store, container, routes);
    MirrorAllHashes(db, container, routes);
  }

  /** cleanup_via_keys: delete `route:<container>:via` when KEYS finds it,
      answering how many keys went. */
  method CleanupViaKeys(store: Store, container: string) returns (removed: nat)
    modifies store
    ensures removed == (if ViaKey(container) in old(store.Snapshot()).data then 1 else 0)
    ensures store.Snapshot()
         == if removed == 1 then Step(old(store.Snapshot()), Del({ViaKey(container)})).db
            else old(store.Snapshot())
  {
    var present := store.Exists(ViaKey(container));
    removed := 0;
    if present {
      removed := store.Delete({ViaKey(container)});
      assert {ViaKey(container)} * old(store.Snapshot()).data.Keys == {ViaKey(container)};
    }
  }

  /** How one pass of the polling loop ended. */
  datatype Cycle = NoOutput | ParseFailed(line: nat) | Synced(count: nat)

  /** One pass of run(): no output (birdc failed, or printed nothing) skips
      the pass; a dump with a short record raises before the store is
      touched; otherwise the routes are mirrored and the `via` key cleaned. */
  method PollCycle(store: Store, container: string, output: Option<string>) returns (cycle: Cycle)
    requires store.Snapshot().Valid()
    modifies store
    ensures output.None? || output == Some("") ==> cycle == NoOutput && store.Snapshot() == old(store.Snapshot())
    ensures output.Some? && output.value != "" && ParseRoutes(output.value, container).Malformed? ==>
      cycle == ParseFailed(ParseRoutes(output.value, container).line) && store.Snapshot() == old(store.Snapshot())
    ensures output.Some? && output.value != "" && ParseRoutes(output.value, container).Parsed? ==>
      var rs := ParseRoutes(output.value, container).routes;
      cycle == Synced(|rs|) && store.Snapshot() == Mirror(old(store.Snapshot()), container, rs)
  {
    if output.None? || output.value == "" {
      return NoOutput;
    }
    var parsed := ParseBirdRoutes(output.value, container);
    if parsed.Malformed? {
      return ParseFailed(parsed.line);
    }
    ghost var db := store.Snapshot();
    var _ := SendRoutesToRedis(store, container, parsed.routes);
    DestinationsStartWithDigit(SplitOn(output.value, '\n'), container);
    MirrorHasNoVia(db, container, parsed.routes);
    var _ := CleanupViaKeys(store, container);
    assert store.Snapshot().data == Mirror(db, container, parsed.routes).data;
    cycle := Synced(|parsed.routes|);
  }
}
