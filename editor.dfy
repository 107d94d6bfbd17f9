/** add_route and delete_route: a static route written by hand to both the
    store and bird.conf, or taken out of both. */
module StaticRoutes {
  import opened Text
  import opened RedisStore
  import opened BirdConf
  import opened Reconciler

  /** The fields add_route writes, in the order it writes them. */
  function StaticFields(container: string, destination: string, nextHop: string): seq<(string, string)> {
    [("destination", destination), ("next_hop", nextHop), ("container", container), ("protocol", "static")]
  }

  /** The mapping left by HSET of each pair in turn. */
  function PairsMap(pairs: seq<(string, string)>): map<string, string>
    decreases |pairs|
  {
    if pairs == [] then map[]
    else PairsMap(pairs[..|pairs| - 1])[pairs[|pairs| - 1].0 := pairs[|pairs| - 1].1]
  }

  /** The fields already at a key, none unless it holds a hash. */
  function ExistingFields(db: Db, key: string): map<string, string> {
    if key in db.data && db.data[key].Hash? then db.data[key].fields else map[]
  }

  /** The store after add_route's writes to a key that is absent or a hash:
      the fields merged into what is there, and a time-to-live of 60. */
  function AddedStore(db: Db, key: string, fields: map<string, string>): Db {
    Db(db.data[key := Hash(ExistingFields(db, key) + fields)], db.ttl[key := RouteTtl])
  }

  /** The four fields land with their values; any other field of an
      existing hash is kept. */
  lemma StaticFieldsMerge(db: Db, container: string, destination: string, nextHop: string)
    ensures var key := RouteKey(container, destination);
      var h := AddedStore(db, key, PairsMap(StaticFields(container, destination, nextHop))).data[key].fields;
      && h.Keys == ExistingFields(db, key).Keys + {"destination", "next_hop", "container", "protocol"}
      && h["destination"] == destination && h["next_hop"] == nextHop
      && h["container"] == container && h["protocol"] == "static"
      && forall f | f in ExistingFields(db, key) && f !in {"destination", "next_hop", "container", "protocol"} ::
           h[f] == ExistingFields(db, key)[f]
  {
    var pairs := StaticFields(container, destination, nextHop);
    assert pairs[..1][..0] == [];
    assert PairsMap(pairs[..1]) == map["destination" := destination];
    assert pairs[..2][..1] == pairs[..1];
    assert PairsMap(pairs[..2]) == map["destination" := destination, "next_hop" := nextHop];
    assert pairs[..3][..2] == pairs[..2];
    assert PairsMap(pairs[..3]) == map["destination" := destination, "next_hop" := nextHop, "container" := container];
    assert pairs[..3] == pairs[..|pairs| - 1];
  }

  /** Adding then deleting a route that was not in the store gives the store
      back. */
  lemma AddThenDeleteStore(db: Db, key: string, fields: map<string, string>)
    requires db.Valid() && key !in db.data
    ensures Step(AddedStore(db, key, fields), Del({key})).db == db
  {
    var after := Step(AddedStore(db, key, fields), Del({key})).db;
    assert after.data == db.data;
    assert after.ttl == db.ttl;
  }

  /** The next poll does not depend on a route added by hand: its key exists
      afterwards exactly when BIRD reports that destination, and then holds
      BIRD's record, since the poll drops every key of the container it does
      not write. */
  lemma PollDecidesStaticRoute(db: Db, container: string, destination: string,
                               fields: map<string, string>, rs: seq<RouteParser.Route>)
    ensures var key := RouteKey(container, destination);
      Mirror(AddedStore(db, key, fields), container, rs) == Mirror(db, container, rs)
    ensures RouteKey(container, destination) in Mirror(db, container, rs).data
        <==> exists j | 0 <= j < |rs| :: rs[j].destination == destination
  {
    var key := RouteKey(container, destination);
    var p := RoutePrefix(container);
    var added := AddedStore(db, key, fields);
    assert Outside(added.data, p) == Outside(db.data, p);
    assert Outside(added.ttl, p) == Outside(db.ttl, p);
    MirrorKeys(db, container, rs);
    if key in RouteKeys(container, rs) {
      var j :| 0 <= j < |rs| && key == RouteKey(container, rs[j].destination);
      assert key[|p|..] == destination;
    }
    forall j | 0 <= j < |rs| && rs[j].destination == destination ensures key in RouteKeys(container, rs) {
    }
  }

  lemma MergeOne(existing: map<string, string>, written: map<string, string>, field: string, value: string)
    ensures (existing + written) + map[field := value] == existing + written[field := value]
    ensures written == map[] ==> existing + map[field := value] == existing + written[field := value]
    ensures written == map[] ==> map[] + map[field := value] == map[field := value]
  {
  }

  /** What add_route came to. */
  datatype AddOutcome =
    | AddWrongType         // HSET answered WRONGTYPE: the call raises
    | Added(edit: ConfEdit)

  /** add_route: HSET each field in turn, EXPIRE, then update bird.conf. */
  method AddRoute(store: Store, conf: ConfigFile, container: string, destination: string, nextHop: string,
                  reloadOk: bool) returns (outcome: AddOutcome)
    modifies store, conf
    ensures var key := RouteKey(container, destination);
      TypeOf(old(store.Snapshot()), key) == StringType ==>
        && outcome == AddWrongType && store.Snapshot() == old(store.Snapshot())
        && conf.lines == old(conf.lines) && conf.reloads == old(conf.reloads)
    ensures var key := RouteKey(container, destination);
      TypeOf(old(store.Snapshot()), key) != StringType ==>
        && store.Snapshot()
           == AddedStore(old(store.Snapshot()), key, PairsMap(StaticFields(container, destination, nextHop)))
        && outcome.Added?
        && (outcome.edit == NoSection <==> NoStaticSection(old(conf.lines)))
        && (outcome.edit == NoSection ==> conf.lines == old(conf.lines) && conf.reloads == old(conf.reloads))
        && (outcome.edit != NoSection ==>
              && outcome.edit == Reloaded(reloadOk) && conf.reloads == old(conf.reloads) + 1
              && exists s: nat, e: nat :: IsStaticSection(old(conf.lines), s, e)
                   && conf.lines == InsertAt(old(conf.lines), e, RouteLine(destination, nextHop)))
  {
    var key := RouteKey(container, destination);
    var info := StaticFields(container, destination, nextHop);
    ghost var db := store.Snapshot();
    var i := 0;
    while i < |info|
      invariant 0 <= i <= |info|
      invariant i == 0 ==> store.Snapshot() == db
      invariant i > 0 ==>
                  && TypeOf(db, key) != StringType
                  && store.Snapshot() == Db(db.data[key := Hash(ExistingFields(db, key) + PairsMap(info[..i]))], db.ttl)
      invariant conf.lines == old(conf.lines) && conf.reloads == old(conf.reloads)
    {
      var ok := store.HashSet(key, map[info[i].0 := info[i].1]);
      if !ok {
        return AddWrongType;
      }
      assert info[..i + 1][..i] == info[..i];
      MergeOne(ExistingFields(db, key), PairsMap(info[..i]), info[i].0, info[i].1);
      i := i + 1;
    }
    assert info[..i] == info;
    var _ := store.SetExpiry(key, RouteTtl);
    var edit := conf.UpdateBirdConf(destination, nextHop, reloadOk);
    outcome := Added(edit);
  }

  /** What delete_route came to. */
  datatype DeleteOutcome =
    | NotInStore                                // the source's `return False`
    | DeleteWrongType                           // HGETALL answered WRONGTYPE: the call raises
    | Deleted(stillInStore: bool, edit: ConfEdit)

  /** delete_route: only a key that exists is deleted, and only then is
      bird.conf edited, whatever the check after DEL said. `how` is the test
      remove_route_from_bird applies to a line: `Substring` is the program as
      written, `Declaration` the corrected test. */
  method DeleteRoute(store: Store, conf: ConfigFile, container: string, destination: string,
                     how: LineMatch, reloadOk: bool) returns (outcome: DeleteOutcome)
    modifies store, conf
    ensures var key := RouteKey(container, destination);
      TypeOf(old(store.Snapshot()), key) == NoKey ==>
        && outcome == NotInStore && store.Snapshot() == old(store.Snapshot())
        && conf.lines == old(conf.lines) && conf.reloads == old(conf.reloads)
    ensures var key := RouteKey(container, destination);
      TypeOf(old(store.Snapshot()), key) == StringType ==>
        && outcome == DeleteWrongType && store.Snapshot() == old(store.Snapshot())
        && conf.lines == old(conf.lines) && conf.reloads == old(conf.reloads)
    ensures var key := RouteKey(container, destination);
      TypeOf(old(store.Snapshot()), key) == HashType ==>
        && store.Snapshot() == Step(old(store.Snapshot()), Del({key})).db
        && outcome.Deleted? && !outcome.stillInStore
        && (outcome.edit == NoSection <==> NoStaticSection(old(conf.lines)))
        && (!outcome.edit.Reloaded? ==> conf.lines == old(conf.lines) && conf.reloads == old(conf.reloads))
        && forall s: nat, e: nat | IsStaticSection(old(conf.lines), s, e) ::
             match FirstNaming(old(conf.lines), s, e, how, destination)
             case None => outcome.edit == RouteNotFound
             case Some(m) => outcome.edit == Reloaded(reloadOk) && conf.lines == RemoveAt(old(conf.lines), m)
                             && conf.reloads == old(conf.reloads) + 1
  {
    var key := RouteKey(container, destination);
    var present := store.Exists(key);
    if !present {
      return NotInStore;
    }
    var route := store.GetAll(key);
    if route.WrongType? {
      return DeleteWrongType;
    }
    var _ := store.Delete({key});
    var still := store.Exists(key);
    var edit := conf.RemoveRouteFromBird(destination, how, reloadOk);
    outcome := Deleted(still, edit);
  }
}
