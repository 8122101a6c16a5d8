/** The etcd data client of the router: loads the route definitions stored
    under a routes root, follows their changes with a watermark, and writes
    and deletes single routes. */
module Etcd {
  import opened Outcomes
  import opened Paths
  import opened EtcdStore
  import opened RouteTree

  /** The suffix that turns the storage root into the routes root. */
  const RoutesPath := "/routes"

  /** The action a watch reports when a key or directory was deleted. */
  const DeleteAction := "delete"

  /** HTTP 404 Not Found (section 15.5.5 of RFC 9110). */
  const StatusNotFound := 404

  /** A parsed route. Only its id matters here; the rest of the route
      expression (predicates, filters, backend) is carried as it is. */
  datatype Route = Route(id: string, expression: string)

  /** The route parser: turns a document of route expressions separated by
      ";" into routes, or fails as a whole. */
  type Parser = string -> Result<seq<Route>>

  /** The route serialiser, Route.String(). */
  type Serialiser = Route -> string

  /** What one change notification yields: parsed routes after an upsert,
      or the ids of the removed routes after a delete. */
  datatype Update = Upserted(routes: seq<Route>) | Deleted(ids: seq<string>)

  /** The key under which the route with the given id is stored. */
  function RouteKey(routesRoot: string, id: string): string
  {
    routesRoot + "/" + id
  }

  /** s lists every element of keys exactly once, in some order. */
  ghost predicate Enumerates(s: seq<string>, keys: set<string>)
  {
    && (forall i :: 0 <= i < |s| ==> s[i] in keys)
    && (forall x :: x in keys ==> x in s)
    && (forall i, j :: 0 <= i < j < |s| ==> s[i] != s[j])
  }

  /** The texts of data, in the order given by ids. */
  function Texts(data: Routes, ids: seq<string>): (texts: seq<string>)
    requires forall i :: 0 <= i < |ids| ==> ids[i] in data
    ensures |texts| == |ids|
    ensures forall i :: 0 <= i < |ids| ==> texts[i] == data[ids[i]]
  {
    seq(|ids|, i requires 0 <= i < |ids| => data[ids[i]])
  }

  /** The ids among keys whose text in data is v. */
  ghost function Holding(data: Routes, keys: set<string>, v: string): set<string>
    requires keys <= data.Keys
  {
    set id | id in keys && data[id] == v
  }

  /** Collected in any order that names every id once, the texts are the
      values of data: each text occurs as often as there are ids holding it,
      so the collected document is the same up to order. */
  lemma TextsAreValues(data: Routes, ids: seq<string>)
    requires Enumerates(ids, data.Keys)
    ensures |Texts(data, ids)| == |data|
    ensures forall v :: multiset(Texts(data, ids))[v] == |Holding(data, data.Keys, v)|
  {
    TextsCount(data, ids, data.Keys);
    EnumerationSize(ids, data.Keys);
  }

  lemma {:induction false} TextsCount(data: Routes, ids: seq<string>, keys: set<string>)
    requires keys <= data.Keys && Enumerates(ids, keys)
    ensures forall v :: multiset(Texts(data, ids))[v] == |Holding(data, keys, v)|
    decreases |ids|
  {
    if ids == [] {
      assert forall y :: y in keys ==> y in ids;
      assert keys == {};
      forall v ensures multiset(Texts(data, ids))[v] == |Holding(data, keys, v)| {
        assert Holding(data, keys, v) == {};
      }
    } else {
      var x := ids[|ids| - 1];
      var rest := ids[..|ids| - 1];
      assert Enumerates(rest, keys - {x}) by {
        forall y | y in keys - {x} ensures y in rest {
          var i :| 0 <= i < |ids| && ids[i] == y;
          assert i != |ids| - 1;
          assert rest[i] == y;
        }
      }
      TextsCount(data, rest, keys - {x});
      assert Texts(data, ids) == Texts(data, rest) + [data[x]];
      forall v ensures multiset(Texts(data, ids))[v] == |Holding(data, keys, v)| {
        var before := Holding(data, keys - {x}, v);
        assert x !in before;
        if data[x] == v {
          assert Holding(data, keys, v) == before + {x};
        } else {
          assert Holding(data, keys, v) == before;
        }
      }
    }
  }

  /** strings.Join: the parts with sep between each two neighbours. */
  function Join(parts: seq<string>, sep: string): string
  {
    if parts == [] then ""
    else if |parts| == 1 then parts[0]
    else parts[0] + sep + Join(parts[1..], sep)
  }

  /** p is what the parser makes of the texts of data joined with ";", in
      one of the orders a Go map may be iterated in. */
  ghost predicate ParsedFrom(p: Result<seq<Route>>, data: Routes, parse: Parser)
  {
    exists order :: Enumerates(order, data.Keys) && p == parse(Join(Texts(data, order), ";"))
  }

  /** The inner loop of iterateDefs: copies every route of from into routes,
      overwriting routes with the same id. */
  method MergeRoutes(routes: Routes, from: Routes) returns (merged: Routes)
    ensures merged == routes + from
  {
    merged := routes;
    var remaining := from.Keys;
    while remaining != {}
      invariant remaining <= from.Keys
      invariant merged.Keys == routes.Keys + (from.Keys - remaining)
      invariant forall id :: id in from && id !in remaining ==> merged[id] == from[id]
      invariant forall id :: id in routes && (id !in from || id in remaining) ==> merged[id] == routes[id]
      decreases remaining
    {
      var id :| id in remaining;
      merged := merged[id := from[id]];
      remaining := remaining - {id};
    }
    assert merged.Keys == (routes + from).Keys;
  }

  /** parseRoutes: collects the route texts in map order, joins them with
      ";" and parses the document. The order is returned as a ghost. */
  method ParseRoutes(data: Routes, parse: Parser) returns (r: Result<seq<Route>>, ghost order: seq<string>)
    ensures Enumerates(order, data.Keys)
    ensures r == parse(Join(Texts(data, order), ";"))
  {
    var routeDefs: seq<string> := [];
    var remaining := data.Keys;
    order := [];
    while remaining != {}
      invariant remaining <= data.Keys
      invariant forall i :: 0 <= i < |order| ==> order[i] in data && order[i] !in remaining
      invariant forall id :: id in data ==> id in remaining || id in order
      invariant forall i, j :: 0 <= i < j < |order| ==> order[i] != order[j]
      invariant |routeDefs| == |order|
      invariant forall i :: 0 <= i < |order| ==> routeDefs[i] == data[order[i]]
      decreases remaining
    {
      var id :| id in remaining;
      routeDefs := routeDefs + [data[id]];
      order := order + [id];
      remaining := remaining - {id};
    }
    assert routeDefs == Texts(data, order);
    var doc := Join(routeDefs, ";");
    r := parse(doc);
  }

  /** getRouteIds: every id of data exactly once, in map order. */
  method GetRouteIds(data: Routes) returns (ids: seq<string>)
    ensures Enumerates(ids, data.Keys)
    ensures |ids| == |data|
  {
    ids := [];
    var remaining := data.Keys;
    while remaining != {}
      invariant remaining <= data.Keys
      invariant forall i :: 0 <= i < |ids| ==> ids[i] in data && ids[i] !in remaining
      invariant forall id :: id in data ==> id in remaining || id in ids
      invariant forall i, j :: 0 <= i < j < |ids| ==> ids[i] != ids[j]
      decreases remaining
    {
      var id :| id in remaining;
      ids := ids + [id];
      remaining := remaining - {id};
    }
    EnumerationSize(ids, data.Keys);
  }

  /** An enumeration is as long as the set it enumerates. */
  lemma {:induction false} EnumerationSize(s: seq<string>, keys: set<string>)
    requires Enumerates(s, keys)
    ensures |s| == |keys|
    decreases |s|
  {
    if s != [] {
      var x := s[|s| - 1];
      var rest := s[..|s| - 1];
      assert Enumerates(rest, keys - {x}) by {
        forall y | y in keys - {x} ensures y in rest {
          var i :| 0 <= i < |s| && s[i] == y;
          assert i != |s| - 1;
          assert rest[i] == y;
        }
      }
      EnumerationSize(rest, keys - {x});
    } else {
      assert forall y :: y in keys ==> y in s;
      assert keys == {};
    }
  }

  /** The only enumeration of a single id is that id alone. */
  lemma EnumeratesOne(s: seq<string>, id: string)
    requires Enumerates(s, {id})
    ensures s == [id]
  {
    EnumerationSize(s, {id});
  }

  /** The routes root is never its own parent, so the walk can tell the
      root from its children. */
  lemma RoutesRootIsNotItsOwnParent(storageRoot: string)
    ensures Dir(storageRoot + RoutesPath) != storageRoot + RoutesPath
  {
    var root := storageRoot + RoutesPath;
    LastSlashIsLast(root);
    assert root[|storageRoot|] == '/';
    DirIsNotSelf(root);
  }

  /** The key Upsert and Delete use for an id is found again by the walk: a
      node stored under it is a route with exactly that id, whatever lies
      below it. */
  lemma RouteKeyRoundTrip(storageRoot: string, id: string, value: string, nodes: seq<Node>, modifiedIndex: nat, highest: nat)
    requires IsCleanPrefix(storageRoot)
    requires id != [] && forall k :: 0 <= k < |id| ==> id[k] != '/'
    ensures var root := storageRoot + RoutesPath;
      && Dir(RouteKey(root, id)) == root
      && Base(RouteKey(root, id)) == id
      && Flatten(root, Node(RouteKey(root, id), value, nodes, modifiedIndex), highest)
         == Flat(map[id := RouteText(id, value)], Max(highest, modifiedIndex))
  {
    var root := storageRoot + RoutesPath;
    assert root[|root| - 1] == 's';
    DirBaseOfJoin(root, id);
    assert RouteKey(root, id) != root by {
      assert |RouteKey(root, id)| > |root|;
    }
  }

  /** Upsert and Delete accept an id holding a slash. The key built for
      "a/b" lies two levels below the routes root, so the walk does not read
      it back as a route: written with Upsert, such a route is never
      loaded under its id. */
  lemma NestedIdIsNotARoute(storageRoot: string, value: string, nodes: seq<Node>, modifiedIndex: nat, highest: nat)
    ensures var root := storageRoot + RoutesPath;
      && Dir(RouteKey(root, "a/b")) == root + "/a" != root
      && Flatten(root, Node(RouteKey(root, "a/b"), value, nodes, modifiedIndex), highest).routes == map[]
  {
    var root := storageRoot + RoutesPath;
    var parent := root + "/a";
    assert RouteKey(root, "a/b") == parent + "/" + "b";
    DirBaseOfJoin(parent, "b");
    assert |parent| > |root|;
    assert |RouteKey(root, "a/b")| > |root|;
    UnrelatedNode(root, Node(RouteKey(root, "a/b"), value, nodes, modifiedIndex), highest);
  }

  /** A store that honours the wait index reports a node at least as new as
      the watermark plus one; the watermark then strictly advances. */
  lemma WatchAdvancesWatermark(root: string, n: Node, watermark: nat, etcdIndex: nat)
    requires n.modifiedIndex >= watermark + 1
    ensures Max(Flatten(root, n, watermark).highest, etcdIndex) > watermark
  {
    WatermarkBounds(root, n, watermark);
  }

  /** A snapshot of two routes a (index 5) and b (index 7) under "/routes"
      flattens to both routes and watermark 7. */
  lemma SnapshotOfTwoRoutes(valueA: string, valueB: string)
    ensures var root := "" + RoutesPath;
      var a := Node(RouteKey(root, "a"), valueA, [], 5);
      var b := Node(RouteKey(root, "b"), valueB, [], 7);
      Flatten(root, Node(root, "", [a, b], 3), 0)
        == Flat(map["a" := RouteText("a", valueA), "b" := RouteText("b", valueB)], 7)
  {
    var root := "" + RoutesPath;
    var a := Node(RouteKey(root, "a"), valueA, [], 5);
    var b := Node(RouteKey(root, "b"), valueB, [], 7);
    var n := Node(root, "", [a, b], 3);
    RoutesRootIsNotItsOwnParent("");
    RouteKeyRoundTrip("", "a", valueA, [], 5, 3);
    RouteKeyRoundTrip("", "b", valueB, [], 7, 5);
    assert FlattenChildren(root, n, 1, 3) == Flat(map["a" := RouteText("a", valueA)], 5);
    assert FlattenChildren(root, n, 2, 3) == Flat(map["a" := RouteText("a", valueA), "b" := RouteText("b", valueB)], 7);
  }

  /** A watch that reports the deletion of "/routes/a" at index 9, seen
      from watermark 7, names route a alone and moves the watermark to 9
      unless the store reports a higher index. */
  lemma DeletionOfOneRoute(ids: seq<string>, etcdIndex: nat)
    requires var root := "" + RoutesPath;
      Enumerates(ids, Flatten(root, Node(RouteKey(root, "a"), "", [], 9), 7).routes.Keys)
    ensures ids == ["a"]
    ensures var root := "" + RoutesPath;
      Max(Flatten(root, Node(RouteKey(root, "a"), "", [], 9), 7).highest, etcdIndex) == Max(9, etcdIndex)
  {
    RouteKeyRoundTrip("", "a", "", [], 9, 7);
    EnumeratesOne(ids, "a");
  }

  /** A client of the route definitions under one routes root. */
  class Client {
    const routesRoot: string
    const store: Store
    /** The watermark: the highest store index seen by the reads so far. */
    var etcdIndex: nat

    /** New: the routes live under storageRoot + "/routes"; nothing has
        been seen yet. The store stands for the connection opened to the
        cluster's addresses. */
    constructor New(store: Store, storageRoot: string)
      ensures routesRoot == storageRoot + RoutesPath
      ensures this.store == store
      ensures etcdIndex == 0
    {
      routesRoot := storageRoot + RoutesPath;
      this.store := store;
      etcdIndex := 0;
    }

    /** iterateDefs: the flattening walk. */
    method IterateDefs(n: Node, highestIndex: nat) returns (routes: Routes, highest: nat)
      ensures Flat(routes, highest) == Flatten(routesRoot, n, highestIndex)
      decreases n
    {
      highest := highestIndex;
      if n.modifiedIndex > highest {
        highest := n.modifiedIndex;
      }
      ghost var start := highest;
      assert start == Max(highestIndex, n.modifiedIndex);
      routes := map[];
      if n.key == routesRoot {
        var i := 0;
        while i < |n.nodes|
          invariant 0 <= i <= |n.nodes|
          invariant Flat(routes, highest) == FlattenChildren(routesRoot, n, i, start)
        {
          var routesi, hi := IterateDefs(n.nodes[i], highest);
          routes := MergeRoutes(routes, routesi);
          highest := hi;
          i := i + 1;
        }
      }
      assert Flat(routes, highest)
        == if n.key == routesRoot then FlattenChildren(routesRoot, n, |n.nodes|, start) else Flat(map[], start);
      if Dir(n.key) != routesRoot {
        return;
      }
      var id := Base(n.key);
      routes := map[id := id + ": " + n.value];
    }

    /** LoadAll: reads the whole routes tree, flattens it from watermark 0
        and parses it. Only after both succeed does the watermark become
        the larger of the walk's watermark and the store's index. */
    method LoadAll(parse: Parser) returns (r: Result<seq<Route>>)
      modifies this, store
      ensures store.calls == old(store.calls) + [GetRequest(routesRoot, false, true)]
      ensures match store.respond(old(store.calls), GetRequest(routesRoot, false, true))
        case Failure(e) => r == Failure(e) && etcdIndex == old(etcdIndex)
        case Success(response) =>
          var f := Flatten(routesRoot, response.node, 0);
          && ParsedFrom(r, f.routes, parse)
          && etcdIndex == if r.Success? then Max(f.highest, response.etcdIndex) else old(etcdIndex)
    {
      var response := store.Get(routesRoot, false, true);
      if response.Failure? {
        return Failure(response.error);
      }
      var data, index := IterateDefs(response.value.node, 0);
      ghost var order;
      r, order := ParseRoutes(data, parse);
      if r.Failure? {
        return;
      }
      if response.value.etcdIndex > index {
        index := response.value.etcdIndex;
      }
      etcdIndex := index;
    }

    /** LoadUpdate: waits for the next change after the watermark and
        flattens the changed node from the watermark. A delete yields the
        ids of the flattened routes, unparsed; any other action yields the
        parsed routes. Only after that succeeds does the watermark advance,
        to the larger of the walk's watermark and the store's index. */
    method LoadUpdate(parse: Parser) returns (r: Result<Update>)
      modifies this, store
      ensures store.calls == old(store.calls) + [WatchRequest(routesRoot, old(etcdIndex) + 1, true)]
      ensures match store.respond(old(store.calls), WatchRequest(routesRoot, old(etcdIndex) + 1, true))
        case Failure(e) => r == Failure(e) && etcdIndex == old(etcdIndex)
        case Success(response) =>
          var f := Flatten(routesRoot, response.node, old(etcdIndex));
          if response.action == DeleteAction then
            && r.Success? && r.value.Deleted?
            && Enumerates(r.value.ids, f.routes.Keys)
            && etcdIndex == Max(f.highest, response.etcdIndex)
          else
            match r
            case Failure(e) => ParsedFrom(Failure(e), f.routes, parse) && etcdIndex == old(etcdIndex)
            case Success(u) =>
              && u.Upserted?
              && ParsedFrom(Success(u.routes), f.routes, parse)
              && etcdIndex == Max(f.highest, response.etcdIndex)
      ensures etcdIndex >= old(etcdIndex)
    {
      var response := store.Watch(routesRoot, etcdIndex + 1, true);
      if response.Failure? {
        return Failure(response.error);
      }
      var data, index := IterateDefs(response.value.node, etcdIndex);
      WatermarkBounds(routesRoot, response.value.node, etcdIndex);
      var update;
      if response.value.action == DeleteAction {
        var deletedIds := GetRouteIds(data);
        update := Deleted(deletedIds);
      } else {
        var routes;
        ghost var order;
        routes, order := ParseRoutes(data, parse);
        if routes.Failure? {
          return Failure(routes.error);
        }
        update := Upserted(routes.value);
      }
      if response.value.etcdIndex > index {
        index := response.value.etcdIndex;
      }
      etcdIndex := index;
      r := Success(update);
    }

    /** Upsert: refuses a route without an id before calling the store;
        otherwise writes the serialised route at its key, without a TTL. */
    method Upsert(route: Route, serialise: Serialiser) returns (err: Option<Error>)
      modifies store
      ensures route.id == "" ==> err == Some(MissingRouteId) && store.calls == old(store.calls)
      ensures route.id != "" ==>
        var call := SetRequest(RouteKey(routesRoot, route.id), serialise(route), 0);
        && store.calls == old(store.calls) + [call]
        && err == ErrorOf(store.respond(old(store.calls), call))
      ensures etcdIndex == old(etcdIndex)
    {
      if route.id == "" {
        return Some(MissingRouteId);
      }
      var response := store.Set(routesRoot + "/" + route.id, serialise(route), 0);
      err := ErrorOf(response);
    }

    /** Delete: refuses an empty id before calling the store; otherwise
        deletes the single key of the route. Not Found counts as success,
        any other outcome is passed on as the store reported it. */
    method Delete(id: string) returns (err: Option<Error>)
      modifies store
      ensures id == "" ==> err == Some(MissingRouteId) && store.calls == old(store.calls)
      ensures id != "" ==>
        var call := DeleteRequest(RouteKey(routesRoot, id), false, false);
        var response := store.respondRaw(old(store.calls), call);
        && store.calls == old(store.calls) + [call]
        && err == if response.statusCode == StatusNotFound then None else response.err
      ensures etcdIndex == old(etcdIndex)
    {
      if id == "" {
        return Some(MissingRouteId);
      }
      var response := store.RawDelete(routesRoot + "/" + id, false, false);
      if response.statusCode == StatusNotFound {
        return None;
      }
      err := response.err;
    }
  }
}
