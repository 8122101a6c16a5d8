# skipper etcd data client, modelled in Dafny

This project models the etcd data client of the skipper HTTP router
(`etcd/etcd.go`). The client keeps the router's route table in step with an
etcd store. The route definitions are stored as eskip expressions, one per
key, directly under a routes root (`<storage root>/routes`). The client does
four things:

- it flattens a node tree read from the store into a map from route id to
  route text (`"<id>: <stored value>"`), threading a watermark of the
  highest modification index seen (`iterateDefs`);
- `LoadAll` reads the whole routes tree, parses it and sets the watermark;
- `LoadUpdate` watches for the next change after the watermark, reports
  deleted ids or parsed upserted routes, and advances the watermark;
- `Upsert` and `Delete` write or remove a single route key. They refuse an
  empty route id.

Files:

- `outcomes.dfy` (module `Outcomes`): the error values, and `Option`/`Result`
  standing for Go's `error` returns.
- `paths.dfy` (module `Paths`): Go's `path.Dir` and `path.Base` on store keys.
- `store.dfy` (module `EtcdStore`): the etcd client library the code calls.
  It has the `Node` and response records and a `Store` class. The class logs
  every call (`Get`, `Watch`, `Set`, `RawDelete`) with its arguments. Its
  answers come from two oracle functions, which may depend on the calls
  made before. This is how the contracts can say which call was made, with
  what arguments, or that no call was made at all.
- `route_tree.dfy` (module `RouteTree`): the walk as pure functions
  (`Flatten`, `FlattenChildren`). It also has an independent, unthreaded
  definition of the highest index visited (`Seen`), and the lemmas about the
  walk.
- `etcd.dfy` (module `Etcd`): the `Client` class with its fields
  `routesRoot`, `store` and `etcdIndex`. Its methods follow the Go code
  statement by statement. `IterateDefs` is a recursive method with a loop and
  is proved equal to `Flatten`. The Go map loops of `parseRoutes`,
  `getRouteIds` and the inner merge of `iterateDefs` are `while` loops that
  pick the next key with `:|`. This models Go's unspecified map iteration
  order. The order a loop chose is returned as a ghost value, and the
  contracts hold for every order (`Enumerates`).

External parts become parameters. `eskip.Parse` is a `Parser` function
(`string -> Result<seq<Route>>`) that either succeeds or fails as a whole.
`Route.String()` is a `Serialiser` function. The connection created from the
cluster URLs is the `Store` object handed to `Client.New`.

Behaviour of the code worth knowing:

- Only `LoadUpdate` keeps the watermark from falling (proved as
  `etcdIndex >= old(etcdIndex)`). `LoadAll` sets it to
  `max(index of a walk from 0, the store's index)` whatever it was before,
  so across a `LoadAll` the watermark never falls only while the store's
  index is not below it.
- A delete whose node is not a route key (for example a grandchild of the
  root) yields an empty id list: `LoadUpdate` returns `Deleted([])`.
- Only the exact action `"delete"` counts as a removal. Every other action,
  including etcd's `"expire"` and `"compareAndDelete"`, goes through the
  parser.
- `Upsert` and `Delete` check only that the id is not empty. An id holding
  a slash, such as `"a/b"`, gives a key two levels below the routes root,
  which the walk never reads back as a route (`NestedIdIsNotARoute`).

## Model

| member | source | states |
|---|---|---|
| `Paths.DirIsPrefix` | etcd/etcd.go:89 | `path.Dir` of a key is never empty; it is `.`, `/`, or a proper prefix of the key that does not end in a slash |
| `Paths.Base` | etcd/etcd.go:93 | `path.Base` of a key is never empty |
| `Paths.LastSlashIsLast` | etcd/etcd.go:89 | the split point used by `Dir` and `Base` is a slash, and no slash follows it |
| `Paths.TrimmedIsPrefix` | etcd/etcd.go:93 | trimming trailing slashes leaves a prefix that does not end in a slash, and removes only slashes |
| `Paths.BaseHasNoSlash` | etcd/etcd.go:93 | a base name other than `/` holds no slash, so it is a single path element |
| `Paths.DirBaseOfJoin` | etcd/etcd.go:89-95 | `Dir(d + "/" + x) == d` and `Base(d + "/" + x) == x` for a directory not ending in `/` and a non-empty, slash-free name |
| `Paths.DirIsNotSelf` | etcd/etcd.go:78-89 | a key with a slash, other than "/", is never its own directory |
| `RouteTree.Max` | etcd/etcd.go:73-75 | raising the watermark yields a value no smaller than either operand, and equal to one of them |
| `RouteTree.FlattenWatermark` | etcd/etcd.go:72-96 | the walk's watermark is the max of the one passed in and the highest index among the visited nodes (the node, plus everything under the root's children when it is the root) |
| `RouteTree.FlattenChildrenWatermark` | etcd/etcd.go:79-86 | threading the watermark through the root's children gives the max of the start value and the highest index the children visited |
| `RouteTree.SeenChildrenBound` | etcd/etcd.go:79-86 | the highest index under the root's children is at least each child's own index |
| `RouteTree.WatermarkBounds` | etcd/etcd.go:73-86 | the watermark never drops below the value passed in, the node's own index, or (for the root) any child's index |
| `RouteTree.UnrelatedNode` | etcd/etcd.go:77-90 | a node that is neither the root nor a child of the root yields no routes, and only its own index is added to the watermark |
| `RouteTree.DirectChild` | etcd/etcd.go:89-95 | a child of the root yields exactly `{Base(key): Base(key) + ": " + value}`; nothing below it is visited |
| `RouteTree.ChildIsLeaf` | etcd/etcd.go:89-95 | any node other than the root yields its single route when its parent is the root, and nothing otherwise |
| `RouteTree.TextsNameTheirId` | etcd/etcd.go:93-94 | every route text the walk produces starts with its own id followed by `": "` |
| `RouteTree.ChildRouteIds` | etcd/etcd.go:78-87 | after the first i children, the ids are exactly the base names of those children that are routes |
| `RouteTree.MapUnionIds` | etcd/etcd.go:81-83 | merging one child's routes adds exactly that child's id to the ids found so far |
| `RouteTree.ChildRouteTexts` | etcd/etcd.go:78-87 | after the first i children, each id holds the text of the last of them that carries that id (later overwrites earlier) |
| `RouteTree.EarlierTextKept` | etcd/etcd.go:81-83 | merging one more child keeps the text of an earlier route child whose id no later child carries |
| `RouteTree.RootRoutes` | etcd/etcd.go:78-87 | for the routes root, the keys are exactly the base names of its children that are routes, and each value comes from the last child with that name |
| `RouteTree.PrunedChildren` | etcd/etcd.go:79-86 | the walk over the root's children does not depend on the grandchildren |
| `RouteTree.IgnoresGrandchildren` | etcd/etcd.go:78-95 | the walk never recurses below the root's children: with the grandchildren removed, the result is the same |
| `Etcd.TextsAreValues` | etcd/etcd.go:100-105 | collected in any order that names every id once, the route texts are the map's values, each occurring as often as there are ids holding it, so the document is the same up to order |
| `Etcd.MergeRoutes` | etcd/etcd.go:81-83 | the merged map has the keys of both maps; ids from the child's map take its text, and the other ids keep their old text |
| `Etcd.ParseRoutes` | etcd/etcd.go:99-107 | the parser is called once, on the `;`-join of every route text in some order that lists each id exactly once, and its result is returned unchanged |
| `Etcd.GetRouteIds` | etcd/etcd.go:111-118 | the result lists every id of the map exactly once and nothing else, so it is as long as the map |
| `Etcd.EnumerationSize` | etcd/etcd.go:111-118 | a list that names every key of a set exactly once is as long as the set |
| `Etcd.EnumeratesOne` | etcd/etcd.go:159-160 | the only id list for a single deleted route is that one id |
| `Etcd.RoutesRootIsNotItsOwnParent` | etcd/etcd.go:64-66 | `Dir(storageRoot + "/routes")` is not the routes root itself, so the walk never takes the root for one of its own children |
| `Etcd.RouteKeyRoundTrip` | etcd/etcd.go:183-193 | for a clean storage root (no doubled or trailing slash, no `.` or `..` element), the key `routesRoot + "/" + id` (id non-empty, without a slash) has the routes root as its parent and `id` as its base; the walk maps it to exactly `{id: id + ": " + value}`, with the watermark raised to its index |
| `Etcd.NestedIdIsNotARoute` | etcd/etcd.go:183-193 | the key built for an id with a slash (`"a/b"`) has `routesRoot + "/a"` as its parent, so the walk yields no route for it |
| `Etcd.WatchAdvancesWatermark` | etcd/etcd.go:148-173 | if the watched node is at or after the requested `etcdIndex+1`, the new watermark is strictly above the old |
| `Etcd.SnapshotOfTwoRoutes` | etcd/etcd.go:121-139 | a root `/routes` with routes a (index 5) and b (index 7) flattens from 0 to routes a and b with their texts, and watermark 7 |
| `Etcd.DeletionOfOneRoute` | etcd/etcd.go:153-173 | a deletion of `/routes/a` at index 9, seen from watermark 7, reports the ids `["a"]` alone; the watermark becomes the max of 9 and the store's index |
| `Etcd.Client.New` | etcd/etcd.go:64-66 | the routes root is `storageRoot + "/routes"` and the watermark starts at 0 |
| `Etcd.Client.IterateDefs` | etcd/etcd.go:72-96 | the recursive walk with its loop over the children returns exactly `Flatten(routesRoot, n, highestIndex)` |
| `Etcd.Client.LoadAll` | etcd/etcd.go:121-140 | one `Get(routesRoot, sort = false, recursive = true)`; a store error is returned with the watermark unchanged; otherwise the result is the parse of the tree flattened from 0; on a parse error the watermark is unchanged; on success it becomes max(walk watermark, response `EtcdIndex`) |
| `Etcd.Client.LoadUpdate` | etcd/etcd.go:147-175 | one `Watch(routesRoot, etcdIndex + 1, recursive = true)`; a watch error leaves the watermark unchanged; on `"delete"` it returns every flattened id exactly once with no parse; otherwise it returns the parse of the flattened routes, and a parse error leaves the watermark unchanged; on success the watermark becomes max(walk watermark from the old one, response `EtcdIndex`), so it never decreases |
| `Etcd.Client.Upsert` | etcd/etcd.go:178-185 | an empty id gives `missingRouteId` with no store call; otherwise exactly one `Set(routesRoot + "/" + id, String(route), ttl 0)` is made and its error returned; the watermark is untouched |
| `Etcd.Client.Delete` | etcd/etcd.go:188-199 | an empty id gives `missingRouteId` with no store call; otherwise exactly one `RawDelete(routesRoot + "/" + id, recursive = false, dir = false)` is made; a 404 status gives nil, and anything else returns the store's error unchanged; the watermark is untouched |

## Left out

- The etcd transport: connecting to the cluster URLs, retries, and the
  blocking long poll of `Watch`. Each call returns at once, with the answer
  of the store oracle.
- The eskip grammar and serialiser. `eskip.Parse` and `Route.String()` are
  function parameters. Nothing is assumed about what they compute.
- The debug output `println(doc)` of `parseRoutes`.
- The order of the joined document and of the id list. Go map iteration
  order is unspecified. It is modelled as an arbitrary choice, and the
  contracts hold for every order.
- `Etcd.Client.Delete`: when `RawDelete` fails without a response, the code
  dereferences a nil response and panics. The model always has a
  `RawResponse` with a status code, so this panic is not modelled.
- `etcdIndex` is a Go `uint64`. The model uses unbounded naturals, so the
  overflow of `etcdIndex+1` at the maximum index is not modelled.
- Concurrency. The client has no locking, and the model assumes callers
  serialise their calls.
- `Paths.Dir`: Go's `path.Clean` is not modelled beyond removing trailing
  slashes. Keys with `.` or `..` elements or with inner doubled slashes are
  outside the model. Keys the store returns have none of these, but the
  routes root is built from the caller's storage root, so
  `Etcd.RouteKeyRoundTrip` is stated only for a clean storage root
  (`Paths.IsCleanPrefix`).
- The response returned by `Set` is discarded by the code and is not
  looked at in the model.
