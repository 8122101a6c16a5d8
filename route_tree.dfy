/** What the flattening walk of the data client computes, as functions, and
    what it promises, as lemmas. Client.IterateDefs is proved equal to
    Flatten. */
module RouteTree {
  import opened Paths
  import opened EtcdStore

  /** Route ids mapped to route texts. */
  type Routes = map<string, string>

  /** The result of a walk: the routes found and the highest index seen. */
  datatype Flat = Flat(routes: Routes, highest: nat)

  function Max(a: nat, b: nat): (m: nat)
    ensures m >= a && m >= b && (m == a || m == b)
  {
    if b > a then b else a
  }

  /** The stored value prefixed by its id, which makes it a complete route. */
  function RouteText(id: string, value: string): string
  {
    id + ": " + value
  }

  /** The walk from node n with watermark highest, below the routes root
      root. Raises the watermark to n's index; walks the children when n is
      the root itself; keeps n as a route when its parent is the root. */
  function Flatten(root: string, n: Node, highest: nat): Flat
    decreases n, 1
  {
    var h := Max(highest, n.modifiedIndex);
    var below := if n.key == root then FlattenChildren(root, n, |n.nodes|, h) else Flat(map[], h);
    if Dir(n.key) != root then below
    else
      var id := Base(n.key);
      Flat(map[id := RouteText(id, n.value)], below.highest)
  }

  /** The walk over the first i children of n, each started from the
      watermark the previous one returned; later routes overwrite earlier
      ones with the same id. */
  function FlattenChildren(root: string, n: Node, i: nat, highest: nat): Flat
    requires i <= |n.nodes|
    decreases n, 0, i
  {
    if i == 0 then Flat(map[], highest)
    else
      var before := FlattenChildren(root, n, i - 1, highest);
      var child := Flatten(root, n.nodes[i - 1], before.highest);
      Flat(before.routes + child.routes, child.highest)
  }

  /** The highest index among the nodes the walk visits, defined without
      threading a watermark: n itself and, if n is the root, everything
      visited below its children. */
  function Seen(root: string, n: Node): nat
    decreases n, 1
  {
    if n.key == root then Max(n.modifiedIndex, SeenChildren(root, n, |n.nodes|))
    else n.modifiedIndex
  }

  function SeenChildren(root: string, n: Node, i: nat): nat
    requires i <= |n.nodes|
    decreases n, 0, i
  {
    if i == 0 then 0 else Max(SeenChildren(root, n, i - 1), Seen(root, n.nodes[i - 1]))
  }

  /** The watermark a walk returns is the larger of the one it was given and
      the highest index among the nodes it visits. */
  lemma {:induction false} FlattenWatermark(root: string, n: Node, highest: nat)
    ensures Flatten(root, n, highest).highest == Max(highest, Seen(root, n))
    decreases n, 1
  {
    var h := Max(highest, n.modifiedIndex);
    if n.key == root {
      FlattenChildrenWatermark(root, n, |n.nodes|, h);
    }
  }

  lemma {:induction false} FlattenChildrenWatermark(root: string, n: Node, i: nat, highest: nat)
    requires i <= |n.nodes|
    ensures FlattenChildren(root, n, i, highest).highest == Max(highest, SeenChildren(root, n, i))
    decreases n, 0, i
  {
    if i > 0 {
      var before := FlattenChildren(root, n, i - 1, highest);
      FlattenChildrenWatermark(root, n, i - 1, highest);
      FlattenWatermark(root, n.nodes[i - 1], before.highest);
    }
  }

  lemma {:induction false} SeenChildrenBound(root: string, n: Node, i: nat, j: nat)
    requires j < i <= |n.nodes|
    ensures SeenChildren(root, n, i) >= n.nodes[j].modifiedIndex
    decreases i
  {
    if j < i - 1 {
      SeenChildrenBound(root, n, i - 1, j);
    } else {
      assert Seen(root, n.nodes[j]) >= n.nodes[j].modifiedIndex;
    }
  }

  /** The watermark never drops below the one passed in, nor below the index
      of the node itself or, for the root, of any of its children. */
  lemma WatermarkBounds(root: string, n: Node, highest: nat)
    ensures var f := Flatten(root, n, highest);
      && f.highest >= highest
      && f.highest >= n.modifiedIndex
      && (n.key == root ==> forall j :: 0 <= j < |n.nodes| ==> f.highest >= n.nodes[j].modifiedIndex)
  {
    FlattenWatermark(root, n, highest);
    if n.key == root {
      forall j | 0 <= j < |n.nodes|
        ensures SeenChildren(root, n, |n.nodes|) >= n.nodes[j].modifiedIndex
      {
        SeenChildrenBound(root, n, |n.nodes|, j);
      }
    }
  }

  /** A node that is neither the root nor a child of it gives no routes and
      contributes only its own index. */
  lemma UnrelatedNode(root: string, n: Node, highest: nat)
    requires n.key != root && Dir(n.key) != root
    ensures Flatten(root, n, highest) == Flat(map[], Max(highest, n.modifiedIndex))
  {
  }

  /** A child of the root gives exactly the one route named after its base
      name; what lies below it is not visited. */
  lemma DirectChild(root: string, n: Node, highest: nat)
    requires Dir(n.key) == root && n.key != root
    ensures var id := Base(n.key);
      Flatten(root, n, highest) == Flat(map[id := RouteText(id, n.value)], Max(highest, n.modifiedIndex))
  {
  }

  /** Every text of m starts with its own id followed by ": ". */
  ghost predicate SelfNamed(m: Routes)
  {
    forall id {:trigger m[id]} :: id in m ==> |m[id]| >= |id| + 2 && m[id][..|id| + 2] == id + ": "
  }

  lemma SelfNamedUnion(a: Routes, b: Routes)
    requires SelfNamed(a) && SelfNamed(b)
    ensures SelfNamed(a + b)
  {
  }

  lemma SelfNamedText(id: string, value: string)
    ensures SelfNamed(map[id := RouteText(id, value)])
  {
    assert (id + ": " + value)[..|id| + 2] == id + ": ";
  }

  /** Every route text starts with its own id followed by ": ". */
  lemma {:induction false} TextsNameTheirId(root: string, n: Node, highest: nat)
    ensures SelfNamed(Flatten(root, n, highest).routes)
    decreases n, 1
  {
    var h := Max(highest, n.modifiedIndex);
    if Dir(n.key) == root {
      SelfNamedText(Base(n.key), n.value);
    } else if n.key == root {
      TextsNameTheirIdChildren(root, n, |n.nodes|, h);
    }
  }

  lemma {:induction false} TextsNameTheirIdChildren(root: string, n: Node, i: nat, highest: nat)
    requires i <= |n.nodes|
    ensures SelfNamed(FlattenChildren(root, n, i, highest).routes)
    decreases n, 0, i
  {
    if i > 0 {
      var before := FlattenChildren(root, n, i - 1, highest);
      var child := Flatten(root, n.nodes[i - 1], before.highest);
      TextsNameTheirIdChildren(root, n, i - 1, highest);
      TextsNameTheirId(root, n.nodes[i - 1], before.highest);
      SelfNamedUnion(before.routes, child.routes);
      assert FlattenChildren(root, n, i, highest).routes == before.routes + child.routes;
    }
  }

  /** Child j is the last child among the first i that is a route with its id. */
  ghost predicate LastWithId(root: string, nodes: seq<Node>, j: nat, i: nat)
    requires j < i <= |nodes|
  {
    forall k :: j < k < i && Dir(nodes[k].key) == root ==> Base(nodes[k].key) != Base(nodes[j].key)
  }

  /** Child c of the root, as a route or not at all. */
  function ChildRoute(root: string, c: Node): Routes
  {
    if Dir(c.key) == root then map[Base(c.key) := RouteText(Base(c.key), c.value)] else map[]
  }

  /** Child j of nodes is a route named id. */
  ghost predicate NamesRoute(root: string, nodes: seq<Node>, j: nat, id: string)
    requires j < |nodes|
  {
    Dir(nodes[j].key) == root && Base(nodes[j].key) == id
  }

  lemma ChildIsLeaf(root: string, c: Node, highest: nat)
    requires c.key != root
    ensures Flatten(root, c, highest).routes == ChildRoute(root, c)
  {
    if Dir(c.key) == root {
      DirectChild(root, c, highest);
    } else {
      UnrelatedNode(root, c, highest);
    }
  }

  lemma {:induction false} ChildRouteIds(root: string, n: Node, i: nat, highest: nat)
    requires i <= |n.nodes|
    requires forall j :: 0 <= j < |n.nodes| ==> n.nodes[j].key != root
    ensures forall id :: id in FlattenChildren(root, n, i, highest).routes <==> exists j :: 0 <= j < i && NamesRoute(root, n.nodes, j, id)
    decreases i
  {
    if i > 0 {
      var before := FlattenChildren(root, n, i - 1, highest);
      ChildRouteIds(root, n, i - 1, highest);
      ChildIsLeaf(root, n.nodes[i - 1], before.highest);
      var m := FlattenChildren(root, n, i, highest).routes;
      var last := ChildRoute(root, n.nodes[i - 1]);
      assert m == before.routes + last;
      assert forall id :: id in last <==> NamesRoute(root, n.nodes, i - 1, id);
      MapUnionIds(before.routes, last, m, root, n.nodes, i);
    }
  }

  lemma MapUnionIds(prev: Routes, last: Routes, m: Routes, root: string, nodes: seq<Node>, i: nat)
    requires 0 < i <= |nodes|
    requires m == prev + last
    requires forall id :: id in prev <==> exists j :: 0 <= j < i - 1 && NamesRoute(root, nodes, j, id)
    requires forall id :: id in last <==> NamesRoute(root, nodes, i - 1, id)
    ensures forall id :: id in m <==> exists j :: 0 <= j < i && NamesRoute(root, nodes, j, id)
  {
    forall id | id in m
      ensures exists j :: 0 <= j < i && NamesRoute(root, nodes, j, id)
    {
      if id in last {
        assert NamesRoute(root, nodes, i - 1, id);
      } else {
        assert id in prev;
        var j :| 0 <= j < i - 1 && NamesRoute(root, nodes, j, id);
        assert 0 <= j < i;
      }
    }
    forall id, j | 0 <= j < i && NamesRoute(root, nodes, j, id)
      ensures id in m
    {
      if j < i - 1 {
        assert id in prev;
      } else {
        assert id in last;
      }
    }
  }

  lemma {:induction false} ChildRouteTexts(root: string, n: Node, i: nat, highest: nat)
    requires i <= |n.nodes|
    requires forall j :: 0 <= j < |n.nodes| ==> n.nodes[j].key != root
    ensures forall j {:trigger LastWithId(root, n.nodes, j, i)} ::
      0 <= j < i && Dir(n.nodes[j].key) == root && LastWithId(root, n.nodes, j, i) ==>
        HoldsText(FlattenChildren(root, n, i, highest).routes, n.nodes[j])
    decreases i
  {
    if i > 0 {
      var before := FlattenChildren(root, n, i - 1, highest);
      ChildRouteTexts(root, n, i - 1, highest);
      ChildIsLeaf(root, n.nodes[i - 1], before.highest);
      var m := FlattenChildren(root, n, i, highest).routes;
      var last := ChildRoute(root, n.nodes[i - 1]);
      assert m == before.routes + last;
      forall j | 0 <= j < i && Dir(n.nodes[j].key) == root && LastWithId(root, n.nodes, j, i)
        ensures HoldsText(m, n.nodes[j])
      {
        if j < i - 1 {
          assert LastWithId(root, n.nodes, j, i - 1);
          assert HoldsText(before.routes, n.nodes[j]);
          EarlierTextKept(root, n, i, highest, j);
        } else {
          assert HoldsText(last, n.nodes[j]);
        }
      }
    }
  }

  /** A route child that no later child among the first i renames keeps its
      text when child i - 1 is merged. */
  lemma EarlierTextKept(root: string, n: Node, i: nat, highest: nat, j: nat)
    requires 0 < i <= |n.nodes| && j < i - 1
    requires n.nodes[i - 1].key != root
    requires Dir(n.nodes[j].key) == root && LastWithId(root, n.nodes, j, i)
    requires HoldsText(FlattenChildren(root, n, i - 1, highest).routes, n.nodes[j])
    ensures HoldsText(FlattenChildren(root, n, i, highest).routes, n.nodes[j])
  {
    var before := FlattenChildren(root, n, i - 1, highest);
    ChildIsLeaf(root, n.nodes[i - 1], before.highest);
    var last := ChildRoute(root, n.nodes[i - 1]);
    assert FlattenChildren(root, n, i, highest).routes == before.routes + last;
    assert Base(n.nodes[j].key) !in last by {
      if Dir(n.nodes[i - 1].key) == root {
        assert Base(n.nodes[i - 1].key) != Base(n.nodes[j].key);
      }
    }
    KeepsText(before.routes, last, n.nodes[j]);
  }

  /** m holds the route of node c, under its base name. */
  ghost predicate HoldsText(m: Routes, c: Node)
  {
    Base(c.key) in m && m[Base(c.key)] == RouteText(Base(c.key), c.value)
  }

  lemma KeepsText(m: Routes, last: Routes, c: Node)
    requires HoldsText(m, c) && Base(c.key) !in last
    ensures HoldsText(m + last, c)
  {
  }

  /** For the routes root, the routes are exactly the children that are
      routes, keyed by their base names; when two share a name the later
      child wins. Requires a root that is not its own parent and children
      whose keys differ from the root's, as keys in the store do. */
  lemma RootRoutes(root: string, n: Node, highest: nat)
    requires n.key == root && Dir(root) != root
    requires forall j :: 0 <= j < |n.nodes| ==> n.nodes[j].key != root
    ensures Flatten(root, n, highest).routes.Keys
      == (set j | 0 <= j < |n.nodes| && Dir(n.nodes[j].key) == root :: Base(n.nodes[j].key))
    ensures forall j :: 0 <= j < |n.nodes| && Dir(n.nodes[j].key) == root && LastWithId(root, n.nodes, j, |n.nodes|) ==>
      HoldsText(Flatten(root, n, highest).routes, n.nodes[j])
  {
    var h := Max(highest, n.modifiedIndex);
    ChildRouteIds(root, n, |n.nodes|, h);
    ChildRouteTexts(root, n, |n.nodes|, h);
    var m := Flatten(root, n, highest).routes;
    assert m == FlattenChildren(root, n, |n.nodes|, h).routes;
    var ids := set j | 0 <= j < |n.nodes| && Dir(n.nodes[j].key) == root :: Base(n.nodes[j].key);
    forall id | id in m ensures id in ids {
      var j :| 0 <= j < |n.nodes| && NamesRoute(root, n.nodes, j, id);
    }
    forall id | id in ids ensures id in m {
      var j :| 0 <= j < |n.nodes| && Dir(n.nodes[j].key) == root && Base(n.nodes[j].key) == id;
      assert NamesRoute(root, n.nodes, j, id);
    }
  }

  /** n with the children of its children removed. */
  function Pruned(n: Node): (p: Node)
    ensures p.key == n.key && p.value == n.value && p.modifiedIndex == n.modifiedIndex
    ensures |p.nodes| == |n.nodes|
    ensures forall j :: 0 <= j < |n.nodes| ==> p.nodes[j] == n.nodes[j].(nodes := [])
  {
    n.(nodes := seq(|n.nodes|, j requires 0 <= j < |n.nodes| => n.nodes[j].(nodes := [])))
  }

  lemma {:induction false} PrunedChildren(root: string, n: Node, i: nat, highest: nat)
    requires i <= |n.nodes|
    requires forall j :: 0 <= j < |n.nodes| ==> n.nodes[j].key != root
    ensures FlattenChildren(root, Pruned(n), i, highest) == FlattenChildren(root, n, i, highest)
    decreases i
  {
    if i > 0 {
      PrunedChildren(root, n, i - 1, highest);
      var before := FlattenChildren(root, n, i - 1, highest);
      var c := n.nodes[i - 1];
      assert Pruned(n).nodes[i - 1] == c.(nodes := []);
      assert Flatten(root, c.(nodes := []), before.highest) == Flatten(root, c, before.highest);
    }
  }

  /** The walk never looks below the children of the root: the grandchildren
      can be removed without changing the result. */
  lemma IgnoresGrandchildren(root: string, n: Node, highest: nat)
    requires forall j :: 0 <= j < |n.nodes| ==> n.nodes[j].key != root
    ensures Flatten(root, Pruned(n), highest) == Flatten(root, n, highest)
  {
    if n.key == root {
      PrunedChildren(root, n, |n.nodes|, Max(highest, n.modifiedIndex));
    }
  }
}
