/** Iterative destruction of a layer tree (src/route/http_route_table_registry.cc:247-282). */
module RouteTeardown {
  import opened RouteTarget
  import opened RouteTree
  import opened RouteLayer

  /** `q` is neither at, above nor below `p`. */
  predicate Unrelated(p: Path, q: Path) {
    !Under(p, q) && !Under(q, p)
  }

  /** Every position of the tree is released or below exactly one pending position. */
  ghost predicate Progress(all: set<Path>, r: Path, released: set<Path>, pending: seq<Path>) {
    && released <= Below(all, r)
    && (forall i :: 0 <= i < |pending| ==> pending[i] in Below(all, r))
    && (forall i, j :: 0 <= i < j < |pending| ==> Unrelated(pending[i], pending[j]))
    && (forall i, x :: 0 <= i < |pending| && x in released ==> !Under(pending[i], x))
    && (forall x :: x in Below(all, r) && x !in released ==> exists i :: 0 <= i < |pending| && Under(pending[i], x))
  }

  /** `kids` lists every child of `p` once. */
  ghost predicate Children(all: set<Path>, p: Path, kids: seq<Path>) {
    && (forall k :: 0 <= k < |kids| ==> kids[k].Step? && kids[k].up == p && kids[k] in all)
    && (forall e :: Step(p, e) in all ==> Step(p, e) in kids)
    && (forall j, k :: 0 <= j < k < |kids| ==> kids[j] != kids[k])
  }

  lemma {:induction false} ChildUnrelated(p: Path, e: Edge, q: Path)
    requires Unrelated(p, q)
    ensures Unrelated(Step(p, e), q)
  {
    if Under(Step(p, e), q) { UnderTransitive(p, Step(p, e), q); }
  }

  lemma {:induction false} SiblingsUnrelated(p: Path, e: Edge, f: Edge)
    requires e != f
    ensures Unrelated(Step(p, e), Step(p, f))
  {
    if Under(Step(p, e), Step(p, f)) { UnderIsDeeper(Step(p, e), Step(p, f)); }
    if Under(Step(p, f), Step(p, e)) { UnderIsDeeper(Step(p, f), Step(p, e)); }
  }

  /** The pending stack after the top is replaced by its children holds unrelated positions. */
  lemma {:induction false} PendingUnrelated(all: set<Path>, rest: seq<Path>, p: Path, kids: seq<Path>)
    requires Children(all, p, kids)
    requires forall i, j :: 0 <= i < j < |rest| ==> Unrelated(rest[i], rest[j])
    requires forall i :: 0 <= i < |rest| ==> Unrelated(rest[i], p)
    ensures var next := rest + kids; forall i, j :: 0 <= i < j < |next| ==> Unrelated(next[i], next[j])
  {
    var next := rest + kids;
    forall i, j | 0 <= i < j < |next| ensures Unrelated(next[i], next[j]) {
      if i < |rest| <= j {
        var k := next[j];
        assert k == kids[j - |rest|];
        ChildUnrelated(p, k.edge, rest[i]);
      } else if |rest| <= i {
        var a, b := kids[i - |rest|], kids[j - |rest|];
        assert a == next[i] && b == next[j] && a != b;
        SiblingsUnrelated(p, a.edge, b.edge);
      }
    }
  }

  lemma {:induction false} NoneReleasedBelow(all: set<Path>, r: Path, released: set<Path>, rest: seq<Path>, p: Path,
                                             kids: seq<Path>, i: nat, x: Path)
    requires Progress(all, r, released, rest + [p]) && Children(all, p, kids)
    requires i < |rest + kids| && x in released + {p}
    ensures !Under((rest + kids)[i], x)
  {
    var pending := rest + [p];
    assert pending[|rest|] == p;
    if i < |rest| {
      assert rest[i] == pending[i] && Unrelated(pending[i], pending[|rest|]);
    } else if Under(kids[i - |rest|], x) {
      UnderTransitive(p, kids[i - |rest|], x);
      UnderIsDeeper(kids[i - |rest|], x);
    }
  }

  lemma {:induction false} StillReached(all: set<Path>, r: Path, released: set<Path>, rest: seq<Path>, p: Path,
                                        kids: seq<Path>, x: Path)
    requires Closed(all) && Progress(all, r, released, rest + [p]) && Children(all, p, kids)
    requires x in Below(all, r) && x !in released + {p}
    ensures exists i :: 0 <= i < |rest + kids| && Under((rest + kids)[i], x)
  {
    var pending, next := rest + [p], rest + kids;
    var i :| 0 <= i < |pending| && Under(pending[i], x);
    if i < |rest| {
      assert next[i] == pending[i];
    } else {
      var e := UnderSplit(p, x);
      AncestorIn(all, Step(p, e), x);
      var k :| 0 <= k < |kids| && kids[k] == Step(p, e);
      assert next[|rest| + k] == kids[k];
    }
  }

  lemma {:induction false} PendingBelow(all: set<Path>, r: Path, released: set<Path>, rest: seq<Path>, p: Path,
                                        kids: seq<Path>, i: nat)
    requires Progress(all, r, released, rest + [p]) && Children(all, p, kids) && i < |rest + kids|
    ensures (rest + kids)[i] in Below(all, r)
  {
    var pending := rest + [p];
    assert pending[|rest|] == p;
    if i < |rest| {
      assert rest[i] == pending[i];
    } else {
      UnderTransitive(r, p, kids[i - |rest|]);
    }
  }

  /** Releasing the top of the stack and pushing its children makes progress. */
  lemma {:induction false} ReleaseTop(all: set<Path>, r: Path, released: set<Path>, rest: seq<Path>, p: Path,
                                      kids: seq<Path>)
    requires Closed(all) && Progress(all, r, released, rest + [p]) && Children(all, p, kids)
    ensures p !in released && p in Below(all, r)
    ensures Progress(all, r, released + {p}, rest + kids)
  {
    hide Children, Under, Below, Closed;
    var pending, next := rest + [p], rest + kids;
    assert pending[|rest|] == p;
    assert forall i :: 0 <= i < |rest| ==> rest[i] == pending[i];
    Reflexive(p);
    PendingUnrelated(all, rest, p, kids);
    forall i | 0 <= i < |next| ensures next[i] in Below(all, r) {
      PendingBelow(all, r, released, rest, p, kids, i);
    }
    forall i, x | 0 <= i < |next| && x in released + {p} ensures !Under(next[i], x) {
      NoneReleasedBelow(all, r, released, rest, p, kids, i, x);
    }
    forall x | x in Below(all, r) && x !in released + {p} ensures exists i :: 0 <= i < |next| && Under(next[i], x) {
      StillReached(all, r, released, rest, p, kids, x);
    }
  }

  lemma Reflexive(p: Path)
    ensures Under(p, p)
  {
  }

  lemma {:induction false} Finished(all: set<Path>, r: Path, released: set<Path>)
    requires Progress(all, r, released, [])
    ensures released == Below(all, r)
  {
  }

  ghost predicate At(nodes: Nodes, layers: seq<Layer>, paths: seq<Path>) {
    |layers| == |paths| && forall i :: 0 <= i < |paths| ==> paths[i] in nodes && layers[i] == nodes[paths[i]]
  }

  /** Move a layer's children onto the stack. */
  method CollectChildLayers(layer: Layer, pending: seq<Layer>, ghost nodes: Nodes, ghost p: Path)
    returns (pending': seq<Layer>, ghost kids: seq<Path>, ghost added: seq<Layer>)
    requires p in nodes && layer == nodes[p] && LinkedAt(nodes, p, layer.Now())
    modifies layer
    ensures pending' == pending + added && At(nodes, added, kids) && Children(nodes.Keys, p, kids)
    ensures layer.routes == map[] && layer.fallback == null
  {
    pending', kids, added := pending, [], [];
    if layer.fallback != null {
      pending', kids, added := pending' + [layer.fallback], [Step(p, Wild)], [layer.fallback];
      layer.fallback := null;
    }
    var left := layer.routes.Keys;
    ghost var routes := layer.routes;
    while left != {}
      invariant left <= routes.Keys && layer.routes == routes && layer.fallback == null
      invariant pending' == pending + added && At(nodes, added, kids)
      invariant forall k :: 0 <= k < |kids| ==> kids[k].Step? && kids[k].up == p && kids[k] in nodes
      invariant forall w :: w in routes ==> (w in left <==> Step(p, Lit(w)) !in kids)
      invariant Step(p, Wild) in nodes ==> Step(p, Wild) in kids
      invariant forall j, k :: 0 <= j < k < |kids| ==> kids[j] != kids[k]
      decreases left
    {
      var w :| w in left;
      pending', kids, added := pending' + [layer.routes[w]], kids + [Step(p, Lit(w))], added + [layer.routes[w]];
      left := left - {w};
    }
    layer.routes := map[];
    forall e | Step(p, e) in nodes ensures Step(p, e) in kids {
      if e.Lit? { assert e.word in routes; }
    }
  }

  ghost function Elements(paths: seq<Path>): set<Path> {
    set i | 0 <= i < |paths| :: paths[i]
  }

  /** One turn of the teardown loop: release the top layer and push its children. */
  method ReleaseLayer(pending: seq<Layer>, ghost paths: seq<Path>, ghost nodes: Nodes, ghost cells: Cells,
                      ghost r: Path, ghost released: set<Path>)
    returns (pending': seq<Layer>, ghost paths': seq<Path>)
    requires Forms(nodes, cells) && |pending| > 0 && At(nodes, pending, paths)
    requires Progress(nodes.Keys, r, released, paths)
    requires forall x :: x in nodes && x !in released ==> nodes[x].Now() == cells[x]
    modifies pending[|pending| - 1]
    ensures At(nodes, pending', paths')
    ensures paths[|paths| - 1] !in released && paths[|paths| - 1] in Below(nodes.Keys, r)
    ensures Progress(nodes.Keys, r, released + {paths[|paths| - 1]}, paths')
    ensures forall x :: x in nodes && x !in released + {paths[|paths| - 1]} ==> nodes[x].Now() == cells[x]
  {
    hide Progress, Below, Children;
    var n := |pending| - 1;
    var current := pending[n];
    ghost var p, rest := paths[n], paths[..n];
    assert paths == rest + [p];
    assert LinkedAt(nodes, p, cells[p]);
    TopUnreleased(nodes.Keys, r, released, rest, p);
    ghost var kids, added;
    pending', kids, added := CollectChildLayers(current, pending[..n], nodes, p);
    paths' := rest + kids;
    ReleaseTop(nodes.Keys, r, released, rest, p, kids);
  }

  lemma {:induction false} TopUnreleased(all: set<Path>, r: Path, released: set<Path>, rest: seq<Path>, p: Path)
    requires Progress(all, r, released, rest + [p])
    ensures p !in released
  {
    assert (rest + [p])[|rest|] == p;
  }

  lemma {:induction false} Started(all: set<Path>, r: Path)
    requires r in all
    ensures Progress(all, r, {}, [r])
  {
    forall x | x in Below(all, r) ensures exists i :: 0 <= i < |[r]| && Under([r][i], x) {
      assert [r][0] == r;
    }
  }

  /** Teardown with an explicit stack: it ends for every tree, because each turn releases one more
      layer, and it releases every layer of the tree exactly once. */
  method DestroyLayerTree(root: Layer, ghost nodes: Nodes, ghost r: Path) returns (released: seq<Layer>,
                          ghost order: seq<Path>)
    requires Represents(nodes) && r in nodes && root == nodes[r]
    modifies nodes.Values
    ensures At(nodes, released, order) && Elements(order) == Below(nodes.Keys, r)
    ensures forall i, j :: 0 <= i < j < |released| ==> released[i] != released[j]
    ensures |released| == |Below(nodes.Keys, r)|
  {
    hide Forms, Progress, Below, Elements, Once;
    ghost var cells := CellsOf(nodes);
    var pending := [root];
    ghost var paths := [r];
    released, order := [], [];
    Started(nodes.Keys, r);
    NoElements();
    while pending != []
      invariant At(nodes, pending, paths) && At(nodes, released, order)
      invariant Progress(nodes.Keys, r, Elements(order), paths) && Elements(order) <= Below(nodes.Keys, r)
      invariant forall x :: x in nodes && x !in Elements(order) ==> nodes[x].Now() == cells[x]
      invariant Once(order)
      decreases Below(nodes.Keys, r) - Elements(order)
    {
      ghost var p := paths[|paths| - 1];
      released := released + [pending[|pending| - 1]];
      pending, paths := ReleaseLayer(pending, paths, nodes, cells, r, Elements(order));
      ElementsSnoc(order, p);
      OnceSnoc(order, p);
      order := order + [p];
    }
    Finished(nodes.Keys, r, Elements(order));
    InjectiveAt(nodes, cells, released, order);
  }

  /** No path twice. */
  ghost predicate Once(paths: seq<Path>) {
    && (forall i, j :: 0 <= i < j < |paths| ==> paths[i] != paths[j])
    && |Elements(paths)| == |paths|
  }

  lemma NoElements()
    ensures Elements([]) == {} && Once([])
  {
  }

  lemma {:induction false} OnceSnoc(order: seq<Path>, p: Path)
    requires Once(order) && p !in Elements(order)
    ensures Once(order + [p])
  {
    var next := order + [p];
    ElementsSnoc(order, p);
    forall i | 0 <= i < |order| ensures order[i] != p { assert order[i] in Elements(order); }
  }

  lemma {:induction false} ElementsSnoc(order: seq<Path>, p: Path)
    ensures Elements(order + [p]) == Elements(order) + {p}
  {
    var next := order + [p];
    assert next[|order|] == p && forall i :: 0 <= i < |order| ==> next[i] == order[i];
  }

  lemma {:induction false} InjectiveAt(nodes: Nodes, cells: Cells, layers: seq<Layer>, paths: seq<Path>)
    requires Forms(nodes, cells) && At(nodes, layers, paths)
    requires Once(paths)
    ensures forall i, j :: 0 <= i < j < |layers| ==> layers[i] != layers[j]
    ensures |layers| == |Elements(paths)|
  {
  }
}
