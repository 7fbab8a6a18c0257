/** Deep cloning of layer trees (src/route/http_route_table_mount.cc:164-225, 285-292). */
module RouteClone {
  import opened Text
  import opened RouteTarget
  import opened RouteTree
  import opened RouteLayer
  import opened RouteMerge
  import opened RouteMount
  import opened RouteHistory

  ghost predicate AllCloneable(aspects: seq<Handler>) {
    forall a :: a in aspects ==> a.cloneable
  }

  /** Clone a handler or aspect: the copy has the same behaviour. */
  method CloneHandlers(aspects: seq<Handler>) returns (copy: Option<seq<Handler>>)
    ensures copy.Some? <==> AllCloneable(aspects)
    ensures copy.Some? ==> copy.value == aspects
  {
    var done := [];
    for i := 0 to |aspects|
      invariant done == aspects[..i] && AllCloneable(done)
    {
      if !aspects[i].cloneable {
        return None;
      }
      done := done + [Handler(aspects[i].behaviour, true)];
    }
    return Some(done);
  }

  /** Clone what a node holds, unless its handler or one of its aspects cannot be cloned. */
  method CloneNode(n: Node) returns (copy: Option<Node>)
    ensures copy.Some? <==> CloneableNode(n)
    ensures copy.Some? ==> copy.value == n
  {
    if n.handler.Some? && !n.handler.value.cloneable {
      return None;
    }
    var aspects := CloneHandlers(n.aspects);
    if aspects.None? {
      return None;
    }
    var terminals := CloneHandlers(n.terminals);
    if terminals.None? {
      return None;
    }
    return Some(Node(n.handler, n.names, n.tmpl, aspects.value, terminals.value,
                     n.maxBody, n.readExpiry, n.writeExpiry, n.exclusive));
  }

  /** `nodes` in states `cells` is a linked copy of the source forest at the positions of `zone`. */
  ghost predicate Copy(nodes: Nodes, cells: Cells, s: Forest, zone: set<Path>) {
    && nodes.Keys == cells.Keys == zone
    && zone <= s.Keys
    && Injective(nodes)
    && Linked(nodes, cells)
    && (forall x :: x in zone ==> cells[x].node == s[x])
  }

  /** Every node of `zone` can be cloned. */
  ghost predicate CloneableIn(s: Forest, zone: set<Path>) {
    forall x :: x in zone && x in s ==> CloneableNode(s[x])
  }

  /** A copied subtree attached below `r`. */
  ghost predicate Attached(nodes: Nodes, cells: Cells, kn: Nodes, kc: Cells, r: Path, e: Edge, nodes': Nodes,
                           cells': Cells)
    requires r in cells && Step(r, e) in kn
  {
    && nodes' == nodes + kn
    && cells'.Keys == cells.Keys + kc.Keys
    && (forall x :: x in cells && x !in kc && x != r ==> cells'[x] == cells[x])
    && (forall x :: x in kc ==> cells'[x] == kc[x])
    && (r !in kc ==> cells'[r] == WithChild(cells[r], e, kn[Step(r, e)]))
  }

  /** Positions of the rest of a copy and of a subtree below `r` are not linked, except `r` to its new child. */
  lemma {:induction false} ZonesApart(paths: set<Path>, r: Path, edges: set<Edge>, e: Edge, x: Path, f: Edge)
    requires e !in edges && Closed(paths)
    ensures x in Part(paths, r, edges) && Step(x, f) in Below(paths, Step(r, e)) ==> x == r && f == e
    ensures x in Below(paths, Step(r, e)) && Step(x, f) in paths ==> Step(x, f) in Below(paths, Step(r, e))
  {
    PartGrows(paths, r, edges, e);
  }

  lemma {:induction false} AttachLinkedChild(paths: set<Path>, r: Path, edges: set<Edge>, e: Edge, nodes: Nodes,
                                             kn: Nodes, x: Path, c: Cell, f: Edge)
    requires e !in edges && Closed(paths) && Step(r, e) in kn
    requires nodes.Keys == Part(paths, r, edges) && kn.Keys == Below(paths, Step(r, e))
    requires x in nodes && LinkedAt(nodes, x, c)
    ensures ChildOf(if x == r then WithChild(c, e, kn[Step(r, e)]) else c, f) == ChildAt(nodes + kn, x, f)
  {
    hide Part, Below, Closed, LinkedAt, WithChild, ChildOf;
    PartGrows(paths, r, edges, e);
    ZonesApart(paths, r, edges, e, x, f);
    EdgesOfLinked(nodes, x, c, f);
    AttachThenChild(c, e, kn[Step(r, e)]);
  }

  lemma {:induction false} AttachLinkedRest(paths: set<Path>, r: Path, edges: set<Edge>, e: Edge, nodes: Nodes,
                                            kn: Nodes, x: Path, c: Cell)
    requires e !in edges && Closed(paths) && r in paths && Step(r, e) in kn
    requires nodes.Keys == Part(paths, r, edges) && kn.Keys == Below(paths, Step(r, e))
    requires x in nodes && LinkedAt(nodes, x, c)
    ensures LinkedAt(nodes + kn, x, if x == r then WithChild(c, e, kn[Step(r, e)]) else c)
  {
    hide Part, Below, Closed, LinkedAt, WithChild, ChildOf, ChildAt;
    var c' := if x == r then WithChild(c, e, kn[Step(r, e)]) else c;
    forall f ensures ChildOf(c', f) == ChildAt(nodes + kn, x, f) {
      AttachLinkedChild(paths, r, edges, e, nodes, kn, x, c, f);
    }
    LinkedByEdges(nodes + kn, x, c');
  }

  lemma {:induction false} AttachLinkedNew(paths: set<Path>, r: Path, edges: set<Edge>, e: Edge, nodes: Nodes,
                                           kn: Nodes, x: Path, c: Cell)
    requires e !in edges && Closed(paths) && r in paths
    requires nodes.Keys == Part(paths, r, edges) && kn.Keys == Below(paths, Step(r, e)) && Part(paths, r, edges) <= paths
    requires x in kn && LinkedAt(kn, x, c)
    ensures LinkedAt(nodes + kn, x, c)
  {
  }

  lemma {:induction false} AttachLinked(s: Forest, r: Path, edges: set<Edge>, e: Edge,
                                        nodes: Nodes, cells: Cells, kn: Nodes, kc: Cells, nodes': Nodes, cells': Cells)
    requires Closed(s.Keys) && r in s && e !in edges && Step(r, e) in s
    requires Copy(nodes, cells, s, Part(s.Keys, r, edges)) && Copy(kn, kc, s, Below(s.Keys, Step(r, e)))
    requires Step(r, e) in kn && Attached(nodes, cells, kn, kc, r, e, nodes', cells')
    ensures nodes'.Keys == cells'.Keys && Linked(nodes', cells')
  {
    PartGrows(s.Keys, r, edges, e);
    forall x | x in nodes' ensures LinkedAt(nodes', x, cells'[x]) {
      if x in kn {
        assert LinkedAt(kn, x, kc[x]);
        AttachLinkedNew(s.Keys, r, edges, e, nodes, kn, x, kc[x]);
      } else {
        assert LinkedAt(nodes, x, cells[x]);
        AttachLinkedRest(s.Keys, r, edges, e, nodes, kn, x, cells[x]);
      }
    }
  }

  lemma {:induction false} AttachCopy(s: Forest, r: Path, edges: set<Edge>, e: Edge,
                                      nodes: Nodes, cells: Cells, kn: Nodes, kc: Cells, nodes': Nodes, cells': Cells)
    requires Closed(s.Keys) && r in s && e !in edges && Step(r, e) in s
    requires Copy(nodes, cells, s, Part(s.Keys, r, edges)) && Copy(kn, kc, s, Below(s.Keys, Step(r, e)))
    requires Step(r, e) in kn && Attached(nodes, cells, kn, kc, r, e, nodes', cells')
    requires nodes.Values !! kn.Values
    ensures Copy(nodes', cells', s, Part(s.Keys, r, edges + {e}))
  {
    AttachLinked(s, r, edges, e, nodes, cells, kn, kc, nodes', cells');
    PartGrows(s.Keys, r, edges, e);
    forall p, q | p in nodes' && q in nodes' && nodes'[p] == nodes'[q] ensures p == q {
      assert p in kn <==> q in kn by {
        assert p in kn ==> nodes'[p] in kn.Values;
        assert q in kn ==> nodes'[q] in kn.Values;
        assert p !in kn ==> nodes'[p] in nodes.Values;
        assert q !in kn ==> nodes'[q] in nodes.Values;
      }
    }
  }

  lemma {:induction false} OneCopied(r: Path, layer: Layer, s: Forest)
    requires r in s && layer.Now() == Cell(s[r], map[], null)
    ensures Copy(map[r := layer], CellsOf(map[r := layer]), s, Part(s.Keys, r, {}))
  {
    forall e ensures Step(r, e) != r { assert Depth(Step(r, e)) == Depth(r) + 1; }
    assert LinkedAt(map[r := layer], r, layer.Now());
  }

  /** Hang a copied subtree under the copy of its parent. */
  method AttachClone(copy: Layer, e: Edge, kid: Layer, ghost nodes: Nodes, ghost kn: Nodes, ghost r: Path)
    requires r in nodes && copy == nodes[r] && Injective(nodes) && r !in kn
    requires Step(r, e) in kn && kid == kn[Step(r, e)] && nodes.Values !! kn.Values
    modifies copy
    ensures Attached(nodes, old(CellsOf(nodes)), kn, old(CellsOf(kn)), r, e, nodes + kn, CellsOf(nodes + kn))
    ensures CellsOf(kn) == old(CellsOf(kn))
  {
    copy.Attach(e, kid);
    assert forall x :: x in kn ==> kn[x] in kn.Values && kn[x] != copy by { assert copy in nodes.Values; }
  }

  /** What the layer at `p` says about its children and contents. */
  lemma {:induction false} LayerFacts(nodes: Nodes, p: Path)
    requires Represents(nodes) && p in nodes
    ensures forall e :: ChildOf(nodes[p].Now(), e) == ChildAt(nodes, p, e)
    ensures Closed(nodes.Keys) && View(nodes).Keys == nodes.Keys && View(nodes)[p] == nodes[p].node
    ensures Part(nodes.Keys, p, EdgesDone(nodes[p].routes.Keys, {})) == Below(nodes.Keys, p)
    ensures EdgesDone(nodes[p].routes.Keys, nodes[p].routes.Keys) == {} + {Wild}
  {
    var cells := CellsOf(nodes);
    assert LinkedAt(nodes, p, cells[p]);
    EdgesCover(nodes, p, cells[p]);
    PartWhole(nodes.Keys, p, EdgesDone(cells[p].routes.Keys, {}));
  }

  lemma {:induction false} CopyFacts(nodes: Nodes, cells: Cells, s: Forest, zone: set<Path>)
    requires Copy(nodes, cells, s, zone)
    ensures nodes.Keys == zone && Injective(nodes)
  {
  }

  /** Clone the child along one edge, if there is one, and attach it to the copy. */
  method CloneChild(src: Layer, e: Edge, copy: Layer, ghost sn: Nodes, ghost r: Path, ghost nodes: Nodes,
                    ghost edges: set<Edge>)
    returns (ok: bool, ghost nodes': Nodes)
    requires Represents(sn) && r in sn && src == sn[r] && r in nodes && copy == nodes[r] && e !in edges
    requires nodes.Values !! sn.Values
    requires Copy(nodes, CellsOf(nodes), View(sn), Part(sn.Keys, r, edges))
    modifies copy
    ensures Represents(sn) && View(sn) == old(View(sn))
    ensures ok <==> CloneableIn(View(sn), Below(sn.Keys, Step(r, e)))
    ensures ok ==> Copy(nodes', CellsOf(nodes'), View(sn), Part(sn.Keys, r, edges + {e}))
    ensures ok ==> (forall x :: x in nodes ==> x in nodes' && nodes'[x] == nodes[x])
    ensures ok ==> (forall x :: x in nodes' && x !in nodes ==> fresh(nodes'[x]))
    decreases Below(sn.Keys, r), 0
  {
    hide Represents, View, CellsOf, Copy, Attached, CloneableIn, Below, Part, EdgesDone;
    LayerFacts(sn, r);
    PartGrows(sn.Keys, r, edges, e);
    CopyFacts(nodes, CellsOf(nodes), View(sn), Part(sn.Keys, r, edges));
    var child := src.Child(e);
    if child == null {
      NothingBelow(sn.Keys, Step(r, e));
      NothingCloned(View(sn));
      assert Part(sn.Keys, r, edges) + {} == Part(sn.Keys, r, edges);
      ok, nodes' := true, nodes;
    } else {
      BelowChildSmaller(sn.Keys, r, e);
      var kid;
      ghost var kn;
      kid, kn := CloneLayer(child, sn, Step(r, e));
      if kid == null {
        return false, nodes;
      }
      ghost var s, cells, kc := View(sn), CellsOf(nodes), CellsOf(kn);
      CopyFacts(kn, kc, s, Below(sn.Keys, Step(r, e)));
      AttachClone(copy, e, kid, nodes, kn, r);
      ok, nodes' := true, nodes + kn;
      AttachCopy(s, r, edges, e, nodes, cells, kn, kc, nodes', CellsOf(nodes'));
    }
  }

  lemma {:induction false} NothingCloned(s: Forest)
    ensures CloneableIn(s, {})
  {
  }

  lemma {:induction false} CloneableParts(s: Forest, r: Path, edges: set<Edge>, e: Edge)
    requires e !in edges
    ensures CloneableIn(s, Part(s.Keys, r, edges + {e})) <==>
              CloneableIn(s, Part(s.Keys, r, edges)) && CloneableIn(s, Below(s.Keys, Step(r, e)))
    ensures r in s ==> (CloneableIn(s, Part(s.Keys, r, {})) <==> CloneableNode(s[r]))
  {
  }

  /** If a tree is cloneable, so are its root and the subtrees of its children. */
  lemma {:induction false} CloneableSub(s: Forest, r: Path)
    requires r in s && CloneableIn(s, Below(s.Keys, r))
    ensures CloneableNode(s[r]) && forall e :: CloneableIn(s, Below(s.Keys, Step(r, e)))
  {
    forall e, x | x in Below(s.Keys, Step(r, e)) ensures x in Below(s.Keys, r) { UnderTransitive(r, Step(r, e), x); }
  }

  /** Deep copy of the tree at `r`: it succeeds exactly when every handler and aspect in it can be
      cloned, and then yields new layers with the same contents at the same positions. */
  method CloneLayer(src: Layer, ghost sn: Nodes, ghost r: Path) returns (copy: Layer?, ghost nodes: Nodes)
    requires Represents(sn) && r in sn && src == sn[r]
    ensures copy != null <==> CloneableIn(View(sn), Below(sn.Keys, r))
    ensures copy != null ==> Copy(nodes, CellsOf(nodes), View(sn), Below(sn.Keys, r)) && r in nodes && nodes[r] == copy
    ensures copy != null ==> (forall x :: x in nodes ==> fresh(nodes[x]))
    decreases Below(sn.Keys, r), 1
  {
    hide Represents, View, CellsOf, Copy, CloneableIn, Below, Part, EdgesDone, CloneableNode;
    ghost var s, keys := View(sn), src.routes.Keys;
    LayerFacts(sn, r);
    CloneableParts(s, r, {}, Wild);
    if CloneableIn(s, Below(sn.Keys, r)) { CloneableSub(s, r); }
    var node := CloneNode(src.node);
    if node.None? {
      return null, map[];
    }
    var layer := new Layer();
    layer.node := node.value;
    nodes := map[r := layer];
    OneCopied(r, layer, s);
    var ok;
    ok, nodes := CloneChild(src, Wild, layer, sn, r, nodes, {});
    if !ok {
      return null, map[];
    }
    var left := src.routes.Keys;
    while left != {}
      invariant left <= keys && Represents(sn) && View(sn) == s && src.routes.Keys == keys
      invariant Copy(nodes, CellsOf(nodes), s, Part(sn.Keys, r, EdgesDone(keys, left)))
      invariant CloneableIn(s, Part(sn.Keys, r, EdgesDone(keys, left)))
      invariant r in nodes && nodes[r] == layer
      invariant forall x :: x in nodes ==> fresh(nodes[x])
      decreases left
    {
      var w :| w in left;
      EdgesDoneStep(keys, left, w);
      CloneableParts(s, r, EdgesDone(keys, left), Lit(w));
      ok, nodes := CloneChild(src, Lit(w), layer, sn, r, nodes, EdgesDone(keys, left));
      if !ok {
        return null, map[];
      }
      left := left - {w};
    }
    copy := layer;
  }

  lemma {:induction false} UnionLinkedAt(a: Nodes, b: Nodes, x: Path, c: Cell)
    requires x in a && LinkedAt(a, x, c) && forall e :: Step(x, e) !in b
    ensures LinkedAt(a + b, x, c) && LinkedAt(b + a, x, c)
  {
  }

  /** Copies of different buckets together are a copy. */
  lemma {:induction false} UnionCopy(a: Nodes, ac: Cells, b: Nodes, bc: Cells, s: Forest, m: nat)
    requires Copy(a, ac, s, Buckets(s.Keys, m)) && Copy(b, bc, s, Below(s.Keys, Root(m))) && a.Values !! b.Values
    ensures Copy(a + b, ac + bc, s, Buckets(s.Keys, m + 1))
  {
    var nodes, cells := a + b, ac + bc;
    NextBucket(s.Keys, m);
    forall x | x in nodes ensures LinkedAt(nodes, x, cells[x]) {
      BucketIsBelow(m, x);
      forall e ensures Bucket(Step(x, e)) == Bucket(x) && (Under(Root(m), Step(x, e)) <==> Bucket(Step(x, e)) == m) {
        BucketIsBelow(m, Step(x, e));
      }
      if x in b {
        assert LinkedAt(b, x, bc[x]);
        UnionLinkedAt(b, a, x, bc[x]);
      } else {
        assert LinkedAt(a, x, ac[x]);
        UnionLinkedAt(a, b, x, ac[x]);
      }
    }
    forall p, q | p in nodes && q in nodes && nodes[p] == nodes[q] ensures p == q {
      assert p in b <==> q in b by {
        assert p in b ==> nodes[p] in b.Values;
        assert q in b ==> nodes[q] in b.Values;
        assert p !in b ==> nodes[p] in a.Values;
        assert q !in b ==> nodes[q] in a.Values;
      }
    }
  }

  lemma {:induction false} CellsOfUnion(a: Nodes, b: Nodes)
    ensures CellsOf(a + b) == CellsOf(a) + CellsOf(b)
  {
  }

  lemma {:induction false} NothingCopied(s: Forest)
    ensures Copy(map[], CellsOf(map[]), s, Buckets(s.Keys, 0)) && CloneableIn(s, Buckets(s.Keys, 0))
  {
  }

  lemma {:induction false} CloneableBuckets(s: Forest, m: nat)
    ensures CloneableIn(s, Buckets(s.Keys, m + 1)) <==>
              CloneableIn(s, Buckets(s.Keys, m)) && CloneableIn(s, Below(s.Keys, Root(m)))
    ensures Cloneable(s) ==> CloneableIn(s, Below(s.Keys, Root(m)))
  {
    NextBucket(s.Keys, m);
  }

  /** A copy of every bucket represents the source's forest. */
  lemma {:induction false} CopyComplete(sn: Nodes, nodes: Nodes, cells: Cells, s: Forest)
    requires Represents(sn) && s == View(sn) && Copy(nodes, cells, s, Buckets(sn.Keys, METHODS))
    ensures Forms(nodes, cells) && Forget(cells) == s && nodes.Keys == sn.Keys
    ensures CloneableIn(s, Buckets(sn.Keys, METHODS)) <==> Cloneable(s)
  {
    assert Buckets(sn.Keys, METHODS) == sn.Keys by {
      forall x | x in sn ensures Bucket(x) < METHODS { BucketInRange(sn.Keys, x); }
    }
  }

  /** Clone every bucket; a table of new layers with the same forest, or nothing. */
  method CloneAll(entrance: seq<Layer>, ghost sn: Nodes) returns (ok: bool, copies: seq<Layer>, ghost nodes: Nodes)
    requires Represents(sn) && |entrance| == METHODS
    requires forall m: nat :: m < METHODS ==> Root(m) in sn && entrance[m] == sn[Root(m)]
    ensures ok <==> Cloneable(View(sn))
    ensures ok ==> Represents(nodes) && View(nodes) == View(sn) && nodes.Keys == sn.Keys
    ensures ok ==> |copies| == METHODS && forall m: nat :: m < METHODS ==> copies[m] == nodes[Root(m)]
    ensures ok ==> forall x :: x in nodes ==> fresh(nodes[x])
  {
    hide Represents, View, CellsOf, Copy, CloneableIn, Below, Buckets, Cloneable;
    ghost var s := View(sn);
    ViewKeys(sn);
    NothingCopied(s);
    copies, nodes := [], map[];
    for m := 0 to METHODS
      invariant Represents(sn) && View(sn) == s
      invariant Copy(nodes, CellsOf(nodes), s, Buckets(sn.Keys, m)) && CloneableIn(s, Buckets(sn.Keys, m))
      invariant |copies| == m && forall k: nat :: k < m ==> Root(k) in nodes && copies[k] == nodes[Root(k)]
      invariant forall x :: x in nodes ==> fresh(nodes[x])
    {
      CloneableBuckets(s, m);
      var copy;
      ghost var kn;
      copy, kn := CloneLayer(entrance[m], sn, Root(m));
      if copy == null {
        return false, [], map[];
      }
      assert nodes.Values !! kn.Values;
      CopyFacts(nodes, CellsOf(nodes), s, Buckets(sn.Keys, m));
      CopyFacts(kn, CellsOf(kn), s, Below(sn.Keys, Root(m)));
      UnionCopy(nodes, CellsOf(nodes), kn, CellsOf(kn), s, m);
      CellsOfUnion(nodes, kn);
      KeysApart(nodes, kn, s, m);
      copies, nodes := copies + [copy], nodes + kn;
    }
    CopyComplete(sn, nodes, CellsOf(nodes), s);
    RepresentsBy(nodes, s);
    ok := true;
  }

  lemma KeysApart(a: Nodes, b: Nodes, s: Forest, m: nat)
    requires a.Keys == Buckets(s.Keys, m) && b.Keys == Below(s.Keys, Root(m))
    ensures a.Keys !! b.Keys
  {
    NextBucket(s.Keys, m);
  }

  lemma RepresentsBy(nodes: Nodes, s: Forest)
    requires Forms(nodes, CellsOf(nodes)) && Forget(CellsOf(nodes)) == s
    ensures Represents(nodes) && View(nodes) == s
  {
  }
}
