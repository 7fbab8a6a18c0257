/** The tree passes of a mount, on linked layers: template prefixing, conflict check, destructive
    merge (src/route/http_route_table_mount.cc:56-162). */
module RouteMerge {
  import opened RouteTarget
  import opened RouteTree
  import opened RouteLayer

  // ----- conflict check -----

  /** Both trees define behaviour at the position of source node `x`. */
  ghost predicate Conflicts(d: Forest, s: Forest, pre: seq<string>, x: Path) {
    x in s && Graft(pre, x) in d && Terminal(d[Graft(pre, x)]) && Terminal(s[x])
  }

  ghost predicate NoConflict(d: Forest, s: Forest, pre: seq<string>, r: Path) {
    forall x :: x in s && Under(r, x) ==> !Conflicts(d, s, pre, x)
  }

  /** Along `e` the trees meet without conflict, or do not meet. */
  ghost predicate NoConflictAlong(d: Forest, s: Forest, pre: seq<string>, r: Path, e: Edge) {
    Step(r, e) in s && Graft(pre, Step(r, e)) in d ==> NoConflict(d, s, pre, Step(r, e))
  }

  lemma {:induction false} GraftMonotone(pre: seq<string>, a: Path, x: Path)
    requires Under(a, x)
    ensures Under(Graft(pre, a), Graft(pre, x))
  {
    if x != a { GraftMonotone(pre, a, x.up); }
  }

  lemma {:induction false} NoConflictSplit(d: Forest, s: Forest, pre: seq<string>, r: Path)
    requires Closed(d.Keys) && Closed(s.Keys)
    ensures NoConflict(d, s, pre, r) <==> !Conflicts(d, s, pre, r) && forall e :: NoConflictAlong(d, s, pre, r, e)
  {
    if NoConflict(d, s, pre, r) {
      forall e ensures NoConflictAlong(d, s, pre, r, e) {
        forall x | x in s && Under(Step(r, e), x) ensures !Conflicts(d, s, pre, x) {
          UnderTransitive(r, Step(r, e), x);
        }
      }
    }
    if !Conflicts(d, s, pre, r) && forall e :: NoConflictAlong(d, s, pre, r, e) {
      forall x | x in s && Under(r, x) ensures !Conflicts(d, s, pre, x) {
        if x != r && Graft(pre, x) in d {
          var e := UnderSplit(r, x);
          AncestorIn(s.Keys, Step(r, e), x);
          GraftMonotone(pre, Step(r, e), x);
          AncestorIn(d.Keys, Graft(pre, Step(r, e)), Graft(pre, x));
          assert NoConflictAlong(d, s, pre, r, e);
        }
      }
    }
  }

  /** What the layers at `r` and at its mount position say about their children. */
  lemma ChildrenAt(nodes: Nodes, cells: Cells, p: Path)
    requires Forms(nodes, cells) && p in nodes
    ensures LinkedAt(nodes, p, cells[p]) && Closed(nodes.Keys)
  {
  }

  /** A conflict below `r` is one at `r` itself or one below a child. */
  lemma {:induction false} ConflictsHere(dn: Nodes, sn: Nodes, pre: seq<string>, r: Path)
    requires Represents(dn) && Represents(sn) && r in sn && Graft(pre, r) in dn
    ensures NoConflict(View(dn), View(sn), pre, r) <==>
      !(Terminal(dn[Graft(pre, r)].node) && Terminal(sn[r].node)) && forall e :: NoConflictAlong(View(dn), View(sn), pre, r, e)
  {
    hide Terminal, NoConflict, NoConflictAlong;
    assert View(dn).Keys == dn.Keys && View(sn).Keys == sn.Keys;
    NoConflictSplit(View(dn), View(sn), pre, r);
  }

  lemma {:induction false} ChildrenNamed(nodes: Nodes, r: Path)
    requires Represents(nodes) && r in nodes
    ensures forall w :: Step(r, Lit(w)) in View(nodes) ==> w in nodes[r].routes
  {
    ChildrenAt(nodes, CellsOf(nodes), r);
    assert View(nodes).Keys == nodes.Keys;
  }

  lemma {:induction false} NoMeeting(d: Forest, s: Forest, pre: seq<string>, r: Path)
    ensures forall e :: Step(r, e) !in s ==> NoConflictAlong(d, s, pre, r, e)
  {
  }

  /** The conflict check for the children along one edge. */
  method CanMergeChild(dst: Layer, src: Layer, e: Edge, ghost dn: Nodes, ghost sn: Nodes, ghost pre: seq<string>,
                       ghost r: Path)
    returns (ok: bool)
    requires Represents(dn) && Represents(sn)
    requires r in sn && src == sn[r] && Graft(pre, r) in dn && dst == dn[Graft(pre, r)]
    ensures ok <==> NoConflictAlong(View(dn), View(sn), pre, r, e)
    decreases Below(sn.Keys, r), 0
  {
    hide Forms, Terminal, NoConflict;
    ChildrenAt(dn, CellsOf(dn), Graft(pre, r));
    ChildrenAt(sn, CellsOf(sn), r);
    assert Graft(pre, Step(r, e)) == Step(Graft(pre, r), e);
    var srcChild := src.Child(e);
    var dstChild := dst.Child(e);
    if srcChild == null || dstChild == null {
      return true;
    }
    BelowChildSmaller(sn.Keys, r, e);
    ok := CanMergeLayer(dstChild, srcChild, dn, sn, pre, Step(r, e));
  }

  /** The conflict check: no position below `r` has behaviour in both trees. */
  method CanMergeLayer(dst: Layer, src: Layer, ghost dn: Nodes, ghost sn: Nodes, ghost pre: seq<string>, ghost r: Path)
    returns (ok: bool)
    requires Represents(dn) && Represents(sn)
    requires r in sn && src == sn[r] && Graft(pre, r) in dn && dst == dn[Graft(pre, r)]
    ensures ok <==> NoConflict(View(dn), View(sn), pre, r)
    decreases Below(sn.Keys, r), 1
  {
    hide Represents, Terminal, NoConflict, NoConflictAlong, Conflicts, LinkedAt, View;
    ghost var d, s := View(dn), View(sn);
    ConflictsHere(dn, sn, pre, r);
    ChildrenNamed(sn, r);
    NoMeeting(d, s, pre, r);
    if Terminal(src.node) && Terminal(dst.node) {
      return false;
    }
    var sub := CanMergeChild(dst, src, Wild, dn, sn, pre, r);
    if !sub {
      return false;
    }
    var keys := src.routes.Keys;
    while keys != {}
      invariant forall w :: w in src.routes && w !in keys ==> NoConflictAlong(d, s, pre, r, Lit(w))
      decreases keys
    {
      var w :| w in keys;
      keys := keys - {w};
      sub := CanMergeChild(dst, src, Lit(w), dn, sn, pre, r);
      if !sub {
        return false;
      }
    }
    forall e ensures NoConflictAlong(d, s, pre, r, e) {
      if e.Lit? && Step(r, e) in s { assert e.word in src.routes; }
    }
    return true;
  }

  // ----- subtrees, child by child -----

  /** `r` and everything below its children along `edges`. */
  ghost function Part(paths: set<Path>, r: Path, edges: set<Edge>): set<Path> {
    {r} + set e, x | e in edges && x in Below(paths, Step(r, e)) :: x
  }

  lemma {:induction false} PartGrows(paths: set<Path>, r: Path, edges: set<Edge>, e: Edge)
    requires e !in edges
    ensures Part(paths, r, edges + {e}) == Part(paths, r, edges) + Below(paths, Step(r, e))
    ensures Part(paths, r, edges) !! Below(paths, Step(r, e))
  {
    forall x | x in Part(paths, r, edges) && x in Below(paths, Step(r, e)) ensures false {
      UnderIsDeeper(Step(r, e), x);
      if x != r {
        var f :| f in edges && x in Below(paths, Step(r, f));
        UnderTransitive(r, Step(r, e), x);
        var g := UnderSplit(r, x);
      }
    }
  }

  lemma {:induction false} PartWhole(paths: set<Path>, r: Path, edges: set<Edge>)
    requires Closed(paths) && r in paths
    requires forall e :: Step(r, e) in paths ==> e in edges
    ensures Part(paths, r, edges) == Below(paths, r)
  {
    forall x | x in Below(paths, r) && x != r ensures x in Part(paths, r, edges) {
      var e := UnderSplit(r, x);
      AncestorIn(paths, Step(r, e), x);
      assert e in edges && x in Below(paths, Step(r, e));
    }
    forall e, x | e in edges && x in Below(paths, Step(r, e)) ensures x in Below(paths, r) {
      UnderTransitive(r, Step(r, e), x);
    }
  }

  /** The edges to the literal children whose keys are not in `left`, and to the parameter child. */
  ghost function EdgesDone(keys: set<string>, left: set<string>): set<Edge> {
    {Wild} + set w | w in keys && w !in left :: Lit(w)
  }

  lemma {:induction false} EdgesDoneStep(keys: set<string>, left: set<string>, w: string)
    requires w in left && left <= keys
    ensures EdgesDone(keys, left - {w}) == EdgesDone(keys, left) + {Lit(w)}
    ensures Lit(w) !in EdgesDone(keys, left)
  {
  }

  lemma {:induction false} EdgesCover(nodes: Nodes, p: Path, c: Cell)
    requires LinkedAt(nodes, p, c)
    ensures forall e :: Step(p, e) in nodes ==> e in EdgesDone(c.routes.Keys, {})
  {
    forall e | Step(p, e) in nodes ensures e in EdgesDone(c.routes.Keys, {}) {
      if e.Lit? { assert e.word in c.routes; }
    }
  }

  // ----- template prefixing -----

  /** Templates prefixed at the positions of `done`. */
  ghost function PrefixedAt(s: Forest, prefix: string, done: set<Path>): Forest {
    map x | x in s :: if x in done then PrefixedNode(s[x], prefix) else s[x]
  }

  lemma {:induction false} PrefixedTwice(s: Forest, prefix: string, a: set<Path>, b: set<Path>)
    requires a !! b
    ensures PrefixedAt(PrefixedAt(s, prefix, a), prefix, b) == PrefixedAt(s, prefix, a + b)
  {
  }

  /** Prefix the subtree along one edge, if there is one. */
  method PrefixChild(layer: Layer, e: Edge, prefix: string, ghost sn: Nodes, ghost r: Path)
    requires Represents(sn) && r in sn && layer == sn[r]
    modifies sn.Values
    ensures Represents(sn)
    ensures View(sn) == PrefixedAt(old(View(sn)), prefix, Below(sn.Keys, Step(r, e)))
    ensures forall p :: p in sn ==> sn[p].routes == old(sn[p].routes) && sn[p].fallback == old(sn[p].fallback)
    decreases Below(sn.Keys, r), 0
  {
    hide Forms, PrefixedNode;
    ChildrenAt(sn, CellsOf(sn), r);
    var child := layer.Child(e);
    if child != null {
      BelowChildSmaller(sn.Keys, r, e);
      PrefixRouteTemplates(child, prefix, sn, Step(r, e));
    } else {
      NothingBelow(sn.Keys, Step(r, e));
    }
  }

  lemma {:induction false} NothingBelow(paths: set<Path>, p: Path)
    requires Closed(paths) && p !in paths
    ensures Below(paths, p) == {}
  {
    forall x | x in paths && Under(p, x) ensures false { AncestorIn(paths, p, x); }
  }

  /** Every behaviour-defining node at or below `r` gets the prefix joined to its template. */
  method PrefixRouteTemplates(layer: Layer, prefix: string, ghost sn: Nodes, ghost r: Path)
    requires Represents(sn) && r in sn && layer == sn[r]
    modifies sn.Values
    ensures Represents(sn)
    ensures View(sn) == PrefixedAt(old(View(sn)), prefix, Below(sn.Keys, r))
    ensures forall p :: p in sn ==> sn[p].routes == old(sn[p].routes) && sn[p].fallback == old(sn[p].fallback)
    decreases Below(sn.Keys, r), 1
  {
    hide Forms, PrefixedNode;
    ghost var t := View(sn);
    ChildrenAt(sn, CellsOf(sn), r);
    ghost var keys := layer.routes.Keys;
    EdgesCover(sn, r, CellsOf(sn)[r]);
    Rewrite(layer, PrefixedNode(layer.node, prefix), sn, r);
    assert View(sn) == PrefixedAt(t, prefix, Part(sn.Keys, r, {}));
    PrefixChild(layer, Wild, prefix, sn, r);
    PartGrows(sn.Keys, r, {}, Wild);
    PrefixedTwice(t, prefix, Part(sn.Keys, r, {}), Below(sn.Keys, Step(r, Wild)));
    var left := layer.routes.Keys;
    assert EdgesDone(keys, left) == {} + {Wild};
    while left != {}
      invariant Represents(sn) && left <= keys
      invariant View(sn) == PrefixedAt(t, prefix, Part(sn.Keys, r, EdgesDone(keys, left)))
      invariant forall p :: p in sn ==> sn[p].routes == old(sn[p].routes) && sn[p].fallback == old(sn[p].fallback)
      decreases left
    {
      var w :| w in left;
      PrefixChild(layer, Lit(w), prefix, sn, r);
      EdgesDoneStep(keys, left, w);
      PartGrows(sn.Keys, r, EdgesDone(keys, left), Lit(w));
      PrefixedTwice(t, prefix, Part(sn.Keys, r, EdgesDone(keys, left)), Below(sn.Keys, Step(r, Lit(w))));
      left := left - {w};
    }
    PartWhole(sn.Keys, r, EdgesDone(keys, {}));
  }
}
