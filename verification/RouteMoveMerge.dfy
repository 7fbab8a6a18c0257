/** The destructive merge of one layer tree into another
    (src/route/http_route_table_mount.cc:107-162). */
module RouteMoveMerge {
  import opened Text
  import opened RouteTarget
  import opened RouteTree
  import opened RouteLayer
  import opened RouteMerge

  /** A destination layer after a source layer was merged into it: source children the destination
      lacks are taken over as they are. */
  function MergeCell(d: Cell, s: Cell): Cell {
    Cell(MergeNode(d.node, s.node), s.routes + d.routes, if d.fallback != null then d.fallback else s.fallback)
  }

  /** The destination position `p` is where a source position of `zone` goes. */
  ghost predicate Meets(pre: seq<string>, p: Path, zone: set<Path>) {
    Grafted(pre, p) && Ungraft(pre, p) in zone
  }

  /** State of destination layer `p` once source positions `zone` are merged, starting from `now`. */
  ghost function AfterMerge(now: Cell, dc: Cells, sc: Cells, pre: seq<string>, p: Path, zone: set<Path>): Cell {
    if Meets(pre, p, zone) && p in dc && Ungraft(pre, p) in sc then MergeCell(dc[p], sc[Ungraft(pre, p)]) else now
  }

  /** In states `d` and `s`, source positions `zone` and the positions they go to still hold their
      first states. */
  ghost predicate Untouched(d: Cells, s: Cells, dc: Cells, sc: Cells, pre: seq<string>, zone: set<Path>)
    requires d.Keys == dc.Keys && s.Keys == sc.Keys
  {
    && (forall x :: x in zone && x in s ==> s[x] == sc[x])
    && (forall p :: p in d && Meets(pre, p, zone) ==> d[p] == dc[p])
  }

  /** From states `d0`, `s0` to `d`, `s` exactly the destination layers that meet `zone` changed, to
      their merged states, `g` aside; source layers outside `zone`, and those with no counterpart, are
      as before. */
  ghost predicate Stage(d0: Cells, s0: Cells, d: Cells, s: Cells, dc: Cells, sc: Cells, pre: seq<string>, g: Path,
                        zone: set<Path>) {
    && d.Keys == d0.Keys && s.Keys == s0.Keys
    && (forall p :: p in d && p != g ==> d[p] == AfterMerge(d0[p], dc, sc, pre, p, zone))
    && (forall x :: x in s && (x !in zone || Graft(pre, x) !in d) ==> s[x] == s0[x])
  }

  /** As `Stage`, for every destination layer. */
  ghost predicate Whole(d0: Cells, s0: Cells, d: Cells, s: Cells, dc: Cells, sc: Cells, pre: seq<string>,
                        zone: set<Path>) {
    && d.Keys == d0.Keys && s.Keys == s0.Keys
    && (forall p :: p in d ==> d[p] == AfterMerge(d0[p], dc, sc, pre, p, zone))
    && (forall x :: x in s && (x !in zone || Graft(pre, x) !in d) ==> s[x] == s0[x])
  }

  lemma {:induction false} WholeIsStage(d0: Cells, s0: Cells, d: Cells, s: Cells, dc: Cells, sc: Cells,
                                        pre: seq<string>,
                                        r: Path, e: Edge, zone: set<Path>)
    requires Whole(d0, s0, d, s, dc, sc, pre, zone) && Graft(pre, r) in d && r in s && r !in zone
    requires !Meets(pre, Graft(pre, r), zone)
    ensures Stage(d0, s0, d, s, dc, sc, pre, Graft(pre, r), zone)
    ensures d[Graft(pre, r)] == d0[Graft(pre, r)] && s[r] == s0[r]
  {
  }

  /** Where nothing meets, changing only the layer at `g` is a stage. */
  lemma {:induction false} IdleStage(d0: Cells, s0: Cells, d: Cells, s: Cells, dc: Cells, sc: Cells, pre: seq<string>,
                                     g: Path, zone: set<Path>)
    requires d.Keys == d0.Keys && s == s0
    requires forall p :: p in d && p != g ==> d[p] == d0[p]
    requires forall p :: p in d0 ==> !Meets(pre, p, zone)
    ensures Stage(d0, s0, d, s, dc, sc, pre, g, zone)
  {
  }

  lemma {:induction false} StageNext(d0: Cells, s0: Cells, d1: Cells, s1: Cells, d: Cells, s: Cells,
                                     dc: Cells, sc: Cells, pre: seq<string>, g: Path, a: set<Path>, b: set<Path>)
    requires Stage(d0, s0, d1, s1, dc, sc, pre, g, a) && Stage(d1, s1, d, s, dc, sc, pre, g, b)
    ensures Stage(d0, s0, d, s, dc, sc, pre, g, a + b)
  {
  }

  lemma {:induction false} StageLeaves(d0: Cells, s0: Cells, d: Cells, s: Cells, dc: Cells, sc: Cells,
                                       pre: seq<string>, g: Path,
                                       done: set<Path>, all: set<Path>, next: set<Path>)
    requires Stage(d0, s0, d, s, dc, sc, pre, g, done)
    requires d0.Keys == dc.Keys && s0.Keys == sc.Keys && Untouched(d0, s0, dc, sc, pre, all)
    requires next <= all && next !! done && !Meets(pre, g, next)
    ensures Untouched(d, s, dc, sc, pre, next)
  {
  }

  ghost predicate Apart(dn: Nodes, sn: Nodes) {
    forall p, q :: p in dn && q in sn ==> dn[p] != sn[q]
  }

  /** The two trees, their first states, and where they meet. */
  ghost predicate Trees(dn: Nodes, sn: Nodes, dc: Cells, sc: Cells) {
    Forms(dn, dc) && Forms(sn, sc) && Apart(dn, sn)
  }

  lemma TreesAt(dn: Nodes, sn: Nodes, dc: Cells, sc: Cells, pre: seq<string>, r: Path)
    requires Trees(dn, sn, dc, sc) && r in sn && Graft(pre, r) in dn
    ensures dc.Keys == dn.Keys && sc.Keys == sn.Keys
    ensures LinkedAt(dn, Graft(pre, r), dc[Graft(pre, r)]) && LinkedAt(sn, r, sc[r])
    ensures forall p :: p in dn ==> (dn[p] == dn[Graft(pre, r)] <==> p == Graft(pre, r)) && dn[p] != sn[r]
    ensures forall x :: x in sn ==> (sn[x] == sn[r] <==> x == r) && sn[x] != dn[Graft(pre, r)]
  {
  }

  /** Where the destination has no child along `e`, nothing of it meets the source's subtree there. */
  lemma {:induction false} NothingMeets(dn: Nodes, dc: Cells, sn: Nodes, pre: seq<string>, r: Path, e: Edge)
    requires Forms(dn, dc) && Graft(pre, Step(r, e)) !in dn
    ensures forall p :: p in dn ==> !Meets(pre, p, Below(sn.Keys, Step(r, e)))
  {
    forall p | p in dn ensures !Meets(pre, p, Below(sn.Keys, Step(r, e))) {
      if Meets(pre, p, Below(sn.Keys, Step(r, e))) {
        GraftMonotone(pre, Step(r, e), Ungraft(pre, p));
        AncestorIn(dn.Keys, Graft(pre, Step(r, e)), p);
      }
    }
  }

  /** The mount position of `r` itself does not meet the subtrees below `r`. */
  lemma {:induction false} RootApart(sn: Nodes, pre: seq<string>, r: Path, e: Edge)
    ensures !Meets(pre, Graft(pre, r), Below(sn.Keys, Step(r, e)))
    ensures r !in Below(sn.Keys, Step(r, e))
  {
    UngraftOfGraft(pre, r);
    if r in Below(sn.Keys, Step(r, e)) { UnderIsDeeper(Step(r, e), r); }
  }

  /** Merge the subtrees along one edge: take the source's child over, or merge it into the
      destination's. */
  method MergeChild(dst: Layer, src: Layer, e: Edge, ghost dn: Nodes, ghost sn: Nodes,
                    ghost dc: Cells, ghost sc: Cells, ghost pre: seq<string>, ghost r: Path)
    requires Trees(dn, sn, dc, sc) && dc.Keys == dn.Keys && sc.Keys == sn.Keys
    requires r in sn && src == sn[r] && Graft(pre, r) in dn && dst == dn[Graft(pre, r)]
    requires Untouched(CellsOf(dn), CellsOf(sn), dc, sc, pre, Below(sn.Keys, Step(r, e)))
    requires ChildOf(dst.Now(), e) == ChildOf(dc[Graft(pre, r)], e) && ChildOf(src.Now(), e) == ChildOf(sc[r], e)
    modifies dn.Values, sn.Values
    ensures Stage(old(CellsOf(dn)), old(CellsOf(sn)), CellsOf(dn), CellsOf(sn), dc, sc, pre, Graft(pre, r),
                  Below(sn.Keys, Step(r, e)))
    ensures dst.Now() == if Step(r, e) in sn && Graft(pre, Step(r, e)) !in dn
                         then WithChild(old(dst.Now()), e, sn[Step(r, e)]) else old(dst.Now())
    ensures src.Now() == old(src.Now())
    decreases Below(sn.Keys, r), 0, 0
  {
    hide Trees, AfterMerge, Untouched, Stage, Whole, Meets, Below;
    ghost var d0, s0, g, zone := CellsOf(dn), CellsOf(sn), Graft(pre, r), Below(sn.Keys, Step(r, e));
    TreesAt(dn, sn, dc, sc, pre, r);
    RootApart(sn, pre, r, e);
    assert Graft(pre, Step(r, e)) == Step(Graft(pre, r), e);
    var srcChild := src.Child(e);
    var dstChild := dst.Child(e);
    if srcChild != null && dstChild != null {
      BelowChildSmaller(sn.Keys, r, e);
      MoveMergeLayer(dstChild, srcChild, dn, sn, dc, sc, pre, Step(r, e));
      WholeIsStage(d0, s0, CellsOf(dn), CellsOf(sn), dc, sc, pre, r, e, zone);
    } else {
      TakeChild(dst, srcChild, e, dn, sn, dc, sc, pre, r);
    }
  }

  /** Take over the source's child along `e`, if it has one and the destination has none. */
  method TakeChild(dst: Layer, srcChild: Layer?, e: Edge, ghost dn: Nodes, ghost sn: Nodes,
                   ghost dc: Cells, ghost sc: Cells, ghost pre: seq<string>, ghost r: Path)
    requires Trees(dn, sn, dc, sc) && dc.Keys == dn.Keys && sc.Keys == sn.Keys
    requires r in sn && Graft(pre, r) in dn && dst == dn[Graft(pre, r)]
    requires srcChild == ChildAt(sn, r, e) && (srcChild == null || Graft(pre, Step(r, e)) !in dn)
    modifies dst
    ensures Stage(old(CellsOf(dn)), old(CellsOf(sn)), CellsOf(dn), CellsOf(sn), dc, sc, pre, Graft(pre, r),
                  Below(sn.Keys, Step(r, e)))
    ensures dst.Now() == if srcChild != null then WithChild(old(dst.Now()), e, srcChild) else old(dst.Now())
  {
    hide Trees, AfterMerge, Stage, Meets, Below, WithChild;
    ghost var d0, s0 := CellsOf(dn), CellsOf(sn);
    TreesAt(dn, sn, dc, sc, pre, r);
    NotMerged(dn, sn, dc, sc, pre, r, e);
    if srcChild != null {
      dst.Attach(e, srcChild);
    }
    IdleStage(d0, s0, CellsOf(dn), CellsOf(sn), dc, sc, pre, Graft(pre, r), Below(sn.Keys, Step(r, e)));
  }

  /** Without both children nothing meets. */
  lemma {:induction false} NotMerged(dn: Nodes, sn: Nodes, dc: Cells, sc: Cells, pre: seq<string>, r: Path, e: Edge)
    requires Trees(dn, sn, dc, sc)
    requires Step(r, e) !in sn || Graft(pre, Step(r, e)) !in dn
    ensures forall p :: p in dn ==> !Meets(pre, p, Below(sn.Keys, Step(r, e)))
  {
    if Step(r, e) !in sn {
      NothingBelow(sn.Keys, Step(r, e));
    } else {
      NothingMeets(dn, dc, sn, pre, r, e);
    }
  }

  /** What the merge leaves in a source node: its handler and aspects have moved on. */
  function Drained(n: Node): Node {
    n.(handler := None, aspects := [], terminals := [])
  }

  lemma {:induction false} RoutesStep(sr: map<string, Layer>, dr: map<string, Layer>, left: set<string>, w: string)
    requires w in left && left <= sr.Keys
    ensures (sr - (left - {w})) + dr == if w in dr then (sr - left) + dr else ((sr - left) + dr)[w := sr[w]]
  {
  }

  /** The layers at `r` and at its mount position are the first stage. */
  lemma {:induction false} FirstStage(d0: Cells, s0: Cells, d: Cells, s: Cells, dc: Cells, sc: Cells,
                                      pre: seq<string>, r: Path, zone: set<Path>)
    requires d.Keys == d0.Keys && s.Keys == s0.Keys && zone == {r} && Graft(pre, r) in d
    requires forall p :: p in d && p != Graft(pre, r) ==> d[p] == d0[p]
    requires forall x :: x in s && x != r ==> s[x] == s0[x]
    ensures Stage(d0, s0, d, s, dc, sc, pre, Graft(pre, r), zone)
  {
  }

  /** All stages together. */
  lemma {:induction false} LastStage(d0: Cells, s0: Cells, d: Cells, s: Cells, s': Cells, dc: Cells, sc: Cells,
                                     pre: seq<string>, r: Path, zone: set<Path>)
    requires Stage(d0, s0, d, s, dc, sc, pre, Graft(pre, r), zone) && r in zone
    requires Graft(pre, r) in d && Graft(pre, r) in dc && r in sc && d[Graft(pre, r)] == MergeCell(dc[Graft(pre, r)], sc[r])
    requires s'.Keys == s.Keys && (forall x :: x in s && x != r ==> s'[x] == s[x])
    ensures Whole(d0, s0, d, s', dc, sc, pre, zone)
  {
    UngraftOfGraft(pre, r);
  }

  /** The destination layer part way through the source's literal children. */
  function Partway(d: Cell, s: Cell, left: set<string>): Cell {
    Cell(MergeNode(d.node, s.node), (s.routes - left) + d.routes, if d.fallback != null then d.fallback else s.fallback)
  }

  /** One more child merged on the way from states `d0`, `s0`. */
  method MergeNextChild(dst: Layer, src: Layer, e: Edge, ghost dn: Nodes, ghost sn: Nodes, ghost dc: Cells,
                        ghost sc: Cells,
                        ghost pre: seq<string>, ghost r: Path, ghost d0: Cells, ghost s0: Cells, ghost edges: set<Edge>)
    requires Trees(dn, sn, dc, sc) && dc.Keys == dn.Keys == d0.Keys && sc.Keys == sn.Keys == s0.Keys
    requires r in sn && src == sn[r] && Graft(pre, r) in dn && dst == dn[Graft(pre, r)]
    requires Untouched(d0, s0, dc, sc, pre, Below(sn.Keys, r)) && e !in edges
    requires Stage(d0, s0, CellsOf(dn), CellsOf(sn), dc, sc, pre, Graft(pre, r), Part(sn.Keys, r, edges))
    requires ChildOf(dst.Now(), e) == ChildOf(dc[Graft(pre, r)], e) && ChildOf(src.Now(), e) == ChildOf(sc[r], e)
    modifies dn.Values, sn.Values
    ensures Stage(d0, s0, CellsOf(dn), CellsOf(sn), dc, sc, pre, Graft(pre, r), Part(sn.Keys, r, edges + {e}))
    ensures dst.Now() == if Step(r, e) in sn && Graft(pre, Step(r, e)) !in dn
                         then WithChild(old(dst.Now()), e, sn[Step(r, e)]) else old(dst.Now())
    ensures src.Now() == old(src.Now())
    decreases Below(sn.Keys, r), 0, 1
  {
    hide Trees, AfterMerge, Stage, Untouched, Part, Meets;
    ghost var d1, s1, next := CellsOf(dn), CellsOf(sn), Below(sn.Keys, Step(r, e));
    RootApart(sn, pre, r, e);
    PartGrows(sn.Keys, r, edges, e);
    BelowChildSmaller(sn.Keys, r, e);
    StageLeaves(d0, s0, d1, s1, dc, sc, pre, Graft(pre, r), Part(sn.Keys, r, edges), Below(sn.Keys, r), next);
    MergeChild(dst, src, e, dn, sn, dc, sc, pre, r);
    StageNext(d0, s0, d1, s1, CellsOf(dn), CellsOf(sn), dc, sc, pre, Graft(pre, r), Part(sn.Keys, r, edges), next);
  }

  lemma {:induction false} FirstStates(d0: Cells, s0: Cells, dc: Cells, sc: Cells, pre: seq<string>, r: Path,
                                       all: set<Path>)
    requires d0.Keys == dc.Keys && s0.Keys == sc.Keys && Untouched(d0, s0, dc, sc, pre, all)
    requires r in all && r in sc && Graft(pre, r) in dc
    ensures s0[r] == sc[r] && d0[Graft(pre, r)] == dc[Graft(pre, r)]
  {
    UngraftOfGraft(pre, r);
  }

  /** Merge the source tree at `r` into the destination tree at its mount position: exactly the
      destination layers met by source positions below `r` change, each to its merged state. */
  method MoveMergeLayer(dst: Layer, src: Layer, ghost dn: Nodes, ghost sn: Nodes,
                        ghost dc: Cells, ghost sc: Cells, ghost pre: seq<string>, ghost r: Path)
    requires Trees(dn, sn, dc, sc) && dc.Keys == dn.Keys && sc.Keys == sn.Keys
    requires r in sn && src == sn[r] && Graft(pre, r) in dn && dst == dn[Graft(pre, r)]
    requires Untouched(CellsOf(dn), CellsOf(sn), dc, sc, pre, Below(sn.Keys, r))
    modifies dn.Values, sn.Values
    ensures Whole(old(CellsOf(dn)), old(CellsOf(sn)), CellsOf(dn), CellsOf(sn), dc, sc, pre, Below(sn.Keys, r))
    decreases Below(sn.Keys, r), 1
  {
    hide Trees, MergeNode, AfterMerge, Stage, Whole, Untouched, Part, EdgesDone, Partway, WithChild, ChildOf;
    ghost var d0, s0, g, keys := CellsOf(dn), CellsOf(sn), Graft(pre, r), sc[r].routes.Keys;
    MergeContents(dst, src, dn, sn, dc, sc, pre, r);
    PartwayStart(dn, sn, dc, sc, pre, r);
    MergeNextChild(dst, src, Wild, dn, sn, dc, sc, pre, r, d0, s0, {});
    EdgesStart(sn.Keys, r, keys);
    var left := src.routes.Keys;
    while left != {}
      invariant left <= keys && src.Now() == sc[r].(node := Drained(sc[r].node))
      invariant Stage(d0, s0, CellsOf(dn), CellsOf(sn), dc, sc, pre, g, Part(sn.Keys, r, EdgesDone(keys, left)))
      invariant dst.Now() == Partway(dc[g], sc[r], left)
      decreases left
    {
      var w :| w in left;
      EdgesDoneStep(keys, left, w);
      PartwayStep(dn, sn, dc, sc, pre, r, left, w);
      MergeNextChild(dst, src, Lit(w), dn, sn, dc, sc, pre, r, d0, s0, EdgesDone(keys, left));
      left := left - {w};
    }
    AllStages(dn, sn, dc, sc, r);
    ClearSource(dst, src, dn, sn, dc, sc, pre, r, d0, s0);
  }

  /** Merge what the two layers hold themselves, children aside. */
  method MergeContents(dst: Layer, src: Layer, ghost dn: Nodes, ghost sn: Nodes,
                       ghost dc: Cells, ghost sc: Cells, ghost pre: seq<string>, ghost r: Path)
    requires Trees(dn, sn, dc, sc) && dc.Keys == dn.Keys && sc.Keys == sn.Keys
    requires r in sn && src == sn[r] && Graft(pre, r) in dn && dst == dn[Graft(pre, r)]
    requires Untouched(CellsOf(dn), CellsOf(sn), dc, sc, pre, Below(sn.Keys, r))
    modifies dst, src
    ensures Stage(old(CellsOf(dn)), old(CellsOf(sn)), CellsOf(dn), CellsOf(sn), dc, sc, pre, Graft(pre, r), Part(sn.Keys, r, {}))
    ensures dst.Now() == dc[Graft(pre, r)].(node := MergeNode(dc[Graft(pre, r)].node, sc[r].node))
    ensures src.Now() == sc[r].(node := Drained(sc[r].node))
  {
    hide Trees, MergeNode, AfterMerge, Stage, Untouched, Part;
    ghost var d0, s0 := CellsOf(dn), CellsOf(sn);
    TreesAt(dn, sn, dc, sc, pre, r);
    FirstStates(d0, s0, dc, sc, pre, r, Below(sn.Keys, r));
    dst.node := MergeNode(dst.node, src.node);
    src.node := Drained(src.node);
    EdgesStart(sn.Keys, r, {});
    FirstStage(d0, s0, CellsOf(dn), CellsOf(sn), dc, sc, pre, r, Part(sn.Keys, r, {}));
  }

  /** The source layer gives up its children. */
  method ClearSource(dst: Layer, src: Layer, ghost dn: Nodes, ghost sn: Nodes, ghost dc: Cells, ghost sc: Cells,
                     ghost pre: seq<string>, ghost r: Path, ghost d0: Cells, ghost s0: Cells)
    requires Trees(dn, sn, dc, sc) && dc.Keys == dn.Keys && sc.Keys == sn.Keys
    requires r in sn && src == sn[r] && Graft(pre, r) in dn && dst == dn[Graft(pre, r)]
    requires Stage(d0, s0, CellsOf(dn), CellsOf(sn), dc, sc, pre, Graft(pre, r), Below(sn.Keys, r))
    requires dst.Now() == MergeCell(dc[Graft(pre, r)], sc[r])
    modifies src
    ensures Whole(d0, s0, CellsOf(dn), CellsOf(sn), dc, sc, pre, Below(sn.Keys, r))
  {
    hide Trees, MergeNode, AfterMerge, Stage, Whole;
    ghost var d1, s1 := CellsOf(dn), CellsOf(sn);
    TreesAt(dn, sn, dc, sc, pre, r);
    src.routes, src.fallback := map[], null;
    assert CellsOf(dn) == d1;
    LastStage(d0, s0, CellsOf(dn), s1, CellsOf(sn), dc, sc, pre, r, Below(sn.Keys, r));
  }

  lemma {:induction false} EdgesStart(paths: set<Path>, r: Path, keys: set<string>)
    ensures Part(paths, r, {}) == {r}
    ensures EdgesDone(keys, keys) == {} + {Wild}
  {
  }

  /** Before the literal children: the parameter child decides the fallback. */
  lemma {:induction false} PartwayStart(dn: Nodes, sn: Nodes, dc: Cells, sc: Cells, pre: seq<string>, r: Path)
    requires Trees(dn, sn, dc, sc) && r in sn && Graft(pre, r) in dn && dc.Keys == dn.Keys && sc.Keys == sn.Keys
    ensures var g := Graft(pre, r);
            var c := dc[g].(node := MergeNode(dc[g].node, sc[r].node));
            && ChildOf(c, Wild) == ChildOf(dc[g], Wild)
            && ChildOf(sc[r].(node := Drained(sc[r].node)), Wild) == ChildOf(sc[r], Wild)
            && Partway(dc[g], sc[r], sc[r].routes.Keys) ==
                 (if Step(r, Wild) in sn && Graft(pre, Step(r, Wild)) !in dn then WithChild(c, Wild, sn[Step(r, Wild)]) else c)
            && Partway(dc[g], sc[r], {}) == MergeCell(dc[g], sc[r])
  {
    var g := Graft(pre, r);
    TreesAt(dn, sn, dc, sc, pre, r);
    assert (sc[r].routes - sc[r].routes.Keys) + dc[g].routes == dc[g].routes;
    assert sc[r].routes - {} == sc[r].routes;
  }

  lemma {:induction false} PartwayStep(dn: Nodes, sn: Nodes, dc: Cells, sc: Cells, pre: seq<string>, r: Path,
                                       left: set<string>, w: string)
    requires Trees(dn, sn, dc, sc) && r in sn && Graft(pre, r) in dn && dc.Keys == dn.Keys && sc.Keys == sn.Keys
    requires w in left && left <= sc[r].routes.Keys
    ensures var c := Partway(dc[Graft(pre, r)], sc[r], left);
            && ChildOf(c, Lit(w)) == ChildOf(dc[Graft(pre, r)], Lit(w))
            && ChildOf(sc[r].(node := Drained(sc[r].node)), Lit(w)) == ChildOf(sc[r], Lit(w))
            && Partway(dc[Graft(pre, r)], sc[r], left - {w}) ==
                 if Step(r, Lit(w)) in sn && Graft(pre, Step(r, Lit(w))) !in dn then WithChild(c, Lit(w), sn[Step(r, Lit(w))]) else c
  {
    var g := Graft(pre, r);
    TreesAt(dn, sn, dc, sc, pre, r);
    assert Graft(pre, Step(r, Lit(w))) == Step(g, Lit(w));
    RoutesStep(sc[r].routes, dc[g].routes, left, w);
  }

  lemma {:induction false} AllStages(dn: Nodes, sn: Nodes, dc: Cells, sc: Cells, r: Path)
    requires Trees(dn, sn, dc, sc) && r in sn
    ensures Part(sn.Keys, r, EdgesDone(sc[r].routes.Keys, {})) == Below(sn.Keys, r) && r in Below(sn.Keys, r)
  {
    assert LinkedAt(sn, r, sc[r]);
    EdgesCover(sn, r, sc[r]);
    PartWhole(sn.Keys, r, EdgesDone(sc[r].routes.Keys, {}));
  }
}
