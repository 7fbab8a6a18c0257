/** Both passes of a mount over all method buckets (src/route/http_route_table_mount.cc:227-277). */
module RouteMount {
  import opened RouteTarget
  import opened RouteTree
  import opened RouteLayer
  import opened RouteMerge
  import opened RouteMoveMerge
  import opened RouteHistory

  // ----- the merged layers form the merged forest -----

  /** Destination layers stay; source layers without a counterpart move over. */
  ghost function MergedNodes(dn: Nodes, sn: Nodes, pre: seq<string>): Nodes {
    map p | p in MergedPaths(dn.Keys, sn.Keys, pre, METHODS) && (p in dn || Meets(pre, p, sn.Keys)) ::
      if p in dn then dn[p] else sn[Ungraft(pre, p)]
  }

  ghost function MergedCells(dc: Cells, sc: Cells, pre: seq<string>): Cells {
    map p | p in MergedPaths(dc.Keys, sc.Keys, pre, METHODS) && (p in dc || Meets(pre, p, sc.Keys)) ::
      if p in dc then AfterMerge(dc[p], dc, sc, pre, p, sc.Keys) else sc[Ungraft(pre, p)]
  }

  /** Positions of the merged forest. */
  lemma {:induction false} MergedHas(dn: Nodes, sn: Nodes, pre: seq<string>)
    requires Shaped(sn)
    ensures forall p :: p in MergedNodes(dn, sn, pre) <==> p in dn || Meets(pre, p, sn.Keys)
    ensures forall x :: Meets(pre, Graft(pre, x), sn.Keys) <==> x in sn
  {
    forall p | Meets(pre, p, sn.Keys) ensures p in MergedPaths(dn.Keys, sn.Keys, pre, METHODS) {
      BucketInRange(sn.Keys, Ungraft(pre, p));
    }
    forall x ensures Meets(pre, Graft(pre, x), sn.Keys) <==> x in sn { UngraftOfGraft(pre, x); }
  }

  /** A child position meets the source exactly when the source has that child, or it is a mount
      position. */
  lemma {:induction false} MeetsChild(sn: Nodes, pre: seq<string>, p: Path, e: Edge)
    requires Shaped(sn)
    ensures Meets(pre, p, sn.Keys) ==> (Meets(pre, Step(p, e), sn.Keys) <==> Step(Ungraft(pre, p), e) in sn)
    ensures Meets(pre, p, sn.Keys) && Meets(pre, Step(p, e), sn.Keys) ==>
              Ungraft(pre, Step(p, e)) == Step(Ungraft(pre, p), e)
    ensures Meets(pre, Step(p, e), sn.Keys) && !Meets(pre, p, sn.Keys) ==> Ungraft(pre, Step(p, e)).Root?
  {
    if Meets(pre, p, sn.Keys) {
      var x := Ungraft(pre, p);
      assert Graft(pre, Step(x, e)) == Step(p, e);
      UngraftOfGraft(pre, Step(x, e));
    } else if Meets(pre, Step(p, e), sn.Keys) {
      var x := Ungraft(pre, Step(p, e));
      if x.Step? {
        assert x == Step(x.up, x.edge);
        UngraftOfGraft(pre, x.up);
      }
    }
  }

  /** Mount positions exist in every bucket of the destination. */
  ghost predicate MountPresent(dn: Nodes, pre: seq<string>) {
    forall m: nat :: m < METHODS ==> PathFrom(Root(m), pre) in dn
  }

  /** A merged position's child is the destination's, or else the source's where they meet. */
  lemma {:induction false} MergedChildAt(dn: Nodes, sn: Nodes, pre: seq<string>, p: Path, e: Edge)
    requires Shaped(dn) && Shaped(sn) && MountPresent(dn, pre)
    ensures ChildAt(MergedNodes(dn, sn, pre), p, e) ==
              if ChildAt(dn, p, e) != null || !Meets(pre, p, sn.Keys) then ChildAt(dn, p, e)
              else ChildAt(sn, Ungraft(pre, p), e)
  {
    MergedHas(dn, sn, pre);
    MeetsChild(sn, pre, p, e);
  }

  lemma {:induction false} MergedLinkedAt(dn: Nodes, sn: Nodes, dc: Cells, sc: Cells, pre: seq<string>, p: Path)
    requires Trees(dn, sn, dc, sc) && MountPresent(dn, pre) && (p in dn || Meets(pre, p, sn.Keys))
    ensures LinkedAt(MergedNodes(dn, sn, pre), p,
                     if p in dc then AfterMerge(dc[p], dc, sc, pre, p, sc.Keys) else sc[Ungraft(pre, p)])
  {
    hide MergedNodes;
    var c := if p in dc then AfterMerge(dc[p], dc, sc, pre, p, sc.Keys) else sc[Ungraft(pre, p)];
    assert dc.Keys == dn.Keys && sc.Keys == sn.Keys;
    forall e ensures ChildOf(c, e) == ChildAt(MergedNodes(dn, sn, pre), p, e) {
      MergedChildAt(dn, sn, pre, p, e);
      if p in dn {
        assert LinkedAt(dn, p, dc[p]);
        EdgesOfLinked(dn, p, dc[p], e);
      }
      if Meets(pre, p, sn.Keys) {
        assert LinkedAt(sn, Ungraft(pre, p), sc[Ungraft(pre, p)]);
        EdgesOfLinked(sn, Ungraft(pre, p), sc[Ungraft(pre, p)], e);
      }
    }
    LinkedByEdges(MergedNodes(dn, sn, pre), p, c);
  }

  lemma {:induction false} MergedShaped(dn: Nodes, sn: Nodes, dc: Cells, sc: Cells, pre: seq<string>)
    requires Trees(dn, sn, dc, sc) && MountPresent(dn, pre)
    ensures Shaped(MergedNodes(dn, sn, pre))
  {
    var nodes := MergedNodes(dn, sn, pre);
    MergedHas(dn, sn, pre);
    forall p, e | Step(p, e) in nodes ensures p in nodes {
      MeetsChild(sn, pre, p, e);
    }
    forall m: nat ensures m < METHODS <==> Root(m) in nodes {
      if Meets(pre, Root(m), sn.Keys) { BucketInRange(sn.Keys, Ungraft(pre, Root(m))); }
    }
  }

  lemma {:induction false} MergedForms(dn: Nodes, sn: Nodes, dc: Cells, sc: Cells, pre: seq<string>)
    requires Trees(dn, sn, dc, sc) && MountPresent(dn, pre)
    ensures Forms(MergedNodes(dn, sn, pre), MergedCells(dc, sc, pre))
  {
    hide LinkedAt, Shaped, AfterMerge, Apart;
    var nodes, cells := MergedNodes(dn, sn, pre), MergedCells(dc, sc, pre);
    MergedShaped(dn, sn, dc, sc, pre);
    assert nodes.Keys == cells.Keys;
    forall p | p in nodes ensures LinkedAt(nodes, p, cells[p]) { MergedLinkedAt(dn, sn, dc, sc, pre, p); }
  }

  lemma {:induction false} MergedViewAt(dn: Nodes, sn: Nodes, dc: Cells, sc: Cells, pre: seq<string>, p: Path)
    requires Trees(dn, sn, dc, sc)
    ensures p in MergedCells(dc, sc, pre) <==> p in Merged(Forget(dc), Forget(sc), pre, METHODS)
    ensures p in MergedCells(dc, sc, pre) ==>
              MergedCells(dc, sc, pre)[p].node == Merged(Forget(dc), Forget(sc), pre, METHODS)[p]
  {
    assert Forget(dc).Keys == dc.Keys == dn.Keys && Forget(sc).Keys == sc.Keys == sn.Keys;
    if p in MergedPaths(dc.Keys, sc.Keys, pre, METHODS) && p !in dc {
      var x :| x in sc && Graft(pre, x) == p;
      UngraftOfGraft(pre, x);
    }
    if Meets(pre, p, sn.Keys) { BucketInRange(sn.Keys, Ungraft(pre, p)); }
  }

  /** The merged layers hold the merged forest. */
  lemma {:induction false} MergedView(dn: Nodes, sn: Nodes, dc: Cells, sc: Cells, pre: seq<string>)
    requires Trees(dn, sn, dc, sc)
    ensures Forget(MergedCells(dc, sc, pre)) == Merged(Forget(dc), Forget(sc), pre, METHODS)
  {
    hide Merged, MergedCells, Trees;
    forall p { MergedViewAt(dn, sn, dc, sc, pre, p); }
  }

  // ----- first pass: prefix templates, make the mount positions, check for conflicts -----

  lemma {:induction false} ApartValues(dn: Nodes, sn: Nodes)
    requires dn.Values !! sn.Values
    ensures Apart(dn, sn)
  {
    forall p, q | p in dn && q in sn ensures dn[p] != sn[q] {
      assert dn[p] in dn.Values && sn[q] in sn.Values;
    }
  }

  /** One bucket of the first pass. */
  method CheckBucket(root: Layer, srcRoot: Layer, prefix: string, m: nat, ghost dn0: Nodes, ghost sn: Nodes)
    returns (ok: bool, ghost dn: Nodes)
    requires Represents(dn0) && Represents(sn) && dn0.Values !! sn.Values
    requires Root(m) in dn0 && root == dn0[Root(m)] && Root(m) in sn && srcRoot == sn[Root(m)]
    modifies dn0.Values, sn.Values
    ensures Represents(dn) && Represents(sn) && dn.Values !! sn.Values
    ensures View(dn) == GrowTo(old(View(dn0)), m, Segments(prefix))
    ensures View(sn) == PrefixedAt(old(View(sn)), prefix, Below(sn.Keys, Root(m)))
    ensures ok <==> NoConflict(View(dn), View(sn), Segments(prefix), Root(m))
    ensures forall p :: p in dn0 ==> p in dn && dn[p] == dn0[p]
    ensures forall p :: p in dn && p !in dn0 ==> fresh(dn[p])
  {
    hide Represents, View, NoConflict, Below, PrefixedAt, Grow;
    PrefixRouteTemplates(srcRoot, prefix, sn, Root(m));
    var segments := SplitTargetSegments(prefix);
    var mountRoot;
    mountRoot, dn := GetOrCreate(root, segments, dn0, Root(m));
    ok := CanMergeLayer(mountRoot, srcRoot, dn, sn, segments, Root(m));
  }

  lemma {:induction false} GrowAnother(t: Forest, pre: seq<string>, m: nat)
    ensures GrowTo(Grow(t, MountTrail(pre, m)), m, pre) == Grow(t, MountTrail(pre, m + 1))
    ensures Grow(t, MountTrail(pre, 0)) == t
  {
  }

  lemma {:induction false} BucketIsBelow(m: nat, x: Path)
    ensures Under(Root(m), x) <==> Bucket(x) == m
  {
    if x.Step? { BucketIsBelow(m, x.up); }
  }

  lemma {:induction false} PrefixAnother(s: Forest, prefix: string, m: nat)
    ensures PrefixedAt(Prefixed(s, prefix, m), prefix, Below(s.Keys, Root(m))) == Prefixed(s, prefix, m + 1)
    ensures Prefixed(s, prefix, 0) == s && Prefixed(s, prefix, m).Keys == s.Keys
  {
    forall x { BucketIsBelow(m, x); }
  }

  /** The check on the grown destination and the prefixed source decides the original trees. */
  lemma {:induction false} CheckDecides(d: Forest, s: Forest, prefix: string, m: nat)
    ensures NoConflict(Grow(d, MountTrail(Segments(prefix), m + 1)), Prefixed(s, prefix, m + 1), Segments(prefix), Root(m))
            <==> Mergeable(d, s, Segments(prefix), m)
  {
    var pre := Segments(prefix);
    var g, s' := Grow(d, MountTrail(pre, m + 1)), Prefixed(s, prefix, m + 1);
    forall x ensures Under(Root(m), x) <==> Bucket(x) == m { BucketIsBelow(m, x); }
    forall x | x in s ensures Terminal(s'[x]) <==> Terminal(s[x]) { }
    forall x ensures Conflicts(g, s', pre, x) <==> Conflicts(d, s, pre, x) { }
    assert NoConflict(g, s', pre, Root(m)) ==> Mergeable(d, s, pre, m) by {
      if NoConflict(g, s', pre, Root(m)) {
        forall x | x in s && Bucket(x) == m && Graft(pre, x) in d ensures !(Terminal(d[Graft(pre, x)]) && Terminal(s[x])) {
          assert !Conflicts(g, s', pre, x);
        }
      }
    }
  }

  /** The first pass over all buckets. It stops at the first conflict, leaving the prefix nodes made so
      far; otherwise every bucket has its mount position and the source its joined templates. */
  method CheckMount(entrance: seq<Layer>, srcEntrance: seq<Layer>, prefix: string, ghost dn0: Nodes, ghost sn: Nodes)
    returns (ok: bool, ghost dn: Nodes)
    requires Represents(dn0) && Represents(sn) && dn0.Values !! sn.Values
    requires |entrance| == |srcEntrance| == METHODS
    requires forall m: nat :: m < METHODS ==>
               Root(m) in dn0 && entrance[m] == dn0[Root(m)] && Root(m) in sn && srcEntrance[m] == sn[Root(m)]
    modifies dn0.Values, sn.Values
    ensures Represents(dn) && Represents(sn) && dn.Values !! sn.Values
    ensures forall p :: p in dn0 ==> p in dn && dn[p] == dn0[p]
    ensures forall p :: p in dn && p !in dn0 ==> fresh(dn[p])
    ensures var k := FirstConflict(old(View(dn0)), old(View(sn)), Segments(prefix), 0);
            && ok == (k == METHODS)
            && View(dn) == Grow(old(View(dn0)), MountTrail(Segments(prefix), if ok then METHODS else k + 1))
            && (ok ==> View(sn) == Prefixed(old(View(sn)), prefix, METHODS))
  {
    hide Represents, View, NoConflict, Below, PrefixedAt, Grow, GrowTo, Prefixed, Mergeable, FirstConflict, MountTrail;
    dn := dn0;
    ghost var d, s, pre := View(dn0), View(sn), Segments(prefix);
    ViewKeys(sn);
    GrowAnother(d, pre, 0);
    PrefixAnother(s, prefix, 0);
    for m := 0 to METHODS
      invariant Represents(dn) && Represents(sn) && dn.Values !! sn.Values
      invariant View(dn) == Grow(d, MountTrail(pre, m)) && View(sn) == Prefixed(s, prefix, m)
      invariant forall p :: p in dn0 ==> p in dn && dn[p] == dn0[p]
      invariant forall p :: p in dn && p !in dn0 ==> fresh(dn[p])
      invariant FirstConflict(d, s, pre, 0) >= m
    {
      ok, dn := CheckBucket(entrance[m], srcEntrance[m], prefix, m, dn, sn);
      GrowAnother(d, pre, m);
      PrefixAnother(s, prefix, m);
      CheckDecides(d, s, prefix, m);
      if !ok {
        return;
      }
    }
    ok := true;
  }

  lemma ViewKeys(nodes: Nodes)
    ensures View(nodes).Keys == nodes.Keys
  {
  }

  // ----- second pass: merge every bucket -----

  /** Find the mount layer again; every layer on the way exists by now. */
  method Locate(root: Layer, segments: seq<string>, ghost dn: Nodes, ghost dc: Cells,
                ghost m: nat) returns (layer: Layer)
    requires Forms(dn, dc) && Root(m) in dn && root == dn[Root(m)] && PathFrom(Root(m), segments) in dn
    requires forall p :: p in dn && Bucket(p) == m ==> dn[p].Now() == dc[p]
    ensures layer == dn[PathFrom(Root(m), segments)]
  {
    layer := root;
    ghost var p := Root(m);
    assert segments[..0] == [] && segments[0..] == segments;
    for i := 0 to |segments|
      invariant p in dn && layer == dn[p] && Bucket(p) == m
      invariant PathFrom(p, segments[i..]) == PathFrom(Root(m), segments)
    {
      assert segments[i..][0] == segments[i] && segments[i..][1..] == segments[i + 1..];
      ghost var k := Step(p, EdgeOf(segments[i]));
      PathFromShape(k, segments[i + 1..]);
      AncestorIn(dn.Keys, k, PathFrom(Root(m), segments));
      assert LinkedAt(dn, p, dc[p]);
      layer := layer.Child(EdgeOf(segments[i]));
      p := k;
    }
  }

  /** Source positions of buckets below `m`. */
  ghost function Buckets(paths: set<Path>, m: nat): set<Path> {
    set x | x in paths && Bucket(x) < m
  }

  lemma {:induction false} NextBucket(paths: set<Path>, m: nat)
    ensures Buckets(paths, m + 1) == Buckets(paths, m) + Below(paths, Root(m))
    ensures Buckets(paths, m) !! Below(paths, Root(m))
    ensures Buckets(paths, 0) == {}
  {
    forall x { BucketIsBelow(m, x); }
  }

  lemma {:induction false} NothingYet(d: Cells, s: Cells, dc: Cells, sc: Cells, pre: seq<string>)
    ensures Whole(d, s, d, s, dc, sc, pre, {})
  {
  }

  lemma {:induction false} WholeNext(d0: Cells, s0: Cells, d1: Cells, s1: Cells, d: Cells, s: Cells,
                                     dc: Cells, sc: Cells, pre: seq<string>, a: set<Path>, b: set<Path>)
    requires Whole(d0, s0, d1, s1, dc, sc, pre, a) && Whole(d1, s1, d, s, dc, sc, pre, b)
    ensures Whole(d0, s0, d, s, dc, sc, pre, a + b)
  {
  }

  /** Merging earlier buckets leaves bucket `m` as it was. */
  lemma {:induction false} LaterBucketUntouched(d: Cells, s: Cells, dc: Cells, sc: Cells, pre: seq<string>, m: nat)
    requires Whole(dc, sc, d, s, dc, sc, pre, Buckets(sc.Keys, m))
    ensures d.Keys == dc.Keys && s.Keys == sc.Keys
    ensures forall p :: p in d && Bucket(p) == m ==> d[p] == dc[p]
    ensures Untouched(d, s, dc, sc, pre, Below(sc.Keys, Root(m)))
  {
    NextBucket(sc.Keys, m);
    forall p | p in d && Bucket(p) == m ensures d[p] == dc[p] && !Meets(pre, p, Buckets(sc.Keys, m)) { }
    forall p | p in d && Meets(pre, p, Below(sc.Keys, Root(m))) ensures d[p] == dc[p] {
      BucketIsBelow(m, Ungraft(pre, p));
    }
  }

  /** One bucket of the second pass. */
  method MergeBucket(root: Layer, srcRoot: Layer, segments: seq<string>, m: nat, ghost dn: Nodes, ghost sn: Nodes,
                     ghost dc: Cells, ghost sc: Cells)
    requires Trees(dn, sn, dc, sc) && MountPresent(dn, segments) && dc.Keys == dn.Keys && sc.Keys == sn.Keys && m < METHODS
    requires Root(m) in dn && root == dn[Root(m)] && Root(m) in sn && srcRoot == sn[Root(m)]
    requires Whole(dc, sc, CellsOf(dn), CellsOf(sn), dc, sc, segments, Buckets(sn.Keys, m))
    modifies dn.Values, sn.Values
    ensures Whole(dc, sc, CellsOf(dn), CellsOf(sn), dc, sc, segments, Buckets(sn.Keys, m + 1))
  {
    hide Whole, Forms, Untouched, Below, Buckets;
    ghost var d1, s1 := CellsOf(dn), CellsOf(sn);
    LaterBucketUntouched(d1, s1, dc, sc, segments, m);
    var mountRoot := Locate(root, segments, dn, dc, m);
    assert Graft(segments, Root(m)) == PathFrom(Root(m), segments);
    MoveMergeLayer(mountRoot, srcRoot, dn, sn, dc, sc, segments, Root(m));
    NextBucket(sn.Keys, m);
    WholeNext(dc, sc, d1, s1, CellsOf(dn), CellsOf(sn), dc, sc, segments, Buckets(sn.Keys, m), Below(sn.Keys, Root(m)));
  }

  /** Once every bucket is merged, the layers are in their merged states. */
  lemma {:induction false} AllMerged(dn: Nodes, sn: Nodes, d: Cells, s: Cells, dc: Cells, sc: Cells, pre: seq<string>)
    requires Trees(dn, sn, dc, sc) && Whole(dc, sc, d, s, dc, sc, pre, Buckets(sn.Keys, METHODS))
    ensures forall p :: p in dn ==> p in d && p in MergedCells(dc, sc, pre) && d[p] == MergedCells(dc, sc, pre)[p]
    ensures forall p :: p in MergedCells(dc, sc, pre) && p !in dn ==>
              Meets(pre, p, sn.Keys) && Ungraft(pre, p) in s && s[Ungraft(pre, p)] == MergedCells(dc, sc, pre)[p]
  {
    assert Buckets(sn.Keys, METHODS) == sn.Keys == sc.Keys by {
      forall x | x in sn ensures Bucket(x) < METHODS { BucketInRange(sn.Keys, x); }
    }
  }

  /** The second pass over all buckets: the destination takes over the source's layers. */
  method MergeAll(entrance: seq<Layer>, srcEntrance: seq<Layer>, prefix: string, ghost dn: Nodes, ghost sn: Nodes)
    returns (ghost nodes: Nodes)
    requires Represents(dn) && Represents(sn) && dn.Values !! sn.Values && MountPresent(dn, Segments(prefix))
    requires |entrance| == |srcEntrance| == METHODS
    requires forall m: nat :: m < METHODS ==>
               Root(m) in dn && entrance[m] == dn[Root(m)] && Root(m) in sn && srcEntrance[m] == sn[Root(m)]
    modifies dn.Values, sn.Values
    ensures Represents(nodes) && nodes == MergedNodes(dn, sn, Segments(prefix))
    ensures View(nodes) == Merged(old(View(dn)), old(View(sn)), Segments(prefix), METHODS)
  {
    hide Whole, Forms, Merged, MergedNodes, MergedCells, Meets, Apart;
    var segments := SplitTargetSegments(prefix);
    ghost var dc, sc := CellsOf(dn), CellsOf(sn);
    ApartValues(dn, sn);
    NothingYet(dc, sc, dc, sc, segments);
    NextBucket(sn.Keys, 0);
    for m := 0 to METHODS
      invariant Whole(dc, sc, CellsOf(dn), CellsOf(sn), dc, sc, segments, Buckets(sn.Keys, m))
    {
      MergeBucket(entrance[m], srcEntrance[m], segments, m, dn, sn, dc, sc);
    }
    nodes := MergedNodes(dn, sn, segments);
    AllMerged(dn, sn, CellsOf(dn), CellsOf(sn), dc, sc, segments);
    MergedForms(dn, sn, dc, sc, segments);
    MergedView(dn, sn, dc, sc, segments);
    MergedNodesAt(dn, sn, dc, sc, segments);
    assert CellsOf(nodes) == MergedCells(dc, sc, segments);
  }

  lemma {:induction false} MergedNodesAt(dn: Nodes, sn: Nodes, dc: Cells, sc: Cells, pre: seq<string>)
    requires Trees(dn, sn, dc, sc)
    ensures MergedNodes(dn, sn, pre).Keys == MergedCells(dc, sc, pre).Keys
    ensures forall p :: p in MergedNodes(dn, sn, pre) ==>
              if p in dn then MergedNodes(dn, sn, pre)[p] == dn[p]
              else Meets(pre, p, sn.Keys) && MergedNodes(dn, sn, pre)[p] == sn[Ungraft(pre, p)]
  {
  }
}
