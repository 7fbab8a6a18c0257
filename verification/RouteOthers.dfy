/** Which requests an accepted registration or mount leaves alone (src/route/http_route_table_registry.cc:41-222,
    http_route_table_mount.cc:227-277). */
module RouteOthers {
  import opened Text
  import opened RouteTarget
  import opened RouteTree
  import opened RouteMountLaws

  /** The walk of a request of bucket `k` passes position `a`. */
  ghost predicate Visits(t: Forest, k: nat, request: seq<string>, a: Path) {
    Root(k) in t && (a == Root(k) || Enters(t, Root(k), request, {a}))
  }

  /** In bucket `k` the forests differ only at `a` and below. */
  ghost predicate AgreeOutside(t: Forest, g: Forest, a: Path, k: nat) {
    forall q :: Bucket(q) == k && !Under(a, q) ==> (q in t <==> q in g) && (q in t ==> t[q] == g[q])
  }

  /** A walk that does not pass `a` is the same in both, and so is what it enters. */
  lemma {:induction false} WalkOutside(t: Forest, g: Forest, a: Path, p: Path, request: seq<string>, left: set<Path>)
    requires p in t && p in g && a in t && !Under(a, p) && AgreeOutside(t, g, a, Bucket(p))
    requires !Enters(t, p, request, {a})
    ensures Walk(t, p, request) == Walk(g, p, request)
    ensures Enters(t, p, request, left) == Enters(g, p, request, left)
    ensures var r := Walk(t, p, request); r.Some? ==> Bucket(r.value.leaf) == Bucket(p) && !Under(a, r.value.leaf)
    decreases |request|
  {
    if request != [] {
      var s := request[0];
      if s == "" {
        WalkOutside(t, g, a, p, request[1..], left);
      } else {
        assert Bucket(Step(p, Lit(s))) == Bucket(p) && Bucket(Step(p, Wild)) == Bucket(p);
        if Step(p, Lit(s)) in t {
          WalkOutside(t, g, a, Step(p, Lit(s)), request[1..], left);
        } else if !t[p].exclusive && Step(p, Wild) in t {
          WalkOutside(t, g, a, Step(p, Wild), request[1..], left);
        }
      }
    }
  }

  lemma {:induction false} AspectsOutside(t: Forest, g: Forest, a: Path, q: Path)
    requires AgreeOutside(t, g, a, Bucket(q)) && !Under(a, q)
    ensures PathAspects(t, q) == PathAspects(g, q)
  {
    if q.Step? { AspectsOutside(t, g, a, q.up); }
  }

  lemma {:induction false} ResultOutside(tab: Table, t: Forest, g: Forest, a: Path, k: nat, request: seq<string>,
                                         left: set<Path>)
    requires WellFormed(t) && WellFormed(g) && k < METHODS && a in t && AgreeOutside(t, g, a, k)
    requires !Visits(t, k, request, a)
    ensures RouteResult(tab.(forest := t), k, Some(request)) == RouteResult(tab.(forest := g), k, Some(request))
    ensures Enters(t, Root(k), request, left) == Enters(g, Root(k), request, left)
  {
    assert !Under(a, Root(k));
    WalkOutside(t, g, a, Root(k), request, left);
    var r := Walk(t, Root(k), request);
    if r.Some? { AspectsOutside(t, g, a, r.value.leaf); }
  }

  /** An accepted registration of any kind, and a request that does not pass its target's node: the request gets the
      default result if it enters one of the blank nodes added on the way, and else its former result. */
  lemma {:induction false} RegisterOthers(tab: Table, m: nat, target: string, c: Change, k: nat, request: seq<string>)
    requires WellFormed(tab.forest) && m < METHODS && k < METHODS
    requires !Visits(Registered(tab.forest, m, target, c), k, request, TargetPath(m, target))
    ensures WellFormed(Registered(tab.forest, m, target, c))
    ensures var t := Registered(tab.forest, m, target, c);
            Leftover(tab, Enters(t, Root(k), request, t.Keys - tab.forest.Keys),
                     RouteResult(tab, k, Some(request)), RouteResult(tab.(forest := t), k, Some(request)))
  {
    hide RouteResult, Enters, Leftover, Visits;
    var t, g := Registered(tab.forest, m, target, c), GrowTo(tab.forest, m, Segments(target));
    var a, added := TargetPath(m, target), Trail(Root(m), Segments(target));
    GrowToWellFormed(tab.forest, m, Segments(target));
    assert AgreeOutside(t, g, a, k);
    assert t.Keys - tab.forest.Keys == added - tab.forest.Keys;
    ResultOutside(tab, t, g, a, k, request, added - tab.forest.Keys);
    GrownResult(tab, added, k, request);
  }

  /** Two forests that route alike except at `p`: the walks are the same. */
  lemma {:induction false} WalkAlike(t: Forest, g: Forest, q: Path, request: seq<string>)
    requires q in t && t.Keys == g.Keys && forall x :: x in t ==> t[x].exclusive == g[x].exclusive
    ensures Walk(t, q, request) == Walk(g, q, request)
    decreases |request|
  {
    if request != [] {
      var s := request[0];
      if s == "" {
        WalkAlike(t, g, q, request[1..]);
      } else if Step(q, Lit(s)) in t {
        WalkAlike(t, g, Step(q, Lit(s)), request[1..]);
      } else if !t[q].exclusive && Step(q, Wild) in t {
        WalkAlike(t, g, Step(q, Wild), request[1..]);
      }
    }
  }

  lemma {:induction false} EntersAlike(t: Forest, g: Forest, q: Path, request: seq<string>, left: set<Path>)
    requires q in t && t.Keys == g.Keys && forall x :: x in t ==> t[x].exclusive == g[x].exclusive
    ensures Enters(t, q, request, left) == Enters(g, q, request, left)
    decreases |request|
  {
    if request != [] {
      var s := request[0];
      if s == "" {
        EntersAlike(t, g, q, request[1..], left);
      } else if Step(q, Lit(s)) in t {
        EntersAlike(t, g, Step(q, Lit(s)), request[1..], left);
      } else if !t[q].exclusive && Step(q, Wild) in t {
        EntersAlike(t, g, Step(q, Wild), request[1..], left);
      }
    }
  }

  lemma {:induction false} AspectsAlike(t: Forest, g: Forest, q: Path)
    requires t.Keys == g.Keys && forall x :: x in t ==> t[x].aspects == g[x].aspects
    ensures PathAspects(t, q) == PathAspects(g, q)
  {
    if q.Step? { AspectsAlike(t, g, q.up); }
  }

  /** An accepted route registration, and a request that does not end at its target's node, whether or not it passes
      it: the same. So the only other requests a new route changes are those that enter a blank node on the way to it
      and were matched before. */
  lemma {:induction false} RouteOthers(tab: Table, m: nat, target: string, h: Option<Handler>, k: nat,
                                       request: seq<string>)
    requires WellFormed(tab.forest) && m < METHODS && k < METHODS
    requires var r := Walk(Registered(tab.forest, m, target, Route(h)), Root(k), request);
             r.Some? ==> r.value.leaf != TargetPath(m, target)
    ensures WellFormed(Registered(tab.forest, m, target, Route(h)))
    ensures var t := Registered(tab.forest, m, target, Route(h));
            Leftover(tab, Enters(t, Root(k), request, t.Keys - tab.forest.Keys),
                     RouteResult(tab, k, Some(request)), RouteResult(tab.(forest := t), k, Some(request)))
  {
    hide Enters, Leftover;
    var t, g := Registered(tab.forest, m, target, Route(h)), GrowTo(tab.forest, m, Segments(target));
    var added := Trail(Root(m), Segments(target));
    GrowToWellFormed(tab.forest, m, Segments(target));
    assert t.Keys - tab.forest.Keys == added - tab.forest.Keys;
    EntersAlike(t, g, Root(k), request, added - tab.forest.Keys);
    WalkAlike(t, g, Root(k), request);
    var r := Walk(t, Root(k), request);
    if r.Some? { AspectsAlike(t, g, r.value.leaf); }
    GrownResult(tab, added, k, request);
  }

  /** An accepted mount, and a request that does not pass the mount position: the same. */
  lemma {:induction false} MountOthers(tab: Table, s: Forest, prefix: string, k: nat, request: seq<string>)
    requires WellFormed(tab.forest) && WellFormed(s) && k < METHODS
    requires !Visits(Mounted(tab.forest, s, prefix), k, request, PathFrom(Root(k), Segments(prefix)))
    ensures WellFormed(Mounted(tab.forest, s, prefix))
    ensures var t := Mounted(tab.forest, s, prefix);
            Leftover(tab, Enters(t, Root(k), request, MountTrail(Segments(prefix), METHODS) - tab.forest.Keys),
                     RouteResult(tab, k, Some(request)), RouteResult(tab.(forest := t), k, Some(request)))
  {
    hide RouteResult, Enters, Leftover, Visits;
    var pre := Segments(prefix);
    var t, added, a := Mounted(tab.forest, s, prefix), MountTrail(pre, METHODS), PathFrom(Root(k), pre);
    var g := Grow(tab.forest, added);
    GrownWellFormed(tab.forest, pre, METHODS);
    MountedWellFormed(tab.forest, s, prefix);
    MountOutside(tab.forest, s, prefix, k);
    ResultOutside(tab, t, g, a, k, request, added - tab.forest.Keys);
    GrownResult(tab, added, k, request);
  }

  lemma {:induction false} MountOutside(d: Forest, s: Forest, prefix: string, k: nat)
    requires WellFormed(d) && k < METHODS
    ensures var a, g := PathFrom(Root(k), Segments(prefix)), Grow(d, MountTrail(Segments(prefix), METHODS));
            a in Mounted(d, s, prefix) && AgreeOutside(Mounted(d, s, prefix), g, a, k)
  {
    var pre := Segments(prefix);
    var t, g, a := Mounted(d, s, prefix), Grow(d, MountTrail(pre, METHODS)), PathFrom(Root(k), pre);
    GrownWellFormed(d, pre, METHODS);
    assert a in g;
    forall q | Bucket(q) == k && !Under(a, q) ensures (q in t <==> q in g) && (q in t ==> t[q] == g[q]) {
      forall x | Graft(pre, x) == q ensures false {
        UngraftOfGraft(pre, x);
        GraftUnder(pre, x);
      }
    }
  }
}
