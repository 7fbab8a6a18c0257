/** Laws of merging and mounting, over every pair of forests. */
module RouteMountLaws {
  import opened Text
  import opened RouteTarget
  import opened RouteTree
  import opened RouteLaws

  // ----- merging loses nothing -----

  /** The part of a node that only one of two merged nodes may define. */
  function Behaviour(n: Node): (Option<Handler>, seq<Handler>, nat, nat, nat) {
    (n.handler, n.terminals, n.maxBody, n.readExpiry, n.writeExpiry)
  }

  /** The node found at the position of source node `x`. */
  lemma {:induction false} MergedAt(d: Forest, s: Forest, pre: seq<string>, upto: nat, x: Path)
    requires x in s && Bucket(x) < upto
    ensures Graft(pre, x) in Merged(d, s, pre, upto)
    ensures Met(s, pre, upto, Graft(pre, x))
    ensures Merged(d, s, pre, upto)[Graft(pre, x)] ==
              if Graft(pre, x) in d then MergeNode(d[Graft(pre, x)], s[x]) else s[x]
  {
    UngraftOfGraft(pre, x);
  }

  /** Merging loses nothing: the positions are exactly those of the two trees; a position held by
      one tree keeps its node; a shared position has the behaviour of its only owner with that
      owner's names and template, destination aspects before source aspects, and either exclusive
      flag. */
  lemma {:induction false} LosslessMerge(d: Forest, s: Forest, pre: seq<string>)
    requires WellFormed(s) && Mountable(d, s, pre)
    ensures var t := Merged(d, s, pre, METHODS);
            && (forall p :: p in t <==> p in d || (Grafted(pre, p) && Ungraft(pre, p) in s))
            && (forall p :: p in d && !(Grafted(pre, p) && Ungraft(pre, p) in s) ==> t[p] == d[p])
    ensures forall x :: x in s ==>
              var p := Graft(pre, x);
              var t := Merged(d, s, pre, METHODS);
              && p in t
              && (p !in d ==> t[p] == s[x])
              && (p in d ==>
                    && Behaviour(t[p]) == Behaviour(if Terminal(d[p]) then d[p] else s[x])
                    && (d[p].handler.Some? ==> t[p].names == d[p].names && t[p].tmpl == d[p].tmpl)
                    && (s[x].handler.Some? ==> t[p].names == s[x].names && t[p].tmpl == s[x].tmpl)
                    && t[p].aspects == d[p].aspects + s[x].aspects
                    && t[p].exclusive == (d[p].exclusive || s[x].exclusive))
  {
    var t := Merged(d, s, pre, METHODS);
    forall p | p in t ensures p in d || (Grafted(pre, p) && Ungraft(pre, p) in s) {
      if p !in d {
        var x :| x in s && Graft(pre, x) == p;
        UngraftOfGraft(pre, x);
      }
    }
    forall p | Grafted(pre, p) && Ungraft(pre, p) in s ensures p in t {
      BucketInRange(s.Keys, Ungraft(pre, p));
      MergedAt(d, s, pre, METHODS, Ungraft(pre, p));
    }
    forall x | x in s
      ensures var p := Graft(pre, x);
              && p in t
              && (p !in d ==> t[p] == s[x])
              && (p in d ==>
                    && Behaviour(t[p]) == Behaviour(if Terminal(d[p]) then d[p] else s[x])
                    && (d[p].handler.Some? ==> t[p].names == d[p].names && t[p].tmpl == d[p].tmpl)
                    && (s[x].handler.Some? ==> t[p].names == s[x].names && t[p].tmpl == s[x].tmpl)
                    && t[p].aspects == d[p].aspects + s[x].aspects
                    && t[p].exclusive == (d[p].exclusive || s[x].exclusive))
    {
      BucketInRange(s.Keys, x);
      MergedAt(d, s, pre, METHODS, x);
      assert Mergeable(d, s, pre, Bucket(x));
    }
  }

  // ----- mounting -----

  lemma {:induction false} MountTrailHas(pre: seq<string>, upto: nat)
    ensures forall p :: p in MountTrail(pre, upto) <==> Bucket(p) < upto && p in Trail(Root(Bucket(p)), pre)
  {
    if upto > 0 {
      MountTrailHas(pre, upto - 1);
      TrailBelow(Root(upto - 1), pre);
      forall p | p in Trail(Root(upto - 1), pre) ensures Bucket(p) == upto - 1 { UnderIsDeeper(Root(upto - 1), p); }
    }
  }

  lemma {:induction false} GrownWellFormed(d: Forest, pre: seq<string>, upto: nat)
    requires WellFormed(d) && upto <= METHODS
    ensures WellFormed(Grow(d, MountTrail(pre, upto)))
    ensures forall m: nat :: m < upto ==> PathFrom(Root(m), pre) in Grow(d, MountTrail(pre, upto))
  {
    var g := Grow(d, MountTrail(pre, upto));
    MountTrailHas(pre, upto);
    forall p | p in g ensures p.Step? ==> p.up in g {
      if p !in d {
        TrailClosed(Root(Bucket(p)), pre);
        if p.Step? && p.up != Root(Bucket(p)) { assert p.up in MountTrail(pre, upto); }
      }
    }
    forall m: nat | m < upto ensures PathFrom(Root(m), pre) in g {
      TrailBelow(Root(m), pre);
      PathFromShape(Root(m), pre);
    }
    forall m: nat ensures m < METHODS <==> Root(m) in g {
      TrailClosed(Root(m), pre);
    }
  }

  lemma {:induction false} MergedWellFormed(d: Forest, s: Forest, pre: seq<string>)
    requires WellFormed(d) && WellFormed(s)
    requires forall m: nat :: m < METHODS ==> PathFrom(Root(m), pre) in d
    ensures WellFormed(Merged(d, s, pre, METHODS))
  {
    var t := Merged(d, s, pre, METHODS);
    forall p | p in t && p.Step? ensures p.up in t {
      if p !in d {
        var x :| x in s && Bucket(x) < METHODS && Graft(pre, x) == p;
        if x.Step? { MergedAt(d, s, pre, METHODS, x.up); }
      }
    }
    forall m: nat ensures m < METHODS <==> Root(m) in t {
      if Root(m) in t && Root(m) !in d {
        var x :| x in s && Bucket(x) < METHODS && Graft(pre, x) == Root(m);
        UngraftOfGraft(pre, x);
      }
    }
  }

  lemma {:induction false} MountedWellFormed(d: Forest, s: Forest, prefix: string)
    requires WellFormed(d) && WellFormed(s)
    ensures WellFormed(Mounted(d, s, prefix))
  {
    var pre := Segments(prefix);
    GrownWellFormed(d, pre, METHODS);
    MergedWellFormed(Grow(d, MountTrail(pre, METHODS)), Prefixed(s, prefix, METHODS), pre);
  }

  /** Nothing lies below the mount position of bucket `m`, which itself defines no behaviour. */
  ghost predicate Vacant(d: Forest, pre: seq<string>, m: nat) {
    forall p :: p in d && Under(PathFrom(Root(m), pre), p) ==>
      p == PathFrom(Root(m), pre) && !Terminal(d[p]) && !d[p].exclusive
  }

  function GraftHit(pre: seq<string>, h: Option<Hit>): Option<Hit> {
    match h
    case None => None
    case Some(Hit(l, v, u)) => Some(Hit(Graft(pre, l), v, u))
  }

  /** Below the mount position, the mounted forest has the source's nodes and no others. */
  ghost predicate Copied(t: Forest, s: Forest, pre: seq<string>, m: nat) {
    && (forall x :: x in s && Bucket(x) == m ==> Graft(pre, x) in t && t[Graft(pre, x)].exclusive == s[x].exclusive)
    && (forall x :: Bucket(x) == m && Graft(pre, x) in t ==> x in s)
  }

  lemma {:induction false} WalkCopied(t: Forest, s: Forest, pre: seq<string>, x: Path, request: seq<string>)
    requires Copied(t, s, pre, Bucket(x)) && x in s && Graft(pre, x) in t
    ensures Walk(t, Graft(pre, x), request) == GraftHit(pre, Walk(s, x, request))
    decreases |request|
  {
    if request != [] {
      var w := request[0];
      assert Graft(pre, Step(x, Lit(w))) == Step(Graft(pre, x), Lit(w));
      assert Graft(pre, Step(x, Wild)) == Step(Graft(pre, x), Wild);
      if w == "" {
        WalkCopied(t, s, pre, x, request[1..]);
      } else if Step(x, Lit(w)) in s {
        WalkCopied(t, s, pre, Step(x, Lit(w)), request[1..]);
      } else if !s[x].exclusive && Step(x, Wild) in s {
        WalkCopied(t, s, pre, Step(x, Wild), request[1..]);
      }
    }
  }

  lemma {:induction false} GraftUnder(pre: seq<string>, x: Path)
    ensures Under(PathFrom(Root(Bucket(x)), pre), Graft(pre, x))
    ensures Graft(pre, x) == PathFrom(Root(Bucket(x)), pre) ==> x.Root?
  {
    UngraftOfGraft(pre, x);
    PathFromShape(Root(Bucket(x)), pre);
    if x.Step? { GraftUnder(pre, x.up); }
  }

  /** Source node `n` laid over a node that defines no behaviour. */
  function Laid(quiet: Node, n: Node): Node {
    n.(aspects := quiet.aspects + n.aspects,
       names := if n.handler.Some? then n.names else quiet.names,
       tmpl := if n.handler.Some? then n.tmpl else quiet.tmpl)
  }

  lemma {:induction false} MergeIntoQuiet(quiet: Node, n: Node)
    requires !Terminal(quiet) && !quiet.exclusive
    ensures MergeNode(quiet, n) == Laid(quiet, n)
  {
  }

  /** The node a vacant mount position shows for source node `x`. */
  ghost function MountedNode(d: Forest, s: Forest, prefix: string, x: Path): Node
    requires x in s
  {
    var p := Graft(Segments(prefix), x);
    var n := PrefixedNode(s[x], prefix);
    if p in d then Laid(d[p], n) else if x.Root? then Laid(BLANK, n) else n
  }

  /** Positions below the mount position are not prefix positions. */
  lemma {:induction false} BelowMount(pre: seq<string>, x: Path)
    requires x.Step?
    ensures Graft(pre, x) !in MountTrail(pre, METHODS)
  {
    UngraftOfGraft(pre, x);
    MountTrailHas(pre, METHODS);
    TrailBelow(Root(Bucket(x)), pre);
  }

  lemma {:induction false} MountedAt(d: Forest, s: Forest, prefix: string, x: Path)
    requires WellFormed(d) && x in s && Bucket(x) < METHODS && Vacant(d, Segments(prefix), Bucket(x))
    ensures Graft(Segments(prefix), x) in Mounted(d, s, prefix)
    ensures Mounted(d, s, prefix)[Graft(Segments(prefix), x)] == MountedNode(d, s, prefix, x)
  {
    var pre := Segments(prefix);
    var g := Grow(d, MountTrail(pre, METHODS));
    var p := Graft(pre, x);
    MergedAt(g, Prefixed(s, prefix, METHODS), pre, METHODS, x);
    GraftUnder(pre, x);
    if x.Step? {
      BelowMount(pre, x);
    } else {
      GrownWellFormed(d, pre, METHODS);
      MergeIntoQuiet(g[p], PrefixedNode(s[x], prefix));
    }
  }

  lemma {:induction false} MountCopies(d: Forest, s: Forest, prefix: string, m: nat)
    requires WellFormed(d) && WellFormed(s) && m < METHODS && Vacant(d, Segments(prefix), m)
    ensures Copied(Mounted(d, s, prefix), s, Segments(prefix), m)
  {
    var pre := Segments(prefix);
    var t := Mounted(d, s, prefix);
    forall x | x in s && Bucket(x) == m
      ensures Graft(pre, x) in t && t[Graft(pre, x)].exclusive == s[x].exclusive
    {
      MountedAt(d, s, prefix, x);
    }
    forall x | Bucket(x) == m && Graft(pre, x) in t ensures x in s {
      var p := Graft(pre, x);
      GraftUnder(pre, x);
      UngraftOfGraft(pre, x);
      MountTrailHas(pre, METHODS);
      TrailBelow(Root(m), pre);
      if p !in d && p !in MountTrail(pre, METHODS) {
        var y :| y in s && Graft(pre, y) == p;
        UngraftOfGraft(pre, y);
      }
    }
  }

  // ----- mounting preserves routing -----

  /** Above the mount position nothing but blank nodes is new, so path aspects are unchanged. */
  lemma {:induction false} AspectsAbove(d: Forest, s: Forest, prefix: string, p: Path)
    requires Depth(p) < |Segments(prefix)|
    ensures PathAspects(Mounted(d, s, prefix), p) == PathAspects(d, p)
  {
    var pre := Segments(prefix);
    var t := Mounted(d, s, prefix);
    if p.Step? { AspectsAbove(d, s, prefix, p.up); }
    assert !Grafted(pre, p) by {
      if Grafted(pre, p) { UngraftOfGraft(pre, Ungraft(pre, p)); }
    }
    if p in t && p !in d && p !in MountTrail(pre, METHODS) {
      var x :| x in s && Graft(pre, x) == p;
      UngraftOfGraft(pre, x);
    }
  }

  /** What routing below the mount position needs to know of the mounted forest `t`. */
  ghost predicate MountOf(t: Forest, d: Forest, s: Forest, prefix: string, m: nat) {
    && WellFormed(t) && m < METHODS
    && Trail(Root(m), Segments(prefix)) <= t.Keys
    && Copied(t, s, Segments(prefix), m)
    && (forall x :: x in s && Bucket(x) == m ==> t[Graft(Segments(prefix), x)] == MountedNode(d, s, prefix, x))
    && (var a := PathFrom(Root(m), Segments(prefix)); a.Step? ==> PathAspects(t, a.up) == PathAspects(d, a.up))
  }

  lemma {:induction false} MountedIsMountOf(d: Forest, s: Forest, prefix: string, m: nat)
    requires WellFormed(d) && WellFormed(s) && m < METHODS && Vacant(d, Segments(prefix), m)
    ensures MountOf(Mounted(d, s, prefix), d, s, prefix, m)
  {
    MountedWellFormed(d, s, prefix);
    MountTrailIn(d, s, prefix, m);
    MountCopies(d, s, prefix, m);
    forall x | x in s && Bucket(x) == m { MountedAt(d, s, prefix, x); }
    var a := PathFrom(Root(m), Segments(prefix));
    PathFromShape(Root(m), Segments(prefix));
    if a.Step? { AspectsAbove(d, s, prefix, a.up); }
  }

  /** One step of `PathAspects` where `t` has `n`'s aspects on top of `d`'s. */
  lemma {:induction false} AspectsOnTop(t: Forest, d: Forest, p: Path, top: seq<Handler>)
    requires p in t && t[p].aspects == (if p in d then d[p].aspects else []) + top
    requires p.Step? ==> PathAspects(t, p.up) == PathAspects(d, p.up)
    ensures PathAspects(t, p) == PathAspects(d, p) + top
  {
  }

  /** One step of `PathAspects` where `t` has exactly `s`'s aspects. */
  lemma {:induction false} AspectsCarriedOn(t: Forest, s: Forest, p: Path, x: Path, above: seq<Handler>)
    requires p in t && x in s && p.Step? && x.Step? && t[p].aspects == s[x].aspects
    requires PathAspects(t, p.up) == above + PathAspects(s, x.up)
    ensures PathAspects(t, p) == above + PathAspects(s, x)
  {
  }

  lemma {:induction false} MountedAspects(t: Forest, d: Forest, s: Forest, prefix: string, m: nat, x: Path)
    requires MountOf(t, d, s, prefix, m) && x in s && Bucket(x) == m && Vacant(d, Segments(prefix), m)
    ensures var p := Graft(Segments(prefix), x);
            && p in t
            && (x.Root? ==> t[p].aspects == (if p in d then d[p].aspects else []) + s[x].aspects)
            && (x.Step? ==> t[p].aspects == s[x].aspects)
  {
    var p := Graft(Segments(prefix), x);
    GraftUnder(Segments(prefix), x);
    assert t[p] == MountedNode(d, s, prefix, x);
    assert [] + s[x].aspects == s[x].aspects;
  }

  /** Path aspects of a mounted node: the destination's along the prefix, then the source's. */
  lemma {:induction false} AspectsBelow(t: Forest, d: Forest, s: Forest, prefix: string, m: nat, x: Path)
    requires MountOf(t, d, s, prefix, m) && WellFormed(s) && x in s && Bucket(x) == m
    requires Vacant(d, Segments(prefix), m)
    ensures PathAspects(t, Graft(Segments(prefix), x)) ==
              PathAspects(d, PathFrom(Root(m), Segments(prefix))) + PathAspects(s, x)
  {
    var p := Graft(Segments(prefix), x);
    MountedAspects(t, d, s, prefix, m, x);
    if x.Root? {
      AspectsOnTop(t, d, p, s[x].aspects);
      assert PathAspects(s, x) == s[x].aspects;
    } else {
      AspectsBelow(t, d, s, prefix, m, x.up);
      AspectsCarriedOn(t, s, p, x, PathAspects(d, PathFrom(Root(m), Segments(prefix))));
    }
  }

  /** The walk through a mount position is the source's walk with the prefix in front. */
  lemma {:induction false} WalkThroughMount(t: Forest, d: Forest, s: Forest, prefix: string, m: nat,
                                            lead: seq<string>, rest: seq<string>)
    requires MountOf(t, d, s, prefix, m) && WellFormed(s)
    requires Instance(Segments(prefix), lead) && Unobstructed(t, Root(m), Segments(prefix), lead)
    ensures var r := Walk(s, Root(m), rest);
            Walk(t, Root(m), lead + rest) ==
              if r.None? then None
              else Some(Hit(Graft(Segments(prefix), r.value.leaf),
                            Captured(Segments(prefix), lead) + r.value.values, lead + r.value.used))
  {
    WalkAlong(t, Root(m), Segments(prefix), lead, rest);
    WalkCopied(t, s, Segments(prefix), Root(m), rest);
  }

  /** What `MountPreservesRouting` promises for a source walk that ends at `hit`. */
  ghost function ThroughMount(tab: Table, s: Forest, prefix: string, m: nat, lead: seq<string>,
                              hit: Option<Hit>): Result
    requires Instance(Segments(prefix), lead)
  {
    if hit.None? || hit.value.leaf !in s || s[hit.value.leaf].handler.None? then DefaultResult(tab)
    else
      var n := s[hit.value.leaf];
      var used := lead + hit.value.used;
      Result(
        if used == [] then "/" else Location(used),
        JoinTemplate(prefix, n.tmpl),
        Parameters(n.names, Captured(Segments(prefix), lead) + hit.value.values),
        TableAspects(tab, m) + (PathAspects(tab.forest, PathFrom(Root(m), Segments(prefix)))
                                + PathAspects(s, hit.value.leaf)) + n.terminals,
        n.handler.value,
        Either(n.maxBody, tab.maxBody),
        Either(n.readExpiry, tab.readExpiry),
        Either(n.writeExpiry, tab.writeExpiry))
  }

  /** Two nodes that agree on everything a route result reads from them. */
  predicate SameRouteNode(mounted: Node, n: Node, prefix: string) {
    && Behaviour(mounted) == Behaviour(n)
    && (n.handler.Some? ==> mounted.names == n.names && mounted.tmpl == JoinTemplate(prefix, n.tmpl))
  }

  lemma {:induction false} MountedRouteNode(t: Forest, d: Forest, s: Forest, prefix: string, m: nat, x: Path)
    requires MountOf(t, d, s, prefix, m) && x in s && Bucket(x) == m
    ensures Graft(Segments(prefix), x) in t && SameRouteNode(t[Graft(Segments(prefix), x)], s[x], prefix)
  {
  }

  lemma {:induction false} NodeThroughMount(tab: Table, t: Forest, s: Forest, prefix: string, m: nat,
                                            lead: seq<string>, hit: Hit)
    requires hit.leaf in s && s[hit.leaf].handler.Some? && Instance(Segments(prefix), lead)
    requires Graft(Segments(prefix), hit.leaf) in t
    requires SameRouteNode(t[Graft(Segments(prefix), hit.leaf)], s[hit.leaf], prefix)
    requires PathAspects(t, Graft(Segments(prefix), hit.leaf)) ==
               PathAspects(tab.forest, PathFrom(Root(m), Segments(prefix))) + PathAspects(s, hit.leaf)
    ensures NodeResult(tab.(forest := t), m, s[hit.leaf].handler.value,
                       Hit(Graft(Segments(prefix), hit.leaf), Captured(Segments(prefix), lead) + hit.values, lead + hit.used))
            == ThroughMount(tab, s, prefix, m, lead, Some(hit))
  {
  }

  lemma {:induction false} ResultThroughMount(tab: Table, t: Forest, s: Forest, prefix: string, m: nat,
                                              lead: seq<string>, rest: seq<string>)
    requires MountOf(t, tab.forest, s, prefix, m) && WellFormed(s) && Vacant(tab.forest, Segments(prefix), m)
    requires Instance(Segments(prefix), lead) && Unobstructed(t, Root(m), Segments(prefix), lead)
    ensures RouteResult(tab.(forest := t), m, Some(lead + rest)) ==
              ThroughMount(tab, s, prefix, m, lead, Walk(s, Root(m), rest))
  {
    WalkThroughMount(t, tab.forest, s, prefix, m, lead, rest);
    var r := Walk(s, Root(m), rest);
    if r.Some? {
      var x := r.value.leaf;
      assert Bucket(x) == m by {
        WalkCaptures(s, Root(m), rest);
        UnderIsDeeper(Root(m), x);
      }
      MountedRouteNode(t, tab.forest, s, prefix, m, x);
      if s[x].handler.Some? {
        AspectsBelow(t, tab.forest, s, prefix, m, x);
        NodeThroughMount(tab, t, s, prefix, m, lead, r.value);
      }
    }
  }

  /** A request that reaches the mount position and goes on with `rest` is routed as `rest` is in the
      source: it matches exactly when the source matches, with the source's handler and own limits
      over the destination's defaults, the joined template, the source's names over the prefix
      captures followed by the source's captures, and the aspects of the destination (table, method,
      prefix) before the source's subtree and terminal aspects. */
  lemma {:induction false} MountPreservesRouting(tab: Table, src: Table, prefix: string, m: nat, lead: seq<string>,
                                                 rest: seq<string>)
    requires WellFormed(tab.forest) && WellFormed(src.forest) && m < METHODS
    requires Vacant(tab.forest, Segments(prefix), m)
    requires Instance(Segments(prefix), lead)
    requires Unobstructed(Mounted(tab.forest, src.forest, prefix), Root(m), Segments(prefix), lead)
    ensures WellFormed(Mounted(tab.forest, src.forest, prefix))
    ensures RouteResult(tab.(forest := Mounted(tab.forest, src.forest, prefix)), m, Some(lead + rest)) ==
              ThroughMount(tab, src.forest, prefix, m, lead, Walk(src.forest, Root(m), rest))
  {
    var t := Mounted(tab.forest, src.forest, prefix);
    MountedIsMountOf(tab.forest, src.forest, prefix, m);
    ResultThroughMount(tab, t, src.forest, prefix, m, lead, rest);
  }

  lemma {:induction false} MountTrailIn(d: Forest, s: Forest, prefix: string, m: nat)
    requires m < METHODS
    ensures Trail(Root(m), Segments(prefix)) <= Mounted(d, s, prefix).Keys
  {
    var pre := Segments(prefix);
    MountTrailHas(pre, METHODS);
    TrailBelow(Root(m), pre);
    forall p | p in Trail(Root(m), pre) ensures p in MountTrail(pre, METHODS) { UnderIsDeeper(Root(m), p); }
  }

  lemma {:induction false} LiteralUnobstructed(t: Forest, p: Path, segments: seq<string>)
    requires AllLiteral(segments)
    ensures Unobstructed(t, p, segments, segments) && Captured(segments, segments) == []
    decreases |segments|
  {
    if segments != [] { LiteralUnobstructed(t, Step(p, EdgeOf(segments[0])), segments[1..]); }
  }

  /** `ours` is `theirs` seen through a literal mount. */
  ghost predicate SameRoute(tab: Table, src: Table, prefix: string, m: nat, n: Node, used: seq<string>, ours: Result,
                            theirs: Result) {
    && ours.handler == theirs.handler
    && ours.parameters == theirs.parameters
    && ours.tmpl == JoinTemplate(prefix, theirs.tmpl)
    && TableAspects(src, m) <= theirs.aspects
    && ours.aspects == TableAspects(tab, m) + PathAspects(tab.forest, PathFrom(Root(m), Segments(prefix)))
                       + theirs.aspects[|TableAspects(src, m)|..]
    && SameLimits(ours, n, tab) && SameLimits(theirs, n, src)
    && ours.location == JoinLocation(Segments(prefix), used, theirs.location)
  }

  /** The node's own limits over the defaults of the table. */
  predicate SameLimits(r: Result, n: Node, tab: Table) {
    && r.maxBody == (if n.maxBody != 0 then n.maxBody else tab.maxBody)
    && r.readExpiry == (if n.readExpiry != 0 then n.readExpiry else tab.readExpiry)
    && r.writeExpiry == (if n.writeExpiry != 0 then n.writeExpiry else tab.writeExpiry)
  }

  /** The prefix in front of the location of the rest, which is a bare slash when no segment was used. */
  function JoinLocation(pre: seq<string>, used: seq<string>, rest: string): string {
    if pre == [] then rest else Location(pre) + (if used == [] then "" else rest)
  }

  lemma {:induction false} LocationConcat(a: seq<string>, b: seq<string>)
    ensures Location(a + b) == Location(a) + Location(b)
  {
    if a == [] {
      assert a + b == b;
    } else {
      assert (a + b)[0] == a[0] && (a + b)[1..] == a[1..] + b;
      LocationConcat(a[1..], b);
    }
  }

  lemma AspectsRegrouped(theirs: seq<Handler>, ours: seq<Handler>, prefix: seq<Handler>, path: seq<Handler>,
                         term: seq<Handler>)
    ensures theirs <= theirs + path + term && (theirs + path + term)[|theirs|..] == path + term
    ensures ours + (prefix + path) + term == ours + prefix + (path + term)
  {
  }

  lemma {:induction false} ThroughLiteralMount(tab: Table, src: Table, prefix: string, m: nat, hit: Hit)
    requires AllLiteral(Segments(prefix)) && Instance(Segments(prefix), Segments(prefix))
    requires hit.leaf in src.forest && src.forest[hit.leaf].handler.Some?
    ensures SameRoute(tab, src, prefix, m, src.forest[hit.leaf], hit.used,
                      ThroughMount(tab, src.forest, prefix, m, Segments(prefix), Some(hit)),
                      NodeResult(src, m, src.forest[hit.leaf].handler.value, hit))
  {
    hide PathAspects, Parameters, JoinTemplate, TableAspects, Segments;
    var pre := Segments(prefix);
    LiteralUnobstructed(src.forest, Root(m), pre);
    LocationConcat(pre, hit.used);
    assert [] + hit.used == hit.used;
    assert [] + hit.values == hit.values;
    AspectsRegrouped(TableAspects(src, m), TableAspects(tab, m), PathAspects(tab.forest, PathFrom(Root(m), pre)),
                     PathAspects(src.forest, hit.leaf), src.forest[hit.leaf].terminals);
  }

  /** For a literal prefix, prefix ++ rest matches exactly when the source matches rest, with the same
      handler and parameters, the joined template and location, the route's own limits over the
      destination's defaults, and the source's own aspects after the destination's. */
  lemma {:induction false} LiteralMountRouting(tab: Table, src: Table, prefix: string, m: nat, rest: seq<string>)
    requires WellFormed(tab.forest) && WellFormed(src.forest) && m < METHODS
    requires Vacant(tab.forest, Segments(prefix), m) && AllLiteral(Segments(prefix))
    ensures WellFormed(Mounted(tab.forest, src.forest, prefix))
    ensures var tab' := tab.(forest := Mounted(tab.forest, src.forest, prefix));
            var theirs := RouteResult(src, m, Some(rest));
            var ours := RouteResult(tab', m, Some(Segments(prefix) + rest));
            var r := Walk(src.forest, Root(m), rest);
            if r.None? || src.forest[r.value.leaf].handler.None? then ours == DefaultResult(tab')
            else SameRoute(tab, src, prefix, m, src.forest[r.value.leaf], r.value.used, ours, theirs)
  {
    hide PathAspects, Parameters, JoinTemplate, TableAspects, Segments, SameRoute, NodeResult, Walk, Location;
    var pre := Segments(prefix);
    LiteralUnobstructed(Mounted(tab.forest, src.forest, prefix), Root(m), pre);
    assert Instance(pre, pre) by { SegmentsNonEmpty(prefix); }
    MountPreservesRouting(tab, src, prefix, m, pre, rest);
    var r := Walk(src.forest, Root(m), rest);
    if r.Some? && src.forest[r.value.leaf].handler.Some? {
      ThroughLiteralMount(tab, src, prefix, m, r.value);
    }
  }

  // ----- a rejected mount -----

  /** The walk from `p` takes a step into `added`. */
  ghost predicate Enters(t: Forest, p: Path, request: seq<string>, added: set<Path>)
    requires p in t
    decreases |request|
  {
    request != [] &&
    if request[0] == "" then Enters(t, p, request[1..], added)
    else
      var s := request[0];
      if Step(p, Lit(s)) in t then Step(p, Lit(s)) in added || Enters(t, Step(p, Lit(s)), request[1..], added)
      else if t[p].exclusive then false
      else if Step(p, Wild) in t then Step(p, Wild) in added || Enters(t, Step(p, Wild), request[1..], added)
      else false
  }

  /** A walk that enters no added node is unchanged by adding blank nodes. */
  lemma {:induction false} WalkGrown(d: Forest, added: set<Path>, p: Path, request: seq<string>)
    requires p in d && !Enters(Grow(d, added), p, request, added - d.Keys)
    ensures Walk(Grow(d, added), p, request) == Walk(d, p, request)
    decreases |request|
  {
    var g := Grow(d, added);
    if request != [] {
      var s := request[0];
      if s == "" {
        WalkGrown(d, added, p, request[1..]);
      } else if Step(p, Lit(s)) in g {
        WalkGrown(d, added, Step(p, Lit(s)), request[1..]);
      } else if !g[p].exclusive && Step(p, Wild) in g {
        WalkGrown(d, added, Step(p, Wild), request[1..]);
      }
    }
  }

  /** Below a node that is not in a well-formed forest there are only added blank nodes. */
  lemma {:induction false} BelowNew(d: Forest, added: set<Path>, p: Path)
    requires WellFormed(d) && p !in d && p in Grow(d, added)
    ensures forall q :: q in Grow(d, added) && Under(p, q) ==> Grow(d, added)[q] == BLANK
  {
    forall q | q in Grow(d, added) && Under(p, q) ensures Grow(d, added)[q] == BLANK {
      if q in d { AncestorIn(d.Keys, p, q); }
    }
  }

  lemma {:induction false} WalkIntoNew(d: Forest, added: set<Path>, p: Path, request: seq<string>)
    requires WellFormed(d) && p in Grow(d, added) && Enters(Grow(d, added), p, request, added - d.Keys)
    ensures var r := Walk(Grow(d, added), p, request); r.Some? ==> Grow(d, added)[r.value.leaf] == BLANK
    decreases |request|
  {
    var g := Grow(d, added);
    var s := request[0];
    if s == "" {
      WalkIntoNew(d, added, p, request[1..]);
    } else {
      var k := if Step(p, Lit(s)) in g then Step(p, Lit(s)) else Step(p, Wild);
      if k in d {
        WalkIntoNew(d, added, k, request[1..]);
      } else {
        WalkCaptures(g, k, request[1..]);
        BelowNew(d, added, k);
      }
    }
  }

  /** `after` is `before`, except that a request that enters a blank leftover gets the default result. So a request
      keeps its result exactly when it enters no leftover or was unmatched before. */
  ghost predicate Leftover(tab: Table, entered: bool, before: Result, after: Result) {
    && after == (if entered then DefaultResult(tab) else before)
    && (after == before <==> !entered || before == DefaultResult(tab))
  }

  /** Growing a forest by blank nodes: a request that enters one of them falls through to the default result and
      every other request is untouched. */
  lemma {:induction false} GrownResult(tab: Table, added: set<Path>, m: nat, request: seq<string>)
    requires WellFormed(tab.forest) && WellFormed(Grow(tab.forest, added)) && m < METHODS
    ensures var g := Grow(tab.forest, added);
            Leftover(tab, Enters(g, Root(m), request, added - tab.forest.Keys),
                     RouteResult(tab, m, Some(request)), RouteResult(tab.(forest := g), m, Some(request)))
  {
    var g := Grow(tab.forest, added);
    if Enters(g, Root(m), request, added - tab.forest.Keys) {
      WalkIntoNew(tab.forest, added, Root(m), request);
    } else {
      WalkGrown(tab.forest, added, Root(m), request);
      var r := Walk(g, Root(m), request);
      if r.Some? {
        AspectsGrown(tab.forest, added, r.value.leaf);
      }
    }
  }

  /** What a rejected mount leaves behind. Its additions are blank prefix nodes; a request that enters
      one of them falls through to the default result and every other request is untouched. So a
      request keeps its result exactly when it enters no leftover node or was unmatched before. */
  lemma {:induction false} RejectedMountFrame(tab: Table, pre: seq<string>, upto: nat, m: nat, request: seq<string>)
    requires WellFormed(tab.forest) && upto <= METHODS && m < METHODS
    ensures WellFormed(Grow(tab.forest, MountTrail(pre, upto)))
    ensures var left := MountTrail(pre, upto) - tab.forest.Keys;
            var tab' := tab.(forest := Grow(tab.forest, MountTrail(pre, upto)));
            && (forall p :: p in tab.forest ==> p in tab'.forest && tab'.forest[p] == tab.forest[p])
            && (forall p :: p in tab'.forest && p !in tab.forest ==> p in left && tab'.forest[p] == BLANK)
            && Leftover(tab, Enters(tab'.forest, Root(m), request, left),
                        RouteResult(tab, m, Some(request)), RouteResult(tab', m, Some(request)))
  {
    hide RouteResult, Enters, Leftover;
    GrownWellFormed(tab.forest, pre, upto);
    GrownResult(tab, MountTrail(pre, upto), m, request);
  }

  lemma {:induction false} AspectsGrown(d: Forest, added: set<Path>, p: Path)
    ensures PathAspects(Grow(d, added), p) == PathAspects(d, p)
  {
    if p.Step? { AspectsGrown(d, added, p.up); }
  }
}
