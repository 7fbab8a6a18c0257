/** Every way a route table can come about: registrations, mounts by move and mounts by clone, in any
    order and nesting, accepted or rejected. Invariants here hold over all of them. */
module RouteHistory {
  import opened Text
  import opened RouteTarget
  import opened RouteTree
  import opened RouteLaws
  import opened RouteMountLaws

  /** How a table was built. A mount consumes its source table. */
  datatype Build =
    | Fresh
    | Register(base: Build, m: nat, target: string, change: Change)
    | Mount(base: Build, prefix: string, source: Build, cloning: bool)

  predicate CloneableNode(n: Node) {
    && (n.handler.Some? ==> n.handler.value.cloneable)
    && (forall a :: a in n.aspects ==> a.cloneable)
    && (forall a :: a in n.terminals ==> a.cloneable)
  }

  ghost predicate Cloneable(t: Forest) {
    forall p :: p in t ==> CloneableNode(t[p])
  }

  /** First bucket at or after `m` whose trees conflict, or METHODS. */
  ghost function FirstConflict(d: Forest, s: Forest, pre: seq<string>, m: nat): (r: nat)
    requires m <= METHODS
    ensures m <= r <= METHODS
    ensures forall k: nat :: m <= k < r ==> Mergeable(d, s, pre, k)
    ensures r < METHODS ==> !Mergeable(d, s, pre, r)
    decreases METHODS - m
  {
    if m == METHODS || !Mergeable(d, s, pre, m) then m else FirstConflict(d, s, pre, m + 1)
  }

  /** The destination after `MountAt`, whichever way it goes. A conflict in bucket k is noticed after
      the prefix nodes of buckets 0..k have been created. */
  ghost function AfterMount(d: Forest, s: Forest, prefix: string, cloning: bool): Forest {
    var pre := Segments(prefix);
    if !IsValidTarget(prefix) || (cloning && !Cloneable(s)) then d
    else if Mountable(d, s, pre) then Mounted(d, s, prefix)
    else Grow(d, MountTrail(pre, FirstConflict(d, s, pre, 0) + 1))
  }

  ghost function Built(b: Build): Forest {
    match b
    case Fresh => map m: nat | m < METHODS :: Root(m) := BLANK
    case Register(base, m, target, c) =>
      if m < METHODS && IsValidTarget(target) then Registered(Built(base), m, target, c) else Built(base)
    case Mount(base, prefix, source, cloning) =>
      AfterMount(Built(base), Built(source), prefix, cloning)
  }

  // ----- templates name their node -----

  ghost predicate TitledAt(t: Forest, p: Path)
    requires p in t
  {
    t[p].handler.Some? ==>
      && t[p].tmpl != "" && t[p].tmpl[0] == '/' && '?' !in t[p].tmpl
      && TargetPath(Bucket(p), t[p].tmpl) == p
  }

  /** Every node with a handler carries a template that leads to it. */
  ghost predicate Titled(t: Forest) {
    forall p :: p in t ==> TitledAt(t, p)
  }

  lemma {:induction false} ValidTemplate(target: string)
    requires IsValidTarget(target)
    ensures Template(target)[..1] == "/" && '?' !in Template(target)
    ensures Segments(Template(target)) == Segments(target)
  {
    TemplateSegments(target);
  }

  lemma {:induction false} RegisteredTitled(t: Forest, m: nat, target: string, c: Change)
    requires WellFormed(t) && Titled(t) && m < METHODS && IsValidTarget(target)
    ensures Titled(Registered(t, m, target, c))
  {
    var t' := Registered(t, m, target, c);
    var p := TargetPath(m, target);
    RegisterFrame(t, m, target, c);
    ValidTemplate(target);
    PathFromShape(Root(m), Segments(target));
    forall q | q in t' ensures TitledAt(t', q) {
      if q != p && q in t { assert TitledAt(t, q); }
    }
  }

  lemma {:induction false} GrownTitled(t: Forest, added: set<Path>)
    requires Titled(t)
    ensures Titled(Grow(t, added))
  {
  }

  /** A prefixed template leads to the grafted position. */
  lemma {:induction false} PrefixedTitle(s: Forest, prefix: string, x: Path)
    requires x in s && TitledAt(s, x) && s[x].handler.Some? && IsValidTarget(prefix)
    ensures var tmpl := JoinTemplate(prefix, s[x].tmpl);
            && tmpl != "" && tmpl[0] == '/' && '?' !in tmpl
            && TargetPath(Bucket(x), tmpl) == Graft(Segments(prefix), x)
            && Segments(tmpl) == Segments(prefix) + Segments(s[x].tmpl)
  {
    var pre := Segments(prefix);
    JoinTemplateSegments(prefix, s[x].tmpl);
    PathFromConcat(Root(Bucket(x)), pre, Segments(s[x].tmpl));
    GraftPathFrom(pre, Root(Bucket(x)), Segments(s[x].tmpl));
  }

  /** Where the handler of a mounted node comes from. */
  lemma {:induction false} MountedHandler(d: Forest, s: Forest, prefix: string, p: Path)
    requires WellFormed(s) && p in Mounted(d, s, prefix) && Mounted(d, s, prefix)[p].handler.Some?
    ensures var n := Mounted(d, s, prefix)[p];
            || (p in d && n.handler == d[p].handler && n.names == d[p].names && n.tmpl == d[p].tmpl)
            || (&& Grafted(Segments(prefix), p) && Ungraft(Segments(prefix), p) in s
                && var x := s[Ungraft(Segments(prefix), p)];
                   n.handler == x.handler && n.names == x.names && n.tmpl == JoinTemplate(prefix, x.tmpl))
  {
    var pre := Segments(prefix);
    var g := Grow(d, MountTrail(pre, METHODS));
    var s' := Prefixed(s, prefix, METHODS);
    if Met(s', pre, METHODS, p) {
      var x := Ungraft(pre, p);
      MergedAt(g, s', pre, METHODS, x);
    }
  }

  lemma {:induction false} MountedTitled(d: Forest, s: Forest, prefix: string)
    requires WellFormed(s) && Titled(d) && Titled(s) && IsValidTarget(prefix)
    ensures Titled(Mounted(d, s, prefix))
  {
    var t := Mounted(d, s, prefix);
    forall p | p in t ensures TitledAt(t, p) {
      if t[p].handler.Some? {
        MountedHandler(d, s, prefix, p);
        if p in d { assert TitledAt(d, p); }
        if Grafted(Segments(prefix), p) && Ungraft(Segments(prefix), p) in s {
          var x := Ungraft(Segments(prefix), p);
          assert TitledAt(s, x);
          if s[x].handler.Some? { PrefixedTitle(s, prefix, x); }
        }
      }
    }
  }

  /** In every table, however built, the route template of a node with a handler leads back to that
      very node: mounting joins templates exactly as it joins tree positions. */
  lemma {:induction false} TemplatesLeadToTheirNode(b: Build)
    ensures WellFormed(Built(b)) && Titled(Built(b))
  {
    match b
    case Fresh =>
    case Register(base, m, target, c) =>
      TemplatesLeadToTheirNode(base);
      if m < METHODS && IsValidTarget(target) {
        RegisteredWellFormed(Built(base), m, target, c);
        RegisteredTitled(Built(base), m, target, c);
      }
    case Mount(base, prefix, source, cloning) =>
      TemplatesLeadToTheirNode(base);
      TemplatesLeadToTheirNode(source);
      var d, s, pre := Built(base), Built(source), Segments(prefix);
      if Mountable(d, s, pre) {
        MountedWellFormed(d, s, prefix);
        if IsValidTarget(prefix) { MountedTitled(d, s, prefix); }
      } else {
        var k := FirstConflict(d, s, pre, 0);
        assert k < METHODS;
        GrownWellFormed(d, pre, k + 1);
        GrownTitled(d, MountTrail(pre, k + 1));
      }
  }

  lemma {:induction false} RegisteredWellFormed(t: Forest, m: nat, target: string, c: Change)
    requires WellFormed(t) && m < METHODS
    ensures WellFormed(Registered(t, m, target, c))
  {
    GrowToWellFormed(t, m, Segments(target));
  }

  // ----- names line up with parameter edges -----

  /** The node, if it has a handler, has one name per parameter edge on its path. */
  ghost predicate AlignedAt(t: Forest, p: Path)
    requires p in t
  {
    t[p].handler.Some? ==> |t[p].names| == Wilds(p)
  }

  ghost predicate Aligned(t: Forest) {
    forall p :: p in t ==> AlignedAt(t, p)
  }

  /** Registrations name all their parameters and mounts use literal prefixes. */
  predicate Plain(b: Build) {
    match b
    case Fresh => true
    case Register(base, _, target, _) => Plain(base) && AllNamed(Segments(target))
    case Mount(base, prefix, source, _) => Plain(base) && Plain(source) && AllLiteral(Segments(prefix))
  }

  /** Registering a handler aligns its node exactly when no parameter of the target is `{}`. */
  lemma {:induction false} RegistrationAlignment(t: Forest, m: nat, target: string, c: Change)
    requires WellFormed(t) && m < METHODS
    ensures var p := TargetPath(m, target);
            var t' := Registered(t, m, target, c);
            && p in t'
            && (t'[p].handler.Some? ==> (AlignedAt(t', p) <==> AllNamed(Segments(target))))
  {
    RegisterFrame(t, m, target, c);
    NamesPerWild(Root(m), Segments(target));
  }

  lemma {:induction false} WildsOfPrefix(m: nat, pre: seq<string>)
    ensures Wilds(PathFrom(Root(m), pre)) == 0 <==> AllLiteral(pre)
  {
    WildsFrom(Root(m), pre);
  }

  lemma {:induction false} WildsFrom(p: Path, pre: seq<string>)
    ensures Wilds(PathFrom(p, pre)) >= Wilds(p)
    ensures Wilds(PathFrom(p, pre)) == Wilds(p) <==> AllLiteral(pre)
    decreases |pre|
  {
    if pre != [] {
      WildsFrom(Step(p, EdgeOf(pre[0])), pre[1..]);
      assert AllLiteral(pre) <==> !IsParam(pre[0]) && AllLiteral(pre[1..]) by {
        assert pre == [pre[0]] + pre[1..];
      }
    }
  }

  /** A mounted handler that was aligned in the source stays aligned exactly when the mount prefix has
      no parameter: a parametric prefix adds captured values but no names. */
  lemma {:induction false} MountAlignment(d: Forest, s: Forest, prefix: string, x: Path)
    requires WellFormed(s) && x in s && s[x].handler.Some? && AlignedAt(s, x)
    requires Mountable(d, s, Segments(prefix))
    ensures var p := Graft(Segments(prefix), x);
            var t := Mounted(d, s, prefix);
            p in t && t[p].handler == s[x].handler && (AlignedAt(t, p) <==> AllLiteral(Segments(prefix)))
  {
    var pre := Segments(prefix);
    BucketInRange(s.Keys, x);
    MergedAt(Grow(d, MountTrail(pre, METHODS)), Prefixed(s, prefix, METHODS), pre, METHODS, x);
    GraftWilds(pre, x);
    WildsOfPrefix(Bucket(x), pre);
  }

  lemma {:induction false} RegisteredAligned(t: Forest, m: nat, target: string, c: Change)
    requires WellFormed(t) && Aligned(t) && m < METHODS && AllNamed(Segments(target))
    ensures Aligned(Registered(t, m, target, c))
  {
    var t' := Registered(t, m, target, c);
    RegisterFrame(t, m, target, c);
    RegistrationAlignment(t, m, target, c);
    forall q | q in t' ensures AlignedAt(t', q) {
      if q != TargetPath(m, target) && q in t { assert AlignedAt(t, q); }
    }
  }

  lemma {:induction false} GrownAligned(t: Forest, added: set<Path>)
    requires Aligned(t)
    ensures Aligned(Grow(t, added))
  {
  }

  lemma {:induction false} MountedAligned(d: Forest, s: Forest, prefix: string)
    requires WellFormed(s) && Aligned(d) && Aligned(s) && AllLiteral(Segments(prefix))
    ensures Aligned(Mounted(d, s, prefix))
  {
    var t := Mounted(d, s, prefix);
    var pre := Segments(prefix);
    forall p | p in t ensures AlignedAt(t, p) {
      if t[p].handler.Some? {
        MountedHandler(d, s, prefix, p);
        if p in d { assert AlignedAt(d, p); }
        if Grafted(pre, p) && Ungraft(pre, p) in s {
          var x := Ungraft(pre, p);
          assert AlignedAt(s, x);
          GraftWilds(pre, x);
          WildsOfPrefix(Bucket(x), pre);
        }
      }
    }
  }

  /** In every table built from named targets and literal mount prefixes, each node with a handler has
      exactly as many parameter names as parameter edges on its path. */
  lemma {:induction false} ParametersAligned(b: Build)
    requires Plain(b)
    ensures Aligned(Built(b))
  {
    match b
    case Fresh =>
    case Register(base, m, target, c) =>
      ParametersAligned(base);
      TemplatesLeadToTheirNode(base);
      if m < METHODS && IsValidTarget(target) { RegisteredAligned(Built(base), m, target, c); }
    case Mount(base, prefix, source, cloning) =>
      ParametersAligned(base);
      ParametersAligned(source);
      TemplatesLeadToTheirNode(source);
      var d, s, pre := Built(base), Built(source), Segments(prefix);
      if Mountable(d, s, pre) {
        MountedAligned(d, s, prefix);
      } else {
        GrownAligned(d, MountTrail(pre, FirstConflict(d, s, pre, 0) + 1));
      }
  }

  /** Hence every matched request of such a table binds each name to the segment captured at its
      position, the first of equal names winning, also when the walk stops early at an exclusive
      node; no name and no value is left over. */
  lemma {:induction false} ParametersComplete(b: Build, tab: Table, m: nat, request: seq<string>)
    requires Plain(b) && tab.forest == Built(b) && m < METHODS
    ensures WellFormed(tab.forest)
    ensures var r := Walk(tab.forest, Root(m), request);
            r.Some? && tab.forest[r.value.leaf].handler.Some? ==>
              var names := tab.forest[r.value.leaf].names;
              var bound := RouteResult(tab, m, Some(request)).parameters;
              && |names| == |r.value.values|
              && (forall x :: x in bound ==> x in names)
              && (forall i :: 0 <= i < |names| && names[i] !in names[..i] ==>
                    names[i] in bound && bound[names[i]] == r.value.values[i])
  {
    TemplatesLeadToTheirNode(b);
    ParametersAligned(b);
    WalkCaptures(tab.forest, Root(m), request);
    var r := Walk(tab.forest, Root(m), request);
    if r.Some? && tab.forest[r.value.leaf].handler.Some? {
      assert AlignedAt(tab.forest, r.value.leaf);
      ParametersZip(tab.forest[r.value.leaf].names, r.value.values);
    }
  }

  // ----- a rejected mount is not invisible -----

  /** If bucket `m` serves /w by its root parameter route, then a mount at /w that is rejected for bucket `m`
      or a later one takes /w away from that route. */
  lemma {:induction false} RejectedMountShadows(tab: Table, s: Forest, w: string, m: nat)
    requires WellFormed(tab.forest) && w != "" && !IsParam(w)
    requires IsValidTarget("/" + w) && Segments("/" + w) == [w]
    requires !Mountable(tab.forest, s, [w]) && m <= FirstConflict(tab.forest, s, [w], 0)
    requires Root(m) in tab.forest && Step(Root(m), Lit(w)) !in tab.forest && !tab.forest[Root(m)].exclusive
    requires Step(Root(m), Wild) in tab.forest && tab.forest[Step(Root(m), Wild)].handler.Some?
    ensures WellFormed(AfterMount(tab.forest, s, "/" + w, false))
    ensures RouteResult(tab, m, Some([w])).handler == tab.forest[Step(Root(m), Wild)].handler.value
    ensures RouteResult(tab, m, Some([w])).tmpl == tab.forest[Step(Root(m), Wild)].tmpl
    ensures RouteResult(tab.(forest := AfterMount(tab.forest, s, "/" + w, false)), m, Some([w])) == DefaultResult(tab)
  {
    hide FirstConflict;
    var upto := FirstConflict(tab.forest, s, [w], 0) + 1;
    var k := Step(Root(m), Lit(w));
    var g := Grow(tab.forest, MountTrail([w], upto));
    assert [w][1..] == [];
    assert k in Trail(Root(m), [w]);
    MountTrailHas([w], upto);
    assert Bucket(k) == Bucket(Root(m)) == m;
    assert k in MountTrail([w], upto);
    RejectedMountFrame(tab, [w], upto, m, [w]);
    assert Enters(g, Root(m), [w], MountTrail([w], upto) - tab.forest.Keys);
    assert Walk(tab.forest, Step(Root(m), Wild), []) == Some(Hit(Step(Root(m), Wild), [], []));
  }
}
