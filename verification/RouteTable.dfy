/** The route table as a mutable object: registration and matching
    (src/route/http_route_table_registry.cc, http_route_table_match.cc). Its methods are proved
    against the forest functions of `RouteTree`. */
module RouteTable {
  import opened Text
  import opened RouteTarget
  import opened RouteTree
  import opened RouteLayer
  import opened RouteMount
  import opened RouteMountLaws
  import opened RouteHistory
  import opened RouteClone

  class HttpRouteTable {
    var entrance: seq<Layer>
    var methodAspects: map<nat, seq<Handler>>
    var globals: seq<Handler>
    var defaultHandler: Handler
    var defaultMaxBody: nat
    var defaultReadExpiry: nat
    var defaultWriteExpiry: nat
    /** The layer at every position of the tree. */
    ghost var nodes: Nodes
    /** How the tree came about. */
    ghost var build: Build

    ghost predicate Valid()
      reads this, nodes.Values
    {
      && Represents(nodes) && View(nodes) == Built(build)
      && |entrance| == METHODS
      && (forall m: nat :: m < METHODS ==> entrance[m] == nodes[Root(m)])
    }

    /** One blank root per method. */
    constructor (handler: Handler)
      ensures Valid() && fresh(nodes.Values) && build == Fresh
      ensures Contents() == Table(Built(Fresh), map[], [], handler, 16384, 4000, 4000)
    {
      hide Represents, View, Built, WellFormed;
      methodAspects, globals, defaultHandler := map[], [], handler;
      defaultMaxBody, defaultReadExpiry, defaultWriteExpiry := 16384, 4000, 4000;
      var roots;
      ghost var made;
      roots, made := MakeRoots();
      entrance, nodes, build := roots, made, Fresh;
    }

    /** What holds of every table because of how it came about: the template of a handler leads to its node, and in a
        table of named targets and literal prefixes every handler has one name per parameter edge. */
    lemma {:induction false} BuiltTable()
      requires Valid()
      ensures WellFormed(View(nodes)) && Titled(View(nodes)) && (Plain(build) ==> Aligned(View(nodes)))
    {
      hide Built, Represents, View, WellFormed, Titled, Aligned;
      TemplatesLeadToTheirNode(build);
      if Plain(build) { ParametersAligned(build); }
    }

    /** The table as a value. */
    ghost function Contents(): Table
      reads this, nodes.Values
    {
      Table(View(nodes), methodAspects, globals, defaultHandler, defaultMaxBody, defaultReadExpiry, defaultWriteExpiry)
    }

    /** Registration of a route, an aspect or a limit; an unknown method or a malformed target is
        refused and changes nothing. */
    method Register(m: nat, target: string, change: Change) returns (ok: bool)
      requires Valid()
      modifies this`nodes, this`build, nodes.Values
      ensures Valid() && build == Build.Register(old(build), m, target, change)
      ensures ok <==> m < METHODS && IsValidTarget(target)
      ensures View(nodes) == if ok then old(Registered(View(nodes), m, target, change)) else old(View(nodes))
      ensures forall p :: p in old(nodes) ==> p in nodes && nodes[p] == old(nodes)[p]
      ensures fresh(nodes.Values - old(nodes.Values))
    {
      hide Forms, IsValidTarget, Registered, View, CellsOf;
      build := Build.Register(build, m, target, change);
      if m >= METHODS || !IsValidTarget(target) {
        return false;
      }
      RootsPresent(nodes, CellsOf(nodes));
      nodes := RegisterAt(entrance[m], m, target, change, nodes);
      return true;
    }

    /** The layers from the bucket root down to `p`. */
    ghost function LayersTo(p: Path): seq<Layer>
      reads this
    {
      (if p.Step? then LayersTo(p.up) else []) + (if p in nodes then [nodes[p]] else [])
    }

    /** Follow the request's segments from a bucket root. */
    method MatchSegments(m: nat, request: seq<string>)
      returns (ok: bool, layer: Layer, location: string, values: seq<string>, matched: seq<Layer>, ghost leaf: Path)
      requires Valid() && m < METHODS
      ensures WellFormed(View(nodes))
      ensures ok <==> Walk(View(nodes), Root(m), request).Some?
      ensures ok ==>
                var hit := Walk(View(nodes), Root(m), request).value;
                && layer == nodes[hit.leaf] && values == hit.values && matched == LayersTo(hit.leaf)
                && location == (if hit.used == [] then "/" else Location(hit.used))
      ensures ok ==> leaf == Walk(View(nodes), Root(m), request).value.leaf
    {
      RepresentsWellFormed(nodes, CellsOf(nodes));
      ghost var t := View(nodes);
      ghost var goal := Walk(t, Root(m), request);
      ghost var used := [];
      layer, leaf := entrance[m], Root(m);
      location, values, matched := "", [], [layer];
      assert request[0..] == request;
      ResumeNothing(goal);
      var i := 0;
      while i < |request|
        invariant 0 <= i <= |request|
        invariant leaf in nodes && layer == nodes[leaf]
        invariant goal == Resume(values, used, Walk(t, leaf, request[i..]))
        invariant location == Location(used)
        invariant matched == LayersTo(leaf)
      {
        var s := request[i];
        ghost var rest := request[i..];
        assert rest[0] == s && rest[1..] == request[i + 1..];
        assert leaf in CellsOf(nodes) && LinkedAt(nodes, leaf, CellsOf(nodes)[leaf]);
        i := i + 1;
        if s == "" {
          continue;
        }
        if s in layer.routes {
          ResumeSnoc(values, used, s, Walk(t, Step(leaf, Lit(s)), request[i..]));
          layer, leaf := layer.routes[s], Step(leaf, Lit(s));
        } else if layer.node.exclusive {
          assert goal == Some(Hit(leaf, values + [], used + []));
          break;
        } else if layer.fallback == null {
          return false, layer, location, values, matched, leaf;
        } else {
          ResumeSnoc(values, used, s, Walk(t, Step(leaf, Wild), request[i..]));
          values := values + [s];
          layer, leaf := layer.fallback, Step(leaf, Wild);
        }
        LocationSnoc(used, s);
        location := location + "/" + s;
        matched := matched + [layer];
        used := used + [s];
      }
      assert values + [] == values && used + [] == used;
      assert goal == Some(Hit(leaf, values, used));
      LocationEmpty(used);
      if location == "" {
        location := "/";
      }
      ok := true;
    }

    /** Zip names and values; the first of equal names wins. */
    method BuildParameterMap(names: seq<string>, values: seq<string>) returns (parameters: map<string, string>)
      ensures parameters == Parameters(names, values)
    {
      parameters := map[];
      var count := if |names| < |values| then |names| else |values|;
      for i := 0 to count
        invariant parameters == Parameters(names[..i], values[..i])
      {
        assert names[..i + 1] == names[..i] + [names[i]] && values[..i + 1] == values[..i] + [values[i]];
        ParametersSnoc(names[..i], values[..i], names[i], values[i]);
        if names[i] !in parameters {
          parameters := parameters[names[i] := values[i]];
        }
      }
      ParametersCut(names, values, count);
    }

    /** Table, method, subtree root-to-leaf and terminal aspects, in that order. */
    method CollectAspects(matched: seq<Layer>, layer: Layer, m: nat, ghost leaf: Path) returns (aspects: seq<Handler>)
      requires Valid() && leaf in nodes && layer == nodes[leaf] && matched == LayersTo(leaf)
      ensures aspects == TableAspects(Contents(), m) + PathAspects(View(nodes), leaf) + View(nodes)[leaf].terminals
    {
      hide Represents, PathAspects, AspectsOfLayers, TableAspects;
      aspects := globals;
      if m in methodAspects {
        aspects := aspects + methodAspects[m];
      }
      ghost var base := TableAspects(Contents(), m);
      NoLayersYet(m);
      for i := 0 to |matched|
        invariant aspects == base + AspectsOfLayers(matched[..i])
      {
        AspectsOfNextLayer(base, matched, i);
        aspects := aspects + matched[i].node.aspects;
      }
      assert matched[..|matched|] == matched;
      MatchedAspects(leaf);
      aspects := aspects + layer.node.terminals;
    }

    lemma NoLayersYet(m: nat)
      ensures TableAspects(Contents(), m) + AspectsOfLayers([]) == globals + (if m in methodAspects then methodAspects[m] else [])
      ensures globals + [] == globals
    {
    }

    lemma {:induction false} AspectsOfNextLayer(base: seq<Handler>, layers: seq<Layer>, i: nat)
      requires i < |layers|
      ensures base + AspectsOfLayers(layers[..i + 1]) == base + AspectsOfLayers(layers[..i]) + layers[i].node.aspects
    {
      assert layers[..i + 1][..i] == layers[..i];
      var sofar := AspectsOfLayers(layers[..i]);
      assert base + (sofar + layers[i].node.aspects) == base + sofar + layers[i].node.aspects;
    }

    /** Subtree aspects of a list of layers, in order. */
    ghost function AspectsOfLayers(layers: seq<Layer>): seq<Handler>
      reads layers
    {
      if layers == [] then []
      else AspectsOfLayers(layers[..|layers| - 1]) + layers[|layers| - 1].node.aspects
    }

    lemma MatchedAspects(p: Path)
      requires Represents(nodes) && p in nodes
      ensures AspectsOfLayers(LayersTo(p)) == PathAspects(View(nodes), p)
    {
    }

    method DefaultRoute() returns (result: Result)
      ensures result == DefaultResult(Contents())
    {
      result := Result("/", "/", map[], globals, defaultHandler, defaultMaxBody, defaultReadExpiry, defaultWriteExpiry);
    }

    /** Route a request whose target the URL parser turned into segments, or rejected. */
    method RouteRequest(m: nat, request: Option<seq<string>>) returns (result: Result)
      requires Valid()
      ensures WellFormed(View(nodes))
      ensures result == RouteResult(Contents(), m, request)
    {
      RepresentsWellFormed(nodes, CellsOf(nodes));
      if m >= METHODS || request.None? {
        result := DefaultRoute();
        return;
      }
      var ok, layer, location, values, matched, leaf := MatchSegments(m, request.value);
      if !ok || layer.node.handler.None? {
        result := DefaultRoute();
        return;
      }
      var aspects := CollectAspects(matched, layer, m, leaf);
      var parameters := BuildParameterMap(layer.node.names, values);
      result := Result(
        location,
        layer.node.tmpl,
        parameters,
        aspects,
        layer.node.handler.value,
        if layer.node.maxBody != 0 then layer.node.maxBody else defaultMaxBody,
        if layer.node.readExpiry != 0 then layer.node.readExpiry else defaultReadExpiry,
        if layer.node.writeExpiry != 0 then layer.node.writeExpiry else defaultWriteExpiry);
    }

    /** Mount by move. The destination becomes `AfterMount` of both tables, whichever way it goes; it keeps its own
        layers and may take over the source's; the source is consumed. */
    method MountAt(prefix: string, source: HttpRouteTable) returns (ok: bool)
      requires Valid() && source.Valid() && nodes.Values !! source.nodes.Values
      modifies this`nodes, this`build, nodes.Values, source.nodes.Values
      ensures Valid() && build == Mount(old(build), prefix, old(source.build), false)
      ensures ok <==> IsValidTarget(prefix) && Mountable(old(View(nodes)), old(View(source.nodes)), Segments(prefix))
      ensures View(nodes) == AfterMount(old(View(nodes)), old(View(source.nodes)), prefix, false)
      ensures forall p :: p in old(nodes) ==> p in nodes && nodes[p] == old(nodes)[p]
      ensures fresh(nodes.Values - old(nodes.Values) - old(source.nodes.Values))
    {
      hide Represents, View, IsValidTarget, AfterMount, Mountable, Built, WellFormed;
      RootsOf(nodes);
      RootsOf(source.nodes);
      MountBuilt(build, prefix, source.build, false);
      build := Mount(build, prefix, source.build, false);
      ok, nodes := MountLayers(entrance, source.entrance, prefix, nodes, source.nodes);
    }

    /** Mount by clone: as mounting by move a deep copy of the source, which may be this very table; another
        table is untouched. */
    method MountCloneAt(prefix: string, source: HttpRouteTable) returns (ok: bool)
      requires Valid() && source.Valid() && (source == this || nodes.Values !! source.nodes.Values)
      modifies this`nodes, this`build, nodes.Values
      ensures Valid() && build == Mount(old(build), prefix, old(source.build), true)
      ensures source != this ==> source.Valid() && source.Contents() == old(source.Contents())
      ensures ok <==> && IsValidTarget(prefix) && Cloneable(old(View(source.nodes)))
                      && Mountable(old(View(nodes)), old(View(source.nodes)), Segments(prefix))
      ensures View(nodes) == AfterMount(old(View(nodes)), old(View(source.nodes)), prefix, true)
      ensures forall p :: p in old(nodes) ==> p in nodes && nodes[p] == old(nodes)[p]
      ensures fresh(nodes.Values - old(nodes.Values))
    {
      hide Represents, View, IsValidTarget, AfterMount, Cloneable, Mountable, Built, WellFormed;
      RootsOf(nodes);
      RootsOf(source.nodes);
      MountBuilt(build, prefix, source.build, true);
      build := Mount(build, prefix, source.build, true);
      ok, nodes := CloneAndMount(entrance, source.entrance, prefix, nodes, source.nodes);
    }
  }

  /** The layers of a table at their positions, one root per method. */
  ghost predicate Roots(roots: seq<Layer>, nodes: Nodes) {
    |roots| == METHODS && forall m: nat :: m < METHODS ==> Root(m) in nodes && roots[m] == nodes[Root(m)]
  }

  /** Both passes of a mount of the layers `sn` into the layers `dn`. */
  method MountLayers(roots: seq<Layer>, srcRoots: seq<Layer>, prefix: string, ghost dn: Nodes, ghost sn: Nodes)
    returns (ok: bool, ghost nodes: Nodes)
    requires Represents(dn) && Represents(sn) && dn.Values !! sn.Values && Roots(roots, dn) && Roots(srcRoots, sn)
    modifies dn.Values, sn.Values
    ensures Represents(nodes)
    ensures ok <==> IsValidTarget(prefix) && Mountable(old(View(dn)), old(View(sn)), Segments(prefix))
    ensures View(nodes) == AfterMount(old(View(dn)), old(View(sn)), prefix, false)
    ensures forall p :: p in dn ==> p in nodes && nodes[p] == dn[p]
    ensures forall p :: p in nodes ==> nodes[p] in dn.Values || nodes[p] in sn.Values || fresh(nodes[p])
  {
    hide Represents, View, IsValidTarget, AfterMount, Mountable, Merged, Grow, Prefixed, FirstConflict, MountTrail,
         MergedNodes, MountPresent, WellFormed;
    nodes := dn;
    MountCases(View(dn), View(sn), prefix);
    if !IsValidTarget(prefix) {
      return false, dn;
    }
    RootsOf(dn);
    ghost var d, grown := View(dn), dn;
    ok, grown := CheckMount(roots, srcRoots, prefix, dn, sn);
    if !ok {
      return false, grown;
    }
    MountReady(d, grown, prefix);
    nodes := MergeAll(roots, srcRoots, prefix, grown, sn);
    MergedKeeps(grown, sn, Segments(prefix));
  }

  /** Mount a deep copy of the layers `sn` into the layers `dn`, which may be the same ones. */
  method CloneAndMount(roots: seq<Layer>, srcRoots: seq<Layer>, prefix: string, ghost dn: Nodes, ghost sn: Nodes)
    returns (ok: bool, ghost nodes: Nodes)
    requires Represents(dn) && Represents(sn) && Roots(roots, dn) && Roots(srcRoots, sn)
    modifies dn.Values
    ensures Represents(nodes)
    ensures ok <==> IsValidTarget(prefix) && Cloneable(old(View(sn))) && Mountable(old(View(dn)), old(View(sn)), Segments(prefix))
    ensures View(nodes) == AfterMount(old(View(dn)), old(View(sn)), prefix, true)
    ensures forall p :: p in dn ==> p in nodes && nodes[p] == dn[p]
    ensures forall p :: p in nodes ==> nodes[p] in dn.Values || fresh(nodes[p])
  {
    hide Represents, View, IsValidTarget, AfterMount, Cloneable, Mountable, WellFormed;
    MountCases(View(dn), View(sn), prefix);
    if !IsValidTarget(prefix) {
      return false, dn;
    }
    var cloned, copies;
    ghost var cn;
    cloned, copies, cn := CloneAll(srcRoots, sn);
    if !cloned {
      return false, dn;
    }
    ok, nodes := MountLayers(roots, copies, prefix, dn, cn);
  }

  /** One blank layer per method. */
  method MakeRoots() returns (roots: seq<Layer>, ghost made: Nodes)
    ensures Represents(made) && View(made) == Built(Fresh) && fresh(made.Values)
    ensures |roots| == METHODS && forall k: nat :: k < METHODS ==> Root(k) in made && made[Root(k)] == roots[k]
  {
    roots, made := [], map[];
    for m := 0 to METHODS
      invariant |roots| == m && made.Keys == (set k: nat | k < m :: Root(k))
      invariant forall k: nat :: k < m ==> Root(k) in made && made[Root(k)] == roots[k]
      invariant forall p :: p in made ==> fresh(made[p]) && made[p].Now() == EMPTY_CELL
      invariant Injective(made)
    {
      var layer := new Layer();
      roots, made := roots + [layer], made[Root(m) := layer];
    }
    BlankForms(made, CellsOf(made));
  }

  lemma {:induction false} BlankForms(made: Nodes, cells: Cells)
    requires made.Keys == cells.Keys == (set k: nat | k < METHODS :: Root(k)) && Injective(made)
    requires forall p :: p in cells ==> cells[p] == EMPTY_CELL
    ensures Forms(made, cells) && Forget(cells) == Built(Fresh)
  {
    forall p | p in made ensures LinkedAt(made, p, cells[p]) { }
    assert Forget(cells).Keys == Built(Fresh).Keys;
  }

  lemma RootsOf(nodes: Nodes)
    requires Represents(nodes)
    ensures forall m: nat :: m < METHODS <==> Root(m) in nodes
    ensures WellFormed(View(nodes))
  {
  }

  lemma MountBuilt(b: Build, prefix: string, source: Build, cloning: bool)
    ensures Built(Mount(b, prefix, source, cloning)) == AfterMount(Built(b), Built(source), prefix, cloning)
  {
  }

  /** `AfterMount` case by case, for a source all of whose nodes are there. */
  lemma {:induction false} MountCases(d: Forest, s: Forest, prefix: string)
    ensures var pre := Segments(prefix);
            var k := FirstConflict(d, s, pre, 0);
            && (Mountable(d, s, pre) <==> k == METHODS)
            && (!IsValidTarget(prefix) ==> AfterMount(d, s, prefix, false) == d && AfterMount(d, s, prefix, true) == d)
            && (!Cloneable(s) ==> AfterMount(d, s, prefix, true) == d)
            && (Cloneable(s) ==> AfterMount(d, s, prefix, true) == AfterMount(d, s, prefix, false))
            && (IsValidTarget(prefix) && k < METHODS ==>
                  AfterMount(d, s, prefix, false) == Grow(d, MountTrail(pre, k + 1)))
            && (IsValidTarget(prefix) && k == METHODS ==>
                  AfterMount(d, s, prefix, false) ==
                    Merged(Grow(d, MountTrail(pre, METHODS)), Prefixed(s, prefix, METHODS), pre, METHODS))
  {
  }

  lemma {:induction false} MountReady(d: Forest, dn: Nodes, prefix: string)
    requires WellFormed(d) && View(dn) == Grow(d, MountTrail(Segments(prefix), METHODS))
    ensures MountPresent(dn, Segments(prefix))
  {
    GrownWellFormed(d, Segments(prefix), METHODS);
    ViewKeys(dn);
  }

  lemma {:induction false} MergedKeeps(dn: Nodes, sn: Nodes, pre: seq<string>)
    ensures forall p :: p in dn ==> p in MergedNodes(dn, sn, pre) && MergedNodes(dn, sn, pre)[p] == dn[p]
    ensures forall p :: p in MergedNodes(dn, sn, pre) && p !in dn ==> MergedNodes(dn, sn, pre)[p] in sn.Values
  {
  }

  lemma ResumeNothing(h: Option<Hit>)
    ensures Resume([], [], h) == h
  {
    if h.Some? {
      assert [] + h.value.values == h.value.values && [] + h.value.used == h.value.used;
    }
  }

  lemma LocationEmpty(used: seq<string>)
    ensures Location(used) == "" <==> used == []
  {
  }

  lemma {:induction false} ParametersCut(names: seq<string>, values: seq<string>, n: nat)
    requires n == if |names| < |values| then |names| else |values|
    ensures Parameters(names[..n], values[..n]) == Parameters(names, values)
  {
    if n > 0 {
      assert names[..n][1..] == names[1..][..n - 1] && values[..n][1..] == values[1..][..n - 1];
      ParametersCut(names[1..], values[1..], n - 1);
    }
  }
}
