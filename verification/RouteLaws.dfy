/** What the route table promises about matching, over every forest: registered routes are found,
    parameters line up with names, merges lose nothing, mounts preserve routing, and a rejected
    mount disturbs only requests that enter its leftover prefix nodes. */
module RouteLaws {
  import opened Text
  import opened RouteTarget
  import opened RouteTree

  // ----- register then match -----

  /** `request` has the shape of `segments`: equal literals, any non-empty text for parameters. */
  predicate Instance(segments: seq<string>, request: seq<string>) {
    && |segments| == |request|
    && forall i :: 0 <= i < |segments| ==> request[i] != "" && (IsParam(segments[i]) || request[i] == segments[i])
  }

  /** The request's segments at the parameter positions of the target. */
  function Captured(segments: seq<string>, request: seq<string>): seq<string>
    requires |segments| == |request|
  {
    if segments == [] then []
    else if IsParam(segments[0]) then [request[0]] + Captured(segments[1..], request[1..])
    else Captured(segments[1..], request[1..])
  }

  /** At every parameter position the node has no literal child of that name and is not exclusive. */
  ghost predicate Unobstructed(t: Forest, p: Path, segments: seq<string>, request: seq<string>)
    requires |segments| == |request|
    decreases |segments|
  {
    segments == [] ||
    (&& (IsParam(segments[0]) ==> Step(p, Lit(request[0])) !in t && p in t && !t[p].exclusive)
     && Unobstructed(t, Step(p, EdgeOf(segments[0])), segments[1..], request[1..]))
  }

  lemma {:induction false} TrailHead(t: Forest, p: Path, segments: seq<string>)
    requires segments != [] && Trail(p, segments) <= t.Keys
    ensures Step(p, EdgeOf(segments[0])) in t
    ensures Trail(Step(p, EdgeOf(segments[0])), segments[1..]) <= t.Keys
  {
  }

  lemma {:induction false} InstanceTail(segments: seq<string>, request: seq<string>)
    requires Instance(segments, request) && segments != []
    ensures Instance(segments[1..], request[1..])
    ensures request[0] != "" && (IsParam(segments[0]) || request[0] == segments[0])
  {
  }

  /** A walk below `q` cannot end below a different child of `q`'s parent. */
  lemma {:induction false} SiblingsApart(p: Path, e: Edge, f: Edge, leaf: Path)
    requires Under(Step(p, e), leaf) && Under(Step(p, f), leaf)
    ensures e == f
  {
    UnderTransitive(p, Step(p, e), leaf);
    UnderIsDeeper(Step(p, e), leaf);
    var g := UnderSplit(p, leaf);
  }

  /** Where the target's nodes exist, an instance of the target followed by any further segments
      reaches the target's node, exactly when it is unobstructed; it then captures the parameter
      segments and goes on from there. */
  lemma {:induction false} WalkAlong(t: Forest, p: Path, segments: seq<string>, request: seq<string>, more: seq<string>)
    requires p in t && Trail(p, segments) <= t.Keys
    requires Instance(segments, request)
    requires Unobstructed(t, p, segments, request)
    ensures PathFrom(p, segments) in t
    ensures var rest := Walk(t, PathFrom(p, segments), more);
            Walk(t, p, request + more) ==
              if rest.None? then None
              else Some(Hit(rest.value.leaf, Captured(segments, request) + rest.value.values, request + rest.value.used))
    decreases |segments|
  {
    var whole := request + more;
    if segments == [] {
      assert whole == more;
      var rest := Walk(t, p, more);
      if rest.Some? {
        assert [] + rest.value.values == rest.value.values && request + rest.value.used == rest.value.used;
      }
    } else {
      var k := Step(p, EdgeOf(segments[0]));
      TrailHead(t, p, segments);
      InstanceTail(segments, request);
      assert whole[0] == request[0] && whole[1..] == request[1..] + more;
      WalkAlong(t, k, segments[1..], request[1..], more);
      var rest := Walk(t, PathFrom(p, segments), more);
      if rest.Some? {
        assert [request[0]] + (request[1..] + rest.value.used) == request + rest.value.used;
        var tail := Captured(segments[1..], request[1..]);
        assert [request[0]] + (tail + rest.value.values) == [request[0]] + tail + rest.value.values;
      }
    }
  }

  /** An obstructed instance is routed elsewhere. */
  lemma {:induction false} WalkAstray(t: Forest, p: Path, segments: seq<string>, request: seq<string>)
    requires p in t && Trail(p, segments) <= t.Keys
    requires Instance(segments, request)
    requires !Unobstructed(t, p, segments, request)
    ensures var r := Walk(t, p, request); r.Some? ==> r.value.leaf != PathFrom(p, segments)
    decreases |segments|
  {
    var k := Step(p, EdgeOf(segments[0]));
    TrailHead(t, p, segments);
    InstanceTail(segments, request);
    PathFromShape(k, segments[1..]);
    if Step(p, Lit(request[0])) in t && IsParam(segments[0]) {
      WalkCaptures(t, Step(p, Lit(request[0])), request[1..]);
      var r := Walk(t, Step(p, Lit(request[0])), request[1..]);
      if r.Some? && r.value.leaf == PathFrom(p, segments) {
        SiblingsApart(p, Wild, Lit(request[0]), r.value.leaf);
      }
    } else if IsParam(segments[0]) && t[p].exclusive {
      assert Depth(PathFrom(p, segments)) > Depth(p);
    } else {
      WalkAstray(t, k, segments[1..], request[1..]);
    }
  }

  /** Register then match. An accepted registration of a non-null handler is found by a request
      instance of its target if and only if no literal sibling or exclusive node is in the way; the
      captured segments are the parameter segments in order. */
  lemma {:induction false} RegisterThenMatch(t: Forest, m: nat, target: string, c: Change, request: seq<string>)
    requires WellFormed(t) && m < METHODS && Instance(Segments(target), request)
    ensures WellFormed(Registered(t, m, target, c))
    ensures var t' := Registered(t, m, target, c);
            var r := Walk(t', Root(m), request);
            && ((r.Some? && r.value.leaf == TargetPath(m, target)) <==>
                  Unobstructed(t', Root(m), Segments(target), request))
            && (Unobstructed(t', Root(m), Segments(target), request) ==>
                  r == Some(Hit(TargetPath(m, target), Captured(Segments(target), request), request)))
  {
    var segs := Segments(target);
    var t' := Registered(t, m, target, c);
    GrowToWellFormed(t, m, segs);
    assert t'.Keys == GrowTo(t, m, segs).Keys;
    if Unobstructed(t', Root(m), segs, request) {
      WalkAlong(t', Root(m), segs, request, []);
      assert request + [] == request && Captured(segs, request) + [] == Captured(segs, request);
    } else {
      WalkAstray(t', Root(m), segs, request);
    }
  }

  /** A registration rewrites exactly one node and adds only blank ones. */
  lemma {:induction false} RegisterFrame(t: Forest, m: nat, target: string, c: Change)
    requires WellFormed(t) && m < METHODS
    ensures var t' := Registered(t, m, target, c);
            var p := TargetPath(m, target);
            && t'.Keys == t.Keys + Trail(Root(m), Segments(target))
            && (forall q :: q in t && q != p ==> t'[q] == t[q])
            && (forall q :: q in t' && q !in t && q != p ==> t'[q] == BLANK)
            && p in t' && t'[p] == Apply(Labelled(if p in t then t[p] else BLANK, target), c)
  {
    GrowToWellFormed(t, m, Segments(target));
  }

  /** The whole result of a request that finds a freshly registered route: its handler, its
      template, name i bound to the i-th captured segment, its limits over the table's defaults, and
      aspects in the order table, method, subtree from the root, terminal. */
  lemma {:induction false} RegisteredResult(tab: Table, m: nat, target: string, h: Handler, request: seq<string>)
    requires WellFormed(tab.forest) && m < METHODS && Instance(Segments(target), request)
    requires var t' := Registered(tab.forest, m, target, Route(Some(h)));
             Unobstructed(t', Root(m), Segments(target), request)
    ensures WellFormed(Registered(tab.forest, m, target, Route(Some(h))))
    ensures var p := TargetPath(m, target);
            var tab' := tab.(forest := Registered(tab.forest, m, target, Route(Some(h))));
            var n := if p in tab.forest then tab.forest[p] else BLANK;
            && p in tab'.forest
            && RouteResult(tab', m, Some(request)) ==
                 Result(if request == [] then "/" else Location(request),
                        Template(target),
                        Parameters(ParamNames(Segments(target)), Captured(Segments(target), request)),
                        tab.globals + (if m in tab.methodAspects then tab.methodAspects[m] else [])
                        + PathAspects(tab'.forest, p) + n.terminals,
                        h,
                        if n.maxBody != 0 then n.maxBody else tab.maxBody,
                        if n.readExpiry != 0 then n.readExpiry else tab.readExpiry,
                        if n.writeExpiry != 0 then n.writeExpiry else tab.writeExpiry)
  {
    RegisterThenMatch(tab.forest, m, target, Route(Some(h)), request);
    RegisterFrame(tab.forest, m, target, Route(Some(h)));
  }

  lemma {:induction false} CapturedPerName(segments: seq<string>, request: seq<string>)
    requires |segments| == |request|
    ensures |ParamNames(segments)| <= |Captured(segments, request)|
    ensures |ParamNames(segments)| == |Captured(segments, request)| <==> AllNamed(segments)
  {
    if segments != [] {
      CapturedPerName(segments[1..], request[1..]);
      assert AllNamed(segments) <==> segments[0] != "{}" && AllNamed(segments[1..]) by {
        assert segments == [segments[0]] + segments[1..];
      }
      assert IsParam(segments[0]) && ParamName(segments[0]) == "" ==> segments[0] == "{}";
    }
  }
}
