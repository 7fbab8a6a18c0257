/** What the pieces of the route table mean to its users, said without the functions that compute them: which nodes
    conflict, what each registration changes in a result, and which targets and templates there are
    (src/route/http_route_table_registry.cc:41-222, http_route_table_match.cc:50-276,
    http_route_table_mount.cc:39-105). */
module RouteMeaning {
  import opened Text
  import opened RouteTarget
  import opened RouteTree
  import opened RouteLaws
  import opened RouteMountLaws
  import opened RouteHistory
  import opened RouteOthers

  // ----- which mounts are accepted -----

  /** The node differs from a blank one in more than names, template, subtree aspects and the exclusive flag. */
  predicate DefinesBehaviour(n: Node) {
    n.(names := BLANK.names, tmpl := BLANK.tmpl, aspects := BLANK.aspects, exclusive := BLANK.exclusive) != BLANK
  }

  lemma TerminalIff(n: Node)
    ensures Terminal(n) <==> DefinesBehaviour(n)
  {
  }

  /** Both trees define behaviour at the position of source node `x`. */
  ghost predicate Clash(d: Forest, s: Forest, pre: seq<string>, x: Path) {
    x in s && Graft(pre, x) in d && DefinesBehaviour(s[x]) && DefinesBehaviour(d[Graft(pre, x)])
  }

  /** A mount at a valid prefix is rejected if and only if at some position both trees define behaviour. */
  lemma {:induction false} RejectedIffClash(d: Forest, s: Forest, prefix: string)
    requires WellFormed(s)
    ensures !Mountable(d, s, Segments(prefix)) <==> exists x :: Clash(d, s, Segments(prefix), x)
  {
    hide Terminal, DefinesBehaviour;
    var pre := Segments(prefix);
    forall n: Node ensures Terminal(n) <==> DefinesBehaviour(n) { TerminalIff(n); }
    if x :| Clash(d, s, pre, x) {
      BucketInRange(s.Keys, x);
      assert !Mergeable(d, s, pre, Bucket(x));
    }
    if !Mountable(d, s, pre) {
      var m: nat :| m < METHODS && !Mergeable(d, s, pre, m);
      var x :| x in s && Bucket(x) == m && Graft(pre, x) in d && Terminal(d[Graft(pre, x)]) && Terminal(s[x]);
      assert Clash(d, s, pre, x);
    }
  }

  /** Made by registrations of subtree aspects only. */
  predicate OnlyAspects(b: Build) {
    match b
    case Fresh => true
    case Register(base, _, _, change) => change.Aspect? && OnlyAspects(base)
    case Mount(_, _, _, _) => false
  }

  lemma {:induction false} OnlyAspectsNodes(b: Build, x: Path)
    requires OnlyAspects(b) && x in Built(b)
    ensures !DefinesBehaviour(Built(b)[x])
  {
    if b.Register? {
      var t := Built(b.base);
      if b.m < METHODS && IsValidTarget(b.target) {
        TemplatesLeadToTheirNode(b.base);
        RegisterFrame(t, b.m, b.target, b.change);
        if x in t { OnlyAspectsNodes(b.base, x); }
      } else {
        OnlyAspectsNodes(b.base, x);
      }
    }
  }

  /** A table of subtree aspects can be mounted everywhere, and no aspect of either table is lost. */
  lemma {:induction false} AspectsMountEverywhere(d: Forest, b: Build, prefix: string)
    requires OnlyAspects(b)
    ensures Mountable(d, Built(b), Segments(prefix))
    ensures forall x :: x in Built(b) ==>
              var p := Graft(Segments(prefix), x);
              var g := Grow(d, MountTrail(Segments(prefix), METHODS));
              p in Mounted(d, Built(b), prefix) &&
              Mounted(d, Built(b), prefix)[p].aspects == (if p in g then g[p].aspects else []) + Built(b)[x].aspects
  {
    hide Built, DefinesBehaviour, Terminal;
    var s, pre := Built(b), Segments(prefix);
    TemplatesLeadToTheirNode(b);
    forall x | x in s ensures !DefinesBehaviour(s[x]) && !Terminal(s[x]) {
      OnlyAspectsNodes(b, x);
      TerminalIff(s[x]);
    }
    forall x | x in s
      ensures var p := Graft(pre, x);
              var g := Grow(d, MountTrail(pre, METHODS));
              p in Mounted(d, s, prefix) &&
              Mounted(d, s, prefix)[p].aspects == (if p in g then g[p].aspects else []) + s[x].aspects
    {
      AspectsMounted(d, s, prefix, x);
    }
  }

  lemma {:induction false} AspectsMounted(d: Forest, s: Forest, prefix: string, x: Path)
    requires WellFormed(s) && x in s && !Terminal(s[x])
    ensures var p := Graft(Segments(prefix), x);
            var g := Grow(d, MountTrail(Segments(prefix), METHODS));
            p in Mounted(d, s, prefix) &&
            Mounted(d, s, prefix)[p].aspects == (if p in g then g[p].aspects else []) + s[x].aspects
  {
    hide Grow, MountTrail, Segments, Graft, Terminal;
    var pre := Segments(prefix);
    BucketInRange(s.Keys, x);
    MergedAt(Grow(d, MountTrail(pre, METHODS)), Prefixed(s, prefix, METHODS), pre, METHODS, x);
    assert [] + s[x].aspects == s[x].aspects;
  }

  // ----- what a registration changes in a result -----

  lemma {:induction false} TrailAbove(p: Path, segments: seq<string>, q: Path)
    requires q in Trail(p, segments)
    ensures Under(q, PathFrom(p, segments))
    decreases |segments|
  {
    var k := Step(p, EdgeOf(segments[0]));
    if q == k {
      PathFromShape(k, segments[1..]);
    } else {
      TrailAbove(k, segments[1..], q);
    }
  }

  /** The target has a handler and the request reaches it. */
  ghost predicate Serves(tab: Table, m: nat, target: string, request: seq<string>) {
    && WellFormed(tab.forest) && m < METHODS && Instance(Segments(target), request)
    && TargetPath(m, target) in tab.forest && tab.forest[TargetPath(m, target)].handler.Some?
    && Unobstructed(tab.forest, Root(m), Segments(target), request)
  }

  /** The node at the target after an accepted registration, which leaves all others as they were. */
  lemma {:induction false} SameShape(t: Forest, m: nat, target: string, c: Change)
    requires WellFormed(t) && m < METHODS && TargetPath(m, target) in t
    ensures var t' := Registered(t, m, target, c);
            WellFormed(t') && t'.Keys == t.Keys && forall q :: q in t && q != TargetPath(m, target) ==> t'[q] == t[q]
  {
    RegisterFrame(t, m, target, c);
    RegisteredWellFormed(t, m, target, c);
    forall q | q in Trail(Root(m), Segments(target)) ensures q in t {
      TrailAbove(Root(m), Segments(target), q);
      AncestorIn(t.Keys, q, TargetPath(m, target));
    }
  }

  lemma {:induction false} ServedAt(tab: Table, m: nat, target: string, request: seq<string>)
    requires Serves(tab, m, target, request)
    ensures Walk(tab.forest, Root(m), request) ==
              Some(Hit(TargetPath(m, target), Captured(Segments(target), request), request))
  {
    var t, p, segments := tab.forest, TargetPath(m, target), Segments(target);
    forall q | q in Trail(Root(m), segments) ensures q in t {
      TrailAbove(Root(m), segments, q);
      AncestorIn(t.Keys, q, p);
    }
    WalkAlong(t, Root(m), segments, request, []);
    assert request + [] == request;
    assert Captured(segments, request) + [] == Captured(segments, request);
  }

  /** The result for a served target in terms of the node found there. */
  ghost predicate ResultOf(tab: Table, t: Forest, m: nat, p: Path, request: seq<string>, r: Result)
    requires p in t
  {
    var n := t[p];
    && n.handler == Some(r.handler)
    && r.location == (if request == [] then "/" else Location(request))
    && r.aspects == tab.globals + (if m in tab.methodAspects then tab.methodAspects[m] else [])
                    + PathAspects(t, p) + n.terminals
    && r.maxBody == (if n.maxBody != 0 then n.maxBody else tab.maxBody)
    && r.readExpiry == (if n.readExpiry != 0 then n.readExpiry else tab.readExpiry)
    && r.writeExpiry == (if n.writeExpiry != 0 then n.writeExpiry else tab.writeExpiry)
  }

  lemma {:induction false} ServedResult(tab: Table, m: nat, target: string, request: seq<string>)
    requires Serves(tab, m, target, request)
    ensures ResultOf(tab, tab.forest, m, TargetPath(m, target), request, RouteResult(tab, m, Some(request)))
  {
    hide PathAspects, Walk, Captured, TargetPath, Segments, Instance, Unobstructed, Location;
    ServedAt(tab, m, target, request);
  }

  lemma {:induction false} StillServed(tab: Table, m: nat, target: string, c: Change, request: seq<string>)
    requires Serves(tab, m, target, request) && !c.ExclusiveRoute? && !c.Route?
    ensures var p, t' := TargetPath(m, target), Registered(tab.forest, m, target, c);
            && WellFormed(t') && t'.Keys == tab.forest.Keys && t'[p].handler == tab.forest[p].handler
            && Walk(t', Root(m), request) == Walk(tab.forest, Root(m), request)
  {
    hide Walk, Instance, Unobstructed;
    var t, t' := tab.forest, Registered(tab.forest, m, target, c);
    SameShape(t, m, target, c);
    RegisterFrame(t, m, target, c);
    WalkAlike(t', t, Root(m), request);
  }

  /** Registering again at a served target, neither a route nor exclusive: both results. */
  lemma {:induction false} BeforeAndAfter(tab: Table, m: nat, target: string, c: Change, request: seq<string>)
    requires Serves(tab, m, target, request) && !c.ExclusiveRoute? && !c.Route?
    ensures var p, t' := TargetPath(m, target), Registered(tab.forest, m, target, c);
            && WellFormed(t') && t'.Keys == tab.forest.Keys
            && ResultOf(tab, tab.forest, m, p, request, RouteResult(tab, m, Some(request)))
            && ResultOf(tab, t', m, p, request, RouteResult(tab.(forest := t'), m, Some(request)))
  {
    hide PathAspects, Walk, Captured, TargetPath, Segments, Instance, Unobstructed, Location, Registered;
    ServedAt(tab, m, target, request);
    ServedResult(tab, m, target, request);
    StillServed(tab, m, target, c, request);
  }

  /** Nothing but the limits named and the labels differs. */
  predicate SameButLimits(before: Result, after: Result) {
    && after.location == before.location && after.handler == before.handler && after.aspects == before.aspects
  }

  lemma {:induction false} SameAspects(t: Forest, m: nat, target: string, c: Change)
    requires WellFormed(t) && m < METHODS && TargetPath(m, target) in t && !c.Aspect?
    ensures PathAspects(Registered(t, m, target, c), TargetPath(m, target)) == PathAspects(t, TargetPath(m, target))
  {
    SameShape(t, m, target, c);
    RegisterFrame(t, m, target, c);
    AspectsAlike(Registered(t, m, target, c), t, TargetPath(m, target));
  }

  /** A body limit set on a served target is the limit of its requests, zero meaning the table's default again. */
  lemma {:induction false} MaxBodyTakes(tab: Table, m: nat, target: string, x: nat, request: seq<string>)
    requires Serves(tab, m, target, request)
    ensures WellFormed(Registered(tab.forest, m, target, MaxBody(x)))
    ensures var before := RouteResult(tab, m, Some(request));
            var after := RouteResult(tab.(forest := Registered(tab.forest, m, target, MaxBody(x))), m, Some(request));
            && after.maxBody == (if x != 0 then x else tab.maxBody)
            && after.readExpiry == before.readExpiry && after.writeExpiry == before.writeExpiry
            && SameButLimits(before, after)
  {
    hide RouteResult, PathAspects;
    BeforeAndAfter(tab, m, target, MaxBody(x), request);
    RegisterFrame(tab.forest, m, target, MaxBody(x));
    SameAspects(tab.forest, m, target, MaxBody(x));
  }

  lemma {:induction false} ReadExpiryTakes(tab: Table, m: nat, target: string, x: nat, request: seq<string>)
    requires Serves(tab, m, target, request)
    ensures WellFormed(Registered(tab.forest, m, target, ReadExpiry(x)))
    ensures var before := RouteResult(tab, m, Some(request));
            var t' := Registered(tab.forest, m, target, ReadExpiry(x));
            var after := RouteResult(tab.(forest := t'), m, Some(request));
            && after.readExpiry == (if x != 0 then x else tab.readExpiry)
            && after.maxBody == before.maxBody && after.writeExpiry == before.writeExpiry
            && SameButLimits(before, after)
  {
    hide RouteResult, PathAspects;
    BeforeAndAfter(tab, m, target, ReadExpiry(x), request);
    RegisterFrame(tab.forest, m, target, ReadExpiry(x));
    SameAspects(tab.forest, m, target, ReadExpiry(x));
  }

  lemma {:induction false} WriteExpiryTakes(tab: Table, m: nat, target: string, x: nat, request: seq<string>)
    requires Serves(tab, m, target, request)
    ensures WellFormed(Registered(tab.forest, m, target, WriteExpiry(x)))
    ensures var before := RouteResult(tab, m, Some(request));
            var t' := Registered(tab.forest, m, target, WriteExpiry(x));
            var after := RouteResult(tab.(forest := t'), m, Some(request));
            && after.writeExpiry == (if x != 0 then x else tab.writeExpiry)
            && after.maxBody == before.maxBody && after.readExpiry == before.readExpiry
            && SameButLimits(before, after)
  {
    hide RouteResult, PathAspects;
    BeforeAndAfter(tab, m, target, WriteExpiry(x), request);
    RegisterFrame(tab.forest, m, target, WriteExpiry(x));
    SameAspects(tab.forest, m, target, WriteExpiry(x));
  }

  lemma {:induction false} NullKeepsNode(t: Forest, m: nat, target: string)
    requires WellFormed(t) && m < METHODS && TargetPath(m, target) in t
    ensures var p, t' := TargetPath(m, target), Registered(t, m, target, Route(None));
            && WellFormed(t') && t'.Keys == t.Keys && t'[p] == t[p].(names := t'[p].names, tmpl := t'[p].tmpl)
            && (forall q :: q in t && q != p ==> t'[q] == t[q])
  {
    SameShape(t, m, target, Route(None));
    RegisterFrame(t, m, target, Route(None));
  }

  /** Registering a null handler on a served target keeps its handler, aspects and limits. */
  lemma {:induction false} NullHandlerIgnored(tab: Table, m: nat, target: string, request: seq<string>)
    requires Serves(tab, m, target, request)
    ensures WellFormed(Registered(tab.forest, m, target, Route(None)))
    ensures var before := RouteResult(tab, m, Some(request));
            var after := RouteResult(tab.(forest := Registered(tab.forest, m, target, Route(None))), m, Some(request));
            SameButLimits(before, after) && SameLimitsAs(before, after)
  {
    hide PathAspects, Walk, Captured, TargetPath, Segments, Instance, Unobstructed, Location, Registered, Parameters;
    var t, t', p := tab.forest, Registered(tab.forest, m, target, Route(None)), TargetPath(m, target);
    NullKeepsNode(t, m, target);
    ServedAt(tab, m, target, request);
    WalkAlike(t', t, Root(m), request);
    AspectsAlike(t', t, p);
  }

  predicate SameLimitsAs(before: Result, after: Result) {
    && after.location == before.location && after.handler == before.handler
    && after.maxBody == before.maxBody && after.readExpiry == before.readExpiry
    && after.writeExpiry == before.writeExpiry
  }

  /** A terminal aspect added to a served target comes last of all. */
  lemma {:induction false} TerminalAspectLast(tab: Table, m: nat, target: string, a: Handler, request: seq<string>)
    requires Serves(tab, m, target, request)
    ensures WellFormed(Registered(tab.forest, m, target, TerminalAspect(a)))
    ensures var before := RouteResult(tab, m, Some(request));
            var t' := Registered(tab.forest, m, target, TerminalAspect(a));
            var after := RouteResult(tab.(forest := t'), m, Some(request));
            after.aspects == before.aspects + [a] && SameLimitsAs(before, after)
  {
    hide RouteResult, PathAspects;
    BeforeAndAfter(tab, m, target, TerminalAspect(a), request);
    RegisterFrame(tab.forest, m, target, TerminalAspect(a));
    SameAspects(tab.forest, m, target, TerminalAspect(a));
  }

  lemma {:induction false} AspectAdded(t: Forest, m: nat, target: string, a: Handler)
    requires WellFormed(t) && m < METHODS && TargetPath(m, target) in t
    ensures var p := TargetPath(m, target);
            PathAspects(Registered(t, m, target, Aspect(a)), p) == PathAspects(t, p) + [a]
  {
    var p, t' := TargetPath(m, target), Registered(t, m, target, Aspect(a));
    SameShape(t, m, target, Aspect(a));
    RegisterFrame(t, m, target, Aspect(a));
    if p.Step? {
      assert AgreeOutside(t', t, p, Bucket(p.up));
      UnderIsDeeperOrSame(p);
      AspectsOutside(t', t, p, p.up);
    }
    AspectsOnTop(t', t, p, [a]);
  }

  lemma {:induction false} UnderIsDeeperOrSame(p: Path)
    requires p.Step?
    ensures !Under(p, p.up)
  {
    if Under(p, p.up) { UnderIsDeeper(p, p.up); }
  }

  /** A subtree aspect added at a served target comes after all subtree aspects on the way and before the terminal
      aspects of the target. */
  lemma {:induction false} AspectBeforeTerminals(tab: Table, m: nat, target: string, a: Handler, request: seq<string>)
    requires Serves(tab, m, target, request)
    ensures WellFormed(Registered(tab.forest, m, target, Aspect(a)))
    ensures var before := RouteResult(tab, m, Some(request));
            var after := RouteResult(tab.(forest := Registered(tab.forest, m, target, Aspect(a))), m, Some(request));
            var own := tab.forest[TargetPath(m, target)].terminals;
            && |own| <= |before.aspects| && before.aspects[|before.aspects| - |own|..] == own
            && after.aspects == before.aspects[..|before.aspects| - |own|] + [a] + own && SameLimitsAs(before, after)
  {
    hide RouteResult, PathAspects;
    BeforeAndAfter(tab, m, target, Aspect(a), request);
    RegisterFrame(tab.forest, m, target, Aspect(a));
    AspectAdded(tab.forest, m, target, a);
    var shared := tab.globals + (if m in tab.methodAspects then tab.methodAspects[m] else []);
    Inserted(shared, PathAspects(tab.forest, TargetPath(m, target)), tab.forest[TargetPath(m, target)].terminals, a);
  }

  lemma Inserted(shared: seq<Handler>, path: seq<Handler>, own: seq<Handler>, a: Handler)
    ensures (shared + path + own)[|shared + path + own| - |own|..] == own
    ensures (shared + path + own)[..|shared + path + own| - |own|] + [a] + own == shared + (path + [a]) + own
  {
  }

  /** The aspects of an ancestor come before those of its descendants. */
  lemma {:induction false} AncestorAspectsFirst(t: Forest, a: Path, p: Path)
    requires Under(a, p)
    ensures PathAspects(t, a) <= PathAspects(t, p)
  {
    if p != a { AncestorAspectsFirst(t, a, p.up); }
  }

  /** An exclusive route also answers every longer request for which it has no literal child. */
  lemma {:induction false} ExclusiveStops(tab: Table, m: nat, target: string, h: Handler, request: seq<string>,
                                          s: string,
                                          more: seq<string>)
    requires WellFormed(tab.forest) && m < METHODS && Instance(Segments(target), request) && s != ""
    requires var t := Registered(tab.forest, m, target, ExclusiveRoute(Some(h)));
             Unobstructed(t, Root(m), Segments(target), request)
    requires Step(TargetPath(m, target), Lit(s)) !in Registered(tab.forest, m, target, ExclusiveRoute(Some(h)))
    ensures var t := Registered(tab.forest, m, target, ExclusiveRoute(Some(h)));
            && WellFormed(t)
            && RouteResult(tab.(forest := t), m, Some(request + ([s] + more))).handler == h
            && RouteResult(tab.(forest := t), m, Some(request + ([s] + more))).tmpl == Template(target)
  {
    var c, p := ExclusiveRoute(Some(h)), TargetPath(m, target);
    var t := Registered(tab.forest, m, target, c);
    RegisterFrame(tab.forest, m, target, c);
    RegisteredWellFormed(tab.forest, m, target, c);
    assert ([s] + more)[0] == s;
    WalkAlong(t, Root(m), Segments(target), request, [s] + more);
  }

  /** An ordinary route on a node that was not exclusive does not: without children such a request is not matched. */
  lemma {:induction false} RouteDoesNotStop(tab: Table, m: nat, target: string, h: Handler, request: seq<string>,
                                            s: string,
                                            more: seq<string>)
    requires WellFormed(tab.forest) && m < METHODS && Instance(Segments(target), request) && s != ""
    requires TargetPath(m, target) in tab.forest ==> !tab.forest[TargetPath(m, target)].exclusive
    requires Unobstructed(Registered(tab.forest, m, target, Route(Some(h))), Root(m), Segments(target), request)
    requires Step(TargetPath(m, target), Lit(s)) !in Registered(tab.forest, m, target, Route(Some(h)))
    requires Step(TargetPath(m, target), Wild) !in Registered(tab.forest, m, target, Route(Some(h)))
    ensures WellFormed(Registered(tab.forest, m, target, Route(Some(h))))
    ensures Walk(Registered(tab.forest, m, target, Route(Some(h))), Root(m), request + ([s] + more)) == None
  {
    var c, p := Route(Some(h)), TargetPath(m, target);
    RegisterFrame(tab.forest, m, target, c);
    RegisteredWellFormed(tab.forest, m, target, c);
    assert ([s] + more)[0] == s;
    WalkAlong(Registered(tab.forest, m, target, c), Root(m), Segments(target), request, [s] + more);
  }

  // ----- requests -----

  /** An unknown method, a target the URL parser rejects, a walk that fails or a node without handler: the default
      handler under the table-wide aspects only, with the table's limits. */
  lemma {:induction false} UnmatchedResult(tab: Table, m: nat, request: Option<seq<string>>)
    requires WellFormed(tab.forest)
    requires m < 9 && request.Some? ==>
               var r := Walk(tab.forest, Root(m), request.value);
               r.None? || tab.forest[r.value.leaf].handler.None?
    ensures RouteResult(tab, m, request) ==
              Result("/", "/", map[], tab.globals, tab.fallback, tab.maxBody, tab.readExpiry, tab.writeExpiry)
  {
  }

  /** Empty request segments make no difference. */
  lemma {:induction false} EmptySegmentsSkipped(t: Forest, p: Path, a: seq<string>, b: seq<string>)
    requires p in t
    ensures Walk(t, p, a + [""] + b) == Walk(t, p, a + b)
    decreases |a|
  {
    if a == [] {
      assert a + [""] + b == [""] + b && ([""] + b)[1..] == b && a + b == b;
    } else {
      var s := a[0];
      assert (a + [""] + b)[1..] == a[1..] + [""] + b && (a + b)[1..] == a[1..] + b;
      if s == "" {
        EmptySegmentsSkipped(t, p, a[1..], b);
      } else if Step(p, Lit(s)) in t {
        EmptySegmentsSkipped(t, Step(p, Lit(s)), a[1..], b);
      } else if !t[p].exclusive && Step(p, Wild) in t {
        EmptySegmentsSkipped(t, Step(p, Wild), a[1..], b);
      }
    }
  }

  // ----- targets -----

  /** The characters a target may hold outside braces are the printable ASCII characters except nine. */
  lemma AllowedIff(c: char)
    ensures AllowedChar(c) <==> '!' <= c <= '~' && c !in "\"<>\\^`{|}"
  {
  }

  /** The characters of a parameter name are those of a target except its punctuation. */
  lemma NameIff(c: char)
    ensures NameChar(c) <==> AllowedChar(c) && c !in ".~!$&'()*+,;=:@/?%#[]"
  {
  }

  predicate AllPlain(s: string) {
    forall i :: 0 <= i < |s| ==> '!' <= s[i] <= '~' && s[i] !in "\"<>\\^`{|}"
  }

  lemma {:induction false} PlainPattern(s: string)
    requires '{' !in s && '}' !in s
    ensures Pattern(s) <==> AllPlain(s)
    ensures Balanced(s, 0) && OutsideBraces(s, false) == s
  {
    hide AllowedChar;
    if s != "" {
      PlainPattern(s[1..]);
      AllowedIff(s[0]);
      assert s == [s[0]] + s[1..];
    }
  }

  /** A target without braces is valid if and only if it is absolute, of at most 2048 characters, all of them allowed,
      and has no two dots in a row. */
  lemma {:induction false} LiteralTargetIff(target: string)
    requires '{' !in target && '}' !in target
    ensures IsValidTarget(target) <==>
              && 0 < |target| <= 2048 && target[0] == '/' && AllPlain(target)
              && !exists i :: 0 <= i < |target| - 1 && target[i] == '.' && target[i + 1] == '.'
  {
    hide AllowedChar, Pattern, Balanced, OutsideBraces;
    if target != "" {
      PlainPattern(target);
      PlainPattern(target[1..]);
      assert target == [target[0]] + target[1..];
    }
  }

  // ----- templates -----

  /** The template of a target is the target without its query, or a slash if nothing is left. */
  lemma {:induction false} TemplateText(path: string, query: string)
    requires '?' !in path
    ensures path != "" ==> Template(path) == path && Template(path + "?" + query) == path
    ensures Template("") == "/" && Template("?" + query) == "/"
  {
    StripQueryIdempotent(path);
    var t := path + "?" + query;
    IndexOfAt(t, '?', |path|) by { assert t[..|path|] == path; }
    assert t[..|path|] == path;
    IndexOfAt("?" + query, '?', 0);
  }

  /** Joining templates: the prefix, without a slash at its end, in front of the route; a bare slash adds nothing. */
  lemma {:induction false} JoinTemplateText(prefix: string, route: string)
    requires '?' !in prefix && '?' !in route && prefix != "" && route != ""
    ensures JoinTemplate("/", route) == route
    ensures prefix != "/" && prefix[|prefix| - 1] != '/' ==>
              JoinTemplate(prefix, "/") == prefix && (route != "/" ==> JoinTemplate(prefix, route) == prefix + route)
    ensures prefix != "/" && prefix[|prefix| - 1] != '/' ==>
              JoinTemplate(prefix + "/", route) == JoinTemplate(prefix, route)
  {
    StripQueryIdempotent(prefix);
    StripQueryIdempotent(prefix + "/");
    StripQueryIdempotent(route);
    StripQueryIdempotent("/");
    assert (prefix + "/")[..|prefix|] == prefix;
  }
}
