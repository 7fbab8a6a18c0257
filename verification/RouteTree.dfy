/** The route forest as a value: a finite map from tree positions to node contents. It carries the
    specification of registration, matching, merging and mounting
    (src/route/http_route_table_registry.cc, http_route_table_match.cc, http_route_table_mount.cc). */
module RouteTree {
  import opened Text
  import opened RouteTarget

  /** Number of method buckets of a table. */
  const METHODS: nat := 9

  /** A handler or aspect object, identified by its behaviour; a clone has the same behaviour. */
  datatype Handler = Handler(behaviour: nat, cloneable: bool)

  /** What a tree node stores besides its children. */
  datatype Node = Node(
    handler: Option<Handler>,
    names: seq<string>,
    tmpl: string,
    aspects: seq<Handler>,
    terminals: seq<Handler>,
    maxBody: nat,
    readExpiry: nat,
    writeExpiry: nat,
    exclusive: bool)

  const BLANK := Node(None, [], "/", [], [], 0, 0, 0, false)

  type Forest = map<Path, Node>

  /** The node defines behaviour of its own, so it may not be merged with another such node. */
  predicate Terminal(n: Node) {
    n.handler.Some? || n.terminals != [] || n.maxBody != 0 || n.readExpiry != 0 || n.writeExpiry != 0
  }

  /** Every parent of a node is a node, and every method bucket has a root. */
  ghost predicate WellFormed(t: Forest) {
    && (forall m: nat :: m < METHODS <==> Root(m) in t)
    && (forall p, e :: Step(p, e) in t ==> p in t)
  }

  /** Every position comes with its parent. */
  ghost predicate Closed(paths: set<Path>) {
    forall p, e :: Step(p, e) in paths ==> p in paths
  }

  lemma {:induction false} BucketInRange(paths: set<Path>, p: Path)
    requires Closed(paths) && (forall m: nat :: Root(m) in paths ==> m < METHODS) && p in paths
    ensures Bucket(p) < METHODS
  {
    if p.Step? {
      assert p == Step(p.up, p.edge);
      BucketInRange(paths, p.up);
    }
  }

  lemma {:induction false} AncestorIn(paths: set<Path>, a: Path, p: Path)
    requires Closed(paths) && p in paths && Under(a, p)
    ensures a in paths
  {
    if p != a {
      assert p == Step(p.up, p.edge);
      AncestorIn(paths, a, p.up);
    }
  }

  // ----- growing a path -----

  /** Positions strictly below `p` along `segments`. */
  ghost function Trail(p: Path, segments: seq<string>): set<Path>
    decreases |segments|
  {
    if segments == [] then {}
    else {Step(p, EdgeOf(segments[0]))} + Trail(Step(p, EdgeOf(segments[0])), segments[1..])
  }

  lemma {:induction false} TrailBelow(p: Path, segments: seq<string>)
    ensures forall q :: q in Trail(p, segments) ==> Under(p, q) && Depth(p) < Depth(q) <= Depth(p) + |segments|
    ensures segments != [] ==> PathFrom(p, segments) in Trail(p, segments)
    decreases |segments|
  {
    if segments != [] {
      var k := Step(p, EdgeOf(segments[0]));
      TrailBelow(k, segments[1..]);
      forall q | q in Trail(p, segments)
        ensures Under(p, q) && Depth(p) < Depth(q) <= Depth(p) + |segments|
      {
        if q != k { UnderTransitive(p, k, q); }
      }
    }
  }

  /** The forest with missing positions added as blank nodes. */
  ghost function Grow(t: Forest, added: set<Path>): Forest {
    map p | p in t.Keys + added :: if p in t then t[p] else BLANK
  }

  /** The forest in which the whole route of `segments` in bucket `m` exists. */
  ghost function GrowTo(t: Forest, m: nat, segments: seq<string>): Forest {
    Grow(t, Trail(Root(m), segments))
  }

  lemma {:induction false} TrailClosed(p: Path, segments: seq<string>)
    ensures forall q :: q in Trail(p, segments) ==> q.Step? && (q.up == p || q.up in Trail(p, segments))
    decreases |segments|
  {
    if segments != [] { TrailClosed(Step(p, EdgeOf(segments[0])), segments[1..]); }
  }

  lemma {:induction false} GrowToWellFormed(t: Forest, m: nat, segments: seq<string>)
    requires WellFormed(t) && m < METHODS
    ensures WellFormed(GrowTo(t, m, segments))
    ensures PathFrom(Root(m), segments) in GrowTo(t, m, segments)
  {
    TrailClosed(Root(m), segments);
    TrailBelow(Root(m), segments);
  }

  // ----- registration -----

  /** Terminal metadata written by every registration. */
  function Labelled(n: Node, target: string): Node {
    n.(names := ParamNames(Segments(target)), tmpl := Template(target))
  }

  /** What a registration does to the node it reaches. */
  datatype Change =
    | Route(handler: Option<Handler>)
    | ExclusiveRoute(handler: Option<Handler>)
    | Aspect(aspect: Handler)
    | TerminalAspect(aspect: Handler)
    | WriteExpiry(limit: nat)
    | ReadExpiry(limit: nat)
    | MaxBody(limit: nat)

  function Apply(n: Node, c: Change): Node {
    match c
    case Route(h) => if h.Some? then n.(handler := h) else n
    case ExclusiveRoute(h) => (if h.Some? then n.(handler := h) else n).(exclusive := true)
    case Aspect(a) => n.(aspects := n.aspects + [a])
    case TerminalAspect(a) => n.(terminals := n.terminals + [a])
    case WriteExpiry(x) => n.(writeExpiry := x)
    case ReadExpiry(x) => n.(readExpiry := x)
    case MaxBody(x) => n.(maxBody := x)
  }

  /** The forest after an accepted registration. */
  ghost function Registered(t: Forest, m: nat, target: string, c: Change): Forest {
    var p := TargetPath(m, target);
    var g := GrowTo(t, m, Segments(target));
    if p in g then g[p := Apply(Labelled(g[p], target), c)] else g
  }

  // ----- matching -----

  /** Where a walk ended and the segments captured by parameter edges, in order. */
  datatype Hit = Hit(leaf: Path, values: seq<string>, used: seq<string>)

  function Capture(s: string, h: Option<Hit>): Option<Hit> {
    match h
    case None => None
    case Some(Hit(l, v, u)) => Some(Hit(l, [s] + v, [s] + u))
  }

  function Use(s: string, h: Option<Hit>): Option<Hit> {
    match h
    case None => None
    case Some(Hit(l, v, u)) => Some(Hit(l, v, [s] + u))
  }

  /** Exact child first; else stop at an exclusive node; else the parameter child; else fail.
      Empty request segments are skipped, and there is no backtracking. */
  ghost function Walk(t: Forest, p: Path, request: seq<string>): (r: Option<Hit>)
    requires p in t
    ensures r.Some? ==> r.value.leaf in t
    decreases |request|
  {
    if request == [] then Some(Hit(p, [], []))
    else if request[0] == "" then Walk(t, p, request[1..])
    else
      var s := request[0];
      if Step(p, Lit(s)) in t then Use(s, Walk(t, Step(p, Lit(s)), request[1..]))
      else if t[p].exclusive then Some(Hit(p, [], []))
      else if Step(p, Wild) in t then Capture(s, Walk(t, Step(p, Wild), request[1..]))
      else None
  }

  /** A walk ends below its start, having captured one segment per parameter edge it took. */
  lemma {:induction false} WalkCaptures(t: Forest, p: Path, request: seq<string>)
    requires p in t
    ensures var r := Walk(t, p, request);
            r.Some? ==>
              && Under(p, r.value.leaf)
              && Wilds(r.value.leaf) == Wilds(p) + |r.value.values|
    decreases |request|
  {
    if request != [] {
      var s := request[0];
      if s == "" {
        WalkCaptures(t, p, request[1..]);
      } else if Step(p, Lit(s)) in t {
        WalkCaptures(t, Step(p, Lit(s)), request[1..]);
        var r := Walk(t, Step(p, Lit(s)), request[1..]);
        if r.Some? { UnderTransitive(p, Step(p, Lit(s)), r.value.leaf); }
      } else if !t[p].exclusive && Step(p, Wild) in t {
        WalkCaptures(t, Step(p, Wild), request[1..]);
        var r := Walk(t, Step(p, Wild), request[1..]);
        if r.Some? { UnderTransitive(p, Step(p, Wild), r.value.leaf); }
      }
    }
  }

  /** Subtree aspects from the root down to `p`. */
  ghost function PathAspects(t: Forest, p: Path): seq<Handler> {
    (if p.Step? then PathAspects(t, p.up) else []) + (if p in t then t[p].aspects else [])
  }

  function Location(used: seq<string>): string {
    if used == [] then "" else "/" + used[0] + Location(used[1..])
  }

  /** Names zipped with values up to the shorter list; the first of equal names wins. */
  function Parameters(names: seq<string>, values: seq<string>): (m: map<string, string>) {
    if names == [] || values == [] then map[]
    else Parameters(names[1..], values[1..])[names[0] := values[0]]
  }

  /** Name `names[i]` gets `values[i]` exactly for its first occurrence, and nothing else is bound. */
  lemma {:induction false} ParametersZip(names: seq<string>, values: seq<string>)
    ensures forall x :: x in Parameters(names, values) ==> x in names
    ensures forall i :: 0 <= i < |names| && i < |values| && names[i] !in names[..i] ==>
              names[i] in Parameters(names, values) && Parameters(names, values)[names[i]] == values[i]
  {
    if names != [] && values != [] {
      ParametersZip(names[1..], values[1..]);
      forall i | 0 <= i < |names| && i < |values| && names[i] !in names[..i]
        ensures names[i] in Parameters(names, values) && Parameters(names, values)[names[i]] == values[i]
      {
        if i > 0 {
          assert names[..i][0] == names[0];
          assert names[1..][..i - 1] == names[..i][1..];
          assert names[1..][i - 1] == names[i];
        }
      }
    }
  }

  // ----- tables and results -----

  /** A table: the forest plus its table-wide configuration. */
  datatype Table = Table(
    forest: Forest,
    methodAspects: map<nat, seq<Handler>>,
    globals: seq<Handler>,
    fallback: Handler,
    maxBody: nat,
    readExpiry: nat,
    writeExpiry: nat)

  datatype Result = Result(
    location: string,
    tmpl: string,
    parameters: map<string, string>,
    aspects: seq<Handler>,
    handler: Handler,
    maxBody: nat,
    readExpiry: nat,
    writeExpiry: nat)

  function Either(own: nat, default: nat): nat {
    if own != 0 then own else default
  }

  /** Table-wide and method-wide aspects of bucket `m`. */
  function TableAspects(tab: Table, m: nat): seq<Handler> {
    tab.globals + (if m in tab.methodAspects then tab.methodAspects[m] else [])
  }

  function DefaultResult(tab: Table): Result {
    Result("/", "/", map[], tab.globals, tab.fallback, tab.maxBody, tab.readExpiry, tab.writeExpiry)
  }

  /** What a walk that ended at a node with handler `h` yields. */
  ghost function NodeResult(tab: Table, m: nat, h: Handler, hit: Hit): Result
    requires hit.leaf in tab.forest
  {
    var n := tab.forest[hit.leaf];
    Result(
      if hit.used == [] then "/" else Location(hit.used),
      n.tmpl,
      Parameters(n.names, hit.values),
      TableAspects(tab, m) + PathAspects(tab.forest, hit.leaf) + n.terminals,
      h,
      Either(n.maxBody, tab.maxBody),
      Either(n.readExpiry, tab.readExpiry),
      Either(n.writeExpiry, tab.writeExpiry))
  }

  /** Route a parsed request; `None` stands for a target the URL parser rejected. */
  ghost function RouteResult(tab: Table, m: nat, request: Option<seq<string>>): Result
    requires WellFormed(tab.forest)
  {
    if m >= METHODS || request.None? then DefaultResult(tab)
    else
      var r := Walk(tab.forest, Root(m), request.value);
      if r.None? || tab.forest[r.value.leaf].handler.None? then DefaultResult(tab)
      else NodeResult(tab, m, tab.forest[r.value.leaf].handler.value, r.value)
  }

  // ----- merging and mounting -----

  /** The destination node once the source node has been merged into it. */
  function MergeNode(d: Node, s: Node): Node {
    Node(
      if s.handler.Some? then s.handler else d.handler,
      if s.handler.Some? then s.names else d.names,
      if s.handler.Some? then s.tmpl else d.tmpl,
      d.aspects + s.aspects,
      if s.terminals != [] then s.terminals else d.terminals,
      Either(s.maxBody, d.maxBody),
      Either(s.readExpiry, d.readExpiry),
      Either(s.writeExpiry, d.writeExpiry),
      d.exclusive || s.exclusive)
  }

  /** Node `p` of the destination is met by a source node of a bucket below `upto`. */
  ghost predicate Met(s: Forest, pre: seq<string>, upto: nat, p: Path) {
    Grafted(pre, p) && Bucket(p) < upto && Ungraft(pre, p) in s
  }

  ghost function MergedPaths(d: set<Path>, s: set<Path>, pre: seq<string>, upto: nat): set<Path> {
    d + (set x | x in s && Bucket(x) < upto :: Graft(pre, x))
  }

  /** Source buckets below `upto` merged into the destination under prefix segments `pre`. */
  ghost function Merged(d: Forest, s: Forest, pre: seq<string>, upto: nat): Forest {
    map p | p in MergedPaths(d.Keys, s.Keys, pre, upto) ::
      if !Met(s, pre, upto, p) then (if p in d then d[p] else BLANK)
      else if p in d then MergeNode(d[p], s[Ungraft(pre, p)])
      else s[Ungraft(pre, p)]
  }

  /** No two trees define behaviour at one position of bucket `m`. */
  ghost predicate Mergeable(d: Forest, s: Forest, pre: seq<string>, m: nat) {
    forall x :: x in s && Bucket(x) == m && Graft(pre, x) in d ==> !(Terminal(d[Graft(pre, x)]) && Terminal(s[x]))
  }

  /** Templates of behaviour-defining nodes get the prefix, in buckets below `upto`. */
  function PrefixedNode(n: Node, prefix: string): Node {
    if Terminal(n) then n.(tmpl := JoinTemplate(prefix, n.tmpl)) else n
  }

  ghost function Prefixed(s: Forest, prefix: string, upto: nat): Forest {
    map x | x in s :: if Bucket(x) < upto then PrefixedNode(s[x], prefix) else s[x]
  }

  /** The prefix positions of every bucket below `upto`. */
  ghost function MountTrail(pre: seq<string>, upto: nat): set<Path> {
    if upto == 0 then {} else MountTrail(pre, upto - 1) + Trail(Root(upto - 1), pre)
  }

  /** The destination of a successful mount. */
  ghost function Mounted(d: Forest, s: Forest, prefix: string): Forest {
    var pre := Segments(prefix);
    Merged(Grow(d, MountTrail(pre, METHODS)), Prefixed(s, prefix, METHODS), pre, METHODS)
  }

  /** Every bucket merges without two nodes claiming behaviour at one position. */
  ghost predicate Mountable(d: Forest, s: Forest, pre: seq<string>) {
    forall m: nat :: m < METHODS ==> Mergeable(d, s, pre, m)
  }

  // ----- facts about sequences the loops need -----

  lemma {:induction false} TrailSnoc(p: Path, xs: seq<string>, y: string)
    ensures Trail(p, xs + [y]) == Trail(p, xs) + {Step(PathFrom(p, xs), EdgeOf(y))}
    ensures PathFrom(p, xs + [y]) == Step(PathFrom(p, xs), EdgeOf(y))
    decreases |xs|
  {
    var all := xs + [y];
    if xs == [] {
      assert all[0] == y && all[1..] == [];
    } else {
      assert all[0] == xs[0] && all[1..] == xs[1..] + [y];
      TrailSnoc(Step(p, EdgeOf(xs[0])), xs[1..], y);
    }
  }

  lemma {:induction false} LocationSnoc(used: seq<string>, s: string)
    ensures Location(used + [s]) == Location(used) + "/" + s
  {
    if used == [] {
      assert (used + [s])[1..] == [];
    } else {
      assert (used + [s])[0] == used[0] && (used + [s])[1..] == used[1..] + [s];
      LocationSnoc(used[1..], s);
    }
  }

  lemma {:induction false} ParametersSnoc(names: seq<string>, values: seq<string>, n: string, v: string)
    requires |names| == |values|
    ensures Parameters(names + [n], values + [v]) ==
              if n in Parameters(names, values) then Parameters(names, values) else Parameters(names, values)[n := v]
  {
    if names == [] {
      assert (names + [n])[1..] == [] && (values + [v])[1..] == [];
    } else {
      assert (names + [n])[1..] == names[1..] + [n] && (values + [v])[1..] == values[1..] + [v];
      ParametersSnoc(names[1..], values[1..], n, v);
    }
  }

  /** Continue a walk that has captured `values` and used `used` so far. */
  function Resume(values: seq<string>, used: seq<string>, h: Option<Hit>): Option<Hit> {
    match h
    case None => None
    case Some(Hit(l, v, u)) => Some(Hit(l, values + v, used + u))
  }

  lemma {:induction false} ResumeSnoc(values: seq<string>, used: seq<string>, s: string, h: Option<Hit>)
    ensures Resume(values, used, Use(s, h)) == Resume(values, used + [s], h)
    ensures Resume(values, used, Capture(s, h)) == Resume(values + [s], used + [s], h)
  {
    if h.Some? {
      assert values + ([s] + h.value.values) == values + [s] + h.value.values;
      assert used + ([s] + h.value.used) == used + [s] + h.value.used;
    }
  }
}
