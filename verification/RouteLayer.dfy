/** The route tree as linked objects (src/route/http_route_table_layer.cc), and what it means for a
    set of layers to represent a forest. */
module RouteLayer {
  import opened RouteTarget
  import opened RouteTree

  /** One tree node: its contents, its literal children and its parameter child. */
  class Layer {
    var node: Node
    var routes: map<string, Layer>
    var fallback: Layer?

    constructor ()
      ensures Now() == Cell(BLANK, map[], null)
    {
      node, routes, fallback := BLANK, map[], null;
    }

    ghost function Now(): Cell
      reads this
    {
      Cell(node, routes, fallback)
    }

    /** Attach a child under a literal segment or as the parameter child. */
    method Attach(e: Edge, child: Layer)
      modifies this
      ensures Now() == WithChild(old(Now()), e, child)
    {
      match e {
        case Wild => fallback := child;
        case Lit(w) => routes := routes[w := child];
      }
    }

    /** The child along `e`, or null. */
    method Child(e: Edge) returns (child: Layer?)
      ensures child == ChildOf(Now(), e)
    {
      match e {
        case Wild => child := fallback;
        case Lit(w) => child := if w in routes then routes[w] else null;
      }
    }
  }

  /** The state of a layer at some moment. */
  datatype Cell = Cell(node: Node, routes: map<string, Layer>, fallback: Layer?)

  /** Which layer sits at which position. */
  type Nodes = map<Path, Layer>

  type Cells = map<Path, Cell>

  ghost function CellsOf(nodes: Nodes): Cells
    reads nodes.Values
  {
    map p | p in nodes :: nodes[p].Now()
  }

  ghost function Forget(cells: Cells): Forest {
    map p | p in cells :: cells[p].node
  }

  /** The forest the layers hold. */
  ghost function View(nodes: Nodes): Forest
    reads nodes.Values
  {
    Forget(CellsOf(nodes))
  }

  /** No layer sits at two positions. */
  ghost predicate Injective(nodes: Nodes) {
    forall p, q :: p in nodes && q in nodes && nodes[p] == nodes[q] ==> p == q
  }

  /** The child links of the layer at `p` are exactly the positions one edge below `p`. */
  ghost predicate LinkedAt(nodes: Nodes, p: Path, c: Cell) {
    && (forall w :: w in c.routes <==> Step(p, Lit(w)) in nodes)
    && (forall w :: w in c.routes ==> c.routes[w] == nodes[Step(p, Lit(w))])
    && (c.fallback == null <==> Step(p, Wild) !in nodes)
    && (c.fallback != null ==> c.fallback == nodes[Step(p, Wild)])
  }

  /** The child of a layer in state `c` along `e`, or null. */
  function ChildOf(c: Cell, e: Edge): Layer? {
    match e
    case Wild => c.fallback
    case Lit(w) => if w in c.routes then c.routes[w] else null
  }

  /** The layer one edge below `p`, or null. */
  ghost function ChildAt(nodes: Nodes, p: Path, e: Edge): Layer? {
    if Step(p, e) in nodes then nodes[Step(p, e)] else null
  }

  lemma {:induction false} LinkedByEdges(nodes: Nodes, p: Path, c: Cell)
    requires forall e :: ChildOf(c, e) == ChildAt(nodes, p, e)
    ensures LinkedAt(nodes, p, c)
  {
    assert ChildOf(c, Wild) == ChildAt(nodes, p, Wild);
    forall w ensures w in c.routes <==> Step(p, Lit(w)) in nodes
             ensures w in c.routes ==> c.routes[w] == nodes[Step(p, Lit(w))]
    {
      assert ChildOf(c, Lit(w)) == ChildAt(nodes, p, Lit(w));
    }
  }

  lemma {:induction false} EdgesOfLinked(nodes: Nodes, p: Path, c: Cell, e: Edge)
    requires LinkedAt(nodes, p, c)
    ensures ChildOf(c, e) == ChildAt(nodes, p, e)
  {
  }

  ghost predicate Linked(nodes: Nodes, cells: Cells)
    requires cells.Keys == nodes.Keys
  {
    forall p {:trigger LinkedAt(nodes, p, cells[p])} :: p in nodes ==> LinkedAt(nodes, p, cells[p])
  }

  /** One root per method bucket, parents present, no layer twice. */
  ghost predicate Shaped(nodes: Nodes) {
    && (forall m: nat :: m < METHODS <==> Root(m) in nodes)
    && Closed(nodes.Keys)
    && Injective(nodes)
  }

  /** Layers `nodes` in states `cells` form a forest. */
  ghost predicate Forms(nodes: Nodes, cells: Cells) {
    && Shaped(nodes)
    && cells.Keys == nodes.Keys
    && Linked(nodes, cells)
  }

  ghost predicate Represents(nodes: Nodes)
    reads nodes.Values
  {
    Forms(nodes, CellsOf(nodes))
  }

  lemma RepresentsWellFormed(nodes: Nodes, cells: Cells)
    requires Forms(nodes, cells)
    ensures WellFormed(Forget(cells))
  {
  }

  lemma RootsPresent(nodes: Nodes, cells: Cells)
    requires Forms(nodes, cells)
    ensures forall m: nat :: m < METHODS <==> Root(m) in nodes
  {
  }

  /** The positions of `paths` at or below `q`. */
  ghost function Below(paths: set<Path>, q: Path): set<Path> {
    set x | x in paths && Under(q, x)
  }

  lemma {:induction false} BelowChildSmaller(paths: set<Path>, q: Path, e: Edge)
    requires q in paths
    ensures Below(paths, Step(q, e)) < Below(paths, q)
  {
    forall x | x in Below(paths, Step(q, e)) ensures x in Below(paths, q) {
      UnderTransitive(q, Step(q, e), x);
    }
    if q in Below(paths, Step(q, e)) { UnderIsDeeper(Step(q, e), q); }
  }

  /** The state of a layer that got a child along `e`. */
  ghost function WithChild(c: Cell, e: Edge, child: Layer): Cell {
    match e
    case Lit(w) => c.(routes := c.routes[w := child])
    case Wild => c.(fallback := child)
  }

  /** What is attached along an edge is the child found along it, and nothing else of the layer changes. */
  lemma AttachThenChild(c: Cell, e: Edge, child: Layer)
    ensures ChildOf(WithChild(c, e, child), e) == child
    ensures forall f :: f != e ==> ChildOf(WithChild(c, e, child), f) == ChildOf(c, f)
    ensures WithChild(c, e, child).node == c.node
  {
  }

  const EMPTY_CELL := Cell(BLANK, map[], null)

  /** `nodes'` in states `cells'` is `nodes` in states `cells` with a blank child added below `p`. */
  ghost predicate ChildAdded(nodes: Nodes, cells: Cells, p: Path, e: Edge, child: Layer, nodes': Nodes, cells': Cells)
    requires p in nodes && cells.Keys == nodes.Keys
  {
    && nodes' == nodes[Step(p, e) := child]
    && cells'.Keys == nodes'.Keys
    && (forall q :: q in nodes && q != p ==> cells'[q] == cells[q])
    && cells'[p] == WithChild(cells[p], e, child)
    && cells'[Step(p, e)] == EMPTY_CELL
  }

  lemma {:induction false} ChildLinkedAt(nodes: Nodes, q: Path, c: Cell, p: Path, e: Edge, child: Layer)
    requires LinkedAt(nodes, q, c) && p in nodes && Step(p, e) !in nodes
    ensures LinkedAt(nodes[Step(p, e) := child], q, if q == p then WithChild(c, e, child) else c)
  {
  }

  lemma {:induction false} NewLeafLinked(nodes: Nodes, k: Path, child: Layer)
    requires Closed(nodes.Keys) && k !in nodes
    ensures LinkedAt(nodes[k := child], k, EMPTY_CELL)
  {
    forall f ensures Step(k, f) !in nodes[k := child] { assert Depth(Step(k, f)) == Depth(k) + 1; }
  }

  lemma {:induction false} ChildKeepsLinks(nodes: Nodes, cells: Cells, p: Path, e: Edge, child: Layer, nodes': Nodes,
                                           cells': Cells)
    requires Forms(nodes, cells) && p in nodes && Step(p, e) !in nodes
    requires ChildAdded(nodes, cells, p, e, child, nodes', cells')
    ensures Linked(nodes', cells')
  {
    forall q | q in nodes ensures LinkedAt(nodes', q, cells'[q]) {
      assert LinkedAt(nodes, q, cells[q]);
      ChildLinkedAt(nodes, q, cells[q], p, e, child);
    }
    NewLeafLinked(nodes, Step(p, e), child);
  }

  /** A forest with one child added is a forest. */
  lemma {:induction false} ChildLinked(nodes: Nodes, cells: Cells, p: Path, e: Edge, child: Layer, nodes': Nodes,
                                       cells': Cells)
    requires Forms(nodes, cells) && p in nodes && Step(p, e) !in nodes
    requires forall q :: q in nodes ==> nodes[q] != child
    requires ChildAdded(nodes, cells, p, e, child, nodes', cells')
    ensures Forms(nodes', cells')
  {
    ChildKeepsLinks(nodes, cells, p, e, child, nodes', cells');
    ChildKeepsShape(nodes, p, e, child);
  }

  lemma {:induction false} ChildKeepsShape(nodes: Nodes, p: Path, e: Edge, child: Layer)
    requires Shaped(nodes) && p in nodes && Step(p, e) !in nodes
    requires forall q :: q in nodes ==> nodes[q] != child
    ensures Shaped(nodes[Step(p, e) := child])
  {
  }

  lemma {:induction false} ChildView(nodes: Nodes, cells: Cells, p: Path, e: Edge, child: Layer, nodes': Nodes,
                                     cells': Cells)
    requires cells.Keys == nodes.Keys && p in nodes && Step(p, e) !in nodes
    requires ChildAdded(nodes, cells, p, e, child, nodes', cells')
    ensures Forget(cells') == Forget(cells)[Step(p, e) := BLANK]
  {
  }

  /** Changing node contents keeps the links. */
  lemma {:induction false} ContentsLinked(nodes: Nodes, cells: Cells, cells': Cells)
    requires Forms(nodes, cells) && cells'.Keys == cells.Keys
    requires forall q :: q in cells ==> cells'[q].routes == cells[q].routes && cells'[q].fallback == cells[q].fallback
    ensures Forms(nodes, cells')
  {
    forall q | q in nodes ensures LinkedAt(nodes, q, cells'[q]) { assert LinkedAt(nodes, q, cells[q]); }
  }

  /** Attach a blank child to the layer at `p`; no other layer changes. */
  method NewChild(layer: Layer, e: Edge, ghost nodes: Nodes, ghost p: Path) returns (child: Layer)
    requires p in nodes && nodes[p] == layer && Injective(nodes)
    modifies layer
    ensures fresh(child) && (forall q :: q in nodes ==> nodes[q] != child)
    ensures Step(p, e) !in nodes ==>
              ChildAdded(nodes, old(CellsOf(nodes)), p, e, child, nodes[Step(p, e) := child], CellsOf(nodes[Step(p, e) := child]))
  {
    child := new Layer();
    layer.Attach(e, child);
  }

  method GrowChild(layer: Layer, e: Edge, ghost nodes: Nodes, ghost p: Path) returns (child: Layer, ghost nodes': Nodes)
    requires Represents(nodes) && p in nodes && nodes[p] == layer && Step(p, e) !in nodes
    modifies layer
    ensures fresh(child) && nodes' == nodes[Step(p, e) := child]
    ensures Represents(nodes')
    ensures View(nodes') == old(View(nodes))[Step(p, e) := BLANK]
  {
    ghost var cells := CellsOf(nodes);
    child := NewChild(layer, e, nodes, p);
    nodes' := nodes[Step(p, e) := child];
    ChildLinked(nodes, cells, p, e, child, nodes', CellsOf(nodes'));
    ChildView(nodes, cells, p, e, child, nodes', CellsOf(nodes'));
  }

  ghost function GrowOne(t: Forest, p: Path): Forest {
    if p in t then t else t[p := BLANK]
  }

  lemma {:induction false} GrowNext(t0: Forest, from: Path, segments: seq<string>, i: nat)
    requires i < |segments|
    ensures var p := Step(PathFrom(from, segments[..i]), EdgeOf(segments[i]));
            && PathFrom(from, segments[..i + 1]) == p
            && GrowOne(Grow(t0, Trail(from, segments[..i])), p) == Grow(t0, Trail(from, segments[..i + 1]))
  {
    assert segments[..i + 1] == segments[..i] + [segments[i]];
    TrailSnoc(from, segments[..i], segments[i]);
  }

  /** The child along `e` of the layer at `p`, made if missing. */
  method StepInto(layer: Layer, e: Edge, ghost nodes: Nodes, ghost p: Path) returns (child: Layer, ghost nodes': Nodes)
    requires Represents(nodes) && p in nodes && nodes[p] == layer
    modifies layer
    ensures Represents(nodes') && Step(p, e) in nodes' && nodes'[Step(p, e)] == child
    ensures nodes' == nodes || (fresh(child) && Step(p, e) !in nodes && nodes' == nodes[Step(p, e) := child])
    ensures View(nodes') == GrowOne(old(View(nodes)), Step(p, e))
  {
    assert LinkedAt(nodes, p, CellsOf(nodes)[p]);
    var next := layer.Child(e);
    if next != null {
      child, nodes' := next, nodes;
    } else {
      child, nodes' := GrowChild(layer, e, nodes, p);
    }
  }

  /** Walk segments from the layer at `from`, making blank layers where there are none. */
  method GetOrCreate(root: Layer, segments: seq<string>, ghost nodes0: Nodes, ghost from: Path)
    returns (layer: Layer, ghost nodes: Nodes)
    requires Represents(nodes0) && from in nodes0 && root == nodes0[from]
    modifies nodes0.Values
    ensures Represents(nodes) && PathFrom(from, segments) in nodes && layer == nodes[PathFrom(from, segments)]
    ensures View(nodes) == Grow(old(View(nodes0)), Trail(from, segments))
    ensures forall p :: p in nodes0 ==> p in nodes && nodes[p] == nodes0[p]
    ensures forall p :: p in nodes && p !in nodes0 ==> fresh(nodes[p])
  {
    hide Represents;
    layer, nodes := root, nodes0;
    ghost var p := from;
    ghost var t0 := View(nodes0);
    assert segments[..0] == [];
    assert t0 == Grow(t0, Trail(from, segments[..0]));
    for i := 0 to |segments|
      invariant Represents(nodes) && p in nodes && layer == nodes[p]
      invariant p == PathFrom(from, segments[..i])
      invariant View(nodes) == Grow(t0, Trail(from, segments[..i]))
      invariant forall q :: q in nodes0 ==> q in nodes && nodes[q] == nodes0[q]
      invariant forall q :: q in nodes && q !in nodes0 ==> fresh(nodes[q])
    {
      var e := EdgeOf(segments[i]);
      GrowNext(t0, from, segments, i);
      layer, nodes := StepInto(layer, e, nodes, p);
      p := Step(p, e);
    }
    assert segments[..|segments|] == segments;
  }

  /** Replace the contents of the layer at `p`. */
  method Rewrite(layer: Layer, node: Node, ghost nodes: Nodes, ghost p: Path)
    requires Represents(nodes) && p in nodes && layer == nodes[p]
    modifies layer
    ensures Represents(nodes)
    ensures View(nodes) == old(View(nodes))[p := node]
    ensures forall q :: q in nodes ==>
              nodes[q].routes == old(nodes[q].routes) && nodes[q].fallback == old(nodes[q].fallback)
  {
    ghost var cells := CellsOf(nodes);
    layer.node := node;
    assert forall q :: q in nodes && q != p ==> nodes[q] != layer;
    ContentsLinked(nodes, cells, CellsOf(nodes));
  }

  /** Every registration: find or make the target's layer, rewrite its names and template, and apply
      the change. */
  method RegisterAt(root: Layer, m: nat, target: string, change: Change,
                    ghost nodes0: Nodes) returns (ghost nodes: Nodes)
    requires Represents(nodes0) && Root(m) in nodes0 && root == nodes0[Root(m)]
    modifies nodes0.Values
    ensures Represents(nodes)
    ensures View(nodes) == Registered(old(View(nodes0)), m, target, change)
    ensures forall p :: p in nodes0 ==> p in nodes && nodes[p] == nodes0[p]
    ensures forall p :: p in nodes && p !in nodes0 ==> fresh(nodes[p])
  {
    hide Represents, Apply;
    var segments := SplitTargetSegments(target);
    var names := ExtractParamNames(target);
    var layer;
    layer, nodes := GetOrCreate(root, segments, nodes0, Root(m));
    Rewrite(layer, Apply(layer.node.(names := names, tmpl := Template(target)), change), nodes, TargetPath(m, target));
  }
}
