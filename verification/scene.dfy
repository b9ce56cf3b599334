/**
  The 3D engine's UI scene (`Object` and `UI` in graphics/UI.rs): a tree of scripted nodes
  parsed from XML and drawn depth-first.

  A node's Lua script is opaque: running `Init` or `Update` is recorded as an event of the
  draw trace, as are drawing the node's image and text and recomputing its model matrix.
  Nodes are addressed by their path of child indices from the root; the global script
  executor (`scriptExecutor`) is the path of the node it designates.
*/
module Scene {
  import opened Basics
  import opened Xml
  import Input

  /** The three draw slots; `third` is drawn first. */
  datatype Order = Order(first: char, second: char, third: char)

  /**
    A node. `image` and `text` hold the element their content was parsed from (`None` for
    the empty image or text); the GPU state behind them is not modelled.
  */
  datatype Node = Node(
    name: string,
    image: Option<Element>,
    text: Option<Element>,
    position: Vec2,
    angle: real,
    scale: Vec2,
    origin: Vec2,
    children: seq<Node>,
    init: bool,
    reloadModel: bool,
    order: Order)

  /** `Object::new`: at the origin, unrotated, unit scale, not yet initialised, model stale, order image-text-children. */
  const NewNode: Node := Node("", None, None, Zero, 0.0, One, Zero, [], false, true, Order('i', 't', 'c'))

  function Size(n: Node): nat
    decreases n
  {
    1 + SizeAll(n.children)
  }

  function SizeAll(cs: seq<Node>): nat
    decreases cs
  {
    if cs == [] then 0 else Size(cs[0]) + SizeAll(cs[1..])
  }

  lemma {:induction false} SizeAllElem(cs: seq<Node>, i: nat)
    requires i < |cs|
    ensures Size(cs[i]) <= SizeAll(cs)
  {
    if i > 0 {
      SizeAllElem(cs[1..], i - 1);
    }
  }

  lemma {:induction false} SizeAllUpdate(cs: seq<Node>, i: nat, c: Node)
    requires i < |cs| && Size(c) == Size(cs[i])
    ensures SizeAll(cs[i := c]) == SizeAll(cs)
  {
    if i > 0 {
      assert cs[i := c][1..] == cs[1..][i - 1 := c];
      SizeAllUpdate(cs[1..], i - 1, c);
    }
  }

  /** The shape of a tree: where its nodes are, without what they hold. Two trees of one shape have the same paths. */
  datatype Shape = Shape(children: seq<Shape>)

  function ShapeOf(n: Node): Shape
    decreases n
  {
    Shape(ShapesOf(n.children))
  }

  function ShapesOf(cs: seq<Node>): (r: seq<Shape>)
    ensures |r| == |cs| && forall i :: 0 <= i < |cs| ==> r[i] == ShapeOf(cs[i])
    decreases cs
  {
    if cs == [] then [] else [ShapeOf(cs[0])] + ShapesOf(cs[1..])
  }

  // ----- Draw traces -----

  /** One observable step of `draw`, at the node with this path. */
  datatype Visit =
    | Exec(path: seq<nat>)       // scriptExecutor is set to the node
    | Init(path: seq<nat>)       // the script's Init runs
    | Update(path: seq<nat>)     // the script's Update runs
    | Model(path: seq<nat>)      // updateModel recomputes the node's matrix
    | DrawImage(path: seq<nat>)
    | DrawText(path: seq<nat>)

  predicate IsScript(v: Visit) { v.Init? || v.Update? }

  /** The trace does not open with a script run, and every script run is immediately preceded by pointing the executor at that node. */
  predicate ScriptsAfterExec(t: seq<Visit>) {
    (|t| > 0 ==> !IsScript(t[0])) &&
    forall i, j :: 0 <= i < |t| && 0 <= j < |t| && j == i + 1 && IsScript(t[j]) ==> t[i] == Exec(t[j].path)
  }

  lemma ScriptsAppend(a: seq<Visit>, b: seq<Visit>)
    requires ScriptsAfterExec(a) && ScriptsAfterExec(b)
    ensures ScriptsAfterExec(a + b)
  {
    forall i, j | 0 <= i < j < |a + b| && j == i + 1 && IsScript((a + b)[j])
      ensures (a + b)[i] == Exec((a + b)[j].path)
    {
      if j < |a| {
        assert (a + b)[i] == a[i] && (a + b)[j] == a[j];
      } else {
        assert (a + b)[j] == b[j - |a|];
        assert j > |a|;
        assert (a + b)[i] == b[i - |a|];
      }
    }
  }

  /** Where the global executor points after a trace: the last node it was set to. */
  function LastExec(t: seq<Visit>): Option<seq<nat>> {
    if t == [] then None
    else if t[|t| - 1].Exec? then Some(t[|t| - 1].path)
    else LastExec(t[..|t| - 1])
  }

  lemma {:induction false} LastExecAppend(a: seq<Visit>, b: seq<Visit>)
    ensures LastExec(a + b) == if LastExec(b).Some? then LastExec(b) else LastExec(a)
    decreases |b|
  {
    if b == [] {
      assert a + b == a;
    } else {
      assert (a + b)[..|a + b| - 1] == a + b[..|b| - 1];
      LastExecAppend(a, b[..|b| - 1]);
    }
  }

  /** Every event of the trace is at `path` or below it. */
  predicate Under(t: seq<Visit>, path: seq<nat>) {
    forall i :: 0 <= i < |t| ==> path <= t[i].path
  }

  /** Every event of the trace is strictly below `path`. */
  predicate Below(t: seq<Visit>, path: seq<nat>) {
    forall i :: 0 <= i < |t| ==> path < t[i].path
  }

  /** At `path` itself the trace only draws the image or the text. */
  predicate OnlyContent(t: seq<Visit>, path: seq<nat>) {
    forall i :: 0 <= i < |t| ==> t[i].path == path ==> t[i].DrawImage? || t[i].DrawText?
  }

  lemma TracePredicatesAppend(a: seq<Visit>, b: seq<Visit>, path: seq<nat>)
    ensures Under(a, path) && Under(b, path) ==> Under(a + b, path)
    ensures Below(a, path) && Below(b, path) ==> Below(a + b, path)
    ensures OnlyContent(a, path) && OnlyContent(b, path) ==> OnlyContent(a + b, path)
  {
    forall i | 0 <= i < |a + b|
      ensures (a + b)[i] == if i < |a| then a[i] else b[i - |a|]
    {
    }
  }

  /** Slot `k` of an order: 0 is `first`, 1 is `second`, 2 is `third`. */
  function SlotChar(o: Order, k: nat): char {
    if k == 0 then o.first else if k == 1 then o.second else o.third
  }

  /** Some slot below `k` draws the children. */
  predicate ChildSlotBelow(o: Order, k: nat) {
    k > 0 && (SlotChar(o, k - 1) == 'c' || ChildSlotBelow(o, k - 1))
  }

  predicate HasChildSlot(o: Order) { ChildSlotBelow(o, 3) }

  /** Some slot of the order draws the image. */
  predicate HasImageSlot(o: Order) { o.first == 'i' || o.second == 'i' || o.third == 'i' }

  /**
    Every node whose order draws its image was given an `image` element naming its animator
    file. `Image::draw` steps the animator's current animation, which panics on the empty
    animator of `Image::new`; a node without such an element would panic at its `i` slot.
  */
  predicate Drawable(n: Node)
    decreases n
  {
    (HasImageSlot(n.order) ==> n.image.Some? && Att(n.image.value, "anim").Some?) &&
    forall i :: 0 <= i < |n.children| ==> Drawable(n.children[i])
  }

  predicate AllDrawable(cs: seq<Node>) { forall i :: 0 <= i < |cs| ==> Drawable(cs[i]) }

  /** What `draw` does at the node itself before its slots: point the executor, run the script, maybe recompute the model. */
  function Head(n: Node, path: seq<nat>): seq<Visit> {
    [Exec(path), if n.init then Update(path) else Init(path)] + (if n.reloadModel then [Model(path)] else [])
  }

  lemma HeadFacts(n: Node, path: seq<nat>)
    ensures ScriptsAfterExec(Head(n, path)) && Under(Head(n, path), path)
    ensures LastExec(Head(n, path)) == Some(path)
  {
    var h := Head(n, path);
    assert h[..2] == [Exec(path), h[1]];
    assert [Exec(path), h[1]][..1] == [Exec(path)];
    assert LastExec(h[..2]) == Some(path);
    if n.reloadModel {
      assert h[..|h| - 1] == h[..2];
    } else {
      assert h == h[..2];
    }
  }

  /**
    `Object::draw` on the node at `path`: point the executor at the node, run `Init` the
    first time and `Update` every later time, recompute the model only when the node's own
    flag is set, then draw slots 2, 1 and 0. Returns the node afterwards and the trace.
    What the trace promises is proved in `DrawNodeFacts` and `DrawNodeOwnEvents`.
  */
  function DrawNode(n: Node, path: seq<nat>): (r: (Node, seq<Visit>))
    requires Drawable(n)
    ensures Size(r.0) == Size(n) && |r.0.children| == |n.children| && Drawable(r.0)
    decreases Size(n), 3
  {
    var s := Slots(n.(init := true, reloadModel := false), path, 3);
    (s.0, Head(n, path) + s.1)
  }

  /** Slots `k-1` down to 0 of the node's order, drawn in that order. */
  function Slots(n: Node, path: seq<nat>, k: nat): (r: (Node, seq<Visit>))
    requires k <= 3 && Drawable(n)
    ensures Size(r.0) == Size(n) && |r.0.children| == |n.children| && Drawable(r.0)
    decreases Size(n), 2, k
  {
    if k == 0 then (n, [])
    else
      var r := Slot(n, path, SlotChar(n.order, k - 1));
      var s := Slots(r.0, path, k - 1);
      (s.0, r.1 + s.1)
  }

  /** One draw slot: `i` draws the image, `t` the text, `c` the children last to first, anything else nothing. */
  function Slot(n: Node, path: seq<nat>, c: char): (r: (Node, seq<Visit>))
    requires Drawable(n)
    ensures Size(r.0) == Size(n) && |r.0.children| == |n.children| && r.0.order == n.order
    ensures Drawable(r.0)
    decreases Size(n), 1
  {
    if c == 'i' then (n, [DrawImage(path)])
    else if c == 't' then (n, [DrawText(path)])
    else if c == 'c' then
      var d := DrawChildren(n.children, path, |n.children|);
      (n.(children := d.0), d.1)
    else (n, [])
  }

  /** The children `cs[k-1]`, ..., `cs[0]` drawn in that order (`children[count - 1 - i]`). */
  function DrawChildren(cs: seq<Node>, path: seq<nat>, k: nat): (r: (seq<Node>, seq<Visit>))
    requires k <= |cs| && AllDrawable(cs)
    ensures |r.0| == |cs| && SizeAll(r.0) == SizeAll(cs) && AllDrawable(r.0)
    decreases SizeAll(cs), 4, k
  {
    if k == 0 then (cs, [])
    else
      SizeAllElem(cs, k - 1);
      var d := DrawNode(cs[k - 1], path + [k - 1]);
      SizeAllUpdate(cs, k - 1, d.0);
      var rest := DrawChildren(cs[k - 1 := d.0], path, k - 1);
      (rest.0, d.1 + rest.1)
  }

  /** Drawing slots `k-1`, ..., 0 is drawing slot `k-1` and then the rest; used by the loop of `UI::DrawObject` after a trace already recorded. */
  lemma SlotsAfter(n: Node, path: seq<nat>, k: nat, a: Node, t: seq<Visit>, trace: seq<Visit>)
    requires 0 < k <= 3 && Drawable(n) && (a, t) == Slot(n, path, SlotChar(n.order, k - 1))
    ensures Slots(n, path, k).0 == Slots(a, path, k - 1).0
    ensures trace + Slots(n, path, k).1 == (trace + t) + Slots(a, path, k - 1).1
  {
    var rest := Slots(a, path, k - 1);
    assert Slots(n, path, k) == (rest.0, t + rest.1);
  }

  /** Drawing children `j`, ..., 0 is drawing child `j` and then the rest; used by the loop of `UI::DrawChildrenLoop` after a trace already recorded. */
  lemma DrawChildrenAfter(cs: seq<Node>, path: seq<nat>, j: nat, c: Node, t: seq<Visit>, trace: seq<Visit>)
    requires j < |cs| && AllDrawable(cs) && (c, t) == DrawNode(cs[j], path + [j])
    ensures DrawChildren(cs, path, j + 1).0 == DrawChildren(cs[j := c], path, j).0
    ensures trace + DrawChildren(cs, path, j + 1).1 == (trace + t) + DrawChildren(cs[j := c], path, j).1
    ensures SizeAll(cs[j := c]) == SizeAll(cs) && AllDrawable(cs[j := c])
  {
    SizeAllElem(cs, j);
    SizeAllUpdate(cs, j, c);
    var rest := DrawChildren(cs[j := c], path, j);
    assert DrawChildren(cs, path, j + 1) == (rest.0, t + rest.1);
  }

  /**
    Drawing a node marks it initialised with a fresh model and changes nothing else of its own;
    its trace opens by pointing the executor at it and running its script, runs every script
    right after pointing the executor at that script's node, and stays inside the node's
    subtree. The executor ends at the node itself exactly when no child is drawn, and
    otherwise inside the first child's subtree.
  */
  lemma {:induction false} DrawNodeFacts(n: Node, path: seq<nat>)
    requires Drawable(n)
    ensures var r := DrawNode(n, path);
      && r.0 == n.(init := true, reloadModel := false, children := r.0.children)
      && |r.1| >= 2 && r.1[0] == Exec(path) && r.1[1] == (if n.init then Update(path) else Init(path))
      && ScriptsAfterExec(r.1) && Under(r.1, path)
      && LastExec(r.1).Some? && path <= LastExec(r.1).value
      && (LastExec(r.1) == Some(path) <==> !(HasChildSlot(n.order) && |n.children| > 0))
      && (HasChildSlot(n.order) && |n.children| > 0 ==> path + [0] <= LastExec(r.1).value)
    decreases Size(n), 3
  {
    var t := Slots(n.(init := true, reloadModel := false), path, 3).1;
    SlotsFacts(n.(init := true, reloadModel := false), path, 3);
    HeadFacts(n, path);
    ScriptsAppend(Head(n, path), t);
    LastExecAppend(Head(n, path), t);
    TracePredicatesAppend(Head(n, path), t, path);
  }

  lemma {:induction false} SlotsFacts(n: Node, path: seq<nat>, k: nat)
    requires k <= 3 && Drawable(n)
    ensures var r := Slots(n, path, k);
      && r.0 == n.(children := r.0.children)
      && ScriptsAfterExec(r.1) && Under(r.1, path) && OnlyContent(r.1, path)
      && (ChildSlotBelow(n.order, k) && |n.children| > 0 ==> LastExec(r.1).Some? && path + [0] <= LastExec(r.1).value)
      && (!(ChildSlotBelow(n.order, k) && |n.children| > 0) ==> LastExec(r.1).None?)
    decreases Size(n), 2, k
  {
    if k > 0 {
      var r := Slot(n, path, SlotChar(n.order, k - 1));
      var a, t := r.0, r.1;
      var t' := Slots(a, path, k - 1).1;
      SlotFacts(n, path, SlotChar(n.order, k - 1));
      SlotsFacts(a, path, k - 1);
      ScriptsAppend(t, t');
      LastExecAppend(t, t');
      TracePredicatesAppend(t, t', path);
      assert a.order == n.order && |a.children| == |n.children|;
      if ChildSlotBelow(n.order, k - 1) && |n.children| > 0 {
        assert LastExec(t + t') == LastExec(t');
      } else if SlotChar(n.order, k - 1) == 'c' && |n.children| > 0 {
        assert LastExec(t + t') == LastExec(t);
      } else {
        assert LastExec(t + t').None?;
      }
    }
  }

  lemma {:induction false} SlotFacts(n: Node, path: seq<nat>, c: char)
    requires Drawable(n)
    ensures var r := Slot(n, path, c);
      && r.0 == n.(children := r.0.children)
      && (c != 'c' ==> r.0 == n)
      && ScriptsAfterExec(r.1) && Under(r.1, path) && OnlyContent(r.1, path)
      && (c == 'c' && |n.children| > 0 ==> |r.1| > 0 && r.1[0] == Exec(path + [|n.children| - 1]))
      && (c == 'c' && |n.children| > 0 ==> LastExec(r.1).Some? && path + [0] <= LastExec(r.1).value)
      && (!(c == 'c' && |n.children| > 0) ==> LastExec(r.1).None?)
    decreases Size(n), 1
  {
    if c == 'c' {
      DrawChildrenFacts(n.children, path, |n.children|);
      var t := DrawChildren(n.children, path, |n.children|).1;
      forall i | 0 <= i < |t|
        ensures path <= t[i].path && t[i].path != path
      {
      }
    }
  }

  lemma {:induction false} DrawChildrenFacts(cs: seq<Node>, path: seq<nat>, k: nat)
    requires k <= |cs| && AllDrawable(cs)
    ensures var r := DrawChildren(cs, path, k);
      && (forall j :: k <= j < |cs| ==> r.0[j] == cs[j])
      && ScriptsAfterExec(r.1) && Below(r.1, path)
      && (k > 0 ==> |r.1| > 0 && r.1[0] == Exec(path + [k - 1]))
      && (k > 0 ==> LastExec(r.1).Some? && path + [0] <= LastExec(r.1).value)
      && (k == 0 ==> r.1 == [])
    decreases SizeAll(cs), 4, k
  {
    if k > 0 {
      SizeAllElem(cs, k - 1);
      var d := DrawNode(cs[k - 1], path + [k - 1]);
      var c, t := d.0, d.1;
      SizeAllUpdate(cs, k - 1, c);
      var t' := DrawChildren(cs[k - 1 := c], path, k - 1).1;
      DrawNodeFacts(cs[k - 1], path + [k - 1]);
      DrawChildrenFacts(cs[k - 1 := c], path, k - 1);
      ScriptsAppend(t, t');
      LastExecAppend(t, t');
      PathBelow(t, path, k - 1);
      TracePredicatesAppend(t, t', path);
    }
  }

  /** Every node the trace points the executor at is `path + q` for a node `q` of `n`. */
  predicate ExecsWithin(t: seq<Visit>, n: Node, path: seq<nat>) {
    forall i :: 0 <= i < |t| && t[i].Exec? ==> path <= t[i].path && At(n, t[i].path[|path|..]).Some?
  }

  lemma ExecsAppend(a: seq<Visit>, b: seq<Visit>, n: Node, path: seq<nat>)
    requires ExecsWithin(a, n, path) && ExecsWithin(b, n, path)
    ensures ExecsWithin(a + b, n, path)
  {
    forall i | 0 <= i < |a + b|
      ensures (a + b)[i] == if i < |a| then a[i] else b[i - |a|]
    {
    }
  }

  /** Only a node's shape decides which paths it has. */
  lemma ExecsShape(t: seq<Visit>, a: Node, b: Node, path: seq<nat>)
    requires ShapeOf(a) == ShapeOf(b) && ExecsWithin(t, a, path)
    ensures ExecsWithin(t, b, path)
  {
    forall i | 0 <= i < |t| && t[i].Exec?
      ensures At(b, t[i].path[|path|..]).Some?
    {
      AtShape(a, b, t[i].path[|path|..]);
    }
  }

  /** What stays within child `j` of `n` stays within `n`. */
  lemma ExecsChild(t: seq<Visit>, n: Node, c: Node, path: seq<nat>, j: nat)
    requires j < |n.children| && ShapeOf(c) == ShapeOf(n.children[j]) && ExecsWithin(t, c, path + [j])
    ensures ExecsWithin(t, n, path)
  {
    forall i | 0 <= i < |t| && t[i].Exec?
      ensures path <= t[i].path && At(n, t[i].path[|path|..]).Some?
    {
      var e := t[i].path;
      var q := e[|path| + 1..];
      assert path + [j] <= e;
      assert e[..|path|] == (path + [j])[..|path|] == path;
      assert e[|path|..] == [j] + q;
      AtShape(c, n.children[j], q);
    }
  }

  /** Drawing a node keeps the shape of its subtree, and points the executor only at nodes of that subtree. */
  lemma {:induction false} DrawNodeExecs(n: Node, path: seq<nat>)
    requires Drawable(n)
    ensures ShapeOf(DrawNode(n, path).0) == ShapeOf(n)
    ensures ExecsWithin(DrawNode(n, path).1, n, path)
    decreases Size(n), 3
  {
    var n' := n.(init := true, reloadModel := false);
    var h := Head(n, path);
    var t := Slots(n', path, 3).1;
    assert Size(n') == Size(n) && ShapeOf(n') == ShapeOf(n);
    SlotsExecs(n', path, 3);
    ExecsShape(t, n', n, path);
    forall i | 0 <= i < |h| && h[i].Exec?
      ensures path <= h[i].path && At(n, h[i].path[|path|..]).Some?
    {
      assert h[i].path == path && path[|path|..] == [];
    }
    ExecsAppend(h, t, n, path);
  }

  lemma {:induction false} SlotsExecs(n: Node, path: seq<nat>, k: nat)
    requires k <= 3 && Drawable(n)
    ensures ShapeOf(Slots(n, path, k).0) == ShapeOf(n)
    ensures ExecsWithin(Slots(n, path, k).1, n, path)
    decreases Size(n), 2, k
  {
    if k > 0 {
      var r := Slot(n, path, SlotChar(n.order, k - 1));
      var t' := Slots(r.0, path, k - 1).1;
      SlotExecs(n, path, SlotChar(n.order, k - 1));
      SlotsExecs(r.0, path, k - 1);
      ExecsShape(t', r.0, n, path);
      ExecsAppend(r.1, t', n, path);
    }
  }

  lemma {:induction false} SlotExecs(n: Node, path: seq<nat>, c: char)
    requires Drawable(n)
    ensures ShapeOf(Slot(n, path, c).0) == ShapeOf(n)
    ensures ExecsWithin(Slot(n, path, c).1, n, path)
    decreases Size(n), 1
  {
    if c == 'c' {
      DrawChildrenExecs(n, n.children, path, |n.children|);
      assert ShapeOf(Slot(n, path, c).0) == Shape(ShapesOf(DrawChildren(n.children, path, |n.children|).0));
    }
  }

  /** Drawing the children `cs` of a node of their shape points the executor only at nodes below it. */
  lemma {:induction false} DrawChildrenExecs(n: Node, cs: seq<Node>, path: seq<nat>, k: nat)
    requires k <= |cs| && AllDrawable(cs) && ShapesOf(cs) == ShapesOf(n.children)
    ensures ShapesOf(DrawChildren(cs, path, k).0) == ShapesOf(cs)
    ensures ExecsWithin(DrawChildren(cs, path, k).1, n, path)
    decreases SizeAll(cs), 4, k
  {
    if k > 0 {
      SizeAllElem(cs, k - 1);
      var d := DrawNode(cs[k - 1], path + [k - 1]);
      SizeAllUpdate(cs, k - 1, d.0);
      var cs' := cs[k - 1 := d.0];
      DrawNodeExecs(cs[k - 1], path + [k - 1]);
      assert ShapesOf(cs') == ShapesOf(cs);
      assert ShapeOf(cs[k - 1]) == ShapesOf(n.children)[k - 1];
      ExecsChild(d.1, n, cs[k - 1], path, k - 1);
      DrawChildrenExecs(n, cs', path, k - 1);
      ExecsAppend(d.1, DrawChildren(cs', path, k - 1).1, n, path);
    }
  }

  /** The executor ends on the last node a trace points it at. */
  lemma {:induction false} LastExecIsExec(t: seq<Visit>)
    requires LastExec(t).Some?
    ensures exists i :: 0 <= i < |t| && t[i] == Exec(LastExec(t).value)
    decreases |t|
  {
    if !t[|t| - 1].Exec? {
      LastExecIsExec(t[..|t| - 1]);
      var i :| 0 <= i < |t| - 1 && t[..|t| - 1][i] == Exec(LastExec(t).value);
      assert t[i] == t[..|t| - 1][i];
    }
  }

  /** After a node is drawn, the executor designates a node of the drawn subtree. */
  lemma DrawNodeExecutor(n: Node, path: seq<nat>)
    requires Drawable(n)
    ensures var r := DrawNode(n, path);
      && ShapeOf(r.0) == ShapeOf(n)
      && LastExec(r.1).Some? && path <= LastExec(r.1).value && At(r.0, LastExec(r.1).value[|path|..]).Some?
  {
    var r := DrawNode(n, path);
    DrawNodeFacts(n, path);
    DrawNodeExecs(n, path);
    LastExecIsExec(r.1);
    var e := LastExec(r.1).value;
    var i :| 0 <= i < |r.1| && r.1[i] == Exec(e);
    AtShape(n, r.0, e[|path|..]);
  }

  /** The trace of drawing a node runs its `Init` exactly on the first draw, `Update` on every later one, and recomputes its model exactly when it was stale. */
  lemma DrawNodeOwnEvents(n: Node, path: seq<nat>)
    requires Drawable(n)
    ensures var t := DrawNode(n, path).1;
      (Init(path) in t <==> !n.init) && (Update(path) in t <==> n.init) && (Model(path) in t <==> n.reloadModel)
  {
    var t := Slots(n.(init := true, reloadModel := false), path, 3).1;
    SlotsFacts(n.(init := true, reloadModel := false), path, 3);
    OwnVisits(Head(n, path), t, path);
  }

  /** Only the head of a node's trace runs the node's script or recomputes its model. */
  lemma OwnVisits(head: seq<Visit>, t: seq<Visit>, path: seq<nat>)
    requires OnlyContent(t, path)
    ensures Init(path) in head + t <==> Init(path) in head
    ensures Update(path) in head + t <==> Update(path) in head
    ensures Model(path) in head + t <==> Model(path) in head
  {
    forall v | v in t && v.path == path
      ensures v.DrawImage? || v.DrawText?
    {
    }
  }

  lemma PathBelow(t: seq<Visit>, path: seq<nat>, j: nat)
    requires Under(t, path + [j])
    ensures Below(t, path)
  {
    forall i | 0 <= i < |t|
      ensures path < t[i].path
    {
      assert path + [j] <= t[i].path;
      assert t[i].path[..|path|] == (path + [j])[..|path|] == path;
    }
  }

  /** The first draw of a node runs `Init`; every later draw runs `Update` and recomputes nothing unless a setter ran in between. */
  lemma InitOnce(n: Node, path: seq<nat>)
    requires Drawable(n)
    ensures var n1 := DrawNode(n, path).0;
      var t2 := DrawNode(n1, path).1;
      Update(path) in t2 && Init(path) !in t2 && Model(path) !in t2
  {
    var n1 := DrawNode(n, path).0;
    DrawNodeFacts(n, path);
    DrawNodeOwnEvents(n1, path);
  }

  /** Slots run in index order 2, 1, 0: with order "itx" nothing is drawn for `x`, then the text, then the image. */
  lemma SlotsBackwards()
    ensures var n := NewNode.(init := true, reloadModel := false, order := Order('i', 't', 'x'),
                              image := Some(Element("image", [("anim", "a.json")], [])));
      DrawNode(n, [3]).1 == [Exec([3]), Update([3]), DrawText([3]), DrawImage([3])]
  {
  }

  // ----- Parsing -----

  function CharAt(s: string, k: nat, default: char): char {
    if k < |s| then s[k] else default
  }

  /** The draw order: slot k is the k-th character of `order` (itself "itc" when absent), defaulting to i, t and c. */
  function OrderOf(att: Option<string>): (o: Order)
    ensures att.None? ==> o == Order('i', 't', 'c')
    ensures forall k :: 0 <= k < 3 ==>
      SlotChar(o, k) == if att.Some? && k < |att.value| then att.value[k] else "itc"[k]
  {
    var s := att.GetOr("itc");
    Order(CharAt(s, 0, 'i'), CharAt(s, 1, 't'), CharAt(s, 2, 'c'))
  }

  /** Slot defaults apply per missing character: a one-letter "c" draws the children both first and last. */
  lemma OrderExamples()
    ensures OrderOf(Some("")) == Order('i', 't', 'c')
    ensures OrderOf(Some("c")) == Order('c', 't', 'c')
    ensures OrderOf(Some("ti")) == Order('t', 'i', 'c')
    ensures OrderOf(Some("tic")) == Order('t', 'i', 'c')
  {
  }

  /** The last child element with this name: the one whose content survives. */
  function LastNamedChild(es: seq<Element>, name: string): (r: Option<Element>)
    ensures r.Some? ==> r.value in es && r.value.name == name
    ensures r.None? ==> forall i :: 0 <= i < |es| ==> es[i].name != name
  {
    if es == [] then None
    else if es[|es| - 1].name == name then Some(es[|es| - 1])
    else LastNamedChild(es[..|es| - 1], name)
  }

  /** `Object::parse`: a non-`object` element gives `Object::new`; otherwise name, order, image, text and the `object` children in document order. */
  function ParseObject(e: Element): (n: Node)
    ensures n.init == false && n.reloadModel == true
    ensures e.name != "object" ==> n == NewNode
    decreases e, 1
  {
    if e.name != "object" then NewNode
    else
      NewNode.(
        name := Att(e, "name").GetOr(""),
        order := OrderOf(Att(e, "order")),
        image := LastNamedChild(e.children, "image"),
        text := LastNamedChild(e.children, "text"),
        children := ParseChildren(e, |e.children|))
  }

  /** The parsed `object` children among the first `k` child elements. */
  function ParseChildren(e: Element, k: nat): (cs: seq<Node>)
    requires k <= |e.children|
    ensures |cs| <= k
    decreases e, 0, k
  {
    if k == 0 then []
    else ParseChildren(e, k - 1) + (if e.children[k - 1].name == "object" then [ParseObject(e.children[k - 1])] else [])
  }

  /** Not yet drawn anywhere: no node initialised, every model stale. */
  predicate Fresh(n: Node)
    decreases n
  {
    !n.init && n.reloadModel && forall i :: 0 <= i < |n.children| ==> Fresh(n.children[i])
  }

  /** A freshly parsed tree has never been drawn, so the first draw initialises every node it reaches. */
  lemma {:induction false} ParsedIsFresh(e: Element)
    ensures Fresh(ParseObject(e))
    decreases e, 1
  {
    if e.name == "object" {
      ParsedChildrenFresh(e, |e.children|);
    }
  }

  lemma {:induction false} ParsedChildrenFresh(e: Element, k: nat)
    requires k <= |e.children|
    ensures forall i :: 0 <= i < |ParseChildren(e, k)| ==> Fresh(ParseChildren(e, k)[i])
    decreases e, 0, k
  {
    if k > 0 {
      ParsedChildrenFresh(e, k - 1);
      if e.children[k - 1].name == "object" {
        ParsedIsFresh(e.children[k - 1]);
      }
    }
  }

  /** One more child element read by the loop of `ParseNode`. */
  lemma ParseStep(e: Element, i: nat)
    requires i < |e.children|
    ensures var node := e.children[i];
      LastNamedChild(e.children[..i + 1], "image") == (if node.name == "image" then Some(node) else LastNamedChild(e.children[..i], "image")) &&
      LastNamedChild(e.children[..i + 1], "text") == (if node.name == "text" then Some(node) else LastNamedChild(e.children[..i], "text")) &&
      ParseChildren(e, i + 1) == ParseChildren(e, i) + (if node.name == "object" then [ParseObject(node)] else [])
  {
    assert e.children[..i + 1][..i] == e.children[..i];
  }

  /** The `for node in base.elements()` loop of `Object::parse`, recursing into `object` children. */
  method ParseNode(e: Element) returns (n: Node)
    ensures n == ParseObject(e)
    decreases e
  {
    if e.name != "object" { return NewNode; }
    var image: Option<Element> := None;
    var text: Option<Element> := None;
    var children: seq<Node> := [];
    var i := 0;
    while i < |e.children|
      invariant 0 <= i <= |e.children|
      invariant image == LastNamedChild(e.children[..i], "image")
      invariant text == LastNamedChild(e.children[..i], "text")
      invariant children == ParseChildren(e, i)
    {
      var node := e.children[i];
      ParseStep(e, i);
      if node.name == "image" { image := Some(node); }
      if node.name == "text" { text := Some(node); }
      if node.name == "object" {
        var child := ParseNode(node);
        children := children + [child];
      }
      i := i + 1;
    }
    assert e.children[..i] == e.children;
    var order := Att(e, "order").GetOr("itc");
    n := NewNode.(name := Att(e, "name").GetOr(""), order := Order(CharAt(order, 0, 'i'), CharAt(order, 1, 't'), CharAt(order, 2, 'c')),
                  image := image, text := text, children := children);
  }

  // ----- Script bindings on the executor node -----

  /** What a getter leaves for Lua: the values pushed and the result count it reports. */
  datatype Pushed = Pushed(values: seq<real>, results: nat)

  /** The script sees exactly the values pushed. */
  predicate Consistent(p: Pushed) { |p.values| == p.results }

  // Every setter marks the model stale and changes only its own field, which the matching
  // getter reads back: as set for the absolute setters, as the sum or product for the others.

  function SetPosition(n: Node, x: real, y: real): (r: Node)
    ensures r.reloadModel && GetPosition(r).values == [x, y] && r == n.(position := r.position, reloadModel := true)
  {
    n.(position := Vec2(x, y), reloadModel := true)
  }

  function SetScale(n: Node, x: real, y: real): (r: Node)
    ensures r.reloadModel && GetScale(r).values == [x, y] && r == n.(scale := r.scale, reloadModel := true)
  {
    n.(scale := Vec2(x, y), reloadModel := true)
  }

  function SetOrigin(n: Node, x: real, y: real): (r: Node)
    ensures r.reloadModel && GetOrigin(r).values == [x, y] && r == n.(origin := r.origin, reloadModel := true)
  {
    n.(origin := Vec2(x, y), reloadModel := true)
  }

  function SetAngle(n: Node, a: real): (r: Node)
    ensures r.reloadModel && GetAngle(r).values == [a] && r == n.(angle := r.angle, reloadModel := true)
  {
    n.(angle := a, reloadModel := true)
  }

  function Translate(n: Node, x: real, y: real): (r: Node)
    ensures r.reloadModel && GetPosition(r).values == [n.position.x + x, n.position.y + y]
    ensures r == n.(position := r.position, reloadModel := true)
  {
    n.(position := n.position.Plus(Vec2(x, y)), reloadModel := true)
  }

  function Rotate(n: Node, a: real): (r: Node)
    ensures r.reloadModel && GetAngle(r).values == [n.angle + a] && r == n.(angle := r.angle, reloadModel := true)
  {
    n.(angle := n.angle + a, reloadModel := true)
  }

  function Scale(n: Node, x: real, y: real): (r: Node)
    ensures r.reloadModel && GetScale(r).values == [n.scale.x * x, n.scale.y * y]
    ensures r == n.(scale := r.scale, reloadModel := true)
  {
    assert n.scale.Times(Vec2(x, y)) == Vec2(n.scale.x * x, n.scale.y * y);
    n.(scale := n.scale.Times(Vec2(x, y)), reloadModel := true)
  }

  // The getters push the components and report how many they pushed.

  function GetPosition(n: Node): (p: Pushed)
    ensures Consistent(p)
  {
    Pushed([n.position.x, n.position.y], 2)
  }

  function GetScale(n: Node): (p: Pushed)
    ensures Consistent(p)
  {
    Pushed([n.scale.x, n.scale.y], 2)
  }

  function GetOrigin(n: Node): (p: Pushed)
    ensures Consistent(p)
  {
    Pushed([n.origin.x, n.origin.y], 2)
  }

  /** `getAngleFN` as written: one value pushed, two results reported. */
  function GetAngleAsWritten(n: Node): Pushed { Pushed([n.angle], 2) }

  /** `getAngleFN` as intended: one value, one result. */
  function GetAngle(n: Node): (p: Pushed)
    ensures Consistent(p)
  {
    Pushed([n.angle], 1)
  }

  /** The written `getAngleFN` reports a result it never pushed, so the script reads a stale stack slot. */
  lemma GetAngleAsWrittenMismatch(n: Node)
    ensures !Consistent(GetAngleAsWritten(n))
  {
  }

  /** `updateModel`: the matrix is recomputed (not modelled) and the flag cleared. */
  function UpdateModel(n: Node): (r: Node)
    ensures !r.reloadModel
  {
    n.(reloadModel := false)
  }

  /** A setter's change reaches the matrix at the next draw of that node, and only there. */
  lemma SetterRefreshesModel(n: Node, x: real, y: real, path: seq<nat>)
    requires Drawable(n)
    ensures Model(path) in DrawNode(SetPosition(UpdateModel(n), x, y), path).1
    ensures Model(path) !in DrawNode(UpdateModel(n), path).1
  {
    DrawNodeOwnEvents(SetPosition(UpdateModel(n), x, y), path);
    DrawNodeOwnEvents(UpdateModel(n), path);
  }

  // ----- Input queries -----

  /** The mouse-button names a script may use; anything else is `Unknown`. */
  function ButtonFromName(s: string): Input.MouseButton {
    if s == "Left" then Input.Left
    else if s == "Right" then Input.Right
    else if s == "Middle" then Input.Middle
    else if s == "X1" then Input.X1
    else if s == "X2" then Input.X2
    else Input.Unknown
  }

  /** The name a script uses for a button; reading it back gives the button again. */
  function ButtonName(b: Input.MouseButton): (r: string)
    ensures ButtonFromName(r) == b
  {
    match b
    case Left => "Left"
    case Right => "Right"
    case Middle => "Middle"
    case X1 => "X1"
    case X2 => "X2"
    case Unknown => ""
  }

  /** A name reaches a button only if it is that button's own name. */
  lemma ButtonNamesRoundTrip(s: string)
    ensures ButtonFromName(s) != Input.Unknown ==> ButtonName(ButtonFromName(s)) == s
  {
  }

  /** `mousePressedFN`: whether the named button is held, given the buttons SDL reports held. */
  function MousePressed(held: set<Input.MouseButton>, name: string): (r: bool)
    ensures Input.Unknown !in held ==> (r <==> exists b :: b in held && ButtonName(b) == name)
  {
    ButtonFromName(name) in held
  }

  /** `mouseJustPressedFN`: the frame's mouse record is for the named button, pressed or released. */
  function MouseJustPressed(ev: Option<Input.MouseEvent>, name: string): (r: bool)
    ensures ev.Some? && ev.value.btn != Input.Unknown ==> (r <==> ButtonName(ev.value.btn) == name)
    ensures ev.None? ==> !r
  {
    ev.Some? && ev.value.btn == ButtonFromName(name)
  }

  /** `keyPressedFN`: whether the named key is held; SDL's scancode lookup must know the name. */
  function KeyPressed(held: set<nat>, name: string, fromName: string -> Option<nat>): (r: bool)
    requires fromName(name).Some?
    ensures r <==> exists k :: k in held && fromName(name) == Some(k)
  {
    fromName(name).value in held
  }

  /** `keyJustPressedFN`; `fromName` is SDL's scancode lookup, which must know the name once an event exists. */
  function KeyJustPressed(ev: Option<Input.KeyEvent>, name: string, fromName: string -> Option<nat>): (r: bool)
    requires ev.Some? ==> fromName(name).Some?
    ensures r <==> ev.Some? && Some(ev.value.key) == fromName(name) &&
                   (ev.value.action == Input.Pressed || ev.value.action == Input.PressedRepeat)
  {
    ev.Some? && ev.value.key == fromName(name).value &&
    (Input.ActionEq(ev.value.action, Input.Pressed) || Input.ActionEq(ev.value.action, Input.PressedRepeat))
  }

  /** Over one frame, a key is "just pressed" exactly when the frame's last key event is a press of it. */
  lemma KeyJustPressedOverFrame(events: seq<Input.Event>, name: string, fromName: string -> Option<nat>)
    requires Input.KeysMapped(events) && fromName(name).Some?
    ensures KeyJustPressed(Input.LastKey(events), name, fromName) <==>
      exists i :: 0 <= i < |events| && events[i].KeyDown? && events[i].scancode == fromName(name) &&
        forall j :: i < j < |events| ==> !Input.IsKey(events[j])
  {
    var key := Input.LastKey(events);
    if key.Some? {
      var i :| 0 <= i < |events| && Input.IsKey(events[i]) && key.value == Input.KeyRecord(events[i]) &&
               (forall j :: i < j < |events| ==> !Input.IsKey(events[j]));
      forall i' | 0 <= i' < |events| && Input.IsKey(events[i']) && (forall j :: i' < j < |events| ==> !Input.IsKey(events[j]))
        ensures i' == i
      {
      }
    }
  }

  /** Over one frame, a button is "just pressed" when the frame's last button event is for it, whether a press or a release. */
  lemma MouseJustPressedOverFrame(events: seq<Input.Event>, name: string)
    ensures MouseJustPressed(Input.LastMouse(events), name) <==>
      exists i :: 0 <= i < |events| && Input.IsMouse(events[i]) && events[i].mouseBtn == ButtonFromName(name) &&
        forall j :: i < j < |events| ==> !Input.IsMouse(events[j])
  {
    var m := Input.LastMouse(events);
    if m.Some? {
      var i :| 0 <= i < |events| && Input.IsMouse(events[i]) && m.value == Input.MouseRecord(events[i]) &&
               (forall j :: i < j < |events| ==> !Input.IsMouse(events[j]));
      forall i' | 0 <= i' < |events| && Input.IsMouse(events[i']) && (forall j :: i' < j < |events| ==> !Input.IsMouse(events[j]))
        ensures i' == i
      {
      }
    }
  }

  // ----- The UI -----

  /** The node at `path` below `n`, if the path exists. */
  function At(n: Node, path: seq<nat>): Option<Node>
    decreases |path|
  {
    if path == [] then Some(n)
    else if path[0] < |n.children| then At(n.children[path[0]], path[1..])
    else None
  }

  /** `n` with the node at `path` replaced by `m`. */
  function Put(n: Node, path: seq<nat>, m: Node): (r: Node)
    requires At(n, path).Some?
    ensures At(r, path) == Some(m)
    ensures path != [] ==> r == n.(children := r.children) && |r.children| == |n.children|
    decreases |path|
  {
    if path == [] then m
    else n.(children := n.children[path[0] := Put(n.children[path[0]], path[1..], m)])
  }

  /** Trees of one shape have the same paths, and the nodes there have one shape again. */
  lemma {:induction false} AtShape(a: Node, b: Node, q: seq<nat>)
    requires ShapeOf(a) == ShapeOf(b)
    ensures At(a, q).Some? <==> At(b, q).Some?
    ensures At(a, q).Some? ==> ShapeOf(At(a, q).value) == ShapeOf(At(b, q).value)
    decreases |q|
  {
    if q != [] {
      assert ShapesOf(a.children) == ShapesOf(b.children);
      if q[0] < |a.children| {
        assert ShapeOf(a.children[q[0]]) == ShapesOf(b.children)[q[0]];
        AtShape(a.children[q[0]], b.children[q[0]], q[1..]);
      }
    }
  }

  /** Replacing a node by one of its shape keeps the shape of the tree. */
  lemma {:induction false} PutShape(n: Node, path: seq<nat>, m: Node)
    requires At(n, path).Some? && ShapeOf(m) == ShapeOf(At(n, path).value)
    ensures ShapeOf(Put(n, path, m)) == ShapeOf(n)
    decreases |path|
  {
    if path != [] {
      var j := path[0];
      PutShape(n.children[j], path[1..], m);
      assert ShapesOf(n.children[j := Put(n.children[j], path[1..], m)]) == ShapesOf(n.children);
    }
  }

  /** The transform setters a script can call on its own node (`setPosition` ... `scale`). */
  datatype Setter =
    | SetPositionTo(x: real, y: real)
    | SetScaleTo(x: real, y: real)
    | SetOriginTo(x: real, y: real)
    | SetAngleTo(a: real)
    | TranslateBy(x: real, y: real)
    | RotateBy(a: real)
    | ScaleBy(x: real, y: real)

  function Apply(n: Node, op: Setter): (r: Node)
    ensures r.reloadModel && r.children == n.children && r.init == n.init && r.order == n.order && r.image == n.image
  {
    match op
    case SetPositionTo(x, y) => SetPosition(n, x, y)
    case SetScaleTo(x, y) => SetScale(n, x, y)
    case SetOriginTo(x, y) => SetOrigin(n, x, y)
    case SetAngleTo(a) => SetAngle(n, a)
    case TranslateBy(x, y) => Translate(n, x, y)
    case RotateBy(a) => Rotate(n, a)
    case ScaleBy(x, y) => Scale(n, x, y)
  }

  /** The node at a path of a drawable tree is drawable. */
  lemma {:induction false} DrawableAt(n: Node, path: seq<nat>)
    requires Drawable(n) && At(n, path).Some?
    ensures Drawable(At(n, path).value)
    decreases |path|
  {
    if path != [] {
      DrawableAt(n.children[path[0]], path[1..]);
    }
  }

  /** Replacing a node of a drawable tree by a drawable node keeps the tree drawable. */
  lemma {:induction false} DrawablePut(n: Node, path: seq<nat>, m: Node)
    requires Drawable(n) && At(n, path).Some? && Drawable(m)
    ensures Drawable(Put(n, path, m))
    decreases |path|
  {
    if path != [] {
      DrawablePut(n.children[path[0]], path[1..], m);
    }
  }

  /**
    The UI: the root node and the global script executor (`None` when it designates no node).
    The executor is a raw pointer into the tree; `executorLive` records whether the tree it
    was set in is still the current one.
  */
  class UI {
    var root: Node
    var executor: Option<seq<nat>>
    ghost var executorLive: bool

    /** `UI::new` */
    constructor ()
      ensures root == NewNode && executor == None && !executorLive
    {
      root := NewNode;
      executor := None;
      executorLive := false;
    }

    /**
      `UI::load`: a missing or unreadable file leaves the UI as it was. Otherwise the old
      tree is dropped, so the executor, which is not reset, no longer designates a live node.
    */
    method Load(src: Option<Element>)
      modifies this
      ensures src.None? ==> root == old(root) && executorLive == old(executorLive)
      ensures src.Some? ==> root == ParseObject(src.value) && Fresh(root) && !executorLive
      ensures executor == old(executor)
    {
      if src.None? { return; }
      root := ParseNode(src.value);
      executorLive := false;
      ParsedIsFresh(src.value);
    }

    /**
      `UI::draw`: draws the tree from the root and leaves the executor at the last node whose
      turn came: the root itself, or, when its children are drawn, a node of its first child's subtree.
    */
    method Draw() returns (trace: seq<Visit>)
      requires Drawable(root)
      modifies this
      ensures (root, trace) == DrawNode(old(root), []) && Drawable(root)
      ensures executor == LastExec(trace) && executor.Some? && executorLive
      ensures executor == Some([]) <==> !(HasChildSlot(old(root).order) && |old(root).children| > 0)
      ensures HasChildSlot(old(root).order) && |old(root).children| > 0 ==> [0] <= executor.value
      ensures ShapeOf(root) == ShapeOf(old(root)) && At(root, executor.value).Some?
    {
      DrawNodeFacts(root, []);
      DrawNodeExecutor(root, []);
      root, trace := DrawObject(root, []);
      executorLive := true;
      ghost var none: seq<nat> := [];
      assert executor.value[|none|..] == executor.value;
    }

    /** `Object::draw` on the node at `path`, moving the executor as it goes. */
    method DrawObject(n: Node, path: seq<nat>) returns (r: Node, trace: seq<Visit>)
      requires Drawable(n)
      modifies this`executor
      ensures (r, trace) == DrawNode(n, path)
      ensures executor == LastExec(trace) && executor.Some?
      decreases Size(n), 3
    {
      executor := Some(path);
      r := n;
      if !r.init {
        trace := [Exec(path), Init(path)];
        r := r.(init := true);
      } else {
        trace := [Exec(path), Update(path)];
      }
      if r.reloadModel {
        trace := trace + [Model(path)];
        r := r.(reloadModel := false);
      }
      assert trace == Head(n, path) && r == n.(init := true, reloadModel := false);
      HeadFacts(n, path);
      var k := 3;
      while k > 0
        invariant 0 <= k <= 3
        invariant Size(r) == Size(n) && r.order == n.order && |r.children| == |n.children| && Drawable(r)
        invariant DrawNode(n, path).0 == Slots(r, path, k).0
        invariant DrawNode(n, path).1 == trace + Slots(r, path, k).1
        invariant executor == LastExec(trace) && executor.Some?
        decreases k
      {
        ghost var before := r;
        var t;
        r, t := DrawSlot(r, path, SlotChar(r.order, k - 1));
        SlotsAfter(before, path, k, r, t, trace);
        LastExecAppend(trace, t);
        trace := trace + t;
        k := k - 1;
      }
      assert trace + [] == trace;
    }

    /** One slot of `Object::draw`. */
    method DrawSlot(n: Node, path: seq<nat>, c: char) returns (r: Node, trace: seq<Visit>)
      requires Drawable(n)
      modifies this`executor
      ensures (r, trace) == Slot(n, path, c)
      ensures executor == if LastExec(trace).Some? then LastExec(trace) else old(executor)
      decreases Size(n), 1
    {
      if c == 'i' {
        return n, [DrawImage(path)];
      } else if c == 't' {
        return n, [DrawText(path)];
      } else if c != 'c' {
        return n, [];
      }
      r := n;
      var cs;
      cs, trace := DrawChildrenLoop(n.children, path);
      r := n.(children := cs);
    }

    /** The `c` slot's loop: `children[count - 1 - i]` for i = 0, 1, ... */
    method DrawChildrenLoop(cs: seq<Node>, path: seq<nat>) returns (children: seq<Node>, trace: seq<Visit>)
      requires AllDrawable(cs)
      modifies this`executor
      ensures (children, trace) == DrawChildren(cs, path, |cs|)
      ensures executor == if |cs| == 0 then old(executor) else LastExec(trace)
      ensures |cs| > 0 ==> LastExec(trace).Some?
      decreases SizeAll(cs), 4
    {
      children := cs;
      trace := [];
      var i := 0;
      while i < |children|
        invariant 0 <= i <= |children| == |cs|
        invariant SizeAll(children) == SizeAll(cs) && AllDrawable(children)
        invariant DrawChildren(cs, path, |cs|).0 == DrawChildren(children, path, |children| - i).0
        invariant DrawChildren(cs, path, |cs|).1 == trace + DrawChildren(children, path, |children| - i).1
        invariant executor == if i == 0 then old(executor) else LastExec(trace)
        invariant i > 0 ==> LastExec(trace).Some?
      {
        var j := |children| - 1 - i;
        SizeAllElem(children, j);
        var child, t := DrawObject(children[j], path + [j]);
        LastExecAppend(trace, t);
        DrawChildrenAfter(children, path, j, child, t, trace);
        children := children[j := child];
        trace := trace + t;
        i := i + 1;
      }
      assert trace + [] == trace;
    }

    /**
      A transform setter called by the executor's script: it acts on the node the executor
      points at, which must still belong to the current tree.
    */
    method Bind(op: Setter)
      requires executorLive && executor.Some? && At(root, executor.value).Some?
      modifies this`root
      ensures root == Put(old(root), executor.value, Apply(At(old(root), executor.value).value, op))
      ensures At(root, executor.value) == Some(Apply(At(old(root), executor.value).value, op))
      ensures Drawable(old(root)) ==> Drawable(root)
      ensures ShapeOf(root) == ShapeOf(old(root)) && At(root, executor.value).Some?
    {
      var node := At(root, executor.value).value;
      assert ShapeOf(Apply(node, op)) == ShapeOf(node);
      PutShape(root, executor.value, Apply(node, op));
      if Drawable(root) {
        DrawableAt(root, executor.value);
        DrawablePut(root, executor.value, Apply(node, op));
      }
      root := Put(root, executor.value, Apply(node, op));
    }
  }
}
