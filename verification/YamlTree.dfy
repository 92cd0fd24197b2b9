/** src/YAML/Tree.c over src/Tree.c: the builder that turns the tokens of the parser into a
    tree of nodes. Nodes are numbered in the order they are added; 0 is the root of the tree,
    1 the node that Initialize adds. */
module YamlTree {
  import opened Yaml

  datatype NodeType = Plain | Section | Item

  datatype Data = Data(kind: NodeType, name: string, value: string)

  const BLANK := Data(Plain, "", "")

  /** The children, the parent and the contents of every node, and the current one. */
  datatype Shape = Shape(kids: seq<seq<nat>>, parents: seq<nat>, items: seq<Data>, cur: nat)

  // ----- what the tokens do to the tree

  /** Every field has an entry for every node, children are younger than their parent, and
      each node is listed by its parent only. */
  ghost predicate Sound(t: Shape) {
    && |t.kids| == |t.parents| == |t.items| && t.cur < |t.kids|
    && (forall i | 0 < i < |t.parents| :: t.parents[i] < i)
    && (forall i, k | 0 <= i < |t.kids| && 0 <= k < |t.kids[i]| ::
          i < t.kids[i][k] < |t.kids| && t.parents[t.kids[i][k]] == i)
  }

  ghost predicate HasKids(t: Shape)
    requires Sound(t)
  {
    t.kids[t.cur] != []
  }

  ghost function Last(t: Shape): nat
    requires Sound(t) && HasKids(t)
  {
    t.kids[t.cur][|t.kids[t.cur]| - 1]
  }

  /** What the assertions of ProcessToken, and its unchecked access to the last child, demand. */
  ghost predicate Accepts(t: Shape, token: Token)
    requires Sound(t)
  {
    match token.kind
    case Comment => true
    case Name => true
    case Value => HasKids(t)
    case Enter => HasKids(t)
    case Leave => t.cur != 0
  }

  ghost function WithChild(t: Shape, data: Data): Shape
    requires Sound(t)
  {
    Shape(t.kids[t.cur := t.kids[t.cur] + [|t.kids|]] + [[]], t.parents + [t.cur], t.items + [data], t.cur)
  }

  ghost function Step(t: Shape, token: Token): (r: Shape)
    requires Sound(t) && Accepts(t, token)
    ensures Sound(r)
  {
    match token.kind
    case Comment => t
    case Name => WithChild(t, Data(Section, token.value, ""))
    case Value =>
      var data := t.items[Last(t)];
      t.(items := t.items[Last(t) := data.(kind := Item, value := token.value)])
    case Enter => t.(cur := Last(t))
    case Leave => t.(cur := t.parents[t.cur])
  }

  /** The tree of the root and the node that Initialize adds. */
  ghost function Initial(): (t: Shape)
    ensures Sound(t)
  {
    Shape([[1], []], [0, 0], [BLANK, BLANK], 1)
  }

  /** Every token finds what it needs. */
  ghost predicate Runs(t: Shape, tokens: seq<Token>)
    requires Sound(t)
    decreases |tokens|
  {
    tokens != [] ==> Accepts(t, tokens[0]) && Runs(Step(t, tokens[0]), tokens[1..])
  }

  ghost function Run(t: Shape, tokens: seq<Token>): (r: Shape)
    requires Sound(t) && Runs(t, tokens)
    ensures Sound(r)
    decreases |tokens|
  {
    if tokens == [] then t else Run(Step(t, tokens[0]), tokens[1..])
  }

  lemma {:induction false} RunJoin(t: Shape, a: seq<Token>, b: seq<Token>)
    requires Sound(t) && Runs(t, a) && Runs(Run(t, a), b)
    ensures Runs(t, a + b) && Run(t, a + b) == Run(Run(t, a), b)
    decreases |a|
  {
    if a == [] {
      assert a + b == b;
    } else {
      assert (a + b)[1..] == a[1..] + b;
      RunJoin(Step(t, a[0]), a[1..], b);
    }
  }

  lemma RunOne(t: Shape, token: Token)
    requires Sound(t) && Accepts(t, token)
    ensures Runs(t, [token]) && Run(t, [token]) == Step(t, token)
  {
    assert [token][1..] == [];
  }

  // ----- depths

  /** How many levels node i is below the root. */
  ghost function Level(parents: seq<nat>, i: nat): nat
    requires i < |parents| && forall k | 0 < k < |parents| :: parents[k] < k
    decreases i
  {
    if i == 0 then 0 else 1 + Level(parents, parents[i])
  }

  lemma {:induction false} LevelStays(parents: seq<nat>, more: nat, i: nat)
    requires i < |parents| && (forall k | 0 < k < |parents| :: parents[k] < k) && more < |parents|
    ensures (forall k | 0 < k < |parents + [more]| :: (parents + [more])[k] < k)
    ensures Level(parents + [more], i) == Level(parents, i)
    decreases i
  {
    if i > 0 {
      LevelStays(parents, more, parents[i]);
    }
  }

  // ----- preorder

  ghost predicate Younger(kids: seq<seq<nat>>) {
    forall i, k | 0 <= i < |kids| && 0 <= k < |kids[i]| :: i < kids[i][k] < |kids|
  }

  /** The nodes of the subtree of i, each before its children. */
  ghost function Preorder(kids: seq<seq<nat>>, i: nat): seq<nat>
    requires Younger(kids) && i < |kids|
    decreases |kids| - i, 1, 0
  {
    [i] + PreorderFrom(kids, i, 0)
  }

  /** The nodes below the children of i, from the k-th on. */
  ghost function PreorderFrom(kids: seq<seq<nat>>, i: nat, k: nat): seq<nat>
    requires Younger(kids) && i < |kids| && k <= |kids[i]|
    decreases |kids| - i, 0, |kids[i]| - k
  {
    if k == |kids[i]| then [] else Preorder(kids, kids[i][k]) + PreorderFrom(kids, i, k + 1)
  }

  ghost function Range(a: nat, b: nat): seq<nat> {
    seq(if a <= b then b - a else 0, k requires 0 <= k => a + k)
  }

  /** Node cur lies at the end of the path that takes the last child of every node, and the
      subtree of every node of the path holds, in preorder, all nodes from it on. */
  ghost predicate OnPath(kids: seq<seq<nat>>, i: nat, cur: nat)
    requires Younger(kids) && i < |kids|
    decreases |kids| - i
  {
    && Preorder(kids, i) == Range(i, |kids|)
    && (i == cur || (kids[i] != [] && OnPath(kids, kids[i][|kids[i]| - 1], cur)))
  }

  // ----- preorder is the order of creation: adding a node

  lemma RangeSplits(a: nat, n: nat, p: seq<nat>, q: seq<nat>)
    requires p + q == Range(a, n)
    ensures p == Range(a, a + |p|) && q == Range(a + |p|, n)
  {
    assert forall k | 0 <= k < |p| :: p[k] == (p + q)[k];
    assert forall k | 0 <= k < |q| :: q[k] == (p + q)[|p| + k];
  }

  lemma {:induction false} OffPath(kids: seq<seq<nat>>, more: seq<seq<nat>>, cur: nat, i: nat)
    requires Younger(kids) && Younger(more) && |kids| <= |more|
             && (forall k | 0 <= k < |kids| && k != cur :: more[k] == kids[k])
    requires i < |kids| && cur !in Preorder(kids, i)
    ensures Preorder(more, i) == Preorder(kids, i)
    decreases |kids| - i, 1, 0
  {
    assert i in [i];
    OffPathFrom(kids, more, cur, i, 0);
  }

  lemma {:induction false} OffPathFrom(kids: seq<seq<nat>>, more: seq<seq<nat>>, cur: nat, i: nat, k: nat)
    requires Younger(kids) && Younger(more) && |kids| <= |more|
             && (forall k | 0 <= k < |kids| && k != cur :: more[k] == kids[k])
    requires i < |kids| && i != cur && k <= |kids[i]| && cur !in PreorderFrom(kids, i, k)
    ensures more[i] == kids[i] && PreorderFrom(more, i, k) == PreorderFrom(kids, i, k)
    decreases |kids| - i, 0, |kids[i]| - k
  {
    if k < |kids[i]| {
      assert PreorderFrom(kids, i, k) == Preorder(kids, kids[i][k]) + PreorderFrom(kids, i, k + 1);
      OffPath(kids, more, cur, kids[i][k]);
      OffPathFrom(kids, more, cur, i, k + 1);
    }
  }

  lemma {:induction false} AtLeast(kids: seq<seq<nat>>, i: nat)
    requires Younger(kids) && i < |kids|
    ensures forall x | x in Preorder(kids, i) :: i <= x < |kids|
    decreases |kids| - i, 1, 0
  {
    AtLeastFrom(kids, i, 0);
  }

  lemma {:induction false} AtLeastFrom(kids: seq<seq<nat>>, i: nat, k: nat)
    requires Younger(kids) && i < |kids| && k <= |kids[i]|
    ensures forall x | x in PreorderFrom(kids, i, k) :: i < x < |kids|
    decreases |kids| - i, 0, |kids[i]| - k
  {
    if k < |kids[i]| {
      AtLeast(kids, kids[i][k]);
      AtLeastFrom(kids, i, k + 1);
    }
  }

  /** The children lists after the current node got a new last child. */
  ghost function Lengthened(kids: seq<seq<nat>>, cur: nat): seq<seq<nat>>
    requires cur < |kids|
  {
    kids[cur := kids[cur] + [|kids|]] + [[]]
  }

  lemma GrownAt(kids: seq<seq<nat>>, cur: nat)
    requires Younger(kids) && cur < |kids|
    ensures var g, n := Lengthened(kids, cur), |kids|;
            && Younger(g) && |g| == n + 1 && g[cur] == kids[cur] + [n] && g[n] == []
            && forall k | 0 <= k < n && k != cur :: g[k] == kids[k]
  {
  }

  lemma {:induction false} NewLast(kids: seq<seq<nat>>, cur: nat, k: nat)
    requires Younger(kids) && cur < |kids| && k <= |kids[cur]|
    ensures Younger(Lengthened(kids, cur))
    ensures PreorderFrom(Lengthened(kids, cur), cur, k) == PreorderFrom(kids, cur, k) + [|kids|]
    decreases |kids[cur]| - k
  {
    var g, n := Lengthened(kids, cur), |kids|;
    GrownAt(kids, cur);
    hide Lengthened;
    if k == |kids[cur]| {
      assert Preorder(g, n) == [n];
    } else {
      var c := kids[cur][k];
      AtLeast(kids, c);
      OffPath(kids, g, cur, c);
      NewLast(kids, cur, k + 1);
      assert g[cur][k] == c;
    }
  }

  lemma {:induction false} GrownBelow(kids: seq<seq<nat>>, cur: nat, i: nat, k: nat, a: nat)
    requires Younger(kids) && cur < |kids| && i < |kids| && i != cur && k < |kids[i]|
    requires PreorderFrom(kids, i, k) == Range(a, |kids|)
    requires var l := kids[i][|kids[i]| - 1];
             cur in Preorder(kids, l) && Younger(Lengthened(kids, cur))
             && Preorder(Lengthened(kids, cur), l) == Preorder(kids, l) + [|kids|]
    ensures cur in PreorderFrom(kids, i, k)
    ensures PreorderFrom(Lengthened(kids, cur), i, k) == PreorderFrom(kids, i, k) + [|kids|]
    decreases |kids[i]| - k
  {
    var g, n := Lengthened(kids, cur), |kids|;
    GrownAt(kids, cur);
    hide Lengthened;
    var c := kids[i][k];
    var p, q := Preorder(kids, c), PreorderFrom(kids, i, k + 1);
    RangeSplits(a, n, p, q);
    if k == |kids[i]| - 1 {
      assert q == [] && PreorderFrom(g, i, k + 1) == [];
    } else {
      GrownBelow(kids, cur, i, k + 1, a + |p|);
      assert cur in q;
      OffPath(kids, g, cur, c);
      assert p + (q + [n]) == p + q + [n];
    }
  }

  lemma PathEnd(kids: seq<seq<nat>>, i: nat, cur: nat)
    requires Younger(kids) && i < |kids| && OnPath(kids, i, cur)
    ensures i <= cur < |kids| && cur in Preorder(kids, i)
    decreases |kids| - i
  {
    if i == cur {
    } else {
      PathEnd(kids, kids[i][|kids[i]| - 1], cur);
    }
    assert Range(i, |kids|)[cur - i] == cur;
  }

  lemma {:induction false} PathGrows(kids: seq<seq<nat>>, i: nat, cur: nat)
    requires Younger(kids) && i < |kids| && OnPath(kids, i, cur)
    ensures cur < |kids| && Younger(Lengthened(kids, cur)) && OnPath(Lengthened(kids, cur), i, cur)
    decreases |kids| - i
  {
    PathEnd(kids, i, cur);
    GrownAt(kids, cur);
    var g, n := Lengthened(kids, cur), |kids|;
    hide Lengthened;
    if i == cur {
      NewLast(kids, cur, 0);
    } else {
      var l := kids[i][|kids[i]| - 1];
      PathGrows(kids, l, cur);
      PathEnd(kids, l, cur);
      RangeMore(l, n);
      RangeSplits(i, n, [i], PreorderFrom(kids, i, 0));
      GrownBelow(kids, cur, i, 0, i + 1);
      assert Preorder(g, i) == [i] + (PreorderFrom(kids, i, 0) + [n]) == Preorder(kids, i) + [n];
    }
    RangeMore(i, n);
  }

  lemma RangeMore(a: nat, n: nat)
    requires a <= n
    ensures Range(a, n + 1) == Range(a, n) + [n]
  {
  }

  // ----- going down and up the path

  lemma {:induction false} LastRange(kids: seq<seq<nat>>, i: nat, k: nat, a: nat)
    requires Younger(kids) && i < |kids| && k < |kids[i]| && PreorderFrom(kids, i, k) == Range(a, |kids|)
    ensures var l := kids[i][|kids[i]| - 1]; Preorder(kids, l) == Range(l, |kids|)
    decreases |kids[i]| - k
  {
    var p, q := Preorder(kids, kids[i][k]), PreorderFrom(kids, i, k + 1);
    RangeSplits(a, |kids|, p, q);
    if k == |kids[i]| - 1 {
      assert q == [] && p == p + q;
      assert p[0] == kids[i][k];
    } else {
      LastRange(kids, i, k + 1, a + |p|);
    }
  }

  lemma {:induction false} PathEnters(kids: seq<seq<nat>>, i: nat, cur: nat)
    requires Younger(kids) && i < |kids| && OnPath(kids, i, cur) && cur < |kids| && kids[cur] != []
    ensures OnPath(kids, i, kids[cur][|kids[cur]| - 1])
    decreases |kids| - i
  {
    if i == cur {
      RangeSplits(i, |kids|, [i], PreorderFrom(kids, i, 0));
      LastRange(kids, i, 0, i + 1);
    } else {
      PathEnters(kids, kids[i][|kids[i]| - 1], cur);
    }
  }

  lemma {:induction false} PathLeaves(kids: seq<seq<nat>>, parents: seq<nat>, i: nat, cur: nat)
    requires Younger(kids) && i < |kids| && OnPath(kids, i, cur) && i != cur && |parents| == |kids|
    requires forall j, k | 0 <= j < |kids| && 0 <= k < |kids[j]| :: parents[kids[j][k]] == j
    ensures cur < |kids| && OnPath(kids, i, parents[cur])
    decreases |kids| - i
  {
    PathEnd(kids, i, cur);
    var l := kids[i][|kids[i]| - 1];
    if l != cur {
      PathLeaves(kids, parents, l, cur);
    }
  }

  ghost predicate Ordered(t: Shape)
    requires Sound(t)
  {
    OnPath(t.kids, 0, t.cur)
  }

  /** Every step keeps preorder and order of creation the same, and the current node on the
      path of last children. */
  lemma StepOrdered(t: Shape, token: Token)
    requires Sound(t) && Accepts(t, token) && Ordered(t)
    ensures Ordered(Step(t, token))
  {
    match token.kind
    case Comment =>
    case Name => PathGrows(t.kids, 0, t.cur);
    case Value =>
    case Enter => PathEnters(t.kids, 0, t.cur);
    case Leave => PathLeaves(t.kids, t.parents, 0, t.cur);
  }

  // ----- the tree of nodes

  class Node {
    var buf: seq<Node>
    var parent: Node?
    var kind: NodeType
    var name: string
    var value: string

    constructor (parent: Node?)
      ensures buf == [] && this.parent == parent
    {
      this.parent := parent;
      buf, kind, name, value := [], Plain, "", "";
    }
  }

  /** The nodes with the given numbers. */
  ghost function Picked(nodes: seq<Node>, ids: seq<nat>): seq<Node>
    requires forall k | 0 <= k < |ids| :: ids[k] < |nodes|
  {
    seq(|ids|, k requires 0 <= k < |ids| => nodes[ids[k]])
  }

  lemma PickedMore(nodes: seq<Node>, res: Node, ids: seq<nat>)
    requires forall k | 0 <= k < |ids| :: ids[k] < |nodes|
    ensures Picked(nodes + [res], ids) == Picked(nodes, ids)
    ensures Picked(nodes + [res], ids + [|nodes|]) == Picked(nodes, ids) + [res]
  {
  }

  ghost predicate Different(nodes: seq<Node>) {
    forall i, j | 0 <= i < j < |nodes| :: nodes[i] != nodes[j]
  }

  class Tree {
    const root: Node
    var node: Node?

    ghost var nodes: seq<Node>
    ghost var shape: Shape

    /** Node i has the children, the parent and the contents that the shape says. */
    ghost predicate Fits(i: nat)
      requires Sound(shape) && |nodes| == |shape.kids| && i < |nodes|
      reads this, nodes
    {
      && nodes[i].buf == Picked(nodes, shape.kids[i])
      && nodes[i].parent == (if i == 0 then null else nodes[shape.parents[i]])
      && (i > 0 ==> Data(nodes[i].kind, nodes[i].name, nodes[i].value) == shape.items[i])
    }

    ghost predicate Valid()
      reads this, nodes
    {
      && Sound(shape) && |nodes| == |shape.kids| && Different(nodes) && nodes[0] == root
      && node == nodes[shape.cur]
      && forall i | 0 <= i < |nodes| :: Fits(i)
    }

    /** Before Initialize: the root alone. */
    ghost predicate Blank()
      reads this, root
    {
      node == null && root.buf == [] && root.parent == null
    }

    constructor ()
      ensures Blank() && fresh(root)
    {
      root := new Node(null);
      node, nodes, shape := null, [], Initial();
    }

    function Target(node: Node?): Node {
      if node == null then root else node
    }

    /** A new last child of the given node, or of the root. */
    method AddCustomNode(node: Node?) returns (res: Node)
      modifies Target(node)`buf
      ensures fresh(res) && res.buf == [] && res.parent == Target(node)
      ensures Target(node).buf == old(Target(node).buf) + [res]
    {
      var at := Target(node);
      res := new Node(at);
      at.buf := at.buf + [res];
    }

    method Initialize()
      requires Blank()
      modifies this, root
      ensures Valid() && shape == Initial() && forall k | 0 <= k < |nodes| :: nodes[k] == root || fresh(nodes[k])
    {
      node := AddCustomNode(node);
      node.kind, node.name, node.value := Plain, "", "";
      nodes, shape := [root, node], Initial();
    }

    method AddName(value: string)
      requires Valid()
      modifies this, nodes
      ensures Valid() && node == old(node) && shape == WithChild(old(shape), Data(Section, value, ""))
      ensures forall k | 0 <= k < |nodes| :: (k < |old(nodes)| && nodes[k] == old(nodes)[k]) || fresh(nodes[k])
    {
      ghost var t, was := shape, nodes;
      var res := AddCustomNode(node);
      res.kind, res.name, res.value := Section, value, "";
      nodes, shape := nodes + [res], WithChild(shape, Data(Section, value, ""));
      forall i | 0 <= i < |nodes|
        ensures Fits(i)
      {
        if i < |was| {
          assert old(Fits(i));
          PickedMore(was, res, t.kids[i]);
        }
      }
    }

    method SetValue(value: string)
      requires Valid() && HasKids(shape)
      modifies this, nodes
      ensures Valid() && node == old(node) && nodes == old(nodes) && shape == Step(old(shape), Token(Value, value))
    {
      ghost var t := shape;
      assert Fits(shape.cur);
      var last := node.buf[|node.buf| - 1];
      last.kind := Item;
      last.value := value;
      shape := Step(t, Token(Value, value));
      forall i | 0 <= i < |nodes|
        ensures Fits(i)
      {
        assert old(Fits(i));
      }
    }

    /** One token of the parser. */
    method ProcessToken(kind: Kind, value: string)
      requires Valid() && Accepts(shape, Token(kind, value))
      modifies this, nodes
      ensures Valid() && shape == Step(old(shape), Token(kind, value))
      ensures forall k | 0 <= k < |nodes| :: (k < |old(nodes)| && nodes[k] == old(nodes)[k]) || fresh(nodes[k])
    {
      if kind == Name {
        AddName(value);
      } else if kind == Value {
        SetValue(value);
      } else if kind == Enter {
        assert Fits(shape.cur);
        node := node.buf[|node.buf| - 1];
        shape := Step(shape, Token(kind, value));
        forall i | 0 <= i < |nodes|
          ensures Fits(i)
        {
          assert old(Fits(i));
        }
      } else if kind == Leave {
        assert Fits(shape.cur);
        node := node.parent;
        shape := Step(shape, Token(kind, value));
        forall i | 0 <= i < |nodes|
          ensures Fits(i)
        {
          assert old(Fits(i));
        }
      }
    }
  }
}
