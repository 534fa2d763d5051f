/**
 * An unbalanced binary search tree whose nodes live on the heap and whose
 * `Insert` walks down from the root and links a fresh leaf into an existing
 * node in place.  A `Tree` is a value holding only a (possibly null) root
 * reference, so the tree that `Insert` hands back shares every node with the
 * tree it was called on.
 *
 * The keys are modelled as `int`; any type with `==`, `<` and `>` forming a
 * strict total order behaves the same way.
 *
 * The heap structure below a root is described by a ghost `Shape`: a finite
 * tree of (node, key) pairs.  `Mirrors(p, s)` says the nodes reachable from
 * `p` are laid out exactly as `s`, and `Distinct(s)` says no node appears in
 * `s` twice, so the reachable nodes form a proper tree and not a DAG.
 */
module OrderedTree {

  // ---------------------------------------------------------------------------
  // Per-node memory cost (bytes), for a 64-bit platform and `int` keys.
  // ---------------------------------------------------------------------------

  /** sizeof(T) for T = int */
  const SizeOfValue: nat := 4
  /** sizeof(std::shared_ptr<Node>): an object pointer and a control-block pointer */
  const SizeOfSharedPtr: nat := 16
  /** sizeof(Node): the value, padding to 8 bytes, and the two child pointers */
  const SizeOfNode: nat := 8 + 2 * SizeOfSharedPtr

  /** What the memory estimate charges for one reachable node. */
  const NodeCost: nat := SizeOfNode + 2 * SizeOfSharedPtr + SizeOfValue

  // ---------------------------------------------------------------------------
  // Heap nodes
  // ---------------------------------------------------------------------------

  /** A node holds one key, which never changes, and two child slots. */
  class Node {
    const value: int
    var left: Node?
    var right: Node?

    /** A fresh leaf holding `val`. */
    constructor (val: int)
      ensures value == val && left == null && right == null
    {
      value := val;
      left := null;
      right := null;
    }
  }

  // ---------------------------------------------------------------------------
  // The abstract shape of a tree and its specification functions
  // ---------------------------------------------------------------------------

  datatype Shape = Nil | Fork(left: Shape, node: Node, key: int, right: Shape)

  /** The node objects a shape is made of. */
  ghost function Nodes(s: Shape): set<Node>
  {
    match s
    case Nil => {}
    case Fork(l, n, _, r) => Nodes(l) + {n} + Nodes(r)
  }

  /** The keys stored in a shape (the tree's contents). */
  ghost function Keys(s: Shape): set<int>
  {
    match s
    case Nil => {}
    case Fork(l, _, k, r) => Keys(l) + {k} + Keys(r)
  }

  /** The number of nodes in a shape. */
  ghost function Size(s: Shape): nat
  {
    match s
    case Nil => 0
    case Fork(l, _, _, r) => Size(l) + 1 + Size(r)
  }

  /** The number of nodes on a longest path from the root. */
  ghost function Height(s: Shape): nat
  {
    match s
    case Nil => 0
    case Fork(l, _, _, r) => 1 + (if Height(l) < Height(r) then Height(r) else Height(l))
  }

  /** No node object occurs twice: the reachable nodes form a tree. */
  ghost predicate Distinct(s: Shape)
  {
    match s
    case Nil => true
    case Fork(l, n, _, r) =>
      Distinct(l) && Distinct(r) &&
      n !in Nodes(l) && n !in Nodes(r) && Nodes(l) !! Nodes(r)
  }

  /** The binary-search-tree order: left keys below, right keys above each key. */
  ghost predicate Ordered(s: Shape)
  {
    match s
    case Nil => true
    case Fork(l, _, k, r) =>
      Ordered(l) && Ordered(r) &&
      (forall y :: y in Keys(l) ==> y < k) &&
      (forall y :: y in Keys(r) ==> k < y)
  }

  /** The descent `lookup` performs, on the abstract shape. */
  ghost function Search(s: Shape, x: int): bool
  {
    match s
    case Nil => false
    case Fork(l, _, k, r) =>
      if x == k then true
      else if x < k then Search(l, x)
      else Search(r, x)
  }

  /**
   * The shape `insert` produces when the fresh node it allocates is `n`:
   * follow the order down to an empty slot and put a leaf there, or stop
   * at an equal key and change nothing.
   */
  ghost function Grow(s: Shape, x: int, n: Node): Shape
  {
    match s
    case Nil => Fork(Nil, n, x, Nil)
    case Fork(l, m, k, r) =>
      if x < k then Fork(Grow(l, x, n), m, k, r)
      else if x > k then Fork(l, m, k, Grow(r, x, n))
      else s
  }

  /** A degenerate tree in which no node has a left child. */
  ghost predicate RightChain(s: Shape)
  {
    match s
    case Nil => true
    case Fork(l, _, _, r) => l == Nil && RightChain(r)
  }

  // ---------------------------------------------------------------------------
  // Properties of the specification functions
  // ---------------------------------------------------------------------------

  /** A successful search only ever finds a key that is stored. */
  lemma {:induction false} SearchFindsStoredKey(s: Shape, x: int)
    ensures Search(s, x) ==> x in Keys(s)
  {
    match s
    case Nil =>
    case Fork(l, _, k, r) =>
      if x < k { SearchFindsStoredKey(l, x); }
      else if x > k { SearchFindsStoredKey(r, x); }
  }

  /** On an ordered tree the descent finds a key exactly when it is stored. */
  lemma {:induction false} SearchIsMembership(s: Shape, x: int)
    requires Ordered(s)
    ensures Search(s, x) <==> x in Keys(s)
  {
    match s
    case Nil =>
    case Fork(l, _, k, r) =>
      SearchIsMembership(l, x);
      SearchIsMembership(r, x);
  }

  /** Growing adds exactly the key: duplicates are absorbed. */
  lemma {:induction false} GrowKeys(s: Shape, x: int, n: Node)
    ensures Keys(Grow(s, x, n)) == Keys(s) + {x}
  {
    match s
    case Nil =>
    case Fork(l, _, k, r) =>
      if x < k { GrowKeys(l, x, n); }
      else if x > k { GrowKeys(r, x, n); }
  }

  /** Growing adds the fresh node exactly when the key is not found. */
  lemma {:induction false} GrowNodes(s: Shape, x: int, n: Node)
    ensures Nodes(Grow(s, x, n)) == if Search(s, x) then Nodes(s) else Nodes(s) + {n}
    ensures Size(Grow(s, x, n)) == if Search(s, x) then Size(s) else Size(s) + 1
  {
    match s
    case Nil =>
    case Fork(l, _, k, r) =>
      if x < k { GrowNodes(l, x, n); }
      else if x > k { GrowNodes(r, x, n); }
  }

  /** A key the descent already finds leaves the shape exactly as it was. */
  lemma {:induction false} GrowFoundIsIdentity(s: Shape, x: int, n: Node)
    requires Search(s, x)
    ensures Grow(s, x, n) == s
  {
    match s
    case Fork(l, _, k, r) =>
      if x < k { GrowFoundIsIdentity(l, x, n); }
      else if x > k { GrowFoundIsIdentity(r, x, n); }
  }

  /** After growing, the descent for the grown key succeeds. */
  lemma {:induction false} GrowThenSearch(s: Shape, x: int, n: Node)
    ensures Search(Grow(s, x, n), x)
  {
    match s
    case Nil =>
    case Fork(l, _, k, r) =>
      if x < k { GrowThenSearch(l, x, n); }
      else if x > k { GrowThenSearch(r, x, n); }
  }

  /** Growing keeps the search-tree order. */
  lemma {:induction false} GrowOrdered(s: Shape, x: int, n: Node)
    requires Ordered(s)
    ensures Ordered(Grow(s, x, n))
  {
    match s
    case Nil =>
    case Fork(l, _, k, r) =>
      if x < k {
        GrowOrdered(l, x, n);
        GrowKeys(l, x, n);
      } else if x > k {
        GrowOrdered(r, x, n);
        GrowKeys(r, x, n);
      }
  }

  /** Growing with a node not yet in the tree keeps the nodes distinct. */
  lemma {:induction false} GrowDistinct(s: Shape, x: int, n: Node)
    requires Distinct(s) && n !in Nodes(s)
    ensures Distinct(Grow(s, x, n))
  {
    match s
    case Nil =>
    case Fork(l, m, k, r) =>
      if x < k {
        GrowDistinct(l, x, n);
        GrowNodes(l, x, n);
      } else if x > k {
        GrowDistinct(r, x, n);
        GrowNodes(r, x, n);
      }
  }

  /**
   * On an ordered tree, after growing with `x` the descent finds `y`
   * exactly when `y` is `x` or was found before.
   */
  lemma {:induction false} SearchAfterGrow(s: Shape, x: int, n: Node, y: int)
    requires Ordered(s)
    ensures Search(Grow(s, x, n), y) <==> y == x || Search(s, y)
  {
    GrowOrdered(s, x, n);
    GrowKeys(s, x, n);
    SearchIsMembership(s, y);
    SearchIsMembership(Grow(s, x, n), y);
  }

  /** In an ordered tree every node holds a different key. */
  lemma {:induction false} OrderedKeysCountNodes(s: Shape)
    requires Ordered(s)
    ensures |Keys(s)| == Size(s)
  {
    match s
    case Nil =>
    case Fork(l, _, k, r) =>
      OrderedKeysCountNodes(l);
      OrderedKeysCountNodes(r);
      assert k !in Keys(l) && k !in Keys(r);
      assert Keys(l) * Keys(r) == {} by {
        forall y | y in Keys(l) ensures y !in Keys(r) { }
      }
  }

  /**
   * Growing a right chain with a key above every stored key extends the
   * chain by one node: ascending insertion degenerates into a list.
   */
  lemma {:induction false} GrowAboveChain(s: Shape, x: int, n: Node)
    requires RightChain(s)
    requires forall y :: y in Keys(s) ==> y < x
    ensures RightChain(Grow(s, x, n))
    ensures Height(Grow(s, x, n)) == Height(s) + 1
  {
    match s
    case Nil =>
    case Fork(l, m, k, r) =>
      assert k in Keys(s);
      GrowAboveChain(r, x, n);
  }

  /** A right chain is as deep as it has nodes. */
  lemma {:induction false} ChainHeightIsSize(s: Shape)
    requires RightChain(s)
    ensures Height(s) == Size(s)
  {
    match s
    case Nil =>
    case Fork(_, _, _, r) => ChainHeightIsSize(r);
  }

  /**
   * The shape left by inserting the keys 1, 2, ..., n in that order into an
   * empty tree, where `ns[i - 1]` is the node allocated for key `i`.
   */
  ghost function Ascending(n: nat, ns: seq<Node>): Shape
    requires n <= |ns|
  {
    if n == 0 then Nil else Grow(Ascending(n - 1, ns), n, ns[n - 1])
  }

  /**
   * Ascending insertion of 1..n degenerates into a right chain holding
   * exactly those keys, n nodes deep.
   */
  lemma {:induction false} AscendingInsertion(n: nat, ns: seq<Node>)
    requires n <= |ns|
    ensures RightChain(Ascending(n, ns))
    ensures forall y :: y in Keys(Ascending(n, ns)) <==> 1 <= y <= n
    ensures Height(Ascending(n, ns)) == n
    ensures Size(Ascending(n, ns)) == n
  {
    if n > 0 {
      var prev := Ascending(n - 1, ns);
      AscendingInsertion(n - 1, ns);
      GrowAboveChain(prev, n, ns[n - 1]);
      GrowKeys(prev, n, ns[n - 1]);
      ChainHeightIsSize(Ascending(n, ns));
    }
  }

  /** In a tree without repeated nodes, the shape's size counts node objects. */
  lemma {:induction false} DistinctNodesCount(s: Shape)
    requires Distinct(s)
    ensures |Nodes(s)| == Size(s)
  {
    match s
    case Nil =>
    case Fork(l, n, _, r) =>
      DistinctNodesCount(l);
      DistinctNodesCount(r);
      assert Nodes(l) * Nodes(r) == {};
  }

  // ---------------------------------------------------------------------------
  // Tying the heap to shapes
  // ---------------------------------------------------------------------------

  /** The nodes reachable from `p` are laid out exactly as `s`. */
  ghost predicate Mirrors(p: Node?, s: Shape)
    reads Nodes(s)
  {
    match s
    case Nil => p == null
    case Fork(l, n, k, r) =>
      p == n && n.value == k && Mirrors(n.left, l) && Mirrors(n.right, r)
  }

  /**
   * The walk of `insert` as a context: the part of the tree above the
   * current node, innermost step first.  `LeftOf(up, n, k, r)` says the
   * walk went into the left slot of `n` (key `k`, right subtree `r`).
   */
  datatype Path =
    | Top
    | LeftOf(up: Path, node: Node, key: int, right: Shape)
    | RightOf(left: Shape, node: Node, key: int, up: Path)

  /** The whole shape, given the subtree at the current position. */
  ghost function Plug(p: Path, s: Shape): Shape
  {
    match p
    case Top => s
    case LeftOf(up, n, k, r) => Plug(up, Fork(s, n, k, r))
    case RightOf(l, n, k, up) => Plug(up, Fork(l, n, k, s))
  }

  /** The node objects of a context. */
  ghost function PathNodes(p: Path): set<Node>
  {
    match p
    case Top => {}
    case LeftOf(up, n, _, r) => PathNodes(up) + {n} + Nodes(r)
    case RightOf(l, n, _, up) => Nodes(l) + {n} + PathNodes(up)
  }

  /** Every step of the context went the way `x` orders against its key. */
  ghost predicate Steers(p: Path, x: int)
  {
    match p
    case Top => true
    case LeftOf(up, _, k, _) => x < k && Steers(up, x)
    case RightOf(_, _, k, up) => x > k && Steers(up, x)
  }

  /** The heap above `hole`, up to `root`, is laid out as the context says. */
  ghost predicate PathMirrors(p: Path, root: Node?, hole: Node?)
    reads PathNodes(p)
  {
    match p
    case Top => root == hole
    case LeftOf(up, n, k, r) =>
      n.value == k && n.left == hole && Mirrors(n.right, r) && PathMirrors(up, root, n)
    case RightOf(l, n, k, up) =>
      n.value == k && n.right == hole && Mirrors(n.left, l) && PathMirrors(up, root, n)
  }

  /** The nodes of a shape are objects that exist. */
  lemma {:induction false} NodesAllocated(s: Shape)
    ensures forall m :: m in Nodes(s) ==> allocated(m)
  {
    match s
    case Nil =>
    case Fork(l, _, _, r) =>
      NodesAllocated(l);
      NodesAllocated(r);
  }

  /** A mirrored context around a mirrored subtree mirrors the whole tree. */
  lemma {:induction false} PlugMirrors(p: Path, root: Node?, hole: Node?, s: Shape)
    requires PathMirrors(p, root, hole) && Mirrors(hole, s)
    ensures Mirrors(root, Plug(p, s))
  {
    match p
    case Top =>
    case LeftOf(up, n, k, r) => PlugMirrors(up, root, n, Fork(s, n, k, r));
    case RightOf(l, n, k, up) => PlugMirrors(up, root, n, Fork(l, n, k, s));
  }

  /** A context and its subtree share no node when the whole tree is distinct. */
  lemma {:induction false} PlugParts(p: Path, s: Shape)
    ensures Nodes(Plug(p, s)) == PathNodes(p) + Nodes(s)
    ensures Distinct(Plug(p, s)) ==> Distinct(s) && PathNodes(p) !! Nodes(s)
  {
    match p
    case Top =>
    case LeftOf(up, n, k, r) => PlugParts(up, Fork(s, n, k, r));
    case RightOf(l, n, k, up) => PlugParts(up, Fork(l, n, k, s));
  }

  /** Below a context that `x` steers through, search and growth act on the subtree alone. */
  lemma {:induction false} PlugSteered(p: Path, s: Shape, x: int, n: Node)
    requires Steers(p, x)
    ensures Grow(Plug(p, s), x, n) == Plug(p, Grow(s, x, n))
    ensures Search(Plug(p, s), x) == Search(s, x)
  {
    match p
    case Top =>
    case LeftOf(up, m, k, r) => PlugSteered(up, Fork(s, m, k, r), x, n);
    case RightOf(l, m, k, up) => PlugSteered(up, Fork(l, m, k, s), x, n);
  }

  // ---------------------------------------------------------------------------
  // The recursive traversals
  // ---------------------------------------------------------------------------

  /** Descend by the order from `node`; true when a node holds `value`. */
  function LookupHelper(node: Node?, value: int, ghost s: Shape): (found: bool)
    reads Nodes(s)
    requires Mirrors(node, s)
    decreases s
    ensures found == Search(s, value)
  {
    if node == null then false
    else if value == node.value then true
    else if value < node.value then LookupHelper(node.left, value, s.left)
    else LookupHelper(node.right, value, s.right)
  }

  /** The memory estimate of everything reachable from `node`. */
  function CalculateMemoryUsage(node: Node?, ghost s: Shape): (bytes: nat)
    reads Nodes(s)
    requires Mirrors(node, s)
    decreases s
    ensures bytes == NodeCost * Size(s)
  {
    if node == null then 0
    else
      var nodeSize := SizeOfNode;
      var sharedPtrOverhead := 2 * SizeOfSharedPtr;
      var valueSize := SizeOfValue;
      nodeSize + sharedPtrOverhead + valueSize +
      CalculateMemoryUsage(node.left, s.left) +
      CalculateMemoryUsage(node.right, s.right)
  }

  // ---------------------------------------------------------------------------
  // The walk of `insert`
  // ---------------------------------------------------------------------------

  /**
   * The loop of `insert`: starting at `root`, go left on a smaller key and
   * right on a larger one.  Returns null when a node holding `value` is met;
   * otherwise returns the node whose empty slot on `value`'s side is where a
   * leaf for `value` belongs, with the walked context `path` and the subtree
   * `sub` at that node.
   */
  method WalkToSlot(root: Node, value: int, ghost s: Shape) returns (current: Node?, ghost path: Path, ghost sub: Shape)
    requires Mirrors(root, s)
    ensures current == null <==> Search(s, value)
    ensures current != null ==>
              Mirrors(current, sub) && PathMirrors(path, root, current) &&
              Plug(path, sub) == s && Steers(path, value) &&
              ((value < current.value && current.left == null) ||
               (value > current.value && current.right == null))
  {
    current, path, sub := root, Top, s;
    while current != null
      invariant current != null && Mirrors(current, sub)
      invariant PathMirrors(path, root, current)
      invariant Plug(path, sub) == s && Steers(path, value)
      decreases sub
    {
      if value < current.value {
        if current.left == null {
          PlugSteered(path, sub, value, current);
          return;
        }
        path := LeftOf(path, current, current.value, sub.right);
        sub := sub.left;
        current := current.left;
      } else if value > current.value {
        if current.right == null {
          PlugSteered(path, sub, value, current);
          return;
        }
        path := RightOf(sub.left, current, current.value, path);
        sub := sub.right;
        current := current.right;
      } else {
        PlugSteered(path, sub, value, current);
        return null, path, sub;
      }
    }
  }

  // ---------------------------------------------------------------------------
  // The tree handle
  // ---------------------------------------------------------------------------

  /** A tree is a value holding only its root reference; copies share nodes. */
  datatype Tree = Tree(root: Node?)
  {
    /** The empty tree. */
    static function Empty(): (t: Tree)
      ensures Mirrors(t.root, Nil)
    {
      Tree(null)
    }

    /** Whether `value` is reachable from the root along the order. */
    function Lookup(value: int, ghost s: Shape): (found: bool)
      reads Nodes(s)
      requires Mirrors(root, s)
      ensures found == Search(s, value)
      ensures Ordered(s) ==> (found <==> value in Keys(s))
      ensures s == Nil ==> !found
    {
      assert Ordered(s) ==> (Search(s, value) <==> value in Keys(s)) by {
        if Ordered(s) { SearchIsMembership(s, value); }
      }
      LookupHelper(root, value, s)
    }

    /** The memory estimate: a fixed cost for every reachable node. */
    function GetMemoryUsage(ghost s: Shape): (bytes: nat)
      reads Nodes(s)
      requires Mirrors(root, s)
      ensures bytes == NodeCost * Size(s)
      ensures Ordered(s) ==> bytes == NodeCost * |Keys(s)|
      ensures Distinct(s) ==> bytes == NodeCost * |Nodes(s)|
      ensures s == Nil ==> bytes == 0
    {
      assert Ordered(s) ==> |Keys(s)| == Size(s) by {
        if Ordered(s) { OrderedKeysCountNodes(s); }
      }
      assert Distinct(s) ==> |Nodes(s)| == Size(s) by {
        if Distinct(s) { DistinctNodesCount(s); }
      }
      CalculateMemoryUsage(root, s)
    }

    /**
     * Insert `value`.  On an empty tree this returns a tree with one fresh
     * node.  Otherwise it walks from the root; on an equal key it returns
     * this tree untouched, and on reaching an empty slot it links a fresh
     * leaf into that slot of an existing node and returns a tree with the
     * same root -- so this tree, and every copy of it, sees the new key.
     */
    method Insert(value: int, ghost s: Shape) returns (r: Tree, ghost s': Shape, ghost leaf: Node?)
      requires Mirrors(root, s) && Distinct(s)
      modifies Nodes(s)
      ensures Mirrors(r.root, s') && Distinct(s')
      ensures Search(s, value) ==> r == this && s' == s && leaf == null
      ensures !Search(s, value) ==> leaf != null && fresh(leaf) && s' == Grow(s, value, leaf)
      ensures root == null ==> r.root == leaf && s' == Fork(Nil, leaf, value, Nil)
      ensures root != null ==> r == this
      ensures forall m: Node :: old(allocated(m)) && m.left != old(m.left) ==> old(m.left) == null && m.left == leaf
      ensures forall m: Node :: old(allocated(m)) && m.right != old(m.right) ==> old(m.right) == null && m.right == leaf
    {
      s', leaf := s, null;
      if root == null {
        var n := new Node(value);
        r, s', leaf := Tree(n), Fork(Nil, n, value, Nil), n;
        return;
      }

      var newRoot := root;
      NodesAllocated(s);
      ghost var path, sub;
      var current;
      current, path, sub := WalkToSlot(root, value, s);
      if current == null {
        return this, s', leaf;
      }

      PlugParts(path, sub);
      var n := new Node(value);
      assert PathMirrors(path, root, current) && Mirrors(current, sub);
      ghost var grown;
      if value < current.value {
        current.left := n;
        grown := Fork(Fork(Nil, n, value, Nil), current, sub.key, sub.right);
      } else {
        current.right := n;
        grown := Fork(sub.left, current, sub.key, Fork(Nil, n, value, Nil));
      }
      PlugMirrors(path, root, current, grown);
      PlugSteered(path, sub, value, n);
      s', leaf := Grow(s, value, n), n;
      GrowDistinct(s, value, leaf);
      r := Tree(newRoot);
    }
  }

  /**
   * The sharing hazard seen from a caller: insert `x` through `a`, keep
   * the returned tree in `b`, then look `x` up through `a`.  A non-empty
   * `a` finds it, because the leaf was linked into `a`'s own nodes; an
   * empty `a` still finds nothing, because its insert built a separate root.
   * `s'` is the shape reachable from `a` after the insert; `seenInA` is the
   * lookup of `x` through `a` over that shape.
   */
  method InsertSeenThroughOriginal(a: Tree, x: int, ghost s: Shape) returns (b: Tree, seenInA: bool, ghost s': Shape)
    requires Mirrors(a.root, s) && Distinct(s)
    modifies Nodes(s)
    ensures Mirrors(a.root, s') && seenInA == Search(s', x)
    ensures a.root != null ==> b == a && Keys(s') == Keys(s) + {x}
    ensures a.root == null ==> s' == Nil
    ensures seenInA == (a.root != null)
  {
    ghost var grown, leaf;
    b, grown, leaf := a.Insert(x, s);
    if a.root == null {
      s' := Nil;
      seenInA := a.Lookup(x, s');
    } else {
      s' := grown;
      if !Search(s, x) {
        GrowThenSearch(s, x, leaf);
        GrowKeys(s, x, leaf);
      } else {
        SearchFindsStoredKey(s, x);
      }
      seenInA := a.Lookup(x, s');
    }
  }
}
