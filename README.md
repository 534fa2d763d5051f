# Ordered tree with a shared-node insert

This project models the generic binary search tree `Tree<T>` of `tree.cpp`
(lines 5-78) in Dafny and proves what its three operations do.

- **insert** walks from the root with a loop. It stops at an equal key and hands
  back the tree it was called on. Otherwise it links a fresh leaf into the empty
  left or right slot of an existing node. It assigns that slot in place.
  The tree it returns has the same root as the tree it was called on, so every
  copy of that tree sees the new key too.
- **lookup** descends recursively. It goes left on a smaller key and right on
  a larger one.
- **getMemoryUsage** adds a fixed per-node byte cost over every reachable node.

How the model is built (`tree.dfy`, module `OrderedTree`):

- `Node` is a class. Its key is a `const`, because no code ever reassigns it.
  Its `left` and `right` slots are mutable and may be `null`.
- `Tree` is a datatype that holds only the root reference, as the C++ value
  type does. Copying a `Tree` copies the reference and never the nodes.
- The node graph below a root is described by a ghost `Shape`, a finite tree of
  (node, key) pairs. `Mirrors(p, s)` says the nodes reachable from `p` are laid
  out exactly as `s`. `Distinct(s)` says no node object occurs twice.
  Operations take the shape as a ghost argument. Recursion over the heap uses
  it as the termination measure and as the `reads` frame.
- `Grow(s, x, n)` is the specification of insert on shapes, where `n` is the
  fresh node. `Search(s, x)` is the descent of lookup on shapes. `Keys`,
  `Size` and `Ordered` give the contents, the node count and the
  search-tree order.
- `Tree.Insert` is proved against `Grow`. The lemmas about `Grow` and `Search`
  carry the tree-level promises: contents, order, node count and membership.
- `WalkToSlot` is the descent loop of insert. `Tree.Insert` calls it and then
  links the leaf into the slot where the walk stopped.
- Keys are `int`. The source's `T` needs only `==`, `<` and `>` forming a
  strict total order, and `int` has all three.
- The per-node cost is `NodeCost = sizeof(Node) + 2 * sizeof(shared_ptr) +
  sizeof(T)`. It uses 64-bit sizes for `int` keys: 40 + 2 * 16 + 4 = 76 bytes.
  No proof depends on these numbers.

## Model

| member | source | states |
|---|---|---|
| `OrderedTree.Node.constructor` | tree.cpp:11 | a fresh node holds the given key and has two empty slots |
| `OrderedTree.Tree.Empty` | tree.cpp:39 | the default tree has no root, so its shape is empty |
| `OrderedTree.LookupHelper` | tree.cpp:31-36 | the recursive descent over the heap returns exactly what the abstract search on the mirrored shape returns |
| `OrderedTree.Tree.Lookup` | tree.cpp:68-70 | lookup agrees with the search from the root; on an ordered tree it is true exactly when the key is in the contents; on an empty tree it is false |
| `OrderedTree.SearchIsMembership` | tree.cpp:31-36 | on an ordered tree, the order-guided descent finds a key if and only if the key is stored |
| `OrderedTree.SearchFindsStoredKey` | tree.cpp:31-36 | a successful descent only ever stops at a stored key, ordered or not |
| `OrderedTree.CalculateMemoryUsage` | tree.cpp:19-29 | the recursive sum is the per-node cost times the node count of the mirrored shape, and 0 for no node |
| `OrderedTree.Tree.GetMemoryUsage` | tree.cpp:72-74 | the estimate is the per-node cost times the node count of the shape; when no node repeats, that is the per-node cost times the number of distinct reachable node objects; on an ordered tree it is the per-node cost times the number of distinct keys; an empty tree uses 0 bytes |
| `OrderedTree.OrderedKeysCountNodes` | tree.cpp:19-29 | in an ordered tree the number of nodes equals the number of distinct keys |
| `OrderedTree.WalkToSlot` | tree.cpp:44-63 | the walk returns null exactly when the descent meets the key; otherwise it returns a node on the key's search path whose slot on the key's side is empty, plus the walked context |
| `OrderedTree.Tree.Insert` | tree.cpp:41-66 | an empty tree yields one fresh childless node holding the key. A key already met on the path returns the same tree and the same shape, links nothing, and changes no slot. Otherwise the new shape is `Grow` with a fresh leaf. A non-empty tree is handed back with the same root. The only slot that changes is one empty left or right slot, which now holds the new leaf. The result stays mirrored and free of repeated nodes |
| `OrderedTree.InsertSeenThroughOriginal` | tree.cpp:44-65 | after inserting through `a`, the heap reachable from `a` mirrors a shape `s'`, and the flag is the search for the key in `s'`. A non-empty `a` gets back itself, and `s'` holds the old keys plus the new one, because the leaf was linked into `a`'s own nodes; an empty `a` still reaches nothing. So the lookup through `a` succeeds exactly when `a` was non-empty |
| `OrderedTree.GrowKeys` | tree.cpp:47-63 | insert's contents become the old contents plus the key, and a duplicate adds nothing |
| `OrderedTree.GrowOrdered` | tree.cpp:48-59 | insert keeps the binary-search-tree order |
| `OrderedTree.GrowNodes` | tree.cpp:49-61 | insert adds exactly the fresh node and one to the node count when the key is not found, and nothing when it is. The memory estimate therefore grows by exactly one node's cost per new key and not at all for a duplicate |
| `OrderedTree.GrowFoundIsIdentity` | tree.cpp:60-61 | inserting a key the descent already finds leaves the shape exactly as it was |
| `OrderedTree.GrowThenSearch` | tree.cpp:47-63 | after insert, the descent for the inserted key succeeds, whether or not the tree was ordered |
| `OrderedTree.GrowDistinct` | tree.cpp:49-57 | linking a node that is not yet in the tree keeps every node distinct, so the result is still a tree |
| `OrderedTree.SearchAfterGrow` | tree.cpp:68-70 | on an ordered tree, after inserting `x`, a lookup of `y` succeeds exactly when `y` is `x` or was found before |
| `OrderedTree.GrowAboveChain` | tree.cpp:47-63 | there is no rebalancing: inserting a key above every stored key into a right-leaning chain extends the chain by one level |
| `OrderedTree.ChainHeightIsSize` | tree.cpp:47-63 | a right-leaning chain is as deep as it has nodes |
| `OrderedTree.AscendingInsertion` | tree.cpp:41-66 | inserting 1, 2, ..., n in that order into an empty tree gives a right-leaning chain holding exactly the keys 1..n, with n nodes and depth n |
| `OrderedTree.DistinctNodesCount` | tree.cpp:19-29 | in a tree where no node object repeats, the shape's node count is the number of distinct node objects the traversal visits |

## Left out

- `measureTime` (tree.cpp:80-87) is not modelled. It is wall-clock timing with `std::chrono`, a floating-point duration and console output.
- `testTreeOperations` and `main` (tree.cpp:89-116) are not modelled. They are a benchmark driver with console reporting. The ascending-insertion scenario they exercise (keys 1..n in order) is stated by `AscendingInsertion`, over shapes.
- The unused three-argument `Node` constructor (tree.cpp:13-14) is not modelled, because nothing calls it.
- `shared_ptr` reference counting, cascading deallocation and allocation failure of `std::make_shared` are not modelled. Allocation always succeeds in the model.
- The `sizeof` values depend on the platform. The model fixes one 64-bit layout, and no property depends on it.
- `size_t` wrap-around of the byte count is not modelled. Byte counts are unbounded naturals, and a real tree cannot reach 2^64 bytes.
- Generic `T` is modelled as `int`.
- The time cost of operations (O(depth)) and recursion-depth limits are not modelled. Only the depth itself is stated.
- In the source, the assignment of the new leaf sits inside the loop, immediately followed by `break`. In the model the loop (`WalkToSlot`) ends at that node, and `Tree.Insert` then makes the same single assignment. The order and the effects are the same.
- `OrderedTree.Tree.Insert`: "no node is allocated" for a duplicate is stated as "no leaf is returned and no slot of an existing node changes". The model does not state that no object at all is allocated.
