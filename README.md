# Binary trees with a bump-allocated node pool

This project models the C# binary-trees benchmark (`BinaryTreeTest/Program.cs`, `BinaryTrees/BinaryTreesV2.cs`) in Dafny. It has two sequential cores.

**The pooled trees** (`BinaryTreeTest/Program.cs`):
- `NativePool<T>` is a fixed-capacity bump allocator. It has a buffer of `capacity` slots and a cursor `size`. `Allocate` hands out the slot at the cursor and advances the cursor; it throws when the pool is full. `Reset` moves the cursor back to 0 and does not clear the buffer.
- `BinaryTrees.CreateTree` builds a perfect tree of a given depth in a pool. It allocates the root first, then builds and links the left subtree, then the right one.
- `CheckTree` counts nodes and null children.
- `BinaryTrees.Run` sizes two pools at `1 << (maxDepth + 1)` slots. It builds a stretch tree, a long-lived tree and, for each depth of the schedule, `1 << (maxDepth - depth + 4)` trees, and prints their checksums.
- `BinaryTreesDefault` is the same program with ordinary heap nodes.

**The value-struct variant** (`BinaryTrees/BinaryTreesV2.cs`):
- A `TreeNode` is a struct holding one reference to a record of its two children.
- `Check` walks the left spine in a loop and recurses only into right children.
- The static `Check(n, depth)` sums the checks of `n` trees.
- `Run` splits each depth's work into `NoTasks` batches.

Modules, one per file:
- `Wrappers`: `Option`, and `Result` for a thrown exception.
- `Powers`: `Pow2`, the value of `1 << n`.
- `Reports`: the numbers a run prints, and their closed forms (`ExpectedReport`).
  - The stretch checksum is `2^(maxDepth+2) - 1`.
  - Line `k` has depth `4 + 2k`, `2^(maxDepth - depth + 4)` trees and the summed check `trees * (2^(depth+1) - 1)`.
  - The long-lived checksum is `2^(maxDepth+1) - 1`.
- `Pool`: the `NativePool` class. Its buffer is an `array`, its cursor a mutable field.
- `BinaryTreesDefault`: the heap baseline on a `NodeDefault` datatype.
- `BinaryTrees`: `Node*` becomes `NodeRef` (`Null` or `Ptr(slot)`). A node's children are written into its slot of the pool's array.
  - `CheckTree` reads a snapshot `pool.items[..]` of the buffer.
  - `CreateTree` is specified slot by slot: `LayoutNode(lo, d, i)` is the node it leaves in slot `i` for a tree of depth `d` whose root goes to slot `lo`.
  - Lemmas turn that layout into a well-linked tree (`Linked`). The tree has the baseline's shape (`Shape == BinaryTreesDefault.CreateTree(d)`), occupies exactly `[lo, lo + 2^d - 1)`, and checks to `2^(d+1) - 1`.
- `BinaryTreesV2`: `TreeNode` and its `Next` record are datatypes. `Count` is the recursive reference count that the loop in `Check` is proved equal to.

The three drivers are proved to return exactly `ExpectedReport(maxDepth)`:
- `BinaryTrees.Run` also shows that no allocation fails.
- `BinaryTrees.Run` also shows that resetting `pool` leaves the long-lived tree in `longPool` intact.

Facts about the code that the model keeps:
- A tree of depth `d` occupies `2^d - 1` slots. Its checksum `2^(d+1) - 1` also counts the null children.
- `Allocate` does not initialise the slot it hands out. `CreateTree` overwrites both children of every node it allocates.
- A `CreateTree` that runs out of slots keeps the slots it already took. Those slots may hold partly linked nodes.
- There is no handle check. A pointer is dereferenced directly.

## Model

| member | source | states |
|---|---|---|
| Pool.NativePool.Init | BinaryTreeTest/Program.cs:11-17 | for a positive capacity: a fresh buffer of that many slots, capacity as given, cursor 0 |
| Pool.NativePool.New | BinaryTreeTest/Program.cs:11-17 | fails with `CapacityNotPositive` exactly when `maxCapacity <= 0`; otherwise a fresh empty pool of that capacity |
| Pool.NativePool.Allocate | BinaryTreeTest/Program.cs:19-22 | succeeds iff `size < capacity`; then returns the old cursor and advances it by exactly one; otherwise `BufferFull` with the cursor unchanged; `0 <= size <= capacity` is kept |
| Pool.NativePool.Reset | BinaryTreeTest/Program.cs:24 | cursor becomes 0, the buffer's contents are unchanged (capacity and buffer are constants) |
| Reports.ScheduleBounds | BinaryTreeTest/Program.cs:52 | every scheduled depth `4 + 2k` lies in `[4, maxDepth]`, and the loop stops exactly after `LineCount(maxDepth)` depths |
| Reports.ChecksFitInt32 | BinaryTrees/BinaryTreesV2.cs:57-67 | for `maxDepth <= 26` the stretch and long-lived checksums are at most `int.MaxValue` |
| Reports.LineFitsInt32 | BinaryTrees/BinaryTreesV2.cs:79-87 | for `maxDepth <= 26` every line's tree count, which bounds the shift `1 << (maxDepth - depth + MinDepth)`, and its summed check are at most `int.MaxValue`, the count no larger than the check |
| Reports.FirstLineOverflowsInt32 | BinaryTrees/BinaryTreesV2.cs:85-87 | for `maxDepth >= 27` the summed check of the first line exceeds `int.MaxValue` |
| BinaryTreesDefault.CreateTree | BinaryTreeTest/Program.cs:109-116 | the result is a perfect tree of height `depth`, and null for `depth <= 0` |
| BinaryTreesDefault.CheckTree | BinaryTreeTest/Program.cs:118-121 | the count is at least 1 and odd |
| BinaryTreesDefault.CheckPerfect | BinaryTreeTest/Program.cs:118-121 | a perfect tree of height `h` checks to `2^(h+1) - 1` |
| BinaryTreesDefault.CheckCreate | BinaryTreeTest/Program.cs:109-121 | `CheckTree(CreateTree(d)) == 2^(d+1) - 1` for `d >= 0`; `d <= 0` gives null, which checks to 1 |
| BinaryTreesDefault.ReportIsTreeChecks | BinaryTreeTest/Program.cs:91-106 | each closed form of the report is the check of the tree the driver builds (a line's check is its tree count times one tree's check) |
| BinaryTreesDefault.Run | BinaryTreeTest/Program.cs:89-107 | the stretch check, every depth line and the long-lived check equal the closed forms |
| BinaryTrees.SizeIsPow2 | BinaryTreeTest/Program.cs:69-75 | a tree of depth `d >= 0` takes `2^d - 1` allocations |
| BinaryTrees.Fits | BinaryTreeTest/Program.cs:41 | every tree of depth at most `maxDepth + 1` fits in `1 << (maxDepth + 1)` slots |
| BinaryTrees.CreateTree | BinaryTreeTest/Program.cs:69-75 | succeeds iff `size + 2^d - 1 <= capacity`; on success the cursor advances by exactly that much, the root is the old cursor (null for `d <= 0`), the allocated slots hold the pre-order layout and no other slot changes; on failure `BufferFull` with the pool full; slots below the old cursor never change |
| BinaryTrees.LaidIsPerfect | BinaryTreeTest/Program.cs:69-75 | the slot-by-slot layout is a root whose children are the subtrees at `lo + 1` and right after the left one |
| BinaryTrees.PerfectFacts | BinaryTreeTest/Program.cs:69-75 | the built tree is well linked (children after parents, inside the buffer) and has the heap baseline's shape of the same depth |
| BinaryTrees.PerfectSlots | BinaryTreeTest/Program.cs:69-75 | the slots of the built tree are exactly `[oldSize, newSize)` |
| BinaryTrees.ChildrenDistinct | BinaryTreeTest/Program.cs:71-73 | for depth `>= 2` the root's two children are pointers, distinct from each other and from the root |
| BinaryTrees.CheckTree | BinaryTreeTest/Program.cs:77-80 | counts the nodes and null children under a well-linked pointer; the count is at least 1 and odd (`CheckTreeIsShapeCheck` and `CheckLaid` give its value) |
| BinaryTrees.CheckTreeIsShapeCheck | BinaryTreeTest/Program.cs:77-80 | the pooled count equals the baseline's count of the same shape |
| BinaryTrees.CheckLaid | BinaryTreeTest/Program.cs:77-80 | a tree built by `CreateTree` with depth `d >= 0` checks to `2^(d+1) - 1` |
| BinaryTrees.SumChecks | BinaryTreeTest/Program.cs:56-60 | `iterations` rounds of reset, build and check in a pool large enough never fail and sum to `iterations * (2^(depth+1) - 1)` |
| BinaryTrees.DepthLines | BinaryTreeTest/Program.cs:52-63 | with `pool` of `1 << (maxDepth+1)` slots, the depth loop produces exactly the closed-form lines |
| BinaryTrees.Run | BinaryTreeTest/Program.cs:39-67 | no allocation fails, the long-lived tree survives the resets of the other pool, and the report equals the closed forms |
| BinaryTreesV2.TreeNode.Create | BinaryTrees/BinaryTreesV2.cs:22-26 | for `d >= 1` a non-empty tree whose count is `2^(d+1) - 1` |
| BinaryTreesV2.TreeNode.Check | BinaryTrees/BinaryTreesV2.cs:28-38 | the left-spine loop returns the recursive count `Count(this)` (1 for an empty node) |
| BinaryTreesV2.CountIsDefaultCheck | BinaryTrees/BinaryTreesV2.cs:28-38 | the count of a value tree is the baseline's check of its shape |
| BinaryTreesV2.CreateIsDefaultTree | BinaryTrees/BinaryTreesV2.cs:22-26 | `Create(d)` has the shape of the baseline's `CreateTree(d)` |
| BinaryTreesV2.Check | BinaryTrees/BinaryTreesV2.cs:44-50 | returns `n * (2^(depth+1) - 1)` for `n > 0` and 0 for `n <= 0` |
| BinaryTreesV2.MaxDepth | BinaryTrees/BinaryTreesV2.cs:54-55 | 10 without an argument; otherwise the larger of 6 and the argument |
| BinaryTreesV2.SplitsEvenly | BinaryTrees/BinaryTreesV2.cs:79 | `(1 << e) / NoTasks * NoTasks == 1 << e` for `e >= 2`, so no tree is lost in the split |
| BinaryTreesV2.DepthTask | BinaryTrees/BinaryTreesV2.cs:77-90 | the task for schedule index `i` reports `n * NoTasks == 2^(maxDepth - depth + 4)` trees and their summed check |
| BinaryTreesV2.DepthResults | BinaryTrees/BinaryTreesV2.cs:71-95 | the results array holds exactly the closed-form lines, in schedule order |
| BinaryTreesV2.Run | BinaryTrees/BinaryTreesV2.cs:52-103 | the report for `MaxDepth(arg)` equals the closed forms |

## Left out

- `NativeMemory.Alloc`/`Free`, `Dispose`, `IntPtr` and pointer arithmetic are not modelled. They are foreign memory calls. The buffer is a Dafny array and a pointer is a slot index.
- The byte-size product `maxCapacity * (uint)sizeof(T)` is not modelled. It is allocator plumbing.
- Pool.NativePool.Init: the buffer starts at the element type's default value, whereas the source's native memory is uninitialised. No property here depends on that content.
- Console output, string formatting, BenchmarkDotNet and `Main` are not modelled. They are I/O and harness code. Each driver returns the printed numbers as a `Report` instead.
- `Task.Run`, `.Result` joins and the parallel fan-out in `BinaryTreesV2.Run` are not modelled. This is concurrency. The tasks run in sequence, and the loop that starts the tasks and the loop that joins them become one loop.
- `int.Parse` is replaced by an input. `BinaryTreesV2.Run` takes the parsed argument as an `Option<int>`, with `None` for an empty argument list.
- `BinaryTrees/Program.cs` is not part of this model. It is a stopwatch wrapper and `Console.ReadLine`.
- Garbage collection and speed are not modelled. They are the benchmark's subject, but they cannot be stated as properties.
- Integers are unbounded. The 32-bit overflow of the counters and the 5-bit masking of shift counts are not modelled. `Reports.ChecksFitInt32` and `Reports.LineFitsInt32` show that every printed number, partial sum and shift result fits in an `int` for `maxDepth <= 26`. This covers `BinaryTrees.Run` and `BinaryTreesDefault.Run`, which are called with 21.
- BinaryTreesV2.Run: matches the source only for arguments up to 26, and without an argument (depth 10). From 27 on the source's per-depth `check` wraps around (`Reports.FirstLineOverflowsInt32`). From 30 on the stretch tree's check wraps. From 31 on the shift `1 << (maxDepth - depth + MinDepth)` is negative. The model's report keeps the unbounded values.
- BinaryTrees.Run: requires `maxDepth >= 0`. For `maxDepth == -1` the source builds two null trees with checks 1 and prints no lines. For smaller values its shift count is masked.
- BinaryTreesDefault.Run: requires `maxDepth >= 0`, for the same reason.
- BinaryTreesV2.DepthResults: requires `maxDepth >= 6`, which is what `Run` passes. For smaller values the source differs from the schedule in two ways. At `maxDepth == 3` its array length `(maxDepth - 4) / 2 + 1` truncates to 1, so it prints a line of depth 4. At `maxDepth <= 0` the length is negative and the array allocation throws.
- BinaryTreesV2.TreeNode.Create: requires `d >= 1`. For `d <= 0` the source recurses without end.
