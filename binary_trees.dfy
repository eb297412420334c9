/**
 * Trees built in a `NativePool<Node>`. A node pointer is the index of its slot in the
 * pool's buffer, and a node's children are written into that slot.
 */
module BinaryTrees {
  import opened Wrappers
  import opened Powers
  import opened Reports
  import opened Pool
  import Default = BinaryTreesDefault

  /** A `Node*`: null, or the slot of a node in the pool's buffer. */
  datatype NodeRef = Null | Ptr(slot: nat)

  datatype Node = Node(left: NodeRef, right: NodeRef)

  /** The number of slots a tree of the given depth occupies: a root and two subtrees, none for `d <= 0`. */
  function Size(depth: int): nat
  {
    if depth <= 0 then 0 else 2 * Size(depth - 1) + 1
  }

  /** A tree of depth `d >= 0` occupies `2^d - 1` slots. */
  lemma {:induction false} SizeIsPow2(depth: int)
    requires depth >= 0
    ensures Size(depth) == Pow2(depth) - 1
  {
    if depth > 0 {
      SizeIsPow2(depth - 1);
    }
  }

  /** A tree of depth `d <= n` fits in a pool of `2^n` slots. */
  lemma {:induction false} Fits(d: int, n: nat)
    requires d <= n
    ensures Size(d) < Pow2(n)
  {
    if d >= 0 {
      SizeIsPow2(d);
      Pow2Monotone(d, n);
    }
  }

  // ---------------------------------------------------------------------------
  // The layout `CreateTree` produces

  /** What `CreateTree` returns for a tree of depth `d` whose root goes to slot `lo`. */
  function Root(lo: nat, d: int): NodeRef
  {
    if d <= 0 then Null else Ptr(lo)
  }

  /**
   * The node `CreateTree` leaves in slot `i` of a tree of depth `d` rooted at slot `lo`:
   * the nodes are in pre-order, so the left subtree starts at `lo + 1` and the right
   * subtree right after it.
   */
  function LayoutNode(lo: nat, d: int, i: int): Node
    requires lo <= i < lo + Size(d)
    decreases d
  {
    if i == lo then Node(Root(lo + 1, d - 1), Root(lo + 1 + Size(d - 1), d - 1))
    else if i < lo + 1 + Size(d - 1) then LayoutNode(lo + 1, d - 1, i)
    else LayoutNode(lo + 1 + Size(d - 1), d - 1, i)
  }

  /** The slots `[lo, lo + Size(d))` of `mem` hold the layout of a tree of depth `d`. */
  ghost predicate Laid(mem: seq<Node>, lo: nat, d: int)
  {
    lo + Size(d) <= |mem| && forall i :: lo <= i < lo + Size(d) ==> mem[i] == LayoutNode(lo, d, i)
  }

  // ---------------------------------------------------------------------------
  // Trees in memory

  /** `q` is null or a slot after slot `i`. */
  predicate After(q: NodeRef, i: nat)
  {
    q.Null? || q.slot > i
  }

  function Rank(mem: seq<Node>, p: NodeRef): nat
  {
    if p.Ptr? && p.slot < |mem| then |mem| - p.slot else 0
  }

  /** The pointers under `p` stay inside `mem` and every child lies after its parent (so there is no cycle). */
  ghost predicate Linked(mem: seq<Node>, p: NodeRef)
    decreases Rank(mem, p)
  {
    p.Null? ||
    (p.slot < |mem| && After(mem[p.slot].left, p.slot) && After(mem[p.slot].right, p.slot) &&
     Linked(mem, mem[p.slot].left) && Linked(mem, mem[p.slot].right))
  }

  /** The shape of the tree under `p`, as a heap-allocated tree. */
  ghost function Shape(mem: seq<Node>, p: NodeRef): Default.NodeDefault
    requires Linked(mem, p)
    decreases Rank(mem, p)
  {
    if p.Null? then Default.Nil
    else Default.NodeDefault(Shape(mem, mem[p.slot].left), Shape(mem, mem[p.slot].right))
  }

  /** The slots the tree under `p` occupies. */
  ghost function Slots(mem: seq<Node>, p: NodeRef): set<int>
    requires Linked(mem, p)
    decreases Rank(mem, p)
  {
    if p.Null? then {}
    else {p.slot as int} + Slots(mem, mem[p.slot].left) + Slots(mem, mem[p.slot].right)
  }

  /**
   * The same layout, stated node by node: a tree of depth `d > 0` at slot `lo` is a root
   * pointing to the subtrees at `lo + 1` and right after the left one, both laid out the
   * same way.
   */
  ghost predicate PerfectAt(mem: seq<Node>, lo: nat, d: int)
    decreases d
  {
    d <= 0 ||
    (lo < |mem| && mem[lo] == Node(Root(lo + 1, d - 1), Root(lo + 1 + Size(d - 1), d - 1)) &&
     PerfectAt(mem, lo + 1, d - 1) && PerfectAt(mem, lo + 1 + Size(d - 1), d - 1))
  }

  /** The slot-by-slot layout is the node-by-node one. */
  lemma {:induction false} LaidIsPerfect(mem: seq<Node>, lo: nat, d: int)
    requires Laid(mem, lo, d)
    ensures PerfectAt(mem, lo, d)
    decreases d
  {
    if d > 0 {
      var k := Size(d - 1);
      assert mem[lo] == LayoutNode(lo, d, lo);
      forall i | lo + 1 <= i < lo + 1 + k
        ensures mem[i] == LayoutNode(lo + 1, d - 1, i)
      {
        assert mem[i] == LayoutNode(lo, d, i);
      }
      forall i | lo + 1 + k <= i < lo + 1 + k + k
        ensures mem[i] == LayoutNode(lo + 1 + k, d - 1, i)
      {
        assert mem[i] == LayoutNode(lo, d, i);
      }
      LaidIsPerfect(mem, lo + 1, d - 1);
      LaidIsPerfect(mem, lo + 1 + k, d - 1);
    }
  }

  /** A laid-out tree is well linked and has the shape of the heap baseline's tree of the same depth. */
  lemma {:induction false} PerfectFacts(mem: seq<Node>, lo: nat, d: int)
    requires PerfectAt(mem, lo, d)
    ensures Linked(mem, Root(lo, d))
    ensures Shape(mem, Root(lo, d)) == Default.CreateTree(d)
    decreases d
  {
    if d > 0 {
      PerfectFacts(mem, lo + 1, d - 1);
      PerfectFacts(mem, lo + 1 + Size(d - 1), d - 1);
    }
  }

  /** A laid-out tree occupies exactly the `Size(d)` slots from `lo`. */
  lemma {:induction false} PerfectSlots(mem: seq<Node>, lo: nat, d: int)
    requires PerfectAt(mem, lo, d)
    ensures Linked(mem, Root(lo, d))
    ensures forall i :: i in Slots(mem, Root(lo, d)) <==> lo <= i < lo + Size(d)
    decreases d
  {
    PerfectFacts(mem, lo, d);
    if d > 0 {
      PerfectSlots(mem, lo + 1, d - 1);
      PerfectSlots(mem, lo + 1 + Size(d - 1), d - 1);
    }
  }

  /** In a laid-out tree of depth `d >= 2` the root and its two children are three different slots. */
  lemma ChildrenDistinct(mem: seq<Node>, lo: nat, d: int)
    requires PerfectAt(mem, lo, d) && d >= 2
    ensures Root(lo, d) == Ptr(lo) && mem[lo].left.Ptr? && mem[lo].right.Ptr?
    ensures mem[lo].left != mem[lo].right
    ensures mem[lo].left != Ptr(lo) && mem[lo].right != Ptr(lo)
  {
  }

  // ---------------------------------------------------------------------------
  // The algorithm

  /** Counts the nodes and the null children under `p`, following the pointers in `mem`. */
  function CheckTree(mem: seq<Node>, p: NodeRef): (c: int)
    requires Linked(mem, p)
    ensures c >= 1 && c % 2 == 1
    decreases Rank(mem, p)
  {
    if p.Null? then 1
    else
      var node := mem[p.slot];
      var l := CheckTree(mem, node.left);
      var r := CheckTree(mem, node.right);
      OddSum(l, r);
      1 + l + r
  }

  lemma OddSum(a: int, b: int)
    requires a % 2 == 1 && b % 2 == 1
    ensures (1 + a + b) % 2 == 1
  {
  }

  /** The pooled count is the heap baseline's count of the same shape. */
  lemma {:induction false} CheckTreeIsShapeCheck(mem: seq<Node>, p: NodeRef)
    requires Linked(mem, p)
    ensures CheckTree(mem, p) == Default.CheckTree(Shape(mem, p))
    decreases Rank(mem, p)
  {
    if p.Ptr? {
      CheckTreeIsShapeCheck(mem, mem[p.slot].left);
      CheckTreeIsShapeCheck(mem, mem[p.slot].right);
    }
  }

  /** A laid-out tree of depth `d >= 0` checks to `2^(d+1) - 1`. */
  lemma CheckLaid(mem: seq<Node>, lo: nat, d: int)
    requires Laid(mem, lo, d) && d >= 0
    ensures Linked(mem, Root(lo, d))
    ensures CheckTree(mem, Root(lo, d)) == Pow2(d + 1) - 1
  {
    LaidIsPerfect(mem, lo, d);
    PerfectFacts(mem, lo, d);
    CheckTreeIsShapeCheck(mem, Root(lo, d));
    Default.CheckCreate(d);
  }

  /**
   * Builds a perfect tree of the given depth in the pool: allocates the root, then
   * builds and links the left subtree, then the right one. It succeeds exactly when the
   * `Size(depth)` slots from the cursor are free; it then lays the tree out there and
   * changes no other slot. A full pool's exception propagates with the cursor at the
   * end of the buffer and the slots below the old cursor untouched.
   */
  method CreateTree(pool: NativePool<Node>, depth: int) returns (r: Result<NodeRef, PoolError>)
    requires pool.Valid()
    modifies pool, pool.items
    ensures pool.Valid()
    ensures r.Success? <==> old(pool.size) + Size(depth) <= pool.capacity
    ensures r.Success? ==> pool.size == old(pool.size) + Size(depth) && r.value == Root(old(pool.size), depth)
    ensures r.Success? ==> forall i :: old(pool.size) <= i < old(pool.size) + Size(depth) ==>
              pool.items[i] == LayoutNode(old(pool.size), depth, i)
    ensures r.Success? ==> forall i :: old(pool.size) + Size(depth) <= i < pool.items.Length ==>
              pool.items[i] == old(pool.items[i])
    ensures r.Failure? ==> r.error == BufferFull && pool.size == pool.capacity
    ensures forall i :: 0 <= i < old(pool.size) ==> pool.items[i] == old(pool.items[i])
    decreases depth
  {
    if depth <= 0 {
      return Success(Null);
    }
    var a := pool.Allocate();
    if a.Failure? {
      return Failure(a.error);
    }
    var current := a.value;

    var left := CreateTree(pool, depth - 1);
    if left.Failure? {
      return Failure(left.error);
    }
    pool.items[current] := pool.items[current].(left := left.value);

    var right := CreateTree(pool, depth - 1);
    if right.Failure? {
      return Failure(right.error);
    }
    pool.items[current] := pool.items[current].(right := right.value);
    r := Success(Ptr(current));
  }

  /**
   * The inner loop of the pooled driver: `iterations` times, resets the pool, builds a
   * tree of the given depth in it and adds up the checksums.
   */
  method SumChecks(pool: NativePool<Node>, iterations: int, depth: int) returns (checkSum: int)
    requires pool.Valid() && depth >= 0 && Size(depth) <= pool.capacity
    modifies pool, pool.items
    ensures pool.Valid()
    ensures checkSum == if iterations <= 0 then 0 else iterations * (Pow2(depth + 1) - 1)
  {
    checkSum := 0;
    for i := 1 to if iterations <= 0 then 1 else iterations + 1
      invariant pool.Valid()
      invariant checkSum == (i - 1) * (Pow2(depth + 1) - 1)
    {
      pool.Reset();
      var root := CreateTree(pool, depth);
      assert root.Success?;
      assert Laid(pool.items[..], 0, depth);
      CheckLaid(pool.items[..], 0, depth);
      checkSum := checkSum + CheckTree(pool.items[..], root.value);
    }
  }

  /**
   * The loop over the depth schedule of the pooled driver: for each scheduled depth,
   * builds and checks `2^(maxDepth - depth + 4)` trees in `pool`; the lines are the
   * closed forms of the report.
   */
  method DepthLines(pool: NativePool<Node>, maxDepth: int) returns (lines: seq<DepthLine>)
    requires maxDepth >= 0 && pool.Valid() && pool.capacity == Pow2(maxDepth + 1)
    modifies pool, pool.items
    ensures pool.Valid()
    ensures lines == ExpectedReport(maxDepth).lines
  {
    var minDepth := 4;
    lines := [];
    var depth := minDepth;
    while depth <= maxDepth
      invariant pool.Valid() && pool.capacity == Pow2(maxDepth + 1)
      invariant depth == ScheduleDepth(|lines|)
      invariant |lines| <= LineCount(maxDepth)
      invariant forall k :: 0 <= k < |lines| ==> lines[k] == ExpectedLine(maxDepth, k)
      decreases maxDepth - depth
    {
      ScheduleBounds(maxDepth, |lines|);
      Fits(depth, maxDepth + 1);
      var iterations := Pow2(maxDepth - depth + minDepth);
      var checkSum := SumChecks(pool, iterations, depth);
      var line := DepthLine(iterations, depth, checkSum);
      assert line == ExpectedLine(maxDepth, |lines|);
      lines := lines + [line];
      depth := depth + 2;
    }
    if lines != [] {
      ScheduleBounds(maxDepth, |lines| - 1);
    }
    assert |lines| == LineCount(maxDepth);
  }

  /**
   * The pooled driver without its console output. Both pools hold `2^(maxDepth+1)`
   * slots: the stretch tree fills `longPool` but for one slot, the long-lived tree is
   * built in `longPool` after its reset, and every tree of the schedule is built in
   * `pool` after a reset. No allocation fails, and the reports are the closed forms.
   */
  method Run(maxDepth: int) returns (report: Report)
    requires maxDepth >= 0
    ensures report == ExpectedReport(maxDepth)
  {
    var nodeCount := Pow2(maxDepth + 1);
    var poolOrError := NativePool<Node>.New(nodeCount);
    assert poolOrError.Success?;
    var pool := poolOrError.value;
    var longPoolOrError := NativePool<Node>.New(nodeCount);
    assert longPoolOrError.Success?;
    var longPool := longPoolOrError.value;

    Fits(maxDepth + 1, maxDepth + 1);
    var stretchTree := CreateTree(longPool, maxDepth + 1);
    assert stretchTree.Success?;
    assert Laid(longPool.items[..], 0, maxDepth + 1);
    CheckLaid(longPool.items[..], 0, maxDepth + 1);
    var stretchCheck := CheckTree(longPool.items[..], stretchTree.value);

    longPool.Reset();
    Fits(maxDepth, maxDepth + 1);
    var longLivedTree := CreateTree(longPool, maxDepth);
    assert longLivedTree.Success?;
    ghost var longMem := longPool.items[..];
    assert Laid(longMem, 0, maxDepth);
    CheckLaid(longMem, 0, maxDepth);

    var lines := DepthLines(pool, maxDepth);
    assert longPool.items[..] == longMem;
    report := Report(stretchCheck, lines, CheckTree(longPool.items[..], longLivedTree.value));
  }
}
