/**
 * The value-struct variant of the benchmark. A `TreeNode` is a struct holding one
 * reference, `next`, to a record of its two children; an empty node's `next` is null.
 * The records are never changed after construction, so trees are values here.
 */
module BinaryTreesV2 {
  import opened Wrappers
  import opened Powers
  import Reports
  import Default = BinaryTreesDefault

  const MinDepth := Reports.MinDepth
  const NoTasks := 4

  /** The `next` reference of a `TreeNode`: null, or the record of the two children. */
  datatype Next = Null | Next(left: TreeNode, right: TreeNode)

  datatype TreeNode = TreeNode(next: Next)
  {
    /**
     * A perfect tree of depth `d` whose leaves are empty nodes. The recursion only
     * stops at `d == 1`, so callers must pass `d >= 1`.
     */
    static function Create(d: int): (t: TreeNode)
      requires d >= 1
      ensures t.next.Next?
      ensures Count(t) == Pow2(d + 1) - 1
      decreases d
    {
      if d == 1 then TreeNode(Next(TreeNode(Null), TreeNode(Null)))
      else TreeNode(Next(Create(d - 1), Create(d - 1)))
    }

    /**
     * Counts the nodes and the empty nodes of the tree: walks down the left spine in a
     * loop and recurses only into the right children.
     */
    method Check() returns (c: int)
      ensures c == Count(this)
      decreases Count(this)
    {
      c := 1;
      var current := next;
      while current != Null
        invariant c + Count(TreeNode(current)) - 1 == Count(this)
        invariant Count(TreeNode(current)) <= Count(this)
        decreases Count(TreeNode(current))
      {
        var rightCheck := current.right.Check();
        c := c + rightCheck + 1;
        current := current.left.next;
      }
    }
  }

  /** The recursive count of a tree: 1 for an empty node, otherwise 1 plus the counts of both children. */
  function Count(t: TreeNode): nat
    decreases t
  {
    match t.next
    case Null => 1
    case Next(left, right) => 1 + Count(left) + Count(right)
  }

  /** The tree as a heap-allocated baseline tree: an empty node is a null reference. */
  function Shape(t: TreeNode): (s: Default.NodeDefault)
    ensures s.Nil? <==> t.next.Null?
    decreases t
  {
    match t.next
    case Null => Default.Nil
    case Next(left, right) => Default.NodeDefault(Shape(left), Shape(right))
  }

  /** The count of a tree is the baseline's check of its shape. */
  lemma {:induction false} CountIsDefaultCheck(t: TreeNode)
    ensures Count(t) == Default.CheckTree(Shape(t))
    decreases t
  {
    match t.next
    case Null =>
    case Next(left, right) =>
      CountIsDefaultCheck(left);
      CountIsDefaultCheck(right);
  }

  /** `Create(d)` builds the same tree as the heap baseline's `CreateTree(d)`. */
  lemma {:induction false} CreateIsDefaultTree(d: int)
    requires d >= 1
    ensures Shape(TreeNode.Create(d)) == Default.CreateTree(d)
    decreases d
  {
    if d > 1 {
      CreateIsDefaultTree(d - 1);
    }
  }

  /** Builds and checks `n` trees of the given depth and adds up their checks. */
  method Check(n: int, depth: int) returns (check: int)
    requires n > 0 ==> depth >= 1
    ensures check == if n > 0 then n * (Pow2(depth + 1) - 1) else 0
  {
    check := 0;
    var i := n;
    while i > 0
      invariant n > 0 ==> 0 <= i <= n && check == (n - i) * (Pow2(depth + 1) - 1)
      invariant n <= 0 ==> i == n && check == 0
      decreases i
    {
      var tree := TreeNode.Create(depth);
      var c := tree.Check();
      check := check + c;
      i := i - 1;
    }
  }

  /** `maxDepth` from the command line: 10 without an argument, otherwise the argument but at least `MinDepth + 2`. */
  function MaxDepth(arg: Option<int>): (m: int)
    ensures arg.None? ==> m == 10
    ensures arg.Some? ==> m >= MinDepth + 2 && m >= arg.value
    ensures arg.Some? ==> m == MinDepth + 2 || m == arg.value
  {
    match arg
    case None => 10
    case Some(v) => if MinDepth + 2 >= v then MinDepth + 2 else v
  }

  /** `2^e` is a multiple of `NoTasks` once `e >= 2`. */
  lemma SplitsEvenly(e: nat)
    requires e >= 2
    ensures Pow2(e) / NoTasks * NoTasks == Pow2(e)
  {
    var q := Pow2(e - 2);
    assert Pow2(e - 1) == 2 * q;
    assert Pow2(e) == 4 * q;
  }

  /**
   * The work of the task for the `i`-th scheduled depth: `NoTasks` batches of
   * `2^(maxDepth - depth + MinDepth) / NoTasks` trees each, their checks stored in
   * `result` and then summed. The line is the closed form of the report.
   */
  method DepthTask(maxDepth: int, i: nat) returns (line: Reports.DepthLine)
    requires i < Reports.LineCount(maxDepth)
    ensures line == Reports.ExpectedLine(maxDepth, i)
  {
    var depth := i * 2 + MinDepth;
    Reports.ScheduleBounds(maxDepth, i);
    var n := Pow2(maxDepth - depth + MinDepth) / NoTasks;
    SplitsEvenly(maxDepth - depth + MinDepth);
    ghost var perBatch := n * (Pow2(depth + 1) - 1);
    var result := new int[NoTasks];
    for t := 0 to result.Length
      invariant forall j :: 0 <= j < t ==> result[j] == perBatch
    {
      result[t] := Check(n, depth);
    }
    var check := result[0];
    for t := 1 to result.Length
      invariant check == t * perBatch
    {
      check := check + result[t];
    }
    assert check == Pow2(maxDepth - depth + MinDepth) * (Pow2(depth + 1) - 1);
    line := Reports.DepthLine(n * NoTasks, depth, check);
  }

  /**
   * The fan-out over the depth schedule: one task per scheduled depth, their lines
   * collected in `results` in schedule order.
   */
  method DepthResults(maxDepth: int) returns (lines: seq<Reports.DepthLine>)
    requires maxDepth >= MinDepth + 2
    ensures lines == Reports.ExpectedReport(maxDepth).lines
  {
    var results := new Reports.DepthLine[(maxDepth - MinDepth) / 2 + 1];
    assert results.Length == Reports.LineCount(maxDepth);
    for i := 0 to results.Length
      invariant forall k :: 0 <= k < i ==> results[k] == Reports.ExpectedLine(maxDepth, k)
    {
      results[i] := DepthTask(maxDepth, i);
    }
    lines := results[..];
  }

  /**
   * The driver without its tasks and console output: the stretch tree, the long-lived
   * tree and one line per scheduled depth, in the order they are printed.
   */
  method Run(arg: Option<int>) returns (report: Reports.Report)
    ensures report == Reports.ExpectedReport(MaxDepth(arg))
  {
    var maxDepth := MaxDepth(arg);

    var stretchDepth := maxDepth + 1;
    var stretchTree := TreeNode.Create(stretchDepth);
    var stretchCheck := stretchTree.Check();

    var longLivedTree := TreeNode.Create(maxDepth);
    var longLivedCheck := longLivedTree.Check();

    var lines := DepthResults(maxDepth);
    assert stretchCheck == Reports.ExpectedReport(maxDepth).stretchCheck;
    assert longLivedCheck == Reports.ExpectedReport(maxDepth).longLivedCheck;
    report := Reports.Report(stretchCheck, lines, longLivedCheck);
  }
}
