/**
 * The heap-allocated baseline: every node is its own object, and a null child is an
 * empty subtree. Nodes are never changed after construction, so a node is modelled
 * as a value.
 */
module BinaryTreesDefault {
  import opened Powers
  import opened Reports

  /** `Nil` is a null `NodeDefault?` reference. */
  datatype NodeDefault = Nil | NodeDefault(left: NodeDefault, right: NodeDefault)

  /** Every node has either two children or none, and all null children are at the same depth. */
  ghost predicate Perfect(t: NodeDefault, height: nat)
  {
    match t
    case Nil => height == 0
    case NodeDefault(l, r) => height > 0 && Perfect(l, height - 1) && Perfect(r, height - 1)
  }

  /** A perfect tree of `depth` levels of nodes; no tree at all for a depth that is not positive. */
  function CreateTree(depth: int): (t: NodeDefault)
    ensures Perfect(t, if depth <= 0 then 0 else depth)
    decreases depth
  {
    if depth <= 0 then Nil
    else NodeDefault(CreateTree(depth - 1), CreateTree(depth - 1))
  }

  /** Counts the nodes and the null children together, so it is never even. */
  function CheckTree(t: NodeDefault): (c: int)
    ensures c >= 1 && c % 2 == 1
  {
    match t
    case Nil => 1
    case NodeDefault(l, r) => 1 + CheckTree(l) + CheckTree(r)
  }

  /** A perfect tree of height `h` checks to `2^(h+1) - 1`. */
  lemma {:induction false} CheckPerfect(t: NodeDefault, h: nat)
    requires Perfect(t, h)
    ensures CheckTree(t) == Pow2(h + 1) - 1
  {
    match t
    case Nil =>
    case NodeDefault(l, r) =>
      CheckPerfect(l, h - 1);
      CheckPerfect(r, h - 1);
  }

  /** `CheckTree(CreateTree(d)) == 2^(d+1) - 1` for every `d >= 0`, and 1 for every `d <= 0`. */
  lemma {:induction false} CheckCreate(depth: int)
    ensures depth >= 0 ==> CheckTree(CreateTree(depth)) == Pow2(depth + 1) - 1
    ensures depth <= 0 ==> CreateTree(depth) == Nil && CheckTree(CreateTree(depth)) == 1
  {
    CheckPerfect(CreateTree(depth), if depth <= 0 then 0 else depth);
  }

  /** The closed forms of the report are the checksums of the trees the drivers build. */
  lemma ReportIsTreeChecks(maxDepth: int)
    requires maxDepth >= 0
    ensures ExpectedReport(maxDepth).stretchCheck == CheckTree(CreateTree(maxDepth + 1))
    ensures ExpectedReport(maxDepth).longLivedCheck == CheckTree(CreateTree(maxDepth))
    ensures forall k :: 0 <= k < LineCount(maxDepth) ==>
              ExpectedLine(maxDepth, k).check
                == ExpectedLine(maxDepth, k).trees * CheckTree(CreateTree(ScheduleDepth(k)))
  {
    CheckCreate(maxDepth + 1);
    CheckCreate(maxDepth);
    forall k | 0 <= k < LineCount(maxDepth)
      ensures ExpectedLine(maxDepth, k).check
                == ExpectedLine(maxDepth, k).trees * CheckTree(CreateTree(ScheduleDepth(k)))
    {
      CheckCreate(ScheduleDepth(k));
    }
  }

  /**
   * The baseline driver without its console output: the stretch tree, the long-lived
   * tree, and for each depth of the schedule the summed checksum of `iterations` trees.
   */
  method Run(maxDepth: int) returns (report: Report)
    requires maxDepth >= 0
    ensures report == ExpectedReport(maxDepth)
  {
    var minDepth := 4;
    var stretchTree := CreateTree(maxDepth + 1);
    var stretchCheck := CheckTree(stretchTree);
    var longLivedTree := CreateTree(maxDepth);

    var lines: seq<DepthLine> := [];
    var depth := minDepth;
    while depth <= maxDepth
      invariant depth == ScheduleDepth(|lines|)
      invariant |lines| <= LineCount(maxDepth)
      invariant forall k :: 0 <= k < |lines| ==> lines[k] == ExpectedLine(maxDepth, k)
      decreases maxDepth - depth
    {
      ScheduleBounds(maxDepth, |lines|);
      var iterations := Pow2(maxDepth - depth + minDepth);
      var checkSum := 0;
      CheckCreate(depth);
      for i := 1 to iterations + 1
        invariant checkSum == (i - 1) * (Pow2(depth + 1) - 1)
      {
        var root := CreateTree(depth);
        checkSum := checkSum + CheckTree(root);
      }
      lines := lines + [DepthLine(iterations, depth, checkSum)];
      depth := depth + 2;
    }
    if lines != [] {
      ScheduleBounds(maxDepth, |lines| - 1);
    }
    CheckCreate(maxDepth + 1);
    CheckCreate(maxDepth);
    report := Report(stretchCheck, lines, CheckTree(longLivedTree));
  }
}
