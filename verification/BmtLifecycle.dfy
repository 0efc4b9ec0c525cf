/**
  What the hasher's own thread does to the tree (bmt/bmt.go: Write, finalise,
  writeSegment, releaseTree) while goroutines are running, and why it keeps the
  invariant of BmtProtocol.

  While data is still being written the last double segment is not known. The
  invariant is then stated for a list of segments whose last entry is arbitrary and
  has no goroutine yet.
 */
module BmtLifecycle {
  import opened BmtReference
  import opened BmtProtocol
  import opened BmtInterleaving

  /** No node of the tree is marked by finalise. */
  ghost predicate CleanFlags(depth: nat, nodes: map<NodeId, Node>) {
    forall n | n in nodes :: !nodes[n].unbalanced && (nodes[n].root <==> n.h == depth)
  }

  /** A tree that is free for use, as NewTree builds it and as releaseTree has to leave it. */
  ghost predicate CleanTree(depth: nat, nodes: map<NodeId, Node>) {
    && (forall n | InTree(depth, n) :: n in nodes)
    && CleanFlags(depth, nodes)
    && CountersOk(nodes)
  }

  lemma {:induction false} StartInv(c: Config, nodes: map<NodeId, Node>, any: Bytes)
    requires c.size > 0 && CleanTree(c.depth, nodes)
    ensures Inv(c, nodes, System(nodes, [], []), [any])
  {
  }

  // ---------- Segments that arrive later ----------

  /** While the last goroutine is not launched, no goroutine has gathered a node on its path. */
  lemma {:induction false} GatheredIsOffPath(procs: seq<Proc>, m: nat, j: nat, h: nat)
    requires OthersQuit(procs, m) && |procs| == m && j < |procs| && h <= Reach(procs[j])
    ensures Anc(j, h) < Anc(m, h)
  {
    AncMonotone(j, m, h);
    if Anc(j, h) == Anc(m, h) {
      GatheredPathIsFinal(procs, m, j, h);
    }
  }

  lemma {:induction false} RootHeightMonotone(m: nat, k: nat)
    requires m <= k
    ensures RootHeight(m) <= RootHeight(k)
  {
    AncMonotone(m, k, RootHeight(k));
    RootHeightIsLeast(k, RootHeight(k));
    RootHeightIsLeast(m, RootHeight(k));
  }

  lemma {:induction false} BalancedMonotone(m: nat, k: nat, n: NodeId)
    requires m <= k && Balanced(m, n)
    ensures Balanced(k, n)
  {
    AncMonotone(m, k, n.h - 1);
  }

  /** A later segment list agrees with the goroutines launched so far. */
  predicate Extends(segs: seq<Bytes>, more: seq<Bytes>) {
    0 < |segs| <= |more| && segs[..|segs| - 1] == more[..|segs| - 1]
  }

  /** Off the path both children are in use, before and after. */
  lemma {:induction false} ChildrenOffPath(m: nat, k: nat, n: NodeId)
    requires m <= k && n.h > 0 && n.x < Anc(m, n.h)
    ensures 2 * n.x + 1 < Anc(m, n.h - 1) <= Anc(k, n.h - 1)
    ensures Balanced(m, n) && Balanced(k, n) && n.x < Anc(k, n.h)
  {
    AncMonotone(m, k, n.h);
    AncMonotone(m, k, n.h - 1);
  }

  lemma {:induction false} HalvesExtend(c: Config, nodes: map<NodeId, Node>, segs: seq<Bytes>, more: seq<Bytes>,
                                        n: NodeId)
    requires Extends(segs, more) && n in nodes && n.h > 0 && n.x < Anc(|segs| - 1, n.h)
    requires BothHalvesWritten(c, nodes, segs, n)
    ensures BothHalvesWritten(c, nodes, more, n)
  {
    ChildrenOffPath(|segs| - 1, |more| - 1, n);
    ValuesExtend(c, segs, more, n.h - 1, 2 * n.x, 2 * n.x + 1);
  }

  lemma {:induction false} ValuesExtend(c: Config, segs: seq<Bytes>, more: seq<Bytes>, h: nat, x: nat, y: nat)
    requires Extends(segs, more) && x < Anc(|segs| - 1, h) <= Anc(|more| - 1, h) && y < Anc(|segs| - 1, h)
    ensures Value(c, segs, h, x) == Value(c, more, h, x)
    ensures Value(c, segs, h, y) == Value(c, more, h, y)
  {
    ValueOffPath(c, segs, more, h, x);
    ValueOffPath(c, segs, more, h, y);
  }

  lemma {:induction false} IncomingExtends(c: Config, segs: seq<Bytes>, more: seq<Bytes>, procs: seq<Proc>, j: nat,
                                           h: nat)
    requires Extends(segs, more) && |procs| == |segs| - 1 && OthersQuit(procs, |segs| - 1)
    requires j < |procs| && 0 < h <= Reach(procs[j]) + 1
    ensures Incoming(c, segs, j, h) == Incoming(c, more, j, h)
  {
    GatheredIsOffPath(procs, |segs| - 1, j, h - 1);
    ValueOffPath(c, segs, more, h - 1, Anc(j, h - 1));
  }

  lemma {:induction false} ProcExtends(c: Config, nodes: map<NodeId, Node>, procs: seq<Proc>, segs: seq<Bytes>,
                                       more: seq<Bytes>, j: nat)
    requires Extends(segs, more) && |procs| == |segs| - 1 && OthersQuit(procs, |segs| - 1)
    requires j < |procs| && ProcOk(c, nodes, segs, j, procs[j])
    ensures ProcOk(c, nodes, more, j, procs[j])
    ensures !procs[j].pc.AtSent?
  {
    var p, m, k := procs[j], |segs| - 1, |more| - 1;
    assert segs[j] == segs[..m][j] == more[..m][j] == more[j];
    RootHeightMonotone(m, k);
    RootHeightIsLeast(m, p.n.h);
    match p.pc {
      case AtLeaf =>
      case AtStore => IncomingExtends(c, segs, more, procs, j, p.n.h);
      case AtToggle => IncomingExtends(c, segs, more, procs, j, p.n.h);
      case AtQuit =>
        IncomingExtends(c, segs, more, procs, j, p.n.h);
        BalancedMonotone(m, k, p.n);
      case AtCombine =>
        GatheredIsOffPath(procs, m, j, p.n.h);
        HalvesExtend(c, nodes, segs, more, p.n);
      case AtEmit =>
        GatheredIsOffPath(procs, m, j, p.n.h);
        ValueOffPath(c, segs, more, p.n.h, p.n.x);
      case AtSent =>
        GatheredIsOffPath(procs, m, j, p.n.h);
    }
  }

  lemma {:induction false} OthersQuitExtends(procs: seq<Proc>, m: nat, k: nat)
    requires OthersQuit(procs, m) && |procs| == m <= k
    ensures OthersQuit(procs, k)
  {
    forall j, l {:trigger Anc(l, Reach(procs[j]))} | 0 <= j < |procs| && 0 <= l <= k && l != j && Reach(procs[j]) >= 0
        && Anc(l, Reach(procs[j])) == Anc(j, Reach(procs[j]))
      ensures l < |procs| && procs[l].pc.AtQuit?
    {
      if l >= m {
        GatheredIsOffPath(procs, m, j, Reach(procs[j]));
        AncMonotone(m, l, Reach(procs[j]));
        assert false;
      }
    }
  }

  lemma {:induction false} TogglesExtend(c: Config, nodes: map<NodeId, Node>, base: map<NodeId, Node>, procs: seq<Proc>,
                                         segs: seq<Bytes>, k: nat)
    requires nodes.Keys == base.Keys && 0 < |segs| <= k + 1 && |procs| == |segs| - 1
    requires ProcsOk(c, nodes, procs, segs) && OthersQuit(procs, |segs| - 1)
    requires TogglesOk(nodes, base, procs, |segs| - 1)
    ensures TogglesOk(nodes, base, procs, k)
  {
    var m := |segs| - 1;
    RootHeightMonotone(m, k);
    forall n | n in nodes
      ensures CountOk(nodes, base, procs, k, n)
    {
      assert CountOk(nodes, base, procs, m, n);
      if Balanced(m, n) && n.h <= RootHeight(m) {
        BalancedMonotone(m, k, n);
      } else {
        NoArrivals(c, nodes, procs, segs, n);
      }
    }
  }

  /** Nobody has arrived yet at a node that only gets its second half later. */
  lemma {:induction false} NoArrivals(c: Config, nodes: map<NodeId, Node>, procs: seq<Proc>, segs: seq<Bytes>,
                                      n: NodeId)
    requires 0 < |segs| && |procs| == |segs| - 1
    requires ProcsOk(c, nodes, procs, segs) && OthersQuit(procs, |segs| - 1)
    requires !(Balanced(|segs| - 1, n) && n.h <= RootHeight(|segs| - 1))
    ensures !HasQuit(procs, n)
    ensures n.h > 0 ==> !HasPassed(procs, n)
  {
    var m := |segs| - 1;
    if HasQuit(procs, n) {
      var q :| 0 <= q < |procs| && procs[q].pc.AtQuit? && procs[q].n == n;
      assert ProcOk(c, nodes, segs, q, procs[q]);
    }
    if n.h > 0 && HasPassed(procs, n) {
      var l :| 0 <= l < |procs| && Reach(procs[l]) >= n.h && Anc(l, n.h) == n.x;
      assert ProcOk(c, nodes, segs, l, procs[l]);
      GatheredIsOffPath(procs, m, l, n.h);
      UnbalancedIsOnPath(m, l, n.h);
      assert false;
    }
  }

  // ---------- Launching goroutines ----------

  /** A goroutine that has just been launched. */
  predicate JustLaunched(p: Proc) {
    Reach(p) == -1 && Runnable(p)
  }

  lemma {:induction false} LaunchKeepsGathering(procs: seq<Proc>, m: nat, p: Proc)
    requires |procs| <= m && Unique(procs) && OthersQuit(procs, m) && JustLaunched(p)
    ensures Unique(procs + [p]) && OthersQuit(procs + [p], m)
  {
    var procs' := procs + [p];
    forall j, k {:trigger Anc(k, Reach(procs'[j]))} | 0 <= j < |procs'| && 0 <= k <= m && k != j
      && Reach(procs'[j]) >= 0
        && Anc(k, Reach(procs'[j])) == Anc(j, Reach(procs'[j]))
      ensures k < |procs'| && procs'[k].pc.AtQuit?
    {
      assert procs'[j] == procs[j];
      assert k < |procs| && procs[k].pc.AtQuit?;
    }
  }

  lemma {:induction false} LaunchKeepsArrivals(procs: seq<Proc>, p: Proc, n: NodeId)
    requires JustLaunched(p)
    ensures HasQuit(procs + [p], n) == HasQuit(procs, n)
    ensures HasPassed(procs + [p], n) == HasPassed(procs, n)
  {
    var procs' := procs + [p];
    if HasQuit(procs, n) {
      var q :| 0 <= q < |procs| && procs[q].pc.AtQuit? && procs[q].n == n;
      assert procs'[q].pc.AtQuit? && procs'[q].n == n;
    }
    if HasPassed(procs, n) {
      var l :| 0 <= l < |procs| && Reach(procs[l]) >= n.h && Anc(l, n.h) == n.x;
      assert Reach(procs'[l]) >= n.h && Anc(l, n.h) == n.x;
    }
  }

  lemma {:induction false} LaunchKeepsToggles(nodes: map<NodeId, Node>, base: map<NodeId, Node>, procs: seq<Proc>,
                                              m: nat, p: Proc)
    requires nodes.Keys == base.Keys && TogglesOk(nodes, base, procs, m) && JustLaunched(p)
    ensures TogglesOk(nodes, base, procs + [p], m)
  {
    forall n | n in nodes
      ensures CountOk(nodes, base, procs + [p], m, n)
    {
      assert CountOk(nodes, base, procs, m, n);
      LaunchKeepsArrivals(procs, p, n);
    }
  }

  /** The state before the goroutine of the last of the segments `more` is launched. */
  ghost predicate ReadyFor(c: Config, base: map<NodeId, Node>, sys: System, segs: seq<Bytes>, more: seq<Bytes>) {
    && Inv(c, base, sys, segs)
    && Extends(segs, more)
    && |sys.procs| == |segs| - 1
    && |more| <= Pow2(c.depth)
    && (forall j | 0 <= j < |more| - 1 :: |more[j]| > c.size)
  }

  lemma {:induction false} PlacesExtend(c: Config, base: map<NodeId, Node>, sys: System, segs: seq<Bytes>,
                                        more: seq<Bytes>)
    requires ReadyFor(c, base, sys, segs, more)
    ensures ProcsOk(c, sys.nodes, sys.procs, more)
    ensures OthersQuit(sys.procs, |more| - 1)
    ensures sys.nodes.Keys == base.Keys && TogglesOk(sys.nodes, base, sys.procs, |more| - 1)
    ensures sys.results == [] && forall j | 0 <= j < |sys.procs| :: !sys.procs[j].pc.AtSent?
  {
    forall j | 0 <= j < |sys.procs|
      ensures ProcOk(c, sys.nodes, more, j, sys.procs[j]) && !sys.procs[j].pc.AtSent?
    {
      assert ProcOk(c, sys.nodes, segs, j, sys.procs[j]);
      ProcExtends(c, sys.nodes, sys.procs, segs, more, j);
    }
    OthersQuitExtends(sys.procs, |segs| - 1, |more| - 1);
    TogglesExtend(c, sys.nodes, base, sys.procs, segs, |more| - 1);
  }

  /** The segment that has no goroutine yet may still change. */
  lemma {:induction false} ReplaceLast(c: Config, base: map<NodeId, Node>, sys: System, segs: seq<Bytes>,
                                       more: seq<Bytes>)
    requires ReadyFor(c, base, sys, segs, more) && |more| == |segs|
    ensures Inv(c, base, sys, more)
  {
    PlacesExtend(c, base, sys, segs, more);
  }

  /** Launching the goroutine of a full double segment when more data follows it. */
  lemma {:induction false} LaunchFull(c: Config, base: map<NodeId, Node>, sys: System, segs: seq<Bytes>,
                                      more: seq<Bytes>)
    requires ReadyFor(c, base, sys, segs, more) && |more| == |segs| + 1
    requires CleanFlags(c.depth, sys.nodes)
    ensures var m := |segs| - 1;
            Inv(c, base, sys.(procs := sys.procs + [Launched(c, m, more[m], c.depth)]), more)
  {
    var m := |segs| - 1;
    var p := Launched(c, m, more[m], c.depth);
    assert c.depth > 0;
    PlacesExtend(c, base, sys, segs, more);
    var procs' := sys.procs + [p];
    assert ProcsOk(c, sys.nodes, procs', more) by {
      assert InTree(c.depth, NodeId(0, m));
      forall j | 0 <= j < |procs'|
        ensures ProcOk(c, sys.nodes, more, j, procs'[j])
      {
        if j < |sys.procs| {
          assert ProcOk(c, sys.nodes, more, j, sys.procs[j]);
        }
      }
    }
    LaunchKeepsGathering(sys.procs, m + 1, p);
    LaunchKeepsToggles(sys.nodes, base, sys.procs, m + 1, p);
  }

  /** Launching the goroutine of the last double segment after finalise. */
  lemma {:induction false} LaunchLast(c: Config, base: map<NodeId, Node>, sys: System, segs: seq<Bytes>, d: nat)
    requires Inv(c, base, sys, segs) && |sys.procs| == |segs| - 1
    requires PathFlagsSet(c, sys.nodes, segs) && (|segs| == 1 ==> d == 0)
    ensures var m := |segs| - 1;
            Inv(c, base, sys.(procs := sys.procs + [Launched(c, m, segs[m], d)]), segs)
  {
    var m := |segs| - 1;
    var p := Launched(c, m, segs[m], d);
    PlacesExtend(c, base, sys, segs, segs);
    var procs' := sys.procs + [p];
    assert c.depth == 0 ==> m == 0;
    assert ProcsOk(c, sys.nodes, procs', segs) by {
      assert InTree(c.depth, NodeId(0, m));
      forall j | 0 <= j < |procs'|
        ensures ProcOk(c, sys.nodes, segs, j, procs'[j])
      {
        if j < |sys.procs| {
          assert ProcOk(c, sys.nodes, segs, j, sys.procs[j]);
        }
      }
    }
    LaunchKeepsGathering(sys.procs, m, p);
    LaunchKeepsToggles(sys.nodes, base, sys.procs, m, p);
  }

  // ---------- finalise ----------

  /** What finalise does to one node on the path of the last leaf. */
  function Finalised(n: Node, isLeft: bool, initial: bool): Node {
    n.(unbalanced := isLeft, right := [], root := n.root || initial)
  }

  /** No goroutine relies on the right half of a node on the path before the last one is launched. */
  lemma {:induction false} FinaliseKeepsProc(c: Config, nodes: map<NodeId, Node>, procs: seq<Proc>, segs: seq<Bytes>,
                                             n: NodeId, node: Node, j: nat)
    requires |segs| > 0 && |procs| == |segs| - 1 && OthersQuit(procs, |segs| - 1)
    requires n in nodes && OnPath(|segs| - 1, n)
    requires j < |procs| && ProcOk(c, nodes, segs, j, procs[j])
    requires node.left == nodes[n].left
    ensures ProcOk(c, nodes[n := node], segs, j, procs[j])
  {
    var p, m := procs[j], |segs| - 1;
    if p.n == n {
      if p.pc.AtCombine? {
        GatheredIsOffPath(procs, m, j, n.h);
      } else if (p.pc.AtToggle? || p.pc.AtQuit?) && !p.isLeft {
        GatheredIsOffPath(procs, m, j, n.h - 1);
      }
    } else if p.pc.AtCombine? {
      assert BothHalvesWritten(c, nodes[n := node], segs, p.n);
    }
  }

  lemma {:induction false} FinaliseKeepsInv(c: Config, base: map<NodeId, Node>, sys: System, segs: seq<Bytes>,
                                            n: NodeId, isLeft: bool, initial: bool)
    requires Inv(c, base, sys, segs) && |sys.procs| == |segs| - 1
    requires n in sys.nodes && OnPath(|segs| - 1, n) && n.h <= RootHeight(|segs| - 1)
    requires Balanced(|segs| - 1, n) ==> !isLeft
    ensures Inv(c, base, sys.(nodes := sys.nodes[n := Finalised(sys.nodes[n], isLeft, initial)]), segs)
  {
    var node := Finalised(sys.nodes[n], isLeft, initial);
    var nodes' := sys.nodes[n := node];
    assert ProcsOk(c, nodes', sys.procs, segs) by {
      forall j | 0 <= j < |sys.procs|
        ensures ProcOk(c, nodes', segs, j, sys.procs[j])
      {
        assert ProcOk(c, sys.nodes, segs, j, sys.procs[j]);
        FinaliseKeepsProc(c, sys.nodes, sys.procs, segs, n, node, j);
      }
    }
    assert TogglesOk(nodes', base, sys.procs, |segs| - 1) by {
      forall k | k in nodes'
        ensures CountOk(nodes', base, sys.procs, |segs| - 1, k)
      {
        assert CountOk(sys.nodes, base, sys.procs, |segs| - 1, k);
      }
    }
  }
}
