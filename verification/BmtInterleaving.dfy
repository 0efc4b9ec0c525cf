/**
  Every interleaving of the BMT goroutines: the invariant of BmtProtocol is kept by
  every step, every run ends, and a finished run has sent exactly one result.
 */
module BmtInterleaving {
  import opened BmtReference
  import opened BmtProtocol

  /** Goroutine j is about to act in a state that satisfies the invariant. */
  ghost predicate Enabled(c: Config, base: map<NodeId, Node>, sys: System, segs: seq<Bytes>, j: nat) {
    && Inv(c, base, sys, segs)
    && j < |sys.procs|
    && Runnable(sys.procs[j])
  }

  lemma {:induction false} LiveNodeExists(c: Config, nodes: map<NodeId, Node>, base: map<NodeId, Node>, k: nat,
                                          segs: seq<Bytes>, n: NodeId)
    requires ShapeOk(c, nodes, base, k, segs) && Live(|segs| - 1, n)
    ensures n in nodes && RootHeight(|segs| - 1) <= c.depth
  {
    LiveInTree(|segs| - 1, c.depth, n);
  }

  lemma {:induction false} AtItsNode(c: Config, base: map<NodeId, Node>, sys: System, segs: seq<Bytes>, j: nat)
    requires Enabled(c, base, sys, segs, j)
    ensures sys.procs[j].n in sys.nodes
    ensures sys.procs[j].pc.AtLeaf? ==> sys.procs[j].n.h == 0
  {
    assert ProcOk(c, sys.nodes, segs, j, sys.procs[j]);
  }

  /** A node that is not balanced is on the last leaf's path, and only its left child is in use. */
  lemma {:induction false} UnbalancedIsOnPath(m: nat, j: nat, h: nat)
    requires j <= m && h > 0 && !Balanced(m, NodeId(h, Anc(j, h)))
    ensures Anc(m, h) == Anc(j, h)
    ensures Anc(m, h - 1) == Anc(j, h - 1) == 2 * Anc(j, h)
  {
    AncMonotone(j, m, h);
    AncMonotone(j, m, h - 1);
  }

  /** A node gathered by some goroutine on the last leaf's path: the last goroutine is running. */
  lemma {:induction false} GatheredPathIsFinal(procs: seq<Proc>, m: nat, j: nat, h: nat)
    requires OthersQuit(procs, m) && |procs| <= m + 1
    requires j < |procs| && h <= Reach(procs[j]) && Anc(m, h) == Anc(j, h)
    ensures |procs| == m + 1
  {
    AncStaysEqual(m, j, h, Reach(procs[j]));
  }

  /** At most two goroutines ever gather a child of a node. */
  lemma {:induction false} TwoChildren(procs: seq<Proc>, j: nat, k: nat, l: nat, h: nat)
    requires Unique(procs) && h > 0
    requires j < |procs| && k < |procs| && l < |procs|
    requires Reach(procs[j]) >= h - 1 && Reach(procs[k]) >= h - 1 && Reach(procs[l]) >= h - 1
    requires Anc(j, h) == Anc(k, h) == Anc(l, h)
    ensures j == k || k == l || j == l
  {
    var g: nat := h - 1;
    assert Anc(j, g) / 2 == Anc(k, g) / 2 == Anc(l, g) / 2;
    if j < k { assert Anc(j, g) != Anc(k, g); }
    if k < j { assert Anc(k, g) != Anc(j, g); }
    if l < k { assert Anc(l, g) != Anc(k, g); }
    if k < l { assert Anc(k, g) != Anc(l, g); }
    if j < l { assert Anc(j, g) != Anc(l, g); }
    if l < j { assert Anc(l, g) != Anc(j, g); }
  }

  /** The flag read by a goroutine about to toggle or combine tells whether its node is balanced. */
  lemma {:induction false} FlagTellsBalance(c: Config, sys: System, segs: seq<Bytes>, j: nat)
    requires |sys.procs| <= |segs| && j < |sys.procs| && ProcOk(c, sys.nodes, segs, j, sys.procs[j])
    requires sys.procs[j].pc.AtToggle? || sys.procs[j].pc.AtCombine?
    requires OthersQuit(sys.procs, |segs| - 1) && FlagsOk(c, sys.nodes, |sys.procs|, segs)
    ensures sys.nodes[sys.procs[j].n].unbalanced == !Balanced(|segs| - 1, sys.procs[j].n)
    ensures !Balanced(|segs| - 1, sys.procs[j].n) ==> sys.nodes[sys.procs[j].n].right == []
  {
    var m, p := |segs| - 1, sys.procs[j];
    AncMonotone(j, m, p.n.h);
    if p.n.h > 0 && !Balanced(m, p.n) {
      UnbalancedIsOnPath(m, j, p.n.h);
      GatheredPathIsFinal(sys.procs, m, j, p.n.h - 1);
    }
  }

  lemma {:induction false} ArrivalParity(start: Int32, arrivals: nat)
    requires start >= 0 && start % 2 == 0 && arrivals <= 1
    ensures Toggle(Advance(start, arrivals)).1 <==> arrivals == 0
  {
    assert Advance(start, arrivals) == start + arrivals;
    ToggleWaitsIff(start + arrivals);
  }

  /** Nobody has gone past a node that another goroutine is still about to toggle. */
  lemma {:induction false} NobodyPassed(c: Config, nodes: map<NodeId, Node>, procs: seq<Proc>, segs: seq<Bytes>, j: nat)
    requires |procs| <= |segs| && ProcsOk(c, nodes, procs, segs) && Unique(procs)
    requires j < |procs| && procs[j].pc.AtToggle? && procs[j].n.h > 0
    requires HasPassed(procs, procs[j].n) ==> HasQuit(procs, procs[j].n)
    ensures !HasPassed(procs, procs[j].n)
  {
    var n := procs[j].n;
    if HasPassed(procs, n) {
      var q :| 0 <= q < |procs| && procs[q].pc.AtQuit? && procs[q].n == n;
      var l :| 0 <= l < |procs| && Reach(procs[l]) >= n.h && Anc(l, n.h) == n.x;
      assert ProcOk(c, nodes, segs, q, procs[q]) && ProcOk(c, nodes, segs, j, procs[j]);
      TwoChildren(procs, j, q, l, n.h);
      assert false;
    }
  }

  /** A goroutine that toggles a balanced node waits iff it is the first to arrive. */
  lemma {:induction false} FirstArrivalWaits(c: Config, base: map<NodeId, Node>, sys: System, segs: seq<Bytes>, j: nat)
    requires Enabled(c, base, sys, segs, j) && sys.procs[j].pc.AtToggle?
    requires Balanced(|segs| - 1, sys.procs[j].n) && sys.procs[j].n in sys.nodes
    ensures !HasPassed(sys.procs, sys.procs[j].n)
    ensures Toggle(sys.nodes[sys.procs[j].n].state).1 <==> !HasQuit(sys.procs, sys.procs[j].n)
  {
    var n := sys.procs[j].n;
    assert ProcOk(c, sys.nodes, segs, j, sys.procs[j]);
    assert CountOk(sys.nodes, base, sys.procs, |segs| - 1, n);
    NobodyPassed(c, sys.nodes, sys.procs, segs, j);
    ArrivalParity(base[n].state, Arrivals(sys.procs, n));
  }

  /** The goroutine that waited in a node and the one that goes on come from different sides. */
  lemma {:induction false} SiblingsDiffer(c: Config, base: map<NodeId, Node>, sys: System, segs: seq<Bytes>, j: nat,
                                          q: nat)
    requires Enabled(c, base, sys, segs, j) && sys.procs[j].pc.AtToggle?
    requires q < |sys.procs| && sys.procs[q].pc.AtQuit? && sys.procs[q].n == sys.procs[j].n
    ensures FromLeft(q, sys.procs[j].n.h) != FromLeft(j, sys.procs[j].n.h)
  {
    var g: int := sys.procs[j].n.h - 1;
    assert ProcOk(c, sys.nodes, segs, q, sys.procs[q]);
    assert ProcOk(c, sys.nodes, segs, j, sys.procs[j]);
    if q < j {
      assert Anc(q, g) != Anc(j, g);
    } else {
      assert Anc(j, g) != Anc(q, g);
    }
  }

  // ---------- One step ----------

  /** The acting goroutine is where it has to be afterwards. */
  lemma {:induction false} StepKeepsSelf(c: Config, base: map<NodeId, Node>, sys: System, segs: seq<Bytes>, j: nat)
    requires Enabled(c, base, sys, segs, j)
    ensures sys.procs[j].n in sys.nodes
    ensures ProcOk(c, Step(c, sys, j).nodes, segs, j, Step(c, sys, j).procs[j])
  {
    assert ProcOk(c, sys.nodes, segs, j, sys.procs[j]);
    match sys.procs[j].pc {
      case AtLeaf => LeafStep(c, base, sys, segs, j);
      case AtStore =>
      case AtToggle => ToggleStep(c, base, sys, segs, j);
      case AtCombine => CombineStep(c, base, sys, segs, j);
      case AtEmit => EmitStep(c, base, sys, segs, j);
    }
  }

  lemma {:induction false} LeafStep(c: Config, base: map<NodeId, Node>, sys: System, segs: seq<Bytes>, j: nat)
    requires Enabled(c, base, sys, segs, j) && sys.procs[j].pc.AtLeaf?
    ensures sys.procs[j].n in sys.nodes
    ensures ProcOk(c, Step(c, sys, j).nodes, segs, j, Step(c, sys, j).procs[j])
    ensures sys.nodes[sys.procs[j].n].root <==> |segs| == 1
  {
    var m := |segs| - 1;
    assert ProcOk(c, sys.nodes, segs, j, sys.procs[j]);
    LiveNodeExists(c, sys.nodes, base, |sys.procs|, segs, sys.procs[j].n);
    if m > 0 {
      AncMonotone(j, m, 1);
      LiveNodeExists(c, sys.nodes, base, |sys.procs|, segs, NodeId(1, j / 2));
      assert Anc(j, 1) == Anc(j, 0) / 2;
      assert RootHeight(m) >= 1;
    }
  }

  /** The first arrival leaves its half in the node. */
  lemma {:induction false} FirstArrival(c: Config, nodes: map<NodeId, Node>, segs: seq<Bytes>, j: nat, p: Proc,
                                        state: Int32)
    requires j < |segs| && p.pc.AtToggle? && ProcOk(c, nodes, segs, j, p) && Balanced(|segs| - 1, p.n)
    ensures ProcOk(c, nodes[p.n := nodes[p.n].(state := state)], segs, j, p.(pc := AtQuit))
  {
  }

  /** The second arrival finds the half that the first one left. */
  lemma {:induction false} SecondArrival(c: Config, nodes: map<NodeId, Node>, segs: seq<Bytes>, j: nat, p: Proc, k: nat,
                                         q: Proc, state: Int32)
    requires j < |segs| && p.pc.AtToggle? && ProcOk(c, nodes, segs, j, p)
    requires k < |segs| && q.pc.AtQuit? && ProcOk(c, nodes, segs, k, q) && q.n == p.n
    requires FromLeft(k, p.n.h) != FromLeft(j, p.n.h)
    ensures ProcOk(c, nodes[p.n := nodes[p.n].(state := state)], segs, j, p.(pc := AtCombine))
  {
    var nodes' := nodes[p.n := nodes[p.n].(state := state)];
    AncMonotone(j, |segs| - 1, p.n.h);
    assert Anc(j, p.n.h - 1) / 2 == Anc(k, p.n.h - 1) / 2 == p.n.x;
    assert BothHalvesWritten(c, nodes', segs, p.n);
  }

  /** An arrival at a node with an empty right half goes on alone. */
  lemma {:induction false} LoneArrival(c: Config, nodes: map<NodeId, Node>, segs: seq<Bytes>, j: nat, p: Proc)
    requires j < |segs| && p.pc.AtToggle? && ProcOk(c, nodes, segs, j, p)
    requires !Balanced(|segs| - 1, p.n) && nodes[p.n].right == []
    ensures ProcOk(c, nodes, segs, j, p.(pc := AtCombine))
  {
    AncMonotone(j, |segs| - 1, p.n.h);
    if p.n.h > 0 {
      UnbalancedIsOnPath(|segs| - 1, j, p.n.h);
    }
    assert BothHalvesWritten(c, nodes, segs, p.n);
  }

  lemma {:induction false} ToggleStep(c: Config, base: map<NodeId, Node>, sys: System, segs: seq<Bytes>, j: nat)
    requires Enabled(c, base, sys, segs, j) && sys.procs[j].pc.AtToggle?
    ensures sys.procs[j].n in sys.nodes
    ensures ProcOk(c, Step(c, sys, j).nodes, segs, j, Step(c, sys, j).procs[j])
  {
    var p := sys.procs[j];
    assert ProcOk(c, sys.nodes, segs, j, p);
    var state := Toggle(sys.nodes[p.n].state).0;
    FlagTellsBalance(c, sys, segs, j);
    if Balanced(|segs| - 1, p.n) {
      FirstArrivalWaits(c, base, sys, segs, j);
      if HasQuit(sys.procs, p.n) {
        var q :| 0 <= q < |sys.procs| && sys.procs[q].pc.AtQuit? && sys.procs[q].n == p.n;
        SiblingsDiffer(c, base, sys, segs, j, q);
        SecondArrival(c, sys.nodes, segs, j, p, q, sys.procs[q], state);
      } else {
        FirstArrival(c, sys.nodes, segs, j, p, state);
      }
    } else {
      LoneArrival(c, sys.nodes, segs, j, p);
    }
  }

  /** Hashing both halves, or passing the left one on, gives the value of the node. */
  lemma {:induction false} CombineGivesValue(c: Config, nodes: map<NodeId, Node>, segs: seq<Bytes>, j: nat, p: Proc)
    requires j < |segs| && p.pc.AtCombine? && ProcOk(c, nodes, segs, j, p)
    requires nodes[p.n].unbalanced == !Balanced(|segs| - 1, p.n)
    ensures ProcOk(c, nodes, segs, j, StepProc(c, p, nodes[p.n]))
  {
    var n := nodes[p.n];
    AncMonotone(j, |segs| - 1, p.n.h);
    assert BothHalvesWritten(c, nodes, segs, p.n);
    if Balanced(|segs| - 1, p.n) {
      assert Value(c, segs, p.n.h, p.n.x) == c.hash(n.left + n.right);
    } else {
      assert n.left + n.right == n.left;
      if p.n.h > 0 {
        UnbalancedIsOnPath(|segs| - 1, j, p.n.h);
        assert Value(c, segs, p.n.h, p.n.x) == n.left;
      } else {
        assert Value(c, segs, p.n.h, p.n.x) == Token(c, segs, j);
      }
    }
    var s := StepProc(c, p, n).s;
    assert s == Value(c, segs, p.n.h, p.n.x);
  }

  lemma {:induction false} CombineStep(c: Config, base: map<NodeId, Node>, sys: System, segs: seq<Bytes>, j: nat)
    requires Enabled(c, base, sys, segs, j) && sys.procs[j].pc.AtCombine?
    ensures sys.procs[j].n in sys.nodes
    ensures ProcOk(c, Step(c, sys, j).nodes, segs, j, Step(c, sys, j).procs[j])
  {
    assert ProcOk(c, sys.nodes, segs, j, sys.procs[j]);
    FlagTellsBalance(c, sys, segs, j);
    CombineGivesValue(c, sys.nodes, segs, j, sys.procs[j]);
  }

  /** Only the root of the tree in use is flagged as root among the nodes that goroutines leave. */
  lemma {:induction false} RootFlag(c: Config, base: map<NodeId, Node>, sys: System, segs: seq<Bytes>, j: nat)
    requires Enabled(c, base, sys, segs, j) && sys.procs[j].pc.AtEmit?
    ensures sys.procs[j].n in sys.nodes
    ensures sys.nodes[sys.procs[j].n].root <==> sys.procs[j].n.h == RootHeight(|segs| - 1)
  {
    var m, p := |segs| - 1, sys.procs[j];
    assert ProcOk(c, sys.nodes, segs, j, p);
    RootHeightIsLeast(m, p.n.h);
    AncMonotone(j, m, p.n.h);
    LiveNodeExists(c, sys.nodes, base, |sys.procs|, segs, p.n);
    if OnPath(m, p.n) {
      GatheredPathIsFinal(sys.procs, m, j, p.n.h);
    }
  }

  lemma {:induction false} ParentExists(c: Config, nodes: map<NodeId, Node>, base: map<NodeId, Node>, k: nat,
                                        segs: seq<Bytes>, j: nat, p: Proc)
    requires ShapeOk(c, nodes, base, k, segs) && j < |segs| && p.n.x == Anc(j, p.n.h)
    ensures p.n.h < RootHeight(|segs| - 1) ==> Parent(p.n) in nodes
  {
    if p.n.h < RootHeight(|segs| - 1) {
      AncMonotone(j, |segs| - 1, p.n.h + 1);
      LiveNodeExists(c, nodes, base, k, segs, Parent(p.n));
    }
  }

  lemma {:induction false} LeavesNodes(c: Config, sys: System, j: nat)
    requires j < |sys.procs| && sys.procs[j].n in sys.nodes && sys.procs[j].pc.AtEmit?
    ensures Step(c, sys, j).nodes == sys.nodes
    ensures Step(c, sys, j).procs[j] == StepProc(c, sys.procs[j], sys.nodes[sys.procs[j].n])
  {
  }

  lemma {:induction false} EmitMovesUp(c: Config, nodes: map<NodeId, Node>, segs: seq<Bytes>, j: nat, p: Proc)
    requires j < |segs| && p.pc.AtEmit? && ProcOk(c, nodes, segs, j, p)
    requires nodes[p.n].root <==> p.n.h == RootHeight(|segs| - 1)
    requires p.n.h < RootHeight(|segs| - 1) ==> Parent(p.n) in nodes
    ensures ProcOk(c, nodes, segs, j, StepProc(c, p, nodes[p.n]))
  {
  }

  lemma {:induction false} EmitStep(c: Config, base: map<NodeId, Node>, sys: System, segs: seq<Bytes>, j: nat)
    requires Enabled(c, base, sys, segs, j) && sys.procs[j].pc.AtEmit?
    ensures sys.procs[j].n in sys.nodes
    ensures ProcOk(c, Step(c, sys, j).nodes, segs, j, Step(c, sys, j).procs[j])
  {
    var p := sys.procs[j];
    assert ProcOk(c, sys.nodes, segs, j, p);
    RootFlag(c, base, sys, segs, j);
    ParentExists(c, sys.nodes, base, |sys.procs|, segs, j, p);
    EmitMovesUp(c, sys.nodes, segs, j, p);
    LeavesNodes(c, sys, j);
  }

  /** Goroutines that enter a node from the same side bring the same value. */
  lemma {:induction false} SameSideSameValue(c: Config, segs: seq<Bytes>, j: nat, k: nat, h: nat)
    requires j < |segs| && k < |segs| && h > 0
    requires Anc(j, h) == Anc(k, h) && FromLeft(j, h) == FromLeft(k, h)
    ensures Incoming(c, segs, j, h) == Incoming(c, segs, k, h)
  {
    assert Anc(j, h - 1) / 2 == Anc(k, h - 1) / 2;
  }

  lemma {:induction false} StoreKeepsHalves(c: Config, nodes: map<NodeId, Node>, segs: seq<Bytes>, j: nat, p: Proc)
    requires j < |segs| && p.pc.AtStore? && ProcOk(c, nodes, segs, j, p) && p.n.h > 0
    requires BothHalvesWritten(c, nodes, segs, p.n)
    ensures BothHalvesWritten(c, nodes[p.n := StepNode(p, nodes[p.n])], segs, p.n)
  {
    AncMonotone(j, |segs| - 1, p.n.h - 1);
    assert Anc(j, p.n.h - 1) / 2 == p.n.x;
  }

  /** A value stored in a node is the one every other goroutine there expects in that half. */
  lemma {:induction false} StoreKeepsOther(c: Config, nodes: map<NodeId, Node>, segs: seq<Bytes>, j: nat, p: Proc,
                                           k: nat, q: Proc)
    requires j < |segs| && p.pc.AtStore? && ProcOk(c, nodes, segs, j, p)
    requires k < |segs| && k != j && ProcOk(c, nodes, segs, k, q)
    ensures ProcOk(c, nodes[p.n := StepNode(p, nodes[p.n])], segs, k, q)
  {
    var nodes' := nodes[p.n := StepNode(p, nodes[p.n])];
    if q.n != p.n {
      if q.pc.AtCombine? {
        assert BothHalvesWritten(c, nodes', segs, q.n);
      }
    } else {
      assert p.n.h > 0;
      if q.pc.AtCombine? {
        StoreKeepsHalves(c, nodes, segs, j, p);
      } else if (q.pc.AtToggle? || q.pc.AtQuit?) && q.isLeft == p.isLeft {
        SameSideSameValue(c, segs, j, k, p.n.h);
        assert Slot(nodes'[q.n], q.isLeft) == p.s;
      }
    }
  }

  lemma {:induction false} ToggleKeepsOther(c: Config, nodes: map<NodeId, Node>, segs: seq<Bytes>, n: NodeId,
                                            state: Int32, k: nat, q: Proc)
    requires n in nodes && k < |segs| && ProcOk(c, nodes, segs, k, q)
    ensures ProcOk(c, nodes[n := nodes[n].(state := state)], segs, k, q)
  {
    var nodes' := nodes[n := nodes[n].(state := state)];
    if q.pc.AtCombine? {
      assert BothHalvesWritten(c, nodes', segs, q.n);
    }
  }

  lemma {:induction false} StepKeepsProcs(c: Config, base: map<NodeId, Node>, sys: System, segs: seq<Bytes>, j: nat)
    requires Enabled(c, base, sys, segs, j)
    ensures sys.procs[j].n in sys.nodes
    ensures ProcsOk(c, Step(c, sys, j).nodes, Step(c, sys, j).procs, segs)
  {
    var p := sys.procs[j];
    StepKeepsSelf(c, base, sys, segs, j);
    var next := Step(c, sys, j);
    forall k | 0 <= k < |sys.procs| && k != j
      ensures ProcOk(c, next.nodes, segs, k, next.procs[k])
    {
      assert ProcOk(c, sys.nodes, segs, j, p);
      assert ProcOk(c, sys.nodes, segs, k, sys.procs[k]);
      if p.pc.AtStore? {
        StoreKeepsOther(c, sys.nodes, segs, j, p, k, sys.procs[k]);
      } else if p.pc.AtToggle? && !sys.nodes[p.n].unbalanced {
        ToggleKeepsOther(c, sys.nodes, segs, p.n, Toggle(sys.nodes[p.n].state).0, k, sys.procs[k]);
      }
    }
  }

  /** Goroutine j gathers a leaf, or the whole node (h, x) above the node it had gathered. */
  ghost predicate GathersNext(procs: seq<Proc>, m: nat, j: nat, h: nat)
    requires j < |procs|
  {
    && Reach(procs[j]) == h - 1
    && !procs[j].pc.AtQuit?
    && !HasPassed(procs, NodeId(h, Anc(j, h)))
    && (h > 0 && Balanced(m, NodeId(h, Anc(j, h))) ==>
          exists q | 0 <= q < |procs| && q != j ::
            procs[q].pc.AtQuit? && procs[q].n == NodeId(h, Anc(j, h)) && Anc(q, h) == Anc(j, h))
  }

  lemma {:induction false} GatherKeepsUnique(procs: seq<Proc>, m: nat, j: nat, h: nat, p: Proc)
    requires |procs| <= m + 1 && j < |procs| && Unique(procs) && GathersNext(procs, m, j, h)
    requires Reach(p) == h
    ensures Unique(procs[j := p])
  {
    var procs' := procs[j := p];
    forall a, b, g: nat | 0 <= a < b < |procs'| && g <= Reach(procs'[a]) && g <= Reach(procs'[b])
      ensures Anc(a, g) != Anc(b, g)
    {
      if (a == j || b == j) && Anc(a, g) == Anc(b, g) {
        assert false;
      }
    }
  }

  lemma {:induction false} GatherKeepsOthersQuit(procs: seq<Proc>, m: nat, j: nat, h: nat, p: Proc)
    requires |procs| <= m + 1 && j < |procs| && Unique(procs) && OthersQuit(procs, m) && GathersNext(procs, m, j, h)
    requires Reach(p) == h
    ensures OthersQuit(procs[j := p], m)
  {
    var procs' := procs[j := p];
    forall a, k {:trigger Anc(k, Reach(procs'[a]))} | 0 <= a < |procs'| && 0 <= k <= m && k != a
      && Reach(procs'[a]) >= 0
        && Anc(k, Reach(procs'[a])) == Anc(a, Reach(procs'[a]))
      ensures k < |procs'| && procs'[k].pc.AtQuit?
    {
      if a != j {
        assert k < |procs| && procs[k].pc.AtQuit?;
      } else if h > 0 {
        BelowGathered(procs, m, j, h, k);
      }
    }
  }

  /** Every other goroutine below the gathered node has quit. */
  lemma {:induction false} BelowGathered(procs: seq<Proc>, m: nat, j: nat, h: nat, k: nat)
    requires |procs| <= m + 1 && j < |procs| && Unique(procs) && OthersQuit(procs, m) && GathersNext(procs, m, j, h)
    requires h > 0 && k <= m && k != j && Anc(k, h) == Anc(j, h)
    ensures k < |procs| && procs[k].pc.AtQuit?
  {
    var n, g: nat := NodeId(h, Anc(j, h)), h - 1;
    if Anc(k, g) == Anc(j, g) {
      assert Anc(k, Reach(procs[j])) == Anc(j, Reach(procs[j]));
    } else {
      assert Balanced(m, n) by {
        AncMonotone(k, m, g);
        AncMonotone(j, m, g);
      }
      var q :| 0 <= q < |procs| && q != j && procs[q].pc.AtQuit? && procs[q].n == n && Anc(q, h) == Anc(j, h);
      if q != k {
        assert Anc(q, g) != Anc(j, g) by {
          if q < j { assert g <= Reach(procs[q]); } else { assert g <= Reach(procs[q]); }
        }
        assert Anc(k, Reach(procs[q])) == Anc(q, Reach(procs[q]));
      }
    }
  }

  lemma {:induction false} SameReachKeeps(procs: seq<Proc>, m: nat, j: nat, p: Proc)
    requires |procs| <= m + 1 && j < |procs| && Unique(procs) && OthersQuit(procs, m)
    requires Reach(p) == Reach(procs[j]) && !procs[j].pc.AtQuit?
    ensures Unique(procs[j := p]) && OthersQuit(procs[j := p], m)
  {
    var procs' := procs[j := p];
    forall a, k {:trigger Anc(k, Reach(procs'[a]))} | 0 <= a < |procs'| && 0 <= k <= m && k != a
      && Reach(procs'[a]) >= 0
        && Anc(k, Reach(procs'[a])) == Anc(a, Reach(procs'[a]))
      ensures k < |procs'| && procs'[k].pc.AtQuit?
    {
      assert Reach(procs'[a]) == Reach(procs[a]);
      assert k < |procs| && procs[k].pc.AtQuit?;
    }
  }

  /** A goroutine that goes past the node it toggles gathers it for the first time. */
  lemma {:induction false} ToggleGathers(c: Config, base: map<NodeId, Node>, sys: System, segs: seq<Bytes>, j: nat)
    requires Enabled(c, base, sys, segs, j) && sys.procs[j].pc.AtToggle?
    ensures sys.procs[j].n in sys.nodes
    ensures Step(c, sys, j).procs[j].pc.AtQuit? || GathersNext(sys.procs, |segs| - 1, j, sys.procs[j].n.h)
  {
    var p, m := sys.procs[j], |segs| - 1;
    assert ProcOk(c, sys.nodes, segs, j, p);
    FlagTellsBalance(c, sys, segs, j);
    if Balanced(m, p.n) {
      FirstArrivalWaits(c, base, sys, segs, j);
      if HasQuit(sys.procs, p.n) {
        var q :| 0 <= q < |sys.procs| && sys.procs[q].pc.AtQuit? && sys.procs[q].n == p.n;
        assert ProcOk(c, sys.nodes, segs, q, sys.procs[q]);
      }
    } else {
      NobodyPassedLone(sys.procs, m, j);
    }
  }

  lemma {:induction false} StepGathers(c: Config, base: map<NodeId, Node>, sys: System, segs: seq<Bytes>, j: nat)
    requires Enabled(c, base, sys, segs, j)
    ensures sys.procs[j].n in sys.nodes
    ensures var p := Step(c, sys, j).procs[j];
            || Reach(p) == Reach(sys.procs[j])
            || (Reach(p) == Reach(sys.procs[j]) + 1 && GathersNext(sys.procs, |segs| - 1, j, Reach(p)) && !p.pc.AtQuit?)
  {
    assert ProcOk(c, sys.nodes, segs, j, sys.procs[j]);
    if sys.procs[j].pc.AtToggle? {
      ToggleGathers(c, base, sys, segs, j);
    }
  }

  lemma {:induction false} NobodyPassedLone(procs: seq<Proc>, m: nat, j: nat)
    requires Unique(procs) && j < |procs| <= m + 1 && procs[j].pc.AtToggle?
    requires procs[j].n.x == Anc(j, procs[j].n.h) && !Balanced(m, procs[j].n)
    ensures GathersNext(procs, m, j, procs[j].n.h)
  {
    var n := procs[j].n;
    if HasPassed(procs, n) {
      var l :| 0 <= l < |procs| && Reach(procs[l]) >= n.h && Anc(l, n.h) == n.x;
      if n.h > 0 {
        UnbalancedIsOnPath(m, l, n.h);
        UnbalancedIsOnPath(m, j, n.h);
      }
      assert false;
    }
  }

  lemma {:induction false} StepKeepsGathering(c: Config, base: map<NodeId, Node>, sys: System, segs: seq<Bytes>, j: nat)
    requires Enabled(c, base, sys, segs, j)
    ensures sys.procs[j].n in sys.nodes
    ensures Unique(Step(c, sys, j).procs)
    ensures OthersQuit(Step(c, sys, j).procs, |segs| - 1)
  {
    var m := |segs| - 1;
    StepGathers(c, base, sys, segs, j);
    var p := Step(c, sys, j).procs[j];
    assert Step(c, sys, j).procs == sys.procs[j := p];
    if Reach(p) == Reach(sys.procs[j]) {
      SameReachKeeps(sys.procs, m, j, p);
    } else {
      GatherKeepsUnique(sys.procs, m, j, Reach(p), p);
      GatherKeepsOthersQuit(sys.procs, m, j, Reach(p), p);
    }
  }

  // ---------- Toggle counters ----------

  /** What a change of one goroutine does to the arrivals at nodes. */
  lemma {:induction false} ArrivalsFrame(procs: seq<Proc>, j: nat, p: Proc, n: NodeId)
    requires j < |procs| && !procs[j].pc.AtQuit?
    requires Reach(procs[j]) <= Reach(p) <= Reach(procs[j]) + 1
    ensures HasQuit(procs[j := p], n) <==> HasQuit(procs, n) || (p.pc.AtQuit? && p.n == n)
    ensures HasPassed(procs[j := p], n) <==>
            HasPassed(procs, n) || (Reach(p) > Reach(procs[j]) && Reach(p) == n.h && Anc(j, n.h) == n.x)
  {
    var procs' := procs[j := p];
    if HasQuit(procs, n) {
      var q :| 0 <= q < |procs| && procs[q].pc.AtQuit? && procs[q].n == n;
      assert procs'[q].pc.AtQuit? && procs'[q].n == n;
    }
    if p.pc.AtQuit? && p.n == n {
      assert procs'[j].pc.AtQuit? && procs'[j].n == n;
    }
    if HasPassed(procs, n) {
      var l :| 0 <= l < |procs| && Reach(procs[l]) >= n.h && Anc(l, n.h) == n.x;
      assert Reach(procs'[l]) >= n.h && Anc(l, n.h) == n.x;
    }
    if Reach(p) == n.h && Anc(j, n.h) == n.x {
      assert Reach(procs'[j]) >= n.h && Anc(j, n.h) == n.x;
    }
    if HasPassed(procs', n) {
      PassedBefore(procs, j, p, n);
    }
  }

  lemma {:induction false} PassedBefore(procs: seq<Proc>, j: nat, p: Proc, n: NodeId)
    requires j < |procs| && Reach(procs[j]) <= Reach(p) <= Reach(procs[j]) + 1
    requires HasPassed(procs[j := p], n)
    ensures HasPassed(procs, n) || (Reach(p) > Reach(procs[j]) && Reach(p) == n.h && Anc(j, n.h) == n.x)
  {
    var procs' := procs[j := p];
    var l :| 0 <= l < |procs'| && Reach(procs'[l]) >= n.h && Anc(l, n.h) == n.x;
    if l != j || Reach(p) == Reach(procs[j]) || Reach(p) > n.h {
      assert Reach(procs[l]) >= n.h && Anc(l, n.h) == n.x;
    }
  }

  /** Counters stay right while nobody arrives at or leaves a node above the leaves. */
  lemma {:induction false} QuietFrame(nodes: map<NodeId, Node>, nodes': map<NodeId, Node>, base: map<NodeId, Node>,
                                      procs: seq<Proc>, m: nat, j: nat, p: Proc)
    requires nodes.Keys == nodes'.Keys == base.Keys && TogglesOk(nodes, base, procs, m)
    requires forall n | n in nodes :: nodes'[n].state == nodes[n].state
    requires j < |procs| && !procs[j].pc.AtQuit? && !p.pc.AtQuit?
    requires Reach(procs[j]) == Reach(p) || (Reach(procs[j]) == -1 && Reach(p) == 0)
    ensures TogglesOk(nodes', base, procs[j := p], m)
  {
    forall n | n in nodes'
      ensures CountOk(nodes', base, procs[j := p], m, n)
    {
      assert CountOk(nodes, base, procs, m, n);
      ArrivalsFrame(procs, j, p, n);
    }
  }

  /** Counters stay right when goroutine j toggles a balanced node. */
  lemma {:induction false} CountedFrame(nodes: map<NodeId, Node>, base: map<NodeId, Node>, procs: seq<Proc>, m: nat,
                                        j: nat, p: Proc, node: Node)
    requires nodes.Keys == base.Keys && TogglesOk(nodes, base, procs, m)
    requires j < |procs| && procs[j].pc.AtToggle? && p.n == procs[j].n && p.n.x == Anc(j, p.n.h)
    requires p.n in nodes && Balanced(m, p.n) && p.n.h <= RootHeight(m) && !HasPassed(procs, p.n)
    requires if HasQuit(procs, p.n) then p.pc.AtCombine? else p.pc.AtQuit?
    requires node.state == Increment(nodes[p.n].state)
    ensures TogglesOk(nodes[p.n := node], base, procs[j := p], m)
  {
    forall n | n in nodes
      ensures CountOk(nodes[p.n := node], base, procs[j := p], m, n)
    {
      assert CountOk(nodes, base, procs, m, n);
      ArrivalsFrame(procs, j, p, n);
    }
  }

  /** Counters stay right when goroutine j goes past a node that is not balanced. */
  lemma {:induction false} LoneFrame(nodes: map<NodeId, Node>, base: map<NodeId, Node>, procs: seq<Proc>, m: nat,
                                     j: nat, p: Proc)
    requires nodes.Keys == base.Keys && TogglesOk(nodes, base, procs, m)
    requires j < |procs| && procs[j].pc.AtToggle? && p.n == procs[j].n && p.n.x == Anc(j, p.n.h)
    requires !Balanced(m, p.n) && p.pc.AtCombine?
    ensures TogglesOk(nodes, base, procs[j := p], m)
  {
    forall n | n in nodes
      ensures CountOk(nodes, base, procs[j := p], m, n)
    {
      assert CountOk(nodes, base, procs, m, n);
      ArrivalsFrame(procs, j, p, n);
    }
  }

  /** What goroutine j finds when it is about to toggle its node. */
  ghost predicate TogglesRightly(sys: System, m: nat, j: nat)
    requires j < |sys.procs| && sys.procs[j].n in sys.nodes
  {
    var n := sys.procs[j].n;
    && n.h <= RootHeight(m) && n.x == Anc(j, n.h)
    && sys.nodes[n].unbalanced == !Balanced(m, n)
    && (Balanced(m, n) ==> !HasPassed(sys.procs, n) && (Toggle(sys.nodes[n].state).1 <==> !HasQuit(sys.procs, n)))
  }

  lemma {:induction false} ToggleIsRight(c: Config, base: map<NodeId, Node>, sys: System, segs: seq<Bytes>, j: nat)
    requires Enabled(c, base, sys, segs, j) && sys.procs[j].pc.AtToggle? && sys.procs[j].n in sys.nodes
    ensures TogglesRightly(sys, |segs| - 1, j)
  {
    assert ProcOk(c, sys.nodes, segs, j, sys.procs[j]);
    FlagTellsBalance(c, sys, segs, j);
    if Balanced(|segs| - 1, sys.procs[j].n) {
      FirstArrivalWaits(c, base, sys, segs, j);
    }
  }

  /** The counters after a step of goroutine j. */
  lemma {:induction false} StepKeepsToggles(c: Config, base: map<NodeId, Node>, sys: System, m: nat, j: nat,
                                            next: System)
    requires j < |sys.procs| && Runnable(sys.procs[j]) && sys.procs[j].n in sys.nodes && next == Step(c, sys, j)
    requires sys.procs[j].pc.AtLeaf? ==> sys.procs[j].n.h == 0
    requires sys.nodes.Keys == base.Keys && TogglesOk(sys.nodes, base, sys.procs, m)
    requires sys.procs[j].pc.AtToggle? ==> TogglesRightly(sys, m, j)
    ensures next.nodes.Keys == base.Keys && TogglesOk(next.nodes, base, next.procs, m)
  {
    var p := sys.procs[j];
    if !p.pc.AtToggle? {
      QuietFrame(sys.nodes, next.nodes, base, sys.procs, m, j, next.procs[j]);
    } else if Balanced(m, p.n) {
      CountedFrame(sys.nodes, base, sys.procs, m, j, next.procs[j], next.nodes[p.n]);
    } else {
      assert next.nodes == sys.nodes;
      LoneFrame(sys.nodes, base, sys.procs, m, j, next.procs[j]);
    }
  }

  // ---------- Results and flags ----------

  lemma {:induction false} FinalOfOne(c: Config, segs: seq<Bytes>)
    requires |segs| == 1
    ensures RootHeight(|segs| - 1) == 0 && FinalValue(c, segs) == c.hash(segs[0])
  {
  }

  lemma {:induction false} EmitsFinal(c: Config, nodes: map<NodeId, Node>, segs: seq<Bytes>, j: nat, p: Proc)
    requires j < |segs| && p.pc.AtEmit? && ProcOk(c, nodes, segs, j, p) && p.n.h == RootHeight(|segs| - 1)
    ensures p.s == FinalValue(c, segs)
  {
    var m := |segs| - 1;
    RootHeightIsLeast(m, p.n.h);
    AncMonotone(j, m, p.n.h);
    assert p.n.x == 0;
  }

  /** The goroutine that sends is at the root, and sends its value. */
  lemma {:induction false} SendsRootValue(c: Config, base: map<NodeId, Node>, sys: System, segs: seq<Bytes>, j: nat)
    requires Enabled(c, base, sys, segs, j)
    ensures sys.procs[j].n in sys.nodes
    ensures Step(c, sys, j).procs[j].pc.AtSent? ==> Step(c, sys, j).results == sys.results + [FinalValue(c, segs)]
    ensures Step(c, sys, j).procs[j].pc.AtSent? ==> Reach(Step(c, sys, j).procs[j]) == RootHeight(|segs| - 1)
    ensures !Step(c, sys, j).procs[j].pc.AtSent? ==> Step(c, sys, j).results == sys.results
  {
    var p := sys.procs[j];
    assert ProcOk(c, sys.nodes, segs, j, p);
    if p.pc.AtLeaf? {
      LeafStep(c, base, sys, segs, j);
      if |segs| == 1 {
        FinalOfOne(c, segs);
      }
    } else if p.pc.AtEmit? {
      RootFlag(c, base, sys, segs, j);
      if p.n.h == RootHeight(|segs| - 1) {
        EmitsFinal(c, sys.nodes, segs, j, p);
      }
    }
  }

  lemma {:induction false} OneAtRoot(c: Config, nodes: map<NodeId, Node>, procs: seq<Proc>, segs: seq<Bytes>, j: nat,
                                     k: nat)
    requires |procs| <= |segs| && ProcsOk(c, nodes, procs, segs) && Unique(procs)
    requires j < |procs| && k < |procs| && Reach(procs[j]) == Reach(procs[k]) == RootHeight(|segs| - 1)
    ensures j == k
  {
    var r, m := RootHeight(|segs| - 1), |segs| - 1;
    RootHeightIsLeast(m, r);
    AncMonotone(j, m, r);
    AncMonotone(k, m, r);
    assert Anc(j, r) == Anc(k, r);
  }

  /** Results after a step that leads to procs and results. */
  lemma {:induction false} ResultsFrame(c: Config, nodes: map<NodeId, Node>, before: System, procs: seq<Proc>,
                                        results: seq<Bytes>, segs: seq<Bytes>, j: nat)
    requires |procs| <= |segs| && ProcsOk(c, nodes, procs, segs) && Unique(procs)
    requires |segs| > 0 && ResultsOk(c, before.procs, before.results, segs)
    requires |procs| == |before.procs| && j < |procs| && procs == before.procs[j := procs[j]]
    requires !before.procs[j].pc.AtSent?
    requires procs[j].pc.AtSent? ==>
               results == before.results + [FinalValue(c, segs)] && Reach(procs[j]) == RootHeight(|segs| - 1)
    requires !procs[j].pc.AtSent? ==> results == before.results
    ensures ResultsOk(c, procs, results, segs)
  {
    if exists k | 0 <= k < |procs| :: before.procs[k].pc.AtSent? {
      var k :| 0 <= k < |procs| && before.procs[k].pc.AtSent?;
      assert procs[k].pc.AtSent? && ProcOk(c, nodes, segs, k, procs[k]);
      if procs[j].pc.AtSent? {
        OneAtRoot(c, nodes, procs, segs, j, k);
      }
    }
  }

  lemma {:induction false} FlagsFrame(c: Config, sys: System, segs: seq<Bytes>, j: nat)
    requires |sys.procs| <= |segs| && j < |sys.procs| && Runnable(sys.procs[j])
    requires ProcOk(c, sys.nodes, segs, j, sys.procs[j]) && FlagsOk(c, sys.nodes, |sys.procs|, segs)
    ensures Step(c, sys, j).nodes.Keys == sys.nodes.Keys
    ensures FlagsOk(c, Step(c, sys, j).nodes, |sys.procs|, segs)
  {
    var p, m := sys.procs[j], |segs| - 1;
    if p.pc.AtStore? && !p.isLeft {
      AncMonotone(j, m, p.n.h - 1);
      assert Balanced(m, p.n);
    }
    FlagsKept(c, sys.nodes, |sys.procs|, segs, p.n, StepNode(p, sys.nodes[p.n]));
  }

  lemma {:induction false} FlagsKept(c: Config, nodes: map<NodeId, Node>, k: nat, segs: seq<Bytes>, n: NodeId,
                                     node: Node)
    requires |segs| > 0 && n in nodes && FlagsOk(c, nodes, k, segs)
    requires node.unbalanced == nodes[n].unbalanced && node.root == nodes[n].root
    requires node.unbalanced ==> node.right == []
    ensures nodes[n := node].Keys == nodes.Keys && FlagsOk(c, nodes[n := node], k, segs)
  {
  }

  lemma {:induction false} StepKeepsPlaces(c: Config, base: map<NodeId, Node>, sys: System, segs: seq<Bytes>, j: nat,
                                           next: System)
    requires Enabled(c, base, sys, segs, j) && sys.procs[j].n in sys.nodes && next == Step(c, sys, j)
    ensures ShapeOk(c, next.nodes, base, |next.procs|, segs)
    ensures ProcsOk(c, next.nodes, next.procs, segs)
    ensures Unique(next.procs) && OthersQuit(next.procs, |segs| - 1)
  {
    StepKeepsProcs(c, base, sys, segs, j);
    StepKeepsGathering(c, base, sys, segs, j);
  }

  ghost function EnabledSystems(c: Config, base: map<NodeId, Node>, segs: seq<Bytes>, j: nat): iset<System> {
    iset sys: System | Enabled(c, base, sys, segs, j)
  }

  lemma {:induction false} TogglesNow(c: Config, base: map<NodeId, Node>, sys: System, segs: seq<Bytes>, j: nat)
    requires j < |sys.procs| && sys in EnabledSystems(c, base, segs, j)
    ensures |segs| > 0 && sys.nodes.Keys == base.Keys && TogglesOk(sys.nodes, base, sys.procs, |segs| - 1)
    ensures sys.procs[j].n in sys.nodes && (sys.procs[j].pc.AtLeaf? ==> sys.procs[j].n.h == 0)
    ensures sys.procs[j].pc.AtToggle? ==> TogglesRightly(sys, |segs| - 1, j)
  {
    AtItsNode(c, base, sys, segs, j);
    if sys.procs[j].pc.AtToggle? {
      ToggleIsRight(c, base, sys, segs, j);
    }
  }

  lemma {:induction false} StepKeepsMarks(c: Config, base: map<NodeId, Node>, sys: System, segs: seq<Bytes>, j: nat,
                                          next: System)
    requires j < |sys.procs| && Runnable(sys.procs[j]) && sys.procs[j].n in sys.nodes && next == Step(c, sys, j)
    requires sys in EnabledSystems(c, base, segs, j) && |segs| > 0
    ensures next.nodes.Keys == base.Keys && TogglesOk(next.nodes, base, next.procs, |segs| - 1)
  {
    TogglesNow(c, base, sys, segs, j);
    StepKeepsToggles(c, base, sys, |segs| - 1, j, next);
  }

  /** Every step of every goroutine keeps the invariant. */
  lemma {:induction false} StepKeepsInv(c: Config, base: map<NodeId, Node>, sys: System, segs: seq<Bytes>, j: nat)
    requires Enabled(c, base, sys, segs, j)
    ensures sys.procs[j].n in sys.nodes
    ensures Inv(c, base, Step(c, sys, j), segs)
  {
    AtItsNode(c, base, sys, segs, j);
    var next := Step(c, sys, j);
    StepKeepsPlaces(c, base, sys, segs, j, next);
    StepKeepsMarks(c, base, sys, segs, j, next);
    assert FlagsOk(c, next.nodes, |next.procs|, segs) by {
      assert ProcOk(c, sys.nodes, segs, j, sys.procs[j]);
      FlagsFrame(c, sys, segs, j);
    }
    assert ResultsOk(c, next.procs, next.results, segs) by {
      SendsRootValue(c, base, sys, segs, j);
      ResultsFrame(c, next.nodes, sys, next.procs, next.results, segs, j);
    }
  }

  // ---------- Runs ----------

  /** All goroutines have returned or sent. */
  predicate AllDone(procs: seq<Proc>) {
    forall j | 0 <= j < |procs| :: !Runnable(procs[j])
  }

  /** A finished goroutine that has gathered no more than a child of (h, x) waited in (h, x). */
  lemma {:induction false} WaitedInParent(c: Config, nodes: map<NodeId, Node>, segs: seq<Bytes>, j: nat, p: Proc,
                                          h: nat)
    requires j < |segs| && ProcOk(c, nodes, segs, j, p) && !Runnable(p)
    requires 0 < h <= RootHeight(|segs| - 1) && Reach(p) == h - 1
    ensures p.pc.AtQuit? && p.n == NodeId(h, Anc(j, h)) && Balanced(|segs| - 1, p.n)
  {
  }

  /** Of two finished goroutines that have gathered the two children of a node, one has gathered the node. */
  lemma OneClimbs(c: Config, nodes: map<NodeId, Node>, procs: seq<Proc>, segs: seq<Bytes>, h: nat, x: nat, j: nat,
                  r: nat)
    requires |procs| == |segs| > 0 && ProcsOk(c, nodes, procs, segs) && OneWaitsPerNode(procs) && AllDone(procs)
    requires 0 < h <= RootHeight(|segs| - 1) && j < |procs| && r < |procs| && j != r
    requires Reach(procs[j]) == h - 1 && Anc(j, h) == x && Reach(procs[r]) >= h - 1 && Anc(r, h) == x
    ensures Reach(procs[r]) >= h
  {
    WaitedInParent(c, nodes, segs, j, procs[j], h);
    if Reach(procs[r]) < h {
      WaitedInParent(c, nodes, segs, r, procs[r], h);
      assert false;
    }
  }

  /** In a finished run every node in use was gathered by some goroutine. */
  lemma {:induction false} GathererOf(c: Config, nodes: map<NodeId, Node>, procs: seq<Proc>, segs: seq<Bytes>, h: nat,
                                      x: nat) returns (j: nat)
    requires |procs| == |segs| > 0 && ProcsOk(c, nodes, procs, segs) && OneWaitsPerNode(procs) && AllDone(procs)
    requires Live(|segs| - 1, NodeId(h, x))
    ensures j < |procs| && Reach(procs[j]) >= h && Anc(j, h) == x
    decreases h
  {
    if h == 0 {
      j := x;
      assert ProcOk(c, nodes, segs, j, procs[j]);
    } else {
      j := GathererOf(c, nodes, procs, segs, h - 1, 2 * x);
      if Reach(procs[j]) < h {
        WaitedInParent(c, nodes, segs, j, procs[j], h);
        var r := GathererOf(c, nodes, procs, segs, h - 1, 2 * x + 1);
        OneClimbs(c, nodes, procs, segs, h, x, j, r);
        j := r;
      }
    }
  }

  lemma BalancedIsLive(m: nat, n: NodeId)
    requires Balanced(m, n) && n.h <= RootHeight(m)
    ensures Live(m, n)
  {
  }

  lemma {:induction false} FinishedCount(c: Config, base: map<NodeId, Node>, sys: System, segs: seq<Bytes>, n: NodeId)
    requires |sys.procs| == |segs| > 0 && n in sys.nodes && n in base
    requires CountOk(sys.nodes, base, sys.procs, |segs| - 1, n)
    requires ProcsOk(c, sys.nodes, sys.procs, segs) && OneWaitsPerNode(sys.procs) && AllDone(sys.procs)
    ensures sys.nodes[n].state == Advance(base[n].state, Uses(|segs| - 1, n))
  {
    var m := |segs| - 1;
    if Balanced(m, n) && n.h <= RootHeight(m) {
      BalancedIsLive(m, n);
      var l := GathererOf(c, sys.nodes, sys.procs, segs, n.h, n.x);
      assert HasPassed(sys.procs, n);
    }
  }

  /**
    A finished run has sent exactly one result, the value of the root; the counter of
    every node with two halves has gone up by two and every other counter is unchanged.
   */
  lemma {:induction false} FinishedRun(c: Config, base: map<NodeId, Node>, sys: System, segs: seq<Bytes>)
    requires Inv(c, base, sys, segs) && |sys.procs| == |segs| && AllDone(sys.procs)
    ensures sys.results == [FinalValue(c, segs)]
    ensures forall n | n in sys.nodes :: sys.nodes[n].state == Advance(base[n].state, Uses(|segs| - 1, n))
  {
    var m := |segs| - 1;
    RootHeightIsLeast(m, RootHeight(m));
    var j := GathererOf(c, sys.nodes, sys.procs, segs, RootHeight(m), 0);
    assert ProcOk(c, sys.nodes, segs, j, sys.procs[j]);
    assert sys.procs[j].pc.AtSent?;
    forall n | n in sys.nodes
      ensures sys.nodes[n].state == Advance(base[n].state, Uses(m, n))
    {
      assert CountOk(sys.nodes, base, sys.procs, m, n);
      FinishedCount(c, base, sys, segs, n);
    }
  }

  /** Once a result is sent, the last goroutine has been launched and all have finished. */
  lemma {:induction false} ResultMeansFinished(c: Config, base: map<NodeId, Node>, sys: System, segs: seq<Bytes>)
    requires Inv(c, base, sys, segs) && sys.results != []
    ensures |sys.procs| == |segs| && AllDone(sys.procs)
  {
    var m := |segs| - 1;
    var j :| 0 <= j < |sys.procs| && sys.procs[j].pc.AtSent?;
    assert ProcOk(c, sys.nodes, segs, j, sys.procs[j]);
    var r := RootHeight(m);
    RootHeightIsLeast(m, r);
    AncMonotone(j, m, r);
    GatheredPathIsFinal(sys.procs, m, j, r);
    forall k | 0 <= k < |sys.procs|
      ensures !Runnable(sys.procs[k])
    {
      AncMonotone(k, m, r);
      assert Anc(k, Reach(sys.procs[j])) == Anc(j, Reach(sys.procs[j]));
    }
  }

  /** Steps that goroutine p can still take. */
  function Rank(depth: nat, p: Proc): nat {
    var above := if p.n.h <= depth then 5 * (depth - p.n.h) else 0;
    match p.pc
    case AtLeaf => above + 4
    case AtStore => above + 4
    case AtToggle => above + 3
    case AtCombine => above + 2
    case AtEmit => above + 1
    case _ => 0
  }

  function TotalRank(depth: nat, procs: seq<Proc>): nat {
    if |procs| == 0 then 0 else Rank(depth, procs[0]) + TotalRank(depth, procs[1..])
  }

  lemma {:induction false} TotalRankUpdate(depth: nat, procs: seq<Proc>, j: nat, p: Proc)
    requires j < |procs|
    ensures TotalRank(depth, procs[j := p]) == TotalRank(depth, procs) - Rank(depth, procs[j]) + Rank(depth, p)
  {
    if j > 0 {
      TotalRankUpdate(depth, procs[1..], j - 1, p);
      assert procs[j := p][1..] == procs[1..][j - 1 := p];
    } else {
      assert procs[j := p][1..] == procs[1..];
    }
  }

  lemma {:induction false} ProcStepLowersRank(c: Config, nodes: map<NodeId, Node>, nodes': map<NodeId, Node>,
                                              segs: seq<Bytes>, j: nat, p: Proc)
    requires j < |segs| && Runnable(p) && ProcOk(c, nodes, segs, j, p) && RootHeight(|segs| - 1) <= c.depth
    requires ProcOk(c, nodes', segs, j, StepProc(c, p, nodes[p.n]))
    ensures Rank(c.depth, StepProc(c, p, nodes[p.n])) < Rank(c.depth, p)
  {
  }

  /** Every step uses up rank, so every run is finite. */
  lemma {:induction false} StepLowersRank(c: Config, base: map<NodeId, Node>, sys: System, segs: seq<Bytes>, j: nat)
    requires Enabled(c, base, sys, segs, j)
    ensures sys.procs[j].n in sys.nodes
    ensures TotalRank(c.depth, Step(c, sys, j).procs) < TotalRank(c.depth, sys.procs)
  {
    StepKeepsSelf(c, base, sys, segs, j);
    LiveNodeExists(c, sys.nodes, base, |sys.procs|, segs, NodeId(0, 0));
    ProcStepLowersRank(c, sys.nodes, Step(c, sys, j).nodes, segs, j, sys.procs[j]);
    TotalRankUpdate(c.depth, sys.procs, j, Step(c, sys, j).procs[j]);
  }

  /** A schedule lists which goroutine acts next; goroutines that are done do nothing. */
  ghost function Run(c: Config, sys: System, schedule: seq<nat>): System
    decreases |schedule|
  {
    if schedule == [] then sys
    else
      var j := schedule[0];
      if j < |sys.procs| && Runnable(sys.procs[j]) && sys.procs[j].n in sys.nodes
      then Run(c, Step(c, sys, j), schedule[1..])
      else Run(c, sys, schedule[1..])
  }

  /**
    Under every schedule: the invariant holds throughout, at most one result is sent,
    and when nobody can act any more exactly the value of the root has been sent.
   */
  lemma {:induction false} EveryScheduleSendsRootValue(c: Config, base: map<NodeId, Node>, sys: System,
                                                       segs: seq<Bytes>, schedule: seq<nat>)
    requires Inv(c, base, sys, segs) && |sys.procs| == |segs|
    ensures var end := Run(c, sys, schedule);
            && Inv(c, base, end, segs)
            && |end.procs| == |segs|
            && (end.results == [] || end.results == [FinalValue(c, segs)])
            && (AllDone(end.procs) <==> end.results == [FinalValue(c, segs)])
    decreases |schedule|
  {
    if schedule == [] {
      if AllDone(sys.procs) {
        FinishedRun(c, base, sys, segs);
      } else if sys.results != [] {
        ResultMeansFinished(c, base, sys, segs);
      }
    } else {
      var j := schedule[0];
      if j < |sys.procs| && Runnable(sys.procs[j]) && sys.procs[j].n in sys.nodes {
        StepKeepsInv(c, base, sys, segs, j);
        EveryScheduleSendsRootValue(c, base, Step(c, sys, j), segs, schedule[1..]);
      } else {
        EveryScheduleSendsRootValue(c, base, sys, segs, schedule[1..]);
      }
    }
  }
}
