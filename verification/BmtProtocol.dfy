/**
  The goroutines of the pooled BMT hasher (bmt/bmt.go) as a state machine.

  One goroutine is launched per double segment and climbs the tree. Each atomic
  action of `run` is one transition: store the incoming value, toggle the node,
  combine the two halves, check for the root. Goroutines interleave arbitrarily.

  A node is named by its height above the leaves and its index in its level, so the
  parent of (h, x) is (h + 1, x / 2), a node is a left child iff x is even, and it
  is `initial` iff x is 0. The top of the tree has height `depth`.
 */
module BmtProtocol {
  import opened BmtReference

  datatype NodeId = NodeId(h: nat, x: nat)

  /** A tree node; `state` is the 32-bit toggle counter. */
  datatype Node = Node(left: Bytes, right: Bytes, state: Int32, unbalanced: bool, root: bool)

  datatype Pc = AtLeaf | AtStore | AtToggle | AtCombine | AtEmit | AtQuit | AtSent

  /** The local variables of one goroutine. */
  datatype Proc = Proc(pc: Pc, n: NodeId, isLeft: bool, i: nat, d: nat, s: Bytes)

  datatype Config = Config(hash: BaseHash, size: nat, depth: nat)

  datatype System = System(nodes: map<NodeId, Node>, procs: seq<Proc>, results: seq<Bytes>)

  // ---------- Node.toggle on a 32-bit counter ----------

  type Int32 = x: int | -0x8000_0000 <= x < 0x8000_0000

  /** Adding 1 to a 32-bit counter, atomic.AddInt32(&state, 1). */
  function Increment(x: Int32): Int32 {
    if x == 0x7fff_ffff then -0x8000_0000 else x + 1
  }

  function Advance(x: Int32, times: nat): Int32 {
    if times == 0 then x else Increment(Advance(x, times - 1))
  }

  /** x % 2 with the sign of x, as Go computes it. */
  function RemainderOfTwo(x: int): int {
    if x < 0 then -((-x) % 2) else x % 2
  }

  /** The counter after a toggle, and whether the caller has to wait for its sibling. */
  function Toggle(state: Int32): (Int32, bool) {
    var t := Increment(state);
    (t, RemainderOfTwo(t) == 1)
  }

  /**
    The first of two arrivals waits exactly when the counter is even and has not
    wrapped around to negative values; an odd counter never makes the caller wait.
   */
  lemma {:induction false} ToggleWaitsIff(state: Int32)
    ensures Toggle(state).1 <==> state % 2 == 0 && state >= 0
  {
    if state == 0x7fff_ffff {
      assert Toggle(state).0 == -0x8000_0000;
    } else {
      assert Toggle(state).0 == state + 1;
    }
  }

  /** At a counter that has wrapped, neither of the next two arrivals waits, as long as it stays negative. */
  lemma {:induction false} ToggleFailsAfterWrap(state: Int32)
    requires state < -1
    ensures !Toggle(state).1 && Toggle(state).0 == state + 1
    ensures !Toggle(Toggle(state).0).1
  {
    ToggleWaitsIff(state);
    ToggleWaitsIff(state + 1);
  }

  // ---------- Ancestors ----------

  /** Index of the ancestor, at height h, of leaf j. */
  function Anc(j: nat, h: nat): nat {
    if h == 0 then j else Anc(j, h - 1) / 2
  }

  lemma {:induction false} AncMonotone(j: nat, k: nat, h: nat)
    requires j <= k
    ensures Anc(j, h) <= Anc(k, h)
  {
    if h > 0 {
      AncMonotone(j, k, h - 1);
    }
  }

  lemma {:induction false} AncShift(j: nat, h: nat)
    ensures Anc(j, h + 1) == Anc(j / 2, h)
  {
    if h > 0 {
      AncShift(j, h - 1);
    }
  }

  lemma {:induction false} AncStaysEqual(j: nat, k: nat, g: nat, h: nat)
    requires g <= h && Anc(j, g) == Anc(k, g)
    ensures Anc(j, h) == Anc(k, h)
    decreases h
  {
    if g < h {
      AncStaysEqual(j, k, g, h - 1);
    }
  }

  lemma {:induction false} AncBelow(j: nat, d: nat, h: nat)
    requires h <= d && j < Pow2(d)
    ensures Anc(j, h) < Pow2(d - h)
  {
    if h > 0 {
      AncBelow(j, d, h - 1);
    }
  }

  /** Height of the root of the smallest tree whose last leaf is m. */
  function RootHeight(m: nat): nat {
    if m == 0 then 0 else 1 + RootHeight(m / 2)
  }

  lemma {:induction false} RootHeightIsLeast(m: nat, h: nat)
    ensures Anc(m, h) == 0 <==> RootHeight(m) <= h
  {
    if m > 0 && h > 0 {
      AncShift(m, h - 1);
      RootHeightIsLeast(m / 2, h - 1);
    } else if m == 0 && h > 0 {
      RootHeightIsLeast(m, h - 1);
    }
  }

  /** A node has two non-empty halves when m is the last leaf in use. */
  predicate Balanced(m: nat, n: NodeId) {
    n.h > 0 && 2 * n.x + 1 <= Anc(m, n.h - 1)
  }

  /** A node of the smallest tree with last leaf m whose left half is not empty. */
  predicate Live(m: nat, n: NodeId) {
    n.h <= RootHeight(m) && n.x <= Anc(m, n.h)
  }

  /** How often the counter of node n is toggled in a run whose last leaf is m. */
  function Uses(m: nat, n: NodeId): nat {
    if Live(m, n) && Balanced(m, n) then 2 else 0
  }

  predicate OnPath(m: nat, n: NodeId) {
    n.x == Anc(m, n.h)
  }

  predicate InTree(depth: nat, n: NodeId) {
    n.h <= depth && n.x < Pow2(depth - n.h)
  }

  lemma {:induction false} LiveInTree(m: nat, depth: nat, n: NodeId)
    requires m < Pow2(depth) && Live(m, n)
    ensures InTree(depth, n)
    ensures RootHeight(m) <= depth
  {
    AncBelow(m, depth, depth);
    RootHeightIsLeast(m, depth);
    AncBelow(m, depth, n.h);
  }

  // ---------- What every node has to compute ----------

  /** What leaf j hands to its parent; with a single leaf it is the result. */
  function Token(c: Config, segs: seq<Bytes>, j: nat): Bytes
    requires j < |segs|
  {
    if |segs| == 1 || |segs[j]| > c.size then c.hash(segs[j]) else segs[j]
  }

  /** The value of node (h, x) over the double segments segs. */
  function Value(c: Config, segs: seq<Bytes>, h: nat, x: nat): Bytes
    requires |segs| > 0 && x <= Anc(|segs| - 1, h)
    decreases h
  {
    if h == 0 then Token(c, segs, x)
    else if Balanced(|segs| - 1, NodeId(h, x)) then
      c.hash(Value(c, segs, h - 1, 2 * x) + Value(c, segs, h - 1, 2 * x + 1))
    else Value(c, segs, h - 1, 2 * x)
  }

  /** Nodes left of the last leaf's path have both halves full and do not depend on it. */
  lemma {:induction false} ValueOffPath(c: Config, segs: seq<Bytes>, more: seq<Bytes>, h: nat, x: nat)
    requires 0 < |segs| <= |more| && segs[..|segs| - 1] == more[..|segs| - 1]
    requires x < Anc(|segs| - 1, h)
    ensures x < Anc(|more| - 1, h)
    ensures Value(c, segs, h, x) == Value(c, more, h, x)
    decreases h
  {
    AncMonotone(|segs| - 1, |more| - 1, h);
    if h == 0 {
      assert segs[x] == segs[..|segs| - 1][x] == more[..|segs| - 1][x] == more[x];
    } else {
      ValueOffPath(c, segs, more, h - 1, 2 * x);
      ValueOffPath(c, segs, more, h - 1, 2 * x + 1);
    }
  }

  /** What goroutine j brings into its ancestor at height h, and on which side. */
  function Incoming(c: Config, segs: seq<Bytes>, j: nat, h: nat): Bytes
    requires j < |segs|
  {
    if h == 0 then segs[j]
    else
      AncMonotone(j, |segs| - 1, h - 1);
      Value(c, segs, h - 1, Anc(j, h - 1))
  }

  predicate FromLeft(j: nat, h: nat) {
    h == 0 || Anc(j, h - 1) % 2 == 0
  }

  // ---------- Transitions ----------

  predicate Runnable(p: Proc) {
    !p.pc.AtQuit? && !p.pc.AtSent?
  }

  function Parent(n: NodeId): NodeId {
    NodeId(n.h + 1, n.x / 2)
  }

  /** The double segment that writeSegment hands to the goroutine of leaf j. */
  function Launched(c: Config, j: nat, s: Bytes, d: nat): Proc {
    if |s| > c.size && c.depth > 0
    then Proc(AtLeaf, NodeId(0, j), true, j, d, s)
    else Proc(AtStore, NodeId(0, j), true, 2 * j, d, s)
  }

  /** What one atomic action of goroutine p does to the node n it is at. */
  function StepNode(p: Proc, n: Node): Node {
    match p.pc
    case AtStore => if p.isLeft then n.(left := p.s) else n.(right := p.s)
    case AtToggle => if n.unbalanced then n else n.(state := Toggle(n.state).0)
    case _ => n
  }

  /** What one atomic action of goroutine p does to its own variables. */
  function StepProc(c: Config, p: Proc, n: Node): Proc {
    match p.pc
    case AtLeaf =>
      if n.root then p.(pc := AtSent, s := c.hash(p.s))
      else p.(pc := AtStore, n := Parent(p.n), isLeft := p.n.x % 2 == 0, i := p.n.x, s := c.hash(p.s))
    case AtStore => p.(pc := AtToggle)
    case AtToggle =>
      if !n.unbalanced && Toggle(n.state).1 then p.(pc := AtQuit) else p.(pc := AtCombine)
    case AtCombine =>
      p.(pc := AtEmit,
         s := if !n.unbalanced || !p.isLeft || (p.i == 0 && p.d == 0)
              then c.hash(n.left + n.right) else n.left + n.right)
    case AtEmit =>
      if n.root then p.(pc := AtSent)
      else p.(pc := AtStore, n := Parent(p.n), isLeft := p.n.x % 2 == 0, i := p.i + 1)
    case _ => p
  }

  /** One atomic action of goroutine j. */
  function Step(c: Config, sys: System, j: nat): System
    requires j < |sys.procs| && sys.procs[j].n in sys.nodes
  {
    var p := sys.procs[j];
    var n := sys.nodes[p.n];
    var p' := StepProc(c, p, n);
    System(sys.nodes[p.n := StepNode(p, n)],
           sys.procs[j := p'],
           if p'.pc.AtSent? && Runnable(p) then sys.results + [p'.s] else sys.results)
  }

  // ---------- Invariant ----------

  /** Height up to which goroutine p has gathered everything below it; -1 at the start. */
  function Reach(p: Proc): int {
    match p.pc
    case AtLeaf => -1
    case AtStore => p.n.h - 1
    case AtToggle => p.n.h - 1
    case AtQuit => p.n.h - 1
    case AtCombine => p.n.h
    case AtEmit => p.n.h
    case AtSent => p.n.h
  }

  function Slot(n: Node, isLeft: bool): Bytes {
    if isLeft then n.left else n.right
  }

  /** The last double segment enters its leaf unhashed. */
  predicate LastRaw(c: Config, segs: seq<Bytes>)
    requires |segs| > 0
  {
    |segs| == 1 || |segs[|segs| - 1]| <= c.size
  }

  ghost predicate ShapeOk(c: Config, nodes: map<NodeId, Node>, base: map<NodeId, Node>, k: nat, segs: seq<Bytes>) {
    && c.size > 0
    && 0 < |segs| <= Pow2(c.depth)
    && |segs| - 1 <= k <= |segs|
    && (forall j | 0 <= j < |segs| - 1 :: |segs[j]| > c.size)
    && nodes.Keys == base.Keys
    && (forall n | InTree(c.depth, n) :: n in nodes)
    && CountersOk(base)
  }

  /** All toggle counters are even and have not wrapped, as in a tree that is free for use. */
  ghost predicate CountersOk(nodes: map<NodeId, Node>) {
    forall n | n in nodes :: nodes[n].state >= 0 && nodes[n].state % 2 == 0
  }

  /** Position, local variables and expected node contents of goroutine j. */
  predicate ProcOk(c: Config, nodes: map<NodeId, Node>, segs: seq<Bytes>, j: nat, p: Proc)
    requires j < |segs|
  {
    var m := |segs| - 1;
    && p.n.h <= RootHeight(m) && p.n.x == Anc(j, p.n.h) && p.n in nodes
    && (j < m ==> p.d > 0)
    && (p.i == 0 && p.d == 0 ==> m == 0)
    && (p.n.h == 0 && (p.pc.AtStore? || p.pc.AtToggle? || p.pc.AtCombine?) ==>
          j == m && LastRaw(c, segs) && p.isLeft && (m == 0 ==> p.i == 0 && p.d == 0))
    && (p.pc.AtStore? || p.pc.AtToggle? || p.pc.AtCombine? || p.pc.AtQuit? ==>
          p.isLeft == FromLeft(j, p.n.h))
    && match p.pc
       case AtLeaf => p.n.h == 0 && p.s == segs[j] && |segs[j]| > c.size
       case AtStore => p.s == Incoming(c, segs, j, p.n.h)
       case AtToggle => Slot(nodes[p.n], p.isLeft) == Incoming(c, segs, j, p.n.h)
       case AtQuit => Balanced(m, p.n) && Slot(nodes[p.n], p.isLeft) == Incoming(c, segs, j, p.n.h)
       case AtCombine => BothHalvesWritten(c, nodes, segs, p.n)
       case AtEmit => AncMonotone(j, m, p.n.h); p.s == Value(c, segs, p.n.h, p.n.x)
       case AtSent => p.n.h == RootHeight(m)
  }

  /** A node about to be hashed holds the values of both its halves. */
  predicate BothHalvesWritten(c: Config, nodes: map<NodeId, Node>, segs: seq<Bytes>, n: NodeId)
    requires |segs| > 0 && n in nodes
  {
    var m := |segs| - 1;
    && n.x <= Anc(m, n.h)
    && nodes[n].left == (if n.h == 0 then segs[n.x] else Value(c, segs, n.h - 1, 2 * n.x))
    && nodes[n].right == (if Balanced(m, n) then Value(c, segs, n.h - 1, 2 * n.x + 1) else [])
  }

  predicate ProcsOk(c: Config, nodes: map<NodeId, Node>, procs: seq<Proc>, segs: seq<Bytes>)
    requires |procs| <= |segs|
  {
    forall j {:trigger ProcOk(c, nodes, segs, j, procs[j])} | 0 <= j < |procs| :: ProcOk(c, nodes, segs, j, procs[j])
  }

  /** No two goroutines have both gathered the same node. */
  ghost predicate Unique(procs: seq<Proc>) {
    forall j, k, h: nat | 0 <= j < k < |procs| && h <= Reach(procs[j]) && h <= Reach(procs[k])
      :: Anc(j, h) != Anc(k, h)
  }

  /** All other goroutines below a gathered node have stopped waiting in it or below it. */
  ghost predicate OthersQuit(procs: seq<Proc>, m: nat) {
    forall j, k {:trigger Anc(k, Reach(procs[j]))} | 0 <= j < |procs| && 0 <= k <= m && k != j && Reach(procs[j]) >= 0
                  && Anc(k, Reach(procs[j])) == Anc(j, Reach(procs[j]))
      :: k < |procs| && procs[k].pc.AtQuit?
  }

  ghost predicate HasQuit(procs: seq<Proc>, n: NodeId) {
    exists j | 0 <= j < |procs| :: procs[j].pc.AtQuit? && procs[j].n == n
  }

  ghost predicate HasPassed(procs: seq<Proc>, n: NodeId) {
    exists j | 0 <= j < |procs| :: Reach(procs[j]) >= n.h && Anc(j, n.h) == n.x
  }

  predicate OneWaitsPerNode(procs: seq<Proc>) {
    forall j, k | 0 <= j < k < |procs| && procs[j].pc.AtQuit? && procs[k].pc.AtQuit? :: procs[j].n != procs[k].n
  }

  ghost function Arrivals(procs: seq<Proc>, n: NodeId): nat {
    if !HasQuit(procs, n) then 0 else if !HasPassed(procs, n) then 1 else 2
  }

  /** A node with two halves counts its arrivals, the counter of any other is untouched. */
  ghost predicate CountOk(nodes: map<NodeId, Node>, base: map<NodeId, Node>, procs: seq<Proc>, m: nat, n: NodeId)
    requires n in nodes && n in base
  {
    if Balanced(m, n) && n.h <= RootHeight(m) then
      && (HasPassed(procs, n) ==> HasQuit(procs, n))
      && nodes[n].state == Advance(base[n].state, Arrivals(procs, n))
    else
      nodes[n].state == base[n].state
  }

  ghost predicate TogglesOk(nodes: map<NodeId, Node>, base: map<NodeId, Node>, procs: seq<Proc>, m: nat)
    requires nodes.Keys == base.Keys
  {
    && OneWaitsPerNode(procs)
    && (forall n {:trigger CountOk(nodes, base, procs, m, n)} | n in nodes :: CountOk(nodes, base, procs, m, n))
  }

  /** The value finalise gives to the flag of a node. */
  predicate UnbalancedFlag(c: Config, segs: seq<Bytes>, n: NodeId)
    requires |segs| > 0
  {
    var m := |segs| - 1;
    OnPath(m, n) && n.h <= RootHeight(m) && (if n.h == 0 then LastRaw(c, segs) else Anc(m, n.h - 1) % 2 == 0)
  }

  /**
    Flags away from the last leaf's path, and above the root in use, are clean; on the
    path they are final once the last goroutine runs. No goroutine fills an empty half.
   */
  ghost predicate FlagsOk(c: Config, nodes: map<NodeId, Node>, k: nat, segs: seq<Bytes>)
    requires |segs| > 0
  {
    var m := |segs| - 1;
    && (forall n | n in nodes && !(OnPath(m, n) && n.h <= RootHeight(m)) ::
          !nodes[n].unbalanced && (nodes[n].root <==> n.h == c.depth))
    && (forall n | n in nodes && OnPath(m, n) && Balanced(m, n) :: !nodes[n].unbalanced)
    && (forall n | n in nodes && nodes[n].unbalanced :: nodes[n].right == [])
    && (k == |segs| ==> PathFlagsSet(c, nodes, segs))
  }

  /** The flags that finalise leaves on the last leaf's path, up to the root of the tree in use. */
  ghost predicate PathFlagsSet(c: Config, nodes: map<NodeId, Node>, segs: seq<Bytes>)
    requires |segs| > 0
  {
    forall n | n in nodes && OnPath(|segs| - 1, n) && n.h <= RootHeight(|segs| - 1) ::
      nodes[n].unbalanced == UnbalancedFlag(c, segs, n) && (nodes[n].root <==> n.h == RootHeight(|segs| - 1))
  }

  ghost predicate ResultsOk(c: Config, procs: seq<Proc>, results: seq<Bytes>, segs: seq<Bytes>)
    requires |segs| > 0
  {
    results == if exists j | 0 <= j < |procs| :: procs[j].pc.AtSent? then [FinalValue(c, segs)] else []
  }

  function FinalValue(c: Config, segs: seq<Bytes>): Bytes
    requires |segs| > 0
  {
    RootHeightIsLeast(|segs| - 1, RootHeight(|segs| - 1));
    Value(c, segs, RootHeight(|segs| - 1), 0)
  }

  ghost predicate Inv(c: Config, base: map<NodeId, Node>, sys: System, segs: seq<Bytes>) {
    && ShapeOk(c, sys.nodes, base, |sys.procs|, segs)
    && ProcsOk(c, sys.nodes, sys.procs, segs)
    && Unique(sys.procs)
    && OthersQuit(sys.procs, |segs| - 1)
    && TogglesOk(sys.nodes, base, sys.procs, |segs| - 1)
    && FlagsOk(c, sys.nodes, |sys.procs|, segs)
    && ResultsOk(c, sys.procs, sys.results, segs)
  }
}
