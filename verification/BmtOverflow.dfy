/**
  How often the tree of the pooled BMT hasher can be used: the counters of its nodes are 32-bit and
  are never reset, and a goroutine does not wait at a negative counter.
 */
module BmtOverflow {
  import opened BmtReference
  import opened BmtProtocol
  import opened BmtInterleaving

  /** A node counter stays even and non-negative through one more use iff it is not about to wrap. */
  lemma CounterStaysGoodIff(x: Int32)
    requires x >= 0 && x % 2 == 0
    ensures var y := Advance(x, 2);
            (y >= 0 && y % 2 == 0) <==> x < 0x7fff_fffe
  {
    assert Advance(x, 0) == x;
    assert Advance(x, 1) == Increment(x) == x + 1;
    assert Advance(x, 2) == Increment(x + 1);
  }

  /**
    The counter after so many uses of a new tree: use number 2^30 still begins at a good counter, and
    leaves a negative one to the next.
   */
  lemma {:induction false} CounterAfterUses(k: nat)
    requires k <= 0x4000_0000
    ensures Advance(0, 2 * k) == if k < 0x4000_0000 then 2 * k else -0x8000_0000
  {
    if k > 0 {
      CounterAfterUses(k - 1);
      assert Advance(0, 2 * k) == Increment(Advance(0, 2 * k - 1));
      assert Advance(0, 2 * k - 1) == Increment(Advance(0, 2 * (k - 1)));
    }
  }

  /** Two goroutines for full double segments, below one node whose right half is empty and that is the root in use. */
  ghost function TwoBelow(c: Config, state: Int32, s: Bytes, t: Bytes): System {
    var leaf := Node([], [], 0, false, false);
    System(map[NodeId(0, 0) := leaf, NodeId(0, 1) := leaf, NodeId(1, 0) := Node([], [], state, false, true)],
           [Launched(c, 0, s, c.depth), Launched(c, 1, t, 0)], [])
  }

  /** The top of such a tree after goroutine j has brought its hash there without waiting. */
  ghost function Brought(top: Node, j: nat, h: Bytes): Node
    requires top.state < 0
  {
    if j == 0 then top.(left := h, state := top.state + 1) else top.(right := h, state := top.state + 1)
  }

  lemma RunOneMore(c: Config, sys: System, next: System, j: nat, rest: seq<nat>)
    requires j < |sys.procs| && Runnable(sys.procs[j]) && sys.procs[j].n in sys.nodes && Step(c, sys, j) == next
    ensures Run(c, sys, [j] + rest) == Run(c, next, rest)
  {
    assert ([j] + rest)[1..] == rest;
  }

  /** At the top, with its hash, a goroutine stores it and does not wait. */
  lemma ArrivesAlone(c: Config, sys: System, j: nat, p: Proc, rest: seq<nat>)
    requires j < |sys.procs| && sys.procs[j] == p && p.pc.AtStore? && p.n == NodeId(1, 0) && p.n in sys.nodes
    requires p.isLeft <==> j == 0
    requires !sys.nodes[p.n].unbalanced && sys.nodes[p.n].state < -1
    ensures var top := Brought(sys.nodes[p.n], j, p.s);
            Run(c, sys, [j] + ([j] + rest))
              == Run(c, System(sys.nodes[p.n := top], sys.procs[j := p.(pc := AtCombine)], sys.results), rest)
  {
    var top := Brought(sys.nodes[p.n], j, p.s);
    ToggleFailsAfterWrap(sys.nodes[p.n].state);
    var a := System(sys.nodes[p.n := top.(state := sys.nodes[p.n].state)], sys.procs[j := p.(pc := AtToggle)],
                    sys.results);
    var b := System(sys.nodes[p.n := top], sys.procs[j := p.(pc := AtCombine)], sys.results);
    RunOneMore(c, sys, a, j, [j] + rest);
    RunOneMore(c, a, b, j, rest);
  }

  /** There it combines what is in the node, and sends the result. */
  lemma SendsAlone(c: Config, sys: System, j: nat, p: Proc, rest: seq<nat>)
    requires j < |sys.procs| && sys.procs[j] == p && p.pc.AtCombine? && p.n in sys.nodes
    requires sys.nodes[p.n].root && !sys.nodes[p.n].unbalanced
    ensures var r := c.hash(sys.nodes[p.n].left + sys.nodes[p.n].right);
            Run(c, sys, [j] + ([j] + rest))
              == Run(c, System(sys.nodes, sys.procs[j := p.(pc := AtSent, s := r)], sys.results + [r]), rest)
  {
    var r := c.hash(sys.nodes[p.n].left + sys.nodes[p.n].right);
    assert sys.nodes[p.n := sys.nodes[p.n]] == sys.nodes;
    var a := System(sys.nodes, sys.procs[j := p.(pc := AtEmit, s := r)], sys.results);
    var b := System(sys.nodes, sys.procs[j := p.(pc := AtSent, s := r)], sys.results + [r]);
    RunOneMore(c, sys, a, j, [j] + rest);
    RunOneMore(c, a, b, j, rest);
  }

  /** From its leaf, it hashes its segment and goes to the top first. */
  lemma ClimbsAlone(c: Config, sys: System, j: nat, p: Proc, rest: seq<nat>)
    requires j < |sys.procs| && j < 2 && sys.procs[j] == p && p.pc.AtLeaf? && p.n == NodeId(0, j)
    requires p.n in sys.nodes && !sys.nodes[p.n].root && NodeId(1, 0) in sys.nodes
    requires var top := sys.nodes[NodeId(1, 0)]; top.root && !top.unbalanced && top.state < -1
    ensures var top := Brought(sys.nodes[NodeId(1, 0)], j, c.hash(p.s));
            var r := c.hash(top.left + top.right);
            Run(c, sys, [j, j, j, j, j] + rest) ==
            Run(c,
                System(sys.nodes[NodeId(1, 0) := top], sys.procs[j := Proc(AtSent, NodeId(1, 0), j == 0, j, p.d, r)],
                       sys.results + [r]), rest)
  {
    var q := Proc(AtStore, NodeId(1, 0), j == 0, j, p.d, c.hash(p.s));
    var top := Brought(sys.nodes[NodeId(1, 0)], j, c.hash(p.s));
    var a := System(sys.nodes, sys.procs[j := q], sys.results);
    var b := System(sys.nodes[NodeId(1, 0) := top], sys.procs[j := q.(pc := AtCombine)], sys.results);
    assert sys.nodes[p.n := sys.nodes[p.n]] == sys.nodes;
    RunOneMore(c, sys, a, j, [j] + ([j] + ([j] + ([j] + rest))));
    ArrivesAlone(c, a, j, q, [j] + ([j] + rest));
    assert a.procs[j := q.(pc := AtCombine)] == b.procs;
    SendsAlone(c, b, j, b.procs[j], rest);
    var sent := Proc(AtSent, NodeId(1, 0), j == 0, j, p.d, c.hash(top.left + top.right));
    assert b.procs[j := sent] == sys.procs[j := sent];
    assert [j, j, j, j, j] + rest == [j] + ([j] + ([j] + ([j] + ([j] + rest))));
  }

  /** The system after the first of the two goroutines has gone alone. */
  ghost function OneSent(c: Config, state: Int32, s: Bytes, t: Bytes): System
    requires state < 0
  {
    var sys, id := TwoBelow(c, state, s, t), NodeId(1, 0);
    var r := c.hash(c.hash(s));
    System(sys.nodes[id := Brought(sys.nodes[id], 0, c.hash(s))],
           [Proc(AtSent, id, true, 0, c.depth, r), Launched(c, 1, t, 0)], [r])
  }

  lemma FirstGoesAlone(c: Config, state: Int32, s: Bytes, t: Bytes, rest: seq<nat>)
    requires c.depth == 1 && |s| > c.size && |t| > c.size && state < -2
    ensures Run(c, TwoBelow(c, state, s, t), [0, 0, 0, 0, 0] + rest) == Run(c, OneSent(c, state, s, t), rest)
  {
    var sys, id := TwoBelow(c, state, s, t), NodeId(1, 0);
    ClimbsAlone(c, sys, 0, sys.procs[0], rest);
    var top := Brought(sys.nodes[id], 0, c.hash(s));
    assert top.left + top.right == c.hash(s);
    assert sys.procs[0 := Proc(AtSent, id, true, 0, c.depth, c.hash(c.hash(s)))] == OneSent(c, state, s, t).procs;
    assert sys.results + [c.hash(c.hash(s))] == OneSent(c, state, s, t).results;
  }

  lemma SecondGoesAlone(c: Config, state: Int32, s: Bytes, t: Bytes)
    requires c.depth == 1 && |s| > c.size && |t| > c.size && state < -2
    ensures Run(c, OneSent(c, state, s, t), [1, 1, 1, 1, 1] + []).results
              == [c.hash(c.hash(s)), c.hash(c.hash(s) + c.hash(t))]
  {
    var sys := OneSent(c, state, s, t);
    ClimbsAlone(c, sys, 1, sys.procs[1], []);
  }

  /** Once the counter is negative two results are sent, and the first is without the right half of the data. */
  lemma TwoResultsAfterWrap(c: Config, state: Int32, s: Bytes, t: Bytes)
    requires c.depth == 1 && |s| > c.size && |t| > c.size && state < -2
    ensures Run(c, TwoBelow(c, state, s, t), [0, 0, 0, 0, 0] + ([1, 1, 1, 1, 1] + [])).results
            == [c.hash(c.hash(s)), c.hash(c.hash(s) + c.hash(t))]
  {
    FirstGoesAlone(c, state, s, t, [1, 1, 1, 1, 1] + []);
    SecondGoesAlone(c, state, s, t);
  }
}
