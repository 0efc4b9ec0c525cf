/**
  Hasher of bmt/bmt.go: Write cuts the data into double segments and launches a
  goroutine for each full one, Sum finalises the tree, launches the last goroutine,
  waits for the result and releases the tree. Between any two actions of the hasher's
  own thread the goroutines take any number of steps.
 */
module BmtHasher {
  import opened Options
  import opened BmtReference
  import opened BmtProtocol
  import opened BmtInterleaving
  import opened BmtLifecycle

  // ---------- Double segments of the data ----------

  /** The data cut into double segments; the last one may be short or empty. */
  function Segments(size: nat, d: Bytes): (segs: seq<Bytes>)
    requires size > 0
    ensures |segs| > 0
    ensures |segs| == 1 <==> |d| <= 2 * size
    ensures forall j | 0 <= j < |segs| - 1 :: |segs[j]| == 2 * size
    ensures |segs[|segs| - 1]| <= 2 * size
    ensures |segs| > 1 ==> |segs[|segs| - 1]| > 0
    decreases |d|
  {
    if |d| <= 2 * size then [d] else [d[..2 * size]] + Segments(size, d[2 * size..])
  }

  function LastSegment(size: nat, d: Bytes): Bytes
    requires size > 0
  {
    var segs := Segments(size, d);
    segs[|segs| - 1]
  }

  lemma {:induction false} SegmentsLength(size: nat, d: Bytes)
    requires size > 0
    ensures |d| == 2 * size * (|Segments(size, d)| - 1) + |LastSegment(size, d)|
    decreases |d|
  {
    if |d| > 2 * size {
      SegmentsLength(size, d[2 * size..]);
      var k := |Segments(size, d[2 * size..])|;
      assert 2 * size * k == 2 * size * (k - 1) + 2 * size;
    }
  }

  /** Data that still fits into the last double segment extends it. */
  lemma {:induction false} AppendToLast(size: nat, d: Bytes, b: Bytes)
    requires size > 0 && |LastSegment(size, d)| + |b| <= 2 * size
    ensures var segs := Segments(size, d);
            Segments(size, d + b) == segs[..|segs| - 1] + [LastSegment(size, d) + b]
    decreases |d|
  {
    if |d| > 2 * size {
      var first, rest := d[..2 * size], d[2 * size..];
      AppendToLast(size, rest, b);
      assert (d + b)[2 * size..] == rest + b && (d + b)[..2 * size] == first;
      ReplaceLastBehind(first, Segments(size, rest), LastSegment(size, rest) + b);
    }
  }

  lemma ReplaceLastBehind(first: Bytes, segs: seq<Bytes>, last: Bytes)
    requires segs != []
    ensures var all := [first] + segs;
            all[|all| - 1] == segs[|segs| - 1] && all[..|all| - 1] + [last] == [first] + (segs[..|segs| - 1] + [last])
  {
  }

  /** Data after a full double segment starts a new one. */
  lemma {:induction false} AppendAfterFull(size: nat, d: Bytes, b: Bytes)
    requires size > 0 && |LastSegment(size, d)| == 2 * size && 0 < |b| <= 2 * size
    ensures Segments(size, d + b) == Segments(size, d) + [b]
    decreases |d|
  {
    assert (d + b)[..2 * size] == d[..2 * size];
    if |d| > 2 * size {
      AppendAfterFull(size, d[2 * size..], b);
      assert (d + b)[2 * size..] == d[2 * size..] + b;
    } else {
      assert (d + b)[2 * size..] == b;
    }
  }

  // ---------- The value of the root is the reference hash ----------

  /** The w bytes from position lo, or as many as there are. */
  function Slice(d: Bytes, lo: nat, w: nat): Bytes
    requires lo <= |d|
  {
    d[lo..if lo + w <= |d| then lo + w else |d|]
  }

  lemma SliceHalves(d: Bytes, lo: nat, w: nat)
    requires lo < |d| && w > 0
    ensures if lo + w < |d| then
              && |Slice(d, lo, 2 * w)| > w
              && Slice(d, lo, 2 * w)[..w] == Slice(d, lo, w)
              && Slice(d, lo, 2 * w)[w..] == Slice(d, lo + w, w)
            else
              |Slice(d, lo, 2 * w)| <= w && Slice(d, lo, 2 * w) == Slice(d, lo, w)
  {
  }

  /** Where the bytes below node (h, x) start. */
  function Offset(size: nat, h: nat, x: nat): nat {
    x * Width(size, h)
  }

  lemma OffsetOfChildren(size: nat, h: nat, x: nat)
    requires h > 0
    ensures Offset(size, h, x) == Offset(size, h - 1, 2 * x)
    ensures Offset(size, h - 1, 2 * x + 1) == Offset(size, h - 1, 2 * x) + Width(size, h - 1)
  {
    var w := Width(size, h - 1);
    assert x * (2 * w) == (2 * x) * w;
    assert (2 * x + 1) * w == (2 * x) * w + w;
  }

  lemma OffsetMonotone(size: nat, h: nat, x: nat, y: nat)
    requires x <= y
    ensures Offset(size, h, x) <= Offset(size, h, y)
  {
    MulMonotone(x, y, Width(size, h));
  }

  /** The last node in use on every level is the one that holds the last byte. */
  lemma {:induction false} LastNodeSpan(size: nat, m: nat, len: nat, h: nat)
    requires Offset(size, 0, m) < len <= Offset(size, 0, m) + Width(size, 0)
    ensures Offset(size, h, Anc(m, h)) < len <= Offset(size, h, Anc(m, h)) + Width(size, h)
  {
    if h > 0 {
      LastNodeSpan(size, m, len, h - 1);
      var a := Anc(m, h - 1);
      OffsetOfChildren(size, h, a / 2);
      OffsetMonotone(size, h - 1, 2 * (a / 2), a);
      OffsetMonotone(size, h - 1, a, 2 * (a / 2) + 1);
    }
  }

  lemma {:induction false} LastLeafSpan(size: nat, d: Bytes)
    requires size > 0 && |d| > 0
    ensures var m := |Segments(size, d)| - 1;
            Offset(size, 0, m) < |d| <= Offset(size, 0, m) + Width(size, 0)
  {
    SegmentsLength(size, d);
    var m := |Segments(size, d)| - 1;
    assert 2 * size * m == m * (2 * size);
  }

  lemma SliceShift(d: Bytes, k: nat, lo: nat, w: nat)
    requires k + lo <= |d|
    ensures Slice(d[k..], lo, w) == Slice(d, k + lo, w)
  {
  }

  lemma OffsetNext(size: nat, j: nat)
    ensures Offset(size, 0, 0) == 0
    ensures Offset(size, 0, j + 1) == 2 * size + Offset(size, 0, j)
  {
    assert (j + 1) * (2 * size) == 2 * size + j * (2 * size);
  }

  lemma {:induction false} SegmentIsSlice(size: nat, d: Bytes, j: nat)
    requires size > 0 && j < |Segments(size, d)|
    ensures Offset(size, 0, j) <= |d|
    ensures Segments(size, d)[j] == Slice(d, Offset(size, 0, j), 2 * size)
    decreases |d|
  {
    OffsetNext(size, 0);
    if j > 0 {
      OffsetNext(size, j - 1);
      SegmentIsSlice(size, d[2 * size..], j - 1);
      SliceShift(d, 2 * size, Offset(size, 0, j - 1), 2 * size);
    }
  }

  /** A node's bytes lie in the data, and its right half is in use iff it is balanced. */
  lemma {:induction false} NodeSpan(size: nat, d: Bytes, h: nat, x: nat)
    requires size > 0 && |d| > 0 && x <= Anc(|Segments(size, d)| - 1, h)
    ensures Offset(size, h, x) < |d|
    ensures h > 0 ==> Offset(size, h, x) == Offset(size, h - 1, 2 * x)
    ensures h > 0 ==> Offset(size, h - 1, 2 * x + 1) == Offset(size, h, x) + Width(size, h - 1)
    ensures h > 0 ==>
              (Balanced(|Segments(size, d)| - 1, NodeId(h, x)) <==> Offset(size, h, x) + Width(size, h - 1) < |d|)
  {
    var m := |Segments(size, d)| - 1;
    LastLeafSpan(size, d);
    LastNodeSpan(size, m, |d|, h);
    OffsetMonotone(size, h, x, Anc(m, h));
    if h > 0 {
      OffsetOfChildren(size, h, x);
      LastNodeSpan(size, m, |d|, h - 1);
      if 2 * x + 1 <= Anc(m, h - 1) {
        OffsetMonotone(size, h - 1, 2 * x + 1, Anc(m, h - 1));
      } else {
        OffsetMonotone(size, h - 1, Anc(m, h - 1), 2 * x);
      }
    }
  }

  lemma {:induction false} ValueIsNodeValue(c: Config, d: Bytes, h: nat, x: nat)
    requires c.size > 0 && |d| > 2 * c.size && x <= Anc(|Segments(c.size, d)| - 1, h)
    ensures Offset(c.size, h, x) < |d|
    ensures Value(c, Segments(c.size, d), h, x)
            == NodeValue(c.hash, c.size, Slice(d, Offset(c.size, h, x), Width(c.size, h)), h)
    decreases h
  {
    NodeSpan(c.size, d, h, x);
    if h == 0 {
      SegmentIsSlice(c.size, d, x);
    } else {
      SliceHalves(d, Offset(c.size, h, x), Width(c.size, h - 1));
      ValueIsNodeValue(c, d, h - 1, 2 * x);
      if Balanced(|Segments(c.size, d)| - 1, NodeId(h, x)) {
        ValueIsNodeValue(c, d, h - 1, 2 * x + 1);
      }
    }
  }

  /**
    What the goroutines send is the reference hash of the data, for every length, with
    any span of which the data fits into twice.
   */
  lemma {:induction false} FinalValueIsRefHash(c: Config, d: Bytes, g: nat)
    requires c.size > 0 && |d| <= Width(c.size, g + 1)
    ensures FinalValue(c, Segments(c.size, d)) == RefHash(c.hash, c.size, d, Width(c.size, g))
  {
    if |d| > 2 * c.size {
      var m := |Segments(c.size, d)| - 1;
      var r := RootHeight(m);
      RootHeightIsLeast(m, r);
      LastLeafSpan(c.size, d);
      LastNodeSpan(c.size, m, |d|, r);
      ValueIsNodeValue(c, d, r, 0);
      assert Slice(d, Offset(c.size, r, 0), Width(c.size, r)) == d;
      NodeValueIsRefHash(c.hash, c.size, d, r, g);
    } else {
      FinalOfOne(c, Segments(c.size, d));
    }
  }

  // ---------- Building a tree ----------

  lemma {:induction false} RootHeightBound(m: nat)
    ensures m < Pow2(RootHeight(m))
    ensures m > 0 ==> Pow2(RootHeight(m) - 1) <= m
  {
    if m > 0 {
      RootHeightBound(m / 2);
    }
  }

  /** depth: the height of the smallest tree with room for all segments. */
  method Depth(count: nat) returns (d: nat)
    requires count > 0
    ensures (count - 1) / 2 < Pow2(d)
    ensures d > 0 ==> Pow2(d - 1) <= (count - 1) / 2
  {
    d := 0;
    var l: nat := (count - 1) / 2;
    while l > 0
      invariant d + RootHeight(l) == RootHeight((count - 1) / 2)
    {
      d := d + 1;
      l := l / 2;
    }
    RootHeightBound((count - 1) / 2);
  }

  const NEW_NODE := Node([], [], 0, false, false)

  /** NewTree: level by level from the root, 2^level nodes each. */
  method NewTree(depth: nat) returns (nodes: map<NodeId, Node>)
    ensures forall n :: n in nodes <==> InTree(depth, n)
    ensures CleanTree(depth, nodes)
    ensures forall n | n in nodes :: nodes[n].state == 0
  {
    nodes := map[NodeId(depth, 0) := NEW_NODE.(root := true)];
    assert Pow2(0) == 1;
    var level, count := 1, 2;
    while level <= depth
      invariant 1 <= level <= depth + 1 && count == Pow2(level)
      invariant forall n :: n in nodes <==> InTree(depth, n) && n.h > depth - level
      invariant forall n | n in nodes :: nodes[n] == NEW_NODE.(root := n.h == depth)
    {
      var i := 0;
      while i < count
        invariant 0 <= i <= count
        invariant forall n :: n in nodes <==>
                    InTree(depth, n) && (n.h > depth - level || (n.h == depth - level && n.x < i))
        invariant forall n | n in nodes :: nodes[n] == NEW_NODE.(root := n.h == depth)
      {
        nodes := nodes[NodeId(depth - level, i) := NEW_NODE];
        i := i + 1;
      }
      level, count := level + 1, count * 2;
    }
  }

  // ---------- The hasher ----------

  /** The bytes that fit into `count` segments. */
  function Capacity(size: nat, count: nat): nat {
    if count == 0 then 0 else size + Capacity(size, count - 1)
  }

  lemma {:induction false} CapacityIsProduct(size: nat, count: nat)
    ensures Capacity(size, count) == count * size
  {
    if count > 0 {
      CapacityIsProduct(size, count - 1);
      assert count * size == (count - 1) * size + size;
    }
  }

  function Leaves(count: nat): nat {
    (count + 1) / 2
  }

  /** The bytes that fit into the leaves of the tree: one segment more than its capacity for an odd count. */
  function Room(size: nat, count: nat): nat {
    Capacity(size, 2 * Leaves(count))
  }

  function Min(a: int, b: int): int {
    if a <= b then a else b
  }

  /**
    How many of n bytes Write takes when double segments are full with `full` bytes and `open` bytes are in the next.
   */
  function Takes(size: nat, count: nat, full: nat, open: nat, n: nat): (r: nat)
    ensures r <= n
  {
    RoomIs(size, count);
    TakesIn(full, open, n, Capacity(size, count),
            if full + 2 * size < Room(size, count) then Room(size, count) else Capacity(size, count))
  }

  /** No more than the capacity after the full double segments, and than the room that is left. */
  function TakesIn(full: nat, open: nat, n: nat, cap: nat, room: nat): (r: nat)
    requires cap <= room
    ensures r <= n
  {
    if full + open > cap then 0 else Min(Min(n, cap - full), room - (full + open))
  }

  lemma RoomIs(size: nat, count: nat)
    ensures Room(size, count) == Capacity(size, count) + (if count % 2 == 0 then 0 else size)
  {
    if count % 2 == 0 {
      assert 2 * Leaves(count) == count;
    } else {
      assert 2 * Leaves(count) == count + 1;
    }
  }

  lemma RoomIsProduct(size: nat, count: nat)
    ensures Room(size, count) == 2 * size * Leaves(count)
  {
    CapacityIsProduct(size, 2 * Leaves(count));
    DoubleSegments(size, Leaves(count));
  }

  lemma LeavesApart(size: nat, i: nat, k: nat)
    requires i + 2 <= k
    ensures 2 * size * i + 4 * size <= 2 * size * k
  {
    DoubleSegments(size, i);
    DoubleSegments(size, i + 1);
    MulMonotone(i + 2, k, 2 * size);
  }

  /** From leaf i on there is room for two double segments before the last leaf, and there for one. */
  lemma RoomFrom(size: nat, count: nat, i: nat)
    requires i < Leaves(count)
    ensures if i + 1 < Leaves(count) then 2 * size * i + 4 * size <= Room(size, count)
            else 2 * size * i + 2 * size == Room(size, count)
  {
    RoomIsProduct(size, count);
    if i + 1 < Leaves(count) {
      LeavesApart(size, i, Leaves(count));
    } else {
      DoubleSegments(size, i);
    }
  }

  /**
    Write keeps within the capacity of an odd number of segments, if more is given, only when nothing has been written
    before or the last double segment is open.
   */
  lemma WithinCapacityIff(size: nat, count: nat, cur: nat, full: nat, open: nat, n: nat)
    requires size > 0 && cur < Leaves(count) && full == 2 * size * cur && (cur > 0 ==> open > 0)
    requires full + open <= Capacity(size, count)
    ensures var written := full + open;
            && (written + Takes(size, count, full, open, n) <= Capacity(size, count) <==>
                || written + n <= Capacity(size, count) || written == 0 || count % 2 == 0
                || full + 2 * size == Room(size, count))
            && (written + Takes(size, count, full, open, n) <= Capacity(size, count) ==>
                  Takes(size, count, full, open, n) == Min(n, Capacity(size, count) - written))
  {
    RoomIs(size, count);
    RoomFrom(size, count, cur);
    if cur == 0 {
      assert full == 0;
    }
    WithinAny(size, count, full, open, n, cur + 1 == Leaves(count));
  }

  lemma WithinAny(size: nat, count: nat, full: nat, open: nat, n: nat, last: bool)
    requires size > 0 && full + open <= Capacity(size, count) && (full > 0 ==> open > 0)
    requires if last then full + 2 * size == Room(size, count) else full + 4 * size <= Room(size, count)
    ensures var written, taken := full + open, Takes(size, count, full, open, n);
            && (written + taken <= Capacity(size, count) <==>
                written + n <= Capacity(size, count) || written == 0 || count % 2 == 0 || last)
            && (written + taken <= Capacity(size, count) ==> taken == Min(n, Capacity(size, count) - written))
  {
    RoomIs(size, count);
    WithinIff(size, full, open, n, Capacity(size, count), if last then Capacity(size, count) else Room(size, count),
              last);
  }

  lemma WithinIff(size: nat, full: nat, open: nat, n: nat, cap: nat, room: nat, last: bool)
    requires size > 0 && full + open <= cap <= room && (last ==> room == cap) && (full > 0 ==> open > 0)
    requires !last ==> full + 3 * size <= cap
    ensures var written, taken := full + open, TakesIn(full, open, n, cap, room);
            && (written + taken <= cap <==> written + n <= cap || written == 0 || room == cap)
            && (written + taken <= cap ==> taken == Min(n, cap - written))
  {
  }

  lemma LeafBound(size: nat, count: nat, m: nat, last: nat)
    requires m > 0 && last > 0 && 2 * size * m + last <= count * size
    ensures m <= (count - 1) / 2
  {
    DoubleSegments(size, m);
    MulMonotone(count, 2 * m, size);
  }

  lemma {:induction false} SegmentsFit(size: nat, count: nat, depth: nat, d: Bytes)
    requires size > 0 && count > 0 && |d| <= Capacity(size, count) && (count - 1) / 2 < Pow2(depth)
    ensures |Segments(size, d)| <= Pow2(depth)
    ensures |Segments(size, d)| - 1 <= (count - 1) / 2
  {
    var m, last := |Segments(size, d)| - 1, |LastSegment(size, d)|;
    if m > 0 {
      SegmentsLength(size, d);
      CapacityIsProduct(size, count);
      LeafBound(size, count, m, last);
    }
  }

  lemma LastFits(size: nat, leaves: nat, depth: nat, d: Bytes)
    requires size > 0 && leaves > 0 && |d| <= Capacity(size, 2 * leaves) && leaves <= Pow2(depth)
    ensures |Segments(size, d)| - 1 < leaves
    ensures |d| == 2 * size * (|Segments(size, d)| - 1) + |LastSegment(size, d)|
  {
    SegmentsLength(size, d);
    SegmentsFit(size, 2 * leaves, depth, d);
  }

  lemma DoubleSegments(size: nat, k: nat)
    ensures (2 * k) * size == 2 * size * k
    ensures 2 * size * (k + 1) == 2 * size * k + 2 * size
  {
  }

  /** The states of tree and goroutines that satisfy the invariant for the double segments segs. */
  ghost function Consistent(c: Config, base: map<NodeId, Node>, segs: seq<Bytes>): iset<System> {
    iset sys: System | Inv(c, base, sys, segs)
  }

  class Hasher {
    const hash: BaseHash
    const size: nat
    const count: nat
    const depth: nat
    var nodes: map<NodeId, Node>
    var procs: seq<Proc>
    var results: seq<Bytes>
    var cur: nat
    var segment: Bytes

    /** What has been written since the last result, and the tree as it was then. */
    ghost var data: Bytes
    ghost var base: map<NodeId, Node>

    ghost function Cfg(): Config {
      Config(hash, size, depth)
    }

    ghost function Sys(): System
      reads this`nodes, this`procs, this`results
    {
      System(nodes, procs, results)
    }

    /** All double segments of d but the last have been launched, and the tree is not marked. */
    ghost predicate Idle(d: Bytes)
      reads this`nodes, this`procs, this`results, this`base
    {
      && IsConfig(Cfg(), count)
      && |d| <= Room(size, count)
      && |procs| == |Segments(size, d)| - 1
      && CleanFlags(depth, nodes)
      && Sys() in Consistent(Cfg(), base, Segments(size, d))
    }

    /** Between calls the last double segment of the data is open. */
    ghost predicate Valid()
      reads this
    {
      && Idle(data)
      && cur == |Segments(size, data)| - 1
      && segment == LastSegment(size, data)
    }

    constructor (hash: BaseHash, size: nat, count: nat)
      requires size > 0 && count > 0
      ensures Valid() && data == [] && this.hash == hash && this.size == size && this.count == count
      ensures forall n | n in base :: base[n].state == 0
    {
      var d := Depth(count);
      var tree := NewTree(d);
      this.hash, this.size, this.count, this.depth := hash, size, count, d;
      nodes, procs, results, cur, segment := tree, [], [], 0, [];
      data, base := [], tree;
      new;
      assert Inv(Cfg(), base, Sys(), [[]]) by {
        StartInv(Cfg(), tree, []);
      }
      assert Segments(size, data) == [[]];
    }

    /** One atomic step of goroutine j. */
    method GoroutineStep(j: nat)
      requires j < |procs| && Runnable(procs[j]) && procs[j].n in nodes
      modifies this`nodes, this`procs, this`results
      ensures Sys() == old(Step(Cfg(), Sys(), j))
    {
      ghost var next := Step(Cfg(), Sys(), j);
      var p := procs[j];
      var n := nodes[p.n];
      match p.pc {
        case AtLeaf =>
          var s := hash(p.s);
          if n.root {
            results := results + [s];
            p := p.(pc := AtSent, s := s);
          } else {
            p := p.(pc := AtStore, n := Parent(p.n), isLeft := p.n.x % 2 == 0, i := p.n.x, s := s);
          }
        case AtStore =>
          n := if p.isLeft then n.(left := p.s) else n.(right := p.s);
          nodes := nodes[p.n := n];
          p := p.(pc := AtToggle);
        case AtToggle =>
          if !n.unbalanced {
            var (state, waits) := Toggle(n.state);
            nodes := nodes[p.n := n.(state := state)];
            p := p.(pc := if waits then AtQuit else AtCombine);
          } else {
            p := p.(pc := AtCombine);
          }
        case AtCombine =>
          var s := n.left + n.right;
          if !n.unbalanced || !p.isLeft || (p.i == 0 && p.d == 0) {
            s := hash(s);
          }
          p := p.(pc := AtEmit, s := s);
        case AtEmit =>
          if n.root {
            results := results + [p.s];
            p := p.(pc := AtSent);
          } else {
            p := p.(pc := AtStore, n := Parent(p.n), isLeft := p.n.x % 2 == 0, i := p.i + 1);
          }
      }
      procs := procs[j := p];
      assert nodes == next.nodes;
    }

    /** writeSegment: starts a goroutine for the double segment s of leaf j. */
    method WriteSegment(j: nat, s: Bytes, d: nat)
      modifies this`procs
      ensures procs == old(procs) + [Launched(Cfg(), j, s, d)]
    {
      if |s| > size && depth > 0 {
        procs := procs + [Proc(AtLeaf, NodeId(0, j), true, j, d, s)];
      } else {
        procs := procs + [Proc(AtStore, NodeId(0, j), true, 2 * j, d, s)];
      }
    }

    /** How much of n new bytes is wanted, the room of the open double segment, and what goes into it. */
    method Cut(n: nat) returns (need: nat, width: nat, rest: nat)
      requires size > 0 && n > 0 && |data| <= Capacity(size, count) && cur < Leaves(count)
      requires |data| == 2 * size * cur + |segment| && |segment| <= 2 * size
      ensures need == Min(n, Capacity(size, count) - 2 * size * cur)
      ensures if cur + 1 < Leaves(count) then width == 2 * size && rest == Min(need, 2 * size - |segment|)
              else rest == Min(need, Capacity(size, count) - |data|)
      ensures |segment| + rest <= 2 * size && rest <= need <= n
    {
      CapacityIsProduct(size, count);
      RoomIs(size, count);
      RoomFrom(size, count, cur);
      assert cur * 2 * size == 2 * size * cur;
      need := count * size - cur * 2 * size;
      width := size;
      if need > width {
        width := width * 2;
      }
      if n < need {
        need := n;
      }
      rest := width - |segment|;
      if need < rest {
        rest := need;
      }
    }

    /** After the data d, leaf i is open and holds s. */
    ghost predicate Open(d: Bytes, i: nat, s: Bytes)
      reads this`nodes, this`procs, this`results, this`base
    {
      Idle(d) && i == |Segments(size, d)| - 1 && s == LastSegment(size, d)
    }

    /** What of b still goes into the open double segment. */
    method FillFirst(b: Bytes) returns (need: nat, width: nat, rest: nat, s: Bytes)
      requires Valid() && |b| > 0 && |data| <= Capacity(size, count)
      ensures cur < Leaves(count) && |data| == 2 * size * cur + |segment| && |segment| <= 2 * size
      ensures need == Min(|b|, Capacity(size, count) - 2 * size * cur)
      ensures Progress(b, need, rest, need - rest, width, cur, s)
      ensures cur + 1 == Leaves(count) ==> rest == Min(need, Capacity(size, count) - |data|)
    {
      OpenFits(data);
      need, width, rest := Cut(|b|);
      s := Fill(b[..rest]);
    }

    /** Bytes that fit go into the open double segment. */
    method Fill(b: Bytes) returns (s: Bytes)
      requires Valid() && |segment| + |b| <= 2 * size
      ensures Open(data + b, cur, s) && s == segment + b
    {
      OpenFits(data);
      RoomFrom(size, count, cur);
      FillOpen(Cfg(), 2 * Leaves(count), base, Sys(), data, b);
      s := segment + b;
    }

    /** The leaf that is open is one of the tree. */
    lemma OpenFits(d: Bytes)
      requires Idle(d)
      ensures |Segments(size, d)| - 1 < Leaves(count)
      ensures |d| == 2 * size * (|Segments(size, d)| - 1) + |LastSegment(size, d)|
    {
      LastFits(size, Leaves(count), depth, d);
    }

    method LaunchLeaf(i: nat, s: Bytes, ghost d: Bytes, ghost next: Bytes, ghost d': Bytes)
      requires Open(d, i, s) && |s| == 2 * size
      requires d' == d + next && |d'| <= Room(size, count) && 0 < |next| <= 2 * size
      modifies this`nodes, this`procs, this`results
      ensures Open(d', i + 1, next)
    {
      Interleave(Segments(size, d));
      LaunchOpen(Cfg(), 2 * Leaves(count), base, Sys(), d, next);
      WriteSegment(i, s, depth);
    }

    /** The open double segment s is launched and the next width bytes of b are opened. */
    method LaunchSegment(b: Bytes, rest: nat, width: nat, i: nat, s: Bytes) returns (next: Bytes)
      requires rest + width <= |b| && Open(Taken(data, b, rest), i, s)
      requires |s| == 2 * size && 0 < width <= 2 * size && i + 1 < Leaves(count)
      modifies this`nodes, this`procs, this`results
      ensures Open(Taken(data, b, rest + width), i + 1, next) && |next| == width
    {
      next := b[rest..rest + width];
      ghost var d, d' := Taken(data, b, rest), Taken(data, b, rest + width);
      assert d' == d + next by {
        TakenNext(data, b, rest, rest + width);
      }
      OpenFits(d);
      RoomFrom(size, count, i);
      LaunchLeaf(i, s, d, next, d');
    }

    /** Inside Write, rest of the need bytes of b are consumed and leaf i is open and holds s. */
    ghost predicate Progress(b: Bytes, need: nat, rest: nat, left: int, width: nat, i: nat, s: Bytes)
      reads this`data, this`nodes, this`procs, this`results, this`base
    {
      && rest <= need <= |b|
      && (if left > 0 then rest + left == need else rest == need)
      && (left > 0 && i + 1 < Leaves(count) ==> |s| == width == 2 * size)
      && Open(Taken(data, b, rest), i, s)
    }

    /** One round of the loop of Write. */
    method Round(b: Bytes, need: nat, rest: nat, left: int, width: nat, i: nat, s: Bytes)
      returns (rest': nat, left': int, width': nat, i': nat, s': Bytes)
      requires Progress(b, need, rest, left, width, i, s) && left > 0 && i + 1 < Leaves(count)
      modifies this`nodes, this`procs, this`results
      ensures Progress(b, need, rest', left', width', i', s') && left' < left && i' == i + 1
      ensures left' > 0 ==> |s'| == 2 * size
    {
      left', width' := left - width, width;
      if left' < 0 {
        width' := width + left';
      }
      s' := LaunchSegment(b, rest, width', i, s);
      rest', i' := rest + width', i + 1;
    }

    /** The loop of Write launches full double segments while more data follows and there is another leaf. */
    method WriteLoop(b: Bytes, need: nat, first: nat, room: nat, open: Bytes)
        returns (s: Bytes, i: nat, ghost rest: nat)
      requires Progress(b, need, first, need - first, room, cur, open) && cur < Leaves(count)
      modifies this`nodes, this`procs, this`results
      ensures rest <= need <= |b| && Open(Taken(data, b, rest), i, s)
      ensures if cur + 1 < Leaves(count) then rest == need || |data| + rest == Room(size, count) else rest == first
    {
      var at, left, width := first, need - first, room;
      s, i := open, cur;
      while left > 0 && i < (count + 1) / 2 - 1
        invariant Progress(b, need, at, left, width, i, s) && cur <= i < Leaves(count)
        invariant if i == cur then at == first else left > 0 ==> |s| == 2 * size
        decreases left
      {
        at, left, width, i, s := Round(b, need, at, left, width, i, s);
      }
      rest := at;
      if left > 0 && i > cur {
        FilledUp(Taken(data, b, rest), i, s);
      }
    }

    /** When the last leaf is full, there is no more room. */
    lemma FilledUp(d: Bytes, i: nat, s: Bytes)
      requires Open(d, i, s) && |s| == 2 * size && i + 1 == Leaves(count)
      ensures |d| == Room(size, count)
    {
      OpenFits(d);
      RoomFrom(size, count, i);
    }

    /**
      Write appends b, as far as it is taken. For an odd number of segments that may be more than the capacity of the
      tree; after that, another write panics.
     */
    method Write(b: Bytes) returns (n: nat)
      requires Valid() && (b == [] || |data| <= Capacity(size, count))
      modifies this
      ensures Valid() && base == old(base) && n == |b|
      ensures |old(data)| == 2 * size * old(cur) + |old(segment)|
      ensures data == old(data) + b[..Takes(size, count, 2 * size * old(cur), |old(segment)|, |b|)]
    {
      n := |b|;
      OpenFits(data);
      if n > 0 {
        WriteSome(b);
      } else {
        assert data + [] == data;
      }
    }

    method WriteSome(b: Bytes)
      requires Valid() && b != [] && |data| <= Capacity(size, count)
      modifies this`nodes, this`procs, this`results, this`segment, this`cur, this`data
      ensures Valid() && data == old(data) + b[..Takes(size, count, 2 * size * old(cur), |old(segment)|, |b|)]
    {
      var need, width, first, open := FillFirst(b);
      ghost var rest;
      var s, i;
      s, i, rest := WriteLoop(b, need, first, width, open);
      TakesAll(need, rest, |b|);
      LeaveOpen(s, i, data + b[..rest]);
    }

    lemma TakesAll(need: nat, rest: nat, n: nat)
      requires size > 0 && cur < Leaves(count) && |data| == 2 * size * cur + |segment|
      requires |data| <= Capacity(size, count)
      requires need == Min(n, Capacity(size, count) - 2 * size * cur) && rest <= need
      requires |data| + rest <= Room(size, count)
      requires if cur + 1 < Leaves(count) then rest == need || |data| + rest == Room(size, count)
               else rest == Min(need, Capacity(size, count) - |data|)
      ensures rest == Takes(size, count, 2 * size * cur, |segment|, n)
    {
      RoomIs(size, count);
      RoomFrom(size, count, cur);
    }

    method LeaveOpen(s: Bytes, i: nat, ghost d: Bytes)
      requires Open(d, i, s)
      modifies this`segment, this`cur, this`data
      ensures Valid() && data == d
    {
      segment, cur, data := s, i, d;
    }

    /** One round of finalise, after the goroutines have run for a while. */
    method Mark(n: NodeId, isLeft: bool, ghost segs: seq<Bytes>)
      requires |segs| > 0 && |procs| == |segs| - 1 && Sys() in Consistent(Cfg(), base, segs)
      requires OnPath(|segs| - 1, n) && n.h <= RootHeight(|segs| - 1) && isLeft == UnbalancedFlag(Cfg(), segs, n)
      requires MarkedBelow(Cfg(), nodes, segs, n.h)
      modifies this`nodes, this`procs, this`results
      ensures Sys() in Consistent(Cfg(), base, segs) && |procs| == |segs| - 1
      ensures n.x == 0 <==> n.h == RootHeight(|segs| - 1)
      ensures n.x == 0 ==> PathFlagsSet(Cfg(), nodes, segs)
      ensures n.x != 0 ==> MarkedBelow(Cfg(), nodes, segs, n.h + 1)
      ensures n.x != 0 ==> OnPath(|segs| - 1, Parent(n)) && (n.x % 2 == 0) == UnbalancedFlag(Cfg(), segs, Parent(n))
    {
      Interleave(segs);
      MarkNode(Cfg(), base, Sys(), segs, n, isLeft);
      var node := nodes[n].(unbalanced := isLeft, right := []);
      if n.x == 0 {
        node := node.(root := true);
      }
      nodes := nodes[n := node];
    }

    /** finalise: marks the nodes that the last double segment passes, up to the root of the tree in use. */
    method Finalise(start: NodeId, i: nat, ghost segs: seq<Bytes>) returns (d: nat)
      requires |segs| > 0 && |procs| == |segs| - 1 && CleanFlags(depth, nodes) && Sys() in Consistent(Cfg(), base, segs)
      requires StartsPath(Cfg(), segs, start, i)
      modifies this`nodes, this`procs, this`results
      ensures Sys() in Consistent(Cfg(), base, segs) && |procs| == |segs| - 1
      ensures PathFlagsSet(Cfg(), nodes, segs)
      ensures |segs| == 1 ==> d == 0
    {
      var n, isLeft := start, i % 2 == 0;
      d := 0;
      PathStart(Cfg(), nodes, segs, start, i);
      while true
        invariant OnPath(|segs| - 1, n) && n.h <= RootHeight(|segs| - 1) && n.h == start.h + d
        invariant isLeft == UnbalancedFlag(Cfg(), segs, n)
        invariant Sys() in Consistent(Cfg(), base, segs) && |procs| == |segs| - 1
        invariant MarkedBelow(Cfg(), nodes, segs, n.h)
        decreases RootHeight(|segs| - 1) - n.h
      {
        Mark(n, isLeft, segs);
        if n.x == 0 {
          return;
        }
        isLeft := n.x % 2 == 0;
        n := Parent(n);
        d := d + 1;
      }
    }

    /** Sum up to the launch of the last goroutine. */
    method LaunchRest(ghost segs: seq<Bytes>)
      requires Valid() && segs == Segments(size, data)
      modifies this`nodes, this`procs, this`results
      ensures Sys() in Consistent(Cfg(), base, segs) && |procs| == |segs|
    {
      var n, i := NodeId(0, cur), cur;
      if |segment| > size && i > 0 && depth > 0 {
        n := Parent(n);
      } else {
        i := i * 2;
      }
      DepthForMany(Cfg(), base, Sys(), segs);
      var d := Finalise(n, i, segs);
      LaunchLast(Cfg(), base, Sys(), segs, d);
      WriteSegment(cur, segment, d);
    }

    /** Receiving from the result channel: goroutines run until one has sent. */
    method Await(ghost segs: seq<Bytes>) returns (r: Bytes)
      requires Sys() in Consistent(Cfg(), base, segs) && |procs| == |segs| && |segs| > 0
      modifies this`nodes, this`procs, this`results
      ensures Sys() in Consistent(Cfg(), base, segs) && |procs| == |segs|
      ensures results == [FinalValue(Cfg(), segs)] && r == FinalValue(Cfg(), segs) && AllDone(procs)
    {
      while results == []
        invariant Sys() in Consistent(Cfg(), base, segs) && |procs| == |segs|
        decreases TotalRank(depth, procs)
      {
        if AllDone(procs) {
          FinishedRun(Cfg(), base, Sys(), segs);
          assert false;
        }
        var j :| 0 <= j < |procs| && Runnable(procs[j]);
        AfterStep(Cfg(), base, Sys(), segs, j);
        GoroutineStep(j);
      }
      ResultMeansFinished(Cfg(), base, Sys(), segs);
      FinishedRun(Cfg(), base, Sys(), segs);
      r := results[0];
    }

    /** releaseTree: clears the flags from leaf `leaf` up to the top of the tree. */
    method ReleaseTree(leaf: nat)
      requires MarksOnlyPath(depth, nodes, leaf)
      modifies this`nodes
      ensures nodes.Keys == old(nodes.Keys) && CleanFlags(depth, nodes)
      ensures forall n | n in nodes :: nodes[n].state == old(nodes)[n].state
    {
      var n := NodeId(0, leaf);
      while n.h <= depth
        invariant n.h <= depth + 1 && n.x == Anc(leaf, n.h)
        invariant Cleared(old(nodes), nodes, leaf, depth, n.h)
        decreases depth + 1 - n.h
      {
        AncBelow(leaf, depth, n.h);
        ClearedOneMore(old(nodes), nodes, leaf, depth, n);
        nodes := nodes[n := nodes[n].(unbalanced := false, root := n.h == depth && nodes[n].root)];
        n := Parent(n);
      }
    }

    /** Sum up to the release of the tree. */
    method Collect(ghost segs: seq<Bytes>) returns (r: Bytes)
      requires Valid() && segs == Segments(size, data)
      modifies this`nodes, this`procs, this`results
      ensures r == FinalValue(Cfg(), segs) && MarksOnlyPath(depth, nodes, cur) && nodes.Keys == base.Keys
      ensures forall n | n in nodes :: nodes[n].state == Advance(base[n].state, Uses(|segs| - 1, n))
    {
      assert cur == |segs| - 1;
      LaunchRest(segs);
      r := Await(segs);
      ReadyToRelease(Cfg(), base, Sys(), segs);
    }

    /** The tree goes back to the pool and the hasher forgets the data. */
    method Forget()
      requires size > 0 && count > 0 && (count - 1) / 2 < Pow2(depth) && MarksOnlyPath(depth, nodes, cur)
      modifies this
      ensures data == [] && base == nodes && CleanFlags(depth, nodes) && nodes.Keys == old(nodes.Keys)
      ensures forall n | n in nodes :: nodes[n].state == old(nodes)[n].state
      ensures CountersOk(nodes) ==> Valid()
    {
      ReleaseTree(cur);
      procs, results, cur, segment := [], [], 0, [];
      data, base := [], nodes;
      if CountersOk(nodes) {
        assert Sys() in Consistent(Cfg(), base, [[]]) by {
          StartInv(Cfg(), nodes, []);
        }
        assert Segments(size, []) == [[]];
      }
    }

    /**
      Sum: the BMT hash of everything written since the last Sum. The tree is left with
      clean flags, and only the counters of nodes with two halves have moved, by two.
     */
    method Sum(blockLength: Option<Bytes>) returns (r: Bytes)
      requires Valid()
      modifies this
      ensures var c := FinalValue(Cfg(), Segments(size, old(data)));
              r == match blockLength case None => c case Some(l) => hash(l + c)
      ensures data == [] && base == nodes && CleanFlags(depth, nodes) && nodes.Keys == old(base.Keys)
      ensures forall n | n in nodes ::
                nodes[n].state == Advance(old(base)[n].state, Uses(|Segments(size, old(data))| - 1, n))
      ensures CountersOk(nodes) ==> Valid()
    {
      var c := Collect(Segments(size, data));
      Forget();
      match blockLength {
        case None => r := c;
        case Some(l) => r := hash(l + c);
      }
    }

    /** The scheduler lets the goroutines run for a while, in any order. */
    method Interleave(ghost segs: seq<Bytes>)
      requires Sys() in Consistent(Cfg(), base, segs)
      modifies this`nodes, this`procs, this`results
      ensures Sys() in Consistent(Cfg(), base, segs) && |procs| == old(|procs|) && SameFlags(old(nodes), nodes)
    {
      while *
        invariant Sys() in Consistent(Cfg(), base, segs) && |procs| == old(|procs|) && SameFlags(old(nodes), nodes)
        decreases TotalRank(depth, procs)
      {
        var j: int := *;
        if !(0 <= j < |procs| && Runnable(procs[j])) {
          break;
        }
        AfterStep(Cfg(), base, Sys(), segs, j);
        GoroutineStep(j);
      }
    }
  }

  /** The flags of the nodes below height h on the path of the leaf have been cleared. */
  ghost predicate Cleared(nodes0: map<NodeId, Node>, nodes: map<NodeId, Node>, leaf: nat, depth: nat, h: nat) {
    && nodes.Keys == nodes0.Keys
    && (forall k | k in nodes :: nodes[k].state == nodes0[k].state)
    && (forall k | k in nodes && (k.h < h || !OnPath(leaf, k)) ::
        !nodes[k].unbalanced && (nodes[k].root <==> k.h == depth))
    && (forall k | k in nodes && k.h >= h :: nodes[k] == nodes0[k])
  }

  lemma ClearedOneMore(nodes0: map<NodeId, Node>, nodes: map<NodeId, Node>, leaf: nat, depth: nat, n: NodeId)
    requires Cleared(nodes0, nodes, leaf, depth, n.h) && n in nodes && OnPath(leaf, n)
    requires n.h == depth ==> nodes[n].root
    ensures Cleared(nodes0, nodes[n := nodes[n].(unbalanced := false, root := n.h == depth && nodes[n].root)], leaf,
                    depth, n.h + 1)
  {
  }

  /** The data d and the first n bytes of b. */
  function Taken(d: Bytes, b: Bytes, n: nat): Bytes
    requires n <= |b|
  {
    d + b[..n]
  }

  lemma TakenNext(d: Bytes, b: Bytes, i: nat, j: nat)
    requires i <= j <= |b|
    ensures Taken(d, b, i) + b[i..j] == Taken(d, b, j)
  {
  }

  lemma {:induction false} DepthForMany(c: Config, base: map<NodeId, Node>, sys: System, segs: seq<Bytes>)
    requires Inv(c, base, sys, segs)
    ensures |segs| > 1 ==> c.depth > 0
  {
  }

  /** The tree holds only marks on the path of leaf `leaf`, and its top is flagged as root. */
  ghost predicate MarksOnlyPath(depth: nat, nodes: map<NodeId, Node>, leaf: nat) {
    && (forall n | InTree(depth, n) :: n in nodes)
    && leaf < Pow2(depth)
    && (forall n | n in nodes && !OnPath(leaf, n) :: !nodes[n].unbalanced && (nodes[n].root <==> n.h == depth))
    && (forall n | n in nodes && n.h > depth :: !nodes[n].unbalanced && !nodes[n].root)
    && NodeId(depth, 0) in nodes && nodes[NodeId(depth, 0)].root
  }

  lemma {:induction false} ReadyToRelease(c: Config, base: map<NodeId, Node>, sys: System, segs: seq<Bytes>)
    requires sys in Consistent(c, base, segs) && |sys.procs| == |segs| && AllDone(sys.procs)
    ensures MarksOnlyPath(c.depth, sys.nodes, |segs| - 1) && sys.nodes.Keys == base.Keys
    ensures forall n | n in sys.nodes :: sys.nodes[n].state == Advance(base[n].state, Uses(|segs| - 1, n))
  {
    FinishedRun(c, base, sys, segs);
    var m := |segs| - 1;
    LiveInTree(m, c.depth, NodeId(0, 0));
    RootHeightIsLeast(m, c.depth);
    assert InTree(c.depth, NodeId(c.depth, 0));
  }

  /** Where Sum starts to finalise: at the leaf of an unhashed double segment, else at its parent. */
  predicate StartsPath(c: Config, segs: seq<Bytes>, start: NodeId, i: nat)
    requires |segs| > 0
  {
    var m := |segs| - 1;
    if LastRaw(c, segs) then start == NodeId(0, m) && i == 2 * m
    else start == NodeId(1, m / 2) && i == m
  }

  /** Path nodes below height h are marked, all others are clean. */
  ghost predicate MarkedBelow(c: Config, nodes: map<NodeId, Node>, segs: seq<Bytes>, h: nat)
    requires |segs| > 0
  {
    forall n | n in nodes ::
      && nodes[n].unbalanced == (OnPath(|segs| - 1, n) && n.h < h && UnbalancedFlag(c, segs, n))
      && (nodes[n].root <==> n.h == c.depth)
  }

  lemma {:induction false} PathStart(c: Config, nodes: map<NodeId, Node>, segs: seq<Bytes>, start: NodeId, i: nat)
    requires |segs| > 0 && CleanFlags(c.depth, nodes) && StartsPath(c, segs, start, i)
    ensures OnPath(|segs| - 1, start) && start.h <= RootHeight(|segs| - 1)
    ensures (i % 2 == 0) == UnbalancedFlag(c, segs, start)
    ensures MarkedBelow(c, nodes, segs, start.h)
  {
    var m := |segs| - 1;
    if !LastRaw(c, segs) {
      assert Anc(m, 1) == Anc(m, 0) / 2;
    }
  }

  lemma {:induction false} UnbalancedFlagMeaning(c: Config, segs: seq<Bytes>, n: NodeId)
    requires |segs| > 0 && UnbalancedFlag(c, segs, n)
    ensures !Balanced(|segs| - 1, n)
  {
  }

  /** Marking the next node of the path; above the last one there is a parent to go to. */
  lemma {:induction false} MarkNode(c: Config, base: map<NodeId, Node>, sys: System, segs: seq<Bytes>, n: NodeId,
                                    isLeft: bool)
    requires Inv(c, base, sys, segs) && |sys.procs| == |segs| - 1
    requires OnPath(|segs| - 1, n) && n.h <= RootHeight(|segs| - 1) && isLeft == UnbalancedFlag(c, segs, n)
    requires MarkedBelow(c, sys.nodes, segs, n.h)
    ensures n in sys.nodes
    ensures var nodes' := sys.nodes[n := Finalised(sys.nodes[n], isLeft, n.x == 0)];
            && Inv(c, base, sys.(nodes := nodes'), segs)
            && (n.x == 0 <==> n.h == RootHeight(|segs| - 1))
            && (n.x == 0 ==> PathFlagsSet(c, nodes', segs))
            && (n.x != 0 ==> MarkedBelow(c, nodes', segs, n.h + 1))
    ensures n.x != 0 ==> OnPath(|segs| - 1, Parent(n)) && (n.x % 2 == 0) == UnbalancedFlag(c, segs, Parent(n))
  {
    var m := |segs| - 1;
    RootHeightIsLeast(m, n.h);
    LiveNodeExists(c, sys.nodes, base, |sys.procs|, segs, n);
    if isLeft {
      UnbalancedFlagMeaning(c, segs, n);
    }
    FinaliseKeepsInv(c, base, sys, segs, n, isLeft, n.x == 0);
    MarkFrame(c, sys.nodes, segs, n, isLeft);
  }

  lemma {:induction false} MarkFrame(c: Config, nodes: map<NodeId, Node>, segs: seq<Bytes>, n: NodeId, isLeft: bool)
    requires |segs| > 0 && n in nodes && RootHeight(|segs| - 1) <= c.depth
    requires OnPath(|segs| - 1, n) && n.h <= RootHeight(|segs| - 1) && isLeft == UnbalancedFlag(c, segs, n)
    requires MarkedBelow(c, nodes, segs, n.h) && (n.x == 0 <==> n.h == RootHeight(|segs| - 1))
    ensures var nodes' := nodes[n := Finalised(nodes[n], isLeft, n.x == 0)];
            && (n.x == 0 ==> PathFlagsSet(c, nodes', segs))
            && (n.x != 0 ==> MarkedBelow(c, nodes', segs, n.h + 1))
  {
  }

  predicate IsConfig(c: Config, count: nat) {
    c.size > 0 && count > 0 && (count - 1) / 2 < Pow2(c.depth)
  }

  /** Launching the open double segment s of d when the bytes b follow it. */
  lemma {:induction false} LaunchOpen(c: Config, count: nat, base: map<NodeId, Node>, sys: System, d: Bytes, b: Bytes)
    requires IsConfig(c, count) && |d| + |b| <= Capacity(c.size, count)
    requires |LastSegment(c.size, d)| == 2 * c.size && 0 < |b| <= 2 * c.size
    requires Inv(c, base, sys, Segments(c.size, d)) && |sys.procs| == |Segments(c.size, d)| - 1
    requires CleanFlags(c.depth, sys.nodes)
    ensures Segments(c.size, d + b) == Segments(c.size, d) + [b]
    ensures Inv(c, base, sys.(procs := sys.procs + [Launched(c, |sys.procs|, LastSegment(c.size, d), c.depth)]),
                Segments(c.size, d + b))
  {
    AppendAfterFull(c.size, d, b);
    SegmentsFit(c.size, count, c.depth, d + b);
    var segs := Segments(c.size, d);
    LaunchFull(c, base, sys, segs, segs + [b]);
  }

  /** Bytes that go into the open double segment change nothing else. */
  lemma {:induction false} FillOpen(c: Config, count: nat, base: map<NodeId, Node>, sys: System, d: Bytes, b: Bytes)
    requires IsConfig(c, count) && |d| + |b| <= Capacity(c.size, count)
    requires |LastSegment(c.size, d)| + |b| <= 2 * c.size
    requires Inv(c, base, sys, Segments(c.size, d)) && |sys.procs| == |Segments(c.size, d)| - 1
    ensures |Segments(c.size, d + b)| == |Segments(c.size, d)|
    ensures LastSegment(c.size, d + b) == LastSegment(c.size, d) + b
    ensures Inv(c, base, sys, Segments(c.size, d + b))
  {
    AppendToLast(c.size, d, b);
    SegmentsFit(c.size, count, c.depth, d + b);
    ReplaceLast(c, base, sys, Segments(c.size, d), Segments(c.size, d + b));
  }

  ghost predicate SameFlags(nodes: map<NodeId, Node>, nodes': map<NodeId, Node>) {
    && nodes.Keys == nodes'.Keys
    && forall n | n in nodes :: nodes'[n].unbalanced == nodes[n].unbalanced && nodes'[n].root == nodes[n].root
  }

  lemma {:induction false} AfterStep(c: Config, base: map<NodeId, Node>, sys: System, segs: seq<Bytes>, j: nat)
    requires Enabled(c, base, sys, segs, j)
    ensures sys.procs[j].n in sys.nodes
    ensures Inv(c, base, Step(c, sys, j), segs)
    ensures |Step(c, sys, j).procs| == |sys.procs|
    ensures SameFlags(sys.nodes, Step(c, sys, j).nodes)
    ensures TotalRank(c.depth, Step(c, sys, j).procs) < TotalRank(c.depth, sys.procs)
  {
    StepKeepsInv(c, base, sys, segs, j);
    StepLowersRank(c, base, sys, segs, j);
  }

  // ---------- The pooled hasher against the reference hasher ----------

  /** What a reference hasher is that belongs to a tree. */
  ghost predicate IsReference(rh: RefHasher, g: nat, size: nat, count: nat) {
    size > 0 && rh.cap == count * size && rh.span == Width(size, g) && rh.cap <= Width(size, g + 1)
  }

  function CutAt(b: Bytes, cap: nat): Bytes {
    if |b| > cap then b[..cap] else b
  }

  lemma FirstWrite(size: nat, count: nat, b: Bytes)
    requires size > 0 && count > 0
    ensures [] + b[..Takes(size, count, 0, 0, |b|)] == CutAt(b, count * size)
  {
    CapacityIsProduct(size, count);
    WithinCapacityIff(size, count, 0, 0, 0, |b|);
  }

  /** The first Write takes as much as the capacity allows. */
  method WriteFirst(hasher: Hasher, b: Bytes)
    requires hasher.Valid() && hasher.data == []
    modifies hasher
    ensures hasher.Valid() && hasher.base == old(hasher.base) && hasher.data == CutAt(b, hasher.count * hasher.size)
  {
    FirstWrite(hasher.size, hasher.count, b);
    assert Segments(hasher.size, []) == [[]];
    var n := hasher.Write(b);
  }

  /** One Write of any data and Sum, with a hasher that has been used before or not. */
  method UseOnce(hasher: Hasher, rh: RefHasher, ghost g: nat, b: Bytes) returns (r: Bytes, ghost m: nat)
    requires hasher.Valid() && hasher.data == [] && IsReference(rh, g, hasher.size, hasher.count)
    modifies hasher
    ensures r == RefHashOf(hasher.hash, hasher.size, rh, b)
    ensures hasher.data == [] && hasher.base == hasher.nodes && hasher.nodes.Keys == old(hasher.base.Keys)
    ensures forall n | n in hasher.nodes :: hasher.nodes[n].state == Advance(old(hasher.base)[n].state, Uses(m, n))
    ensures CountersOk(hasher.nodes) ==> hasher.Valid()
  {
    WriteFirst(hasher, b);
    ghost var d := hasher.data;
    m := |Segments(hasher.size, d)| - 1;
    assert |d| <= Width(hasher.size, g + 1);
    FinalValueIsRefHash(Config(hasher.hash, hasher.size, hasher.depth), d, g);
    r := hasher.Sum(None);
  }

  /**
    One Write of any data, followed by Sum, gives what the reference hasher gives for the
    same data: every segment size and count, every length, every interleaving.
   */
  method HashBothWays(hash: BaseHash, size: nat, count: nat, b: Bytes)
      returns (fast: Bytes, reference: Bytes, rh: RefHasher)
    requires size > 0 && count > 0
    ensures rh.span > 0 && rh.cap == count * size && reference == RefHashOf(hash, size, rh, b)
    ensures fast == reference
  {
    ghost var g;
    rh, g := NewRefHasher(size, count);
    reference := Hash(hash, size, if |b| > rh.cap then b[..rh.cap] else b, rh.span);
    var hasher := new Hasher(hash, size, count);
    ghost var m;
    fast, m := UseOnce(hasher, rh, g, b);
  }

  /** Three segments of one byte: four bytes written in two parts are all taken, one more than the capacity. */
  method WrittenInParts(hash: BaseHash) returns (hasher: Hasher)
    ensures hasher.Valid() && hasher.count == 3 && hasher.size == 1 && hasher.data == [1, 2, 3, 4]
    ensures |hasher.data| > Capacity(1, 3)
  {
    hasher := new Hasher(hash, 1, 3);
    SmallTree();
    WriteFirst(hasher, [1]);
    WriteThree(hasher);
  }

  method WriteThree(hasher: Hasher)
    requires hasher.Valid() && hasher.count == 3 && hasher.size == 1 && hasher.data == [1]
    modifies hasher
    ensures hasher.Valid() && hasher.data == [1, 2, 3, 4]
  {
    SmallTree();
    var n := hasher.Write([2, 3, 4]);
    assert [1] + [2, 3, 4][..3] == [1, 2, 3, 4];
  }

  /** Written at once, three of them are taken. */
  method WrittenAtOnce(hash: BaseHash) returns (hasher: Hasher)
    ensures hasher.Valid() && hasher.count == 3 && hasher.size == 1 && hasher.data == [1, 2, 3]
  {
    hasher := new Hasher(hash, 1, 3);
    WriteFirst(hasher, [1, 2, 3, 4]);
  }

  lemma SmallTree()
    ensures Takes(1, 3, 0, 1, 3) == 3 && Segments(1, [1]) == [[1]] && Capacity(1, 3) == 3
    ensures CutAt([1], 3 * 1) == [1]
  {
    CapacityIsProduct(1, 3);
    CapacityIsProduct(1, 4);
  }
}
