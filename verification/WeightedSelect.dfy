/**
  weightedRandomSelect of les/randselect.go: a tree with eight branches per node that keeps
  the sum of the weights below each branch, so that an item can be chosen with a chance
  proportional to its weight by walking down from the root.
 */
module WeightedSelect {
  import opened Options

  const BRANCHES: nat := 8

  type Item = nat

  datatype Child = Empty | Leaf(item: Item) | Sub(node: Node)

  datatype Node = Node(items: seq<Child>, weights: seq<int>, sumWeight: int, level: nat, itemCnt: int, maxItems: nat)

  // ---------- Slots: what a tree stands for ----------

  /** An item with its stored weight; None is a free place. */
  datatype Entry = Entry(item: Item, weight: int)
  type Slots = seq<Option<Entry>>

  function WeightAt(s: Option<Entry>): int {
    if s.Some? then s.value.weight else 0
  }

  ghost function Total(s: Slots): int {
    if s == [] then 0 else WeightAt(s[0]) + Total(s[1..])
  }

  ghost function Filled(s: Slots): nat {
    if s == [] then 0 else (if s[0].Some? then 1 else 0) + Filled(s[1..])
  }

  lemma {:induction false} Concat(a: Slots, b: Slots)
    ensures Total(a + b) == Total(a) + Total(b) && Filled(a + b) == Filled(a) + Filled(b)
  {
    if a == [] {
      assert a + b == b;
    } else {
      assert (a + b)[1..] == a[1..] + b;
      Concat(a[1..], b);
    }
  }

  lemma {:induction false} Update(s: Slots, k: nat, e: Option<Entry>)
    requires k < |s|
    ensures Total(s[k := e]) == Total(s) - WeightAt(s[k]) + WeightAt(e)
    ensures Filled(s[k := e]) == Filled(s) - (if s[k].Some? then 1 else 0) + (if e.Some? then 1 else 0)
  {
    if k == 0 {
      assert s[k := e][1..] == s[1..];
    } else {
      assert s[k := e][1..] == s[1..][k - 1 := e];
      Update(s[1..], k - 1, e);
    }
  }

  lemma {:induction false} FilledBound(s: Slots)
    ensures Filled(s) <= |s|
    ensures Filled(s) == |s| <==> forall k | 0 <= k < |s| :: s[k].Some?
  {
    if s != [] {
      FilledBound(s[1..]);
      assert s == [s[0]] + s[1..];
      if forall k | 0 <= k < |s| :: s[k].Some? {
        assert forall k | 0 <= k < |s| - 1 :: s[1..][k] == s[k + 1];
      }
    }
  }

  function Frees(n: nat): (s: Slots)
    ensures |s| == n && forall k | 0 <= k < n :: s[k] == None
  {
    seq(n, _ => None)
  }

  lemma {:induction false} FreesEmpty(n: nat)
    ensures Total(Frees(n)) == 0 && Filled(Frees(n)) == 0
  {
    if n > 0 {
      assert Frees(n)[1..] == Frees(n - 1);
      FreesEmpty(n - 1);
    }
  }

  predicate NonNegative(s: Slots) {
    forall k | 0 <= k < |s| :: WeightAt(s[k]) >= 0
  }

  lemma {:induction false} TotalNonNegative(s: Slots)
    requires NonNegative(s)
    ensures Total(s) >= 0
  {
    if s != [] {
      assert forall k | 0 <= k < |s| - 1 :: s[1..][k] == s[k + 1];
      TotalNonNegative(s[1..]);
    }
  }

  // ---------- Choosing from slots ----------

  /** The slot whose interval of values holds v. */
  ghost function Pick(s: Slots, v: int): (k: nat)
    requires NonNegative(s) && 0 <= v < Total(s)
    ensures k < |s|
  {
    if v < WeightAt(s[0]) then 0
    else
      assert forall k | 0 <= k < |s| - 1 :: s[1..][k] == s[k + 1];
      1 + Pick(s[1..], v - WeightAt(s[0]))
  }

  /** A slot is picked exactly by the values from the sum of the weights before it on, as many as its weight. */
  lemma {:induction false} PickIff(s: Slots, v: int, k: nat)
    requires NonNegative(s) && 0 <= v < Total(s) && k < |s|
    ensures Pick(s, v) == k <==> Total(s[..k]) <= v < Total(s[..k]) + WeightAt(s[k])
  {
    if k > 0 {
      assert s[..k][1..] == s[1..][..k - 1] && s[..k][0] == s[0];
      assert Total(s[..k]) == WeightAt(s[0]) + Total(s[1..][..k - 1]);
      assert forall i | 0 <= i < |s| - 1 :: s[1..][i] == s[i + 1];
      if v < WeightAt(s[0]) {
        assert NonNegative(s[1..][..k - 1]);
        TotalNonNegative(s[1..][..k - 1]);
      } else {
        PickIff(s[1..], v - WeightAt(s[0]), k - 1);
      }
    }
  }

  /** The values that make the tree choose slot k. */
  ghost function Values(s: Slots, k: nat): set<int>
    requires NonNegative(s)
  {
    set v: int | 0 <= v < Total(s) && Pick(s, v) == k
  }

  predicate Within(v: int, from: int, n: nat) {
    from <= v < from + n
  }

  function Interval(from: int, n: nat): set<int> {
    set v: int {:trigger Within(v, from, n)} | from <= v < from + n && Within(v, from, n)
  }

  lemma {:induction false} IntervalSize(from: int, n: nat)
    ensures |Interval(from, n)| == n
  {
    if n > 0 {
      IntervalSize(from, n - 1);
      assert Interval(from, n) == Interval(from, n - 1) + {from + n - 1};
    }
  }

  /** Exactly as many values choose a slot as its weight says. */
  lemma {:induction false} ChancesAreWeights(s: Slots, k: nat)
    requires NonNegative(s) && k < |s|
    ensures |Values(s, k)| == WeightAt(s[k])
  {
    var from := Total(s[..k]);
    assert s == s[..k] + s[k..];
    Concat(s[..k], s[k..]);
    assert NonNegative(s[..k]) && NonNegative(s[k + 1..]);
    TotalNonNegative(s[..k]);
    TotalNonNegative(s[k + 1..]);
    assert s[k..][1..] == s[k + 1..];
    forall v: int
      ensures v in Values(s, k) <==> v in Interval(from, WeightAt(s[k]))
    {
      if 0 <= v < Total(s) {
        PickIff(s, v, k);
      }
    }
    assert Values(s, k) == Interval(from, WeightAt(s[k]));
    IntervalSize(from, WeightAt(s[k]));
  }

  // ---------- The slots of a tree ----------

  /** The number of places below a branch of a node at this level. */
  function Places(level: nat): (n: nat)
    ensures n > 0
  {
    if level == 0 then 1 else BRANCHES * Places(level - 1)
  }

  ghost function BranchSlots(n: Node, i: nat): Slots
    requires i < |n.items| && i < |n.weights|
    decreases n, 0
  {
    match n.items[i]
    case Empty => Frees(Places(n.level))
    case Leaf(item) => [Some(Entry(item, n.weights[i]))]
    case Sub(m) => if |m.items| == |m.weights| == BRANCHES then SlotsTo(m, BRANCHES) else []
  }

  /** The slots of the branches before i, in order. */
  ghost function SlotsTo(n: Node, i: nat): Slots
    requires i <= |n.items| && i <= |n.weights|
    decreases n, i + 1
  {
    if i == 0 then [] else SlotsTo(n, i - 1) + BranchSlots(n, i - 1)
  }

  ghost function SlotsOf(n: Node): Slots
    requires |n.items| == |n.weights| == BRANCHES
  {
    SlotsTo(n, BRANCHES)
  }

  /** Counters, sums and sizes of the node and of all nodes below it are right, and weights of items positive. */
  ghost predicate Wf(n: Node)
    decreases n, 1
  {
    && |n.items| == |n.weights| == BRANCHES
    && n.maxItems == BRANCHES * Places(n.level)
    && n.sumWeight == Total(SlotsOf(n))
    && n.itemCnt == Filled(SlotsOf(n))
    && forall i | 0 <= i < BRANCHES :: BranchOk(n, i)
  }

  ghost predicate BranchOk(n: Node, i: nat)
    requires |n.items| == |n.weights| == BRANCHES && i < BRANCHES
    decreases n, 0
  {
    match n.items[i]
    case Empty => n.weights[i] == 0
    case Leaf(_) => n.level == 0 && n.weights[i] > 0
    case Sub(m) => n.level == m.level + 1 && Wf(m) && n.weights[i] == m.sumWeight
  }

  lemma {:induction false} BranchFacts(n: Node, i: nat)
    requires Wf(n) && i < BRANCHES
    ensures |BranchSlots(n, i)| == Places(n.level) && Total(BranchSlots(n, i)) == n.weights[i]
    ensures forall k | 0 <= k < |BranchSlots(n, i)| && BranchSlots(n, i)[k].Some? ::
              BranchSlots(n, i)[k].value.weight > 0
    decreases n, 0
  {
    assert BranchOk(n, i);
    match n.items[i] {
      case Empty => FreesEmpty(Places(n.level));
      case Leaf(item) =>
      case Sub(m) => SlotsToFacts(m, BRANCHES);
    }
  }

  lemma OneMoreBranch(i: nat, places: nat, before: nat)
    requires i > 0 && before == (i - 1) * places
    ensures before + places == i * places
  {
  }

  lemma {:induction false} SlotsToFacts(n: Node, i: nat)
    requires Wf(n) && i <= BRANCHES
    ensures |SlotsTo(n, i)| == i * Places(n.level)
    ensures forall k | 0 <= k < |SlotsTo(n, i)| && SlotsTo(n, i)[k].Some? :: SlotsTo(n, i)[k].value.weight > 0
    decreases n, i + 1
  {
    if i > 0 {
      SlotsToFacts(n, i - 1);
      BranchFacts(n, i - 1);
      OneMoreBranch(i, Places(n.level), |SlotsTo(n, i - 1)|);
    }
  }

  /** The two nodes differ only in branch j and in their counters. */
  predicate SameBut(n: Node, n': Node, j: nat) {
    && |n.items| == |n.weights| == |n'.items| == |n'.weights| == BRANCHES
    && n'.level == n.level && n'.maxItems == n.maxItems && j < BRANCHES
    && forall i | 0 <= i < BRANCHES && i != j :: n'.items[i] == n.items[i] && n'.weights[i] == n.weights[i]
  }

  /** One slot changes in branch j, and so one slot changes in the node. */
  lemma {:induction false} ReplaceSlot(n: Node, n': Node, j: nat, k: nat, e: Option<Entry>, i: nat)
    requires SameBut(n, n', j) && i <= BRANCHES
    requires k < |BranchSlots(n, j)| && BranchSlots(n', j) == BranchSlots(n, j)[k := e]
    ensures i <= j ==> SlotsTo(n', i) == SlotsTo(n, i)
    ensures i > j ==>
              && |SlotsTo(n, j)| + k < |SlotsTo(n, i)| && SlotsTo(n, i)[|SlotsTo(n, j)| + k] == BranchSlots(n, j)[k]
              && SlotsTo(n', i) == SlotsTo(n, i)[|SlotsTo(n, j)| + k := e]
    decreases i
  {
    if i > 0 {
      ReplaceSlot(n, n', j, k, e, i - 1);
      if i - 1 != j {
        assert n'.items[i - 1] == n.items[i - 1];
        assert BranchSlots(n', i - 1) == BranchSlots(n, i - 1);
      }
    }
  }

  lemma ReplaceKeepsWf(n: Node, n': Node, j: nat, k: nat, e: Option<Entry>)
    requires Wf(n) && SameBut(n, n', j)
    requires k < |BranchSlots(n, j)| && BranchSlots(n', j) == BranchSlots(n, j)[k := e]
    requires BranchOk(n', j)
    requires n'.sumWeight == n.sumWeight - WeightAt(BranchSlots(n, j)[k]) + WeightAt(e)
    requires n'.itemCnt == n.itemCnt - (if BranchSlots(n, j)[k].Some? then 1 else 0) + (if e.Some? then 1 else 0)
    ensures var at := j * Places(n.level) + k;
            Wf(n') && at < |SlotsOf(n)| && SlotsOf(n)[at] == BranchSlots(n, j)[k] && SlotsOf(n') == SlotsOf(n)[at := e]
  {
    var at := |SlotsTo(n, j)| + k;
    SlotsToFacts(n, j);
    ReplaceSlot(n, n', j, k, e, BRANCHES);
    Update(SlotsOf(n), at, e);
    assert SlotsOf(n') == SlotsOf(n)[at := e];
    forall i | 0 <= i < BRANCHES
      ensures BranchOk(n', i)
    {
      assert BranchOk(n, i);
    }
  }

  lemma {:induction false} BranchInside(n: Node, j: nat, i: nat)
    requires |n.items| == |n.weights| == BRANCHES && j < i <= BRANCHES
    ensures SlotsTo(n, j) + BranchSlots(n, j) <= SlotsTo(n, i)
    decreases i
  {
    if i - 1 > j {
      BranchInside(n, j, i - 1);
    }
  }

  lemma {:induction false} FreshSlots(n: Node, i: nat)
    requires |n.items| == |n.weights| == BRANCHES && i <= BRANCHES
    requires forall b | 0 <= b < BRANCHES :: n.items[b] == Empty && n.weights[b] == 0
    ensures SlotsTo(n, i) == Frees(i * Places(n.level))
    decreases i
  {
    if i > 0 {
      FreshSlots(n, i - 1);
      assert n.items[i - 1] == Empty;
      assert i * Places(n.level) == (i - 1) * Places(n.level) + Places(n.level);
    }
  }

  /** A node without items. */
  function NewNode(level: nat): (n: Node)
    ensures Wf(n) && SlotsOf(n) == Frees(BRANCHES * Places(level)) && n.level == level
  {
    var n := Node(seq(BRANCHES, _ => Empty), seq(BRANCHES, _ => 0), 0, level, 0, BRANCHES * Places(level));
    assert Wf(n) && SlotsOf(n) == Frees(BRANCHES * Places(level)) by {
      FreshSlots(n, BRANCHES);
      FreesEmpty(BRANCHES * Places(level));
    }
    n
  }

  predicate IsFull(n: Node, i: nat)
    requires i < |n.items|
  {
    n.items[i] != Empty && (n.level == 0 || (n.items[i].Sub? && n.items[i].node.itemCnt == n.items[i].node.maxItems))
  }

  ghost predicate AllTaken(s: Slots) {
    forall k | 0 <= k < |s| :: s[k].Some?
  }

  lemma FullBranch(n: Node, i: nat)
    requires Wf(n) && i < BRANCHES && IsFull(n, i)
    ensures AllTaken(BranchSlots(n, i))
  {
    assert BranchOk(n, i);
    if n.items[i].Sub? {
      SlotsToFacts(n.items[i].node, BRANCHES);
      FilledBound(SlotsOf(n.items[i].node));
    }
  }

  /** A branch that is not full has a free slot. */
  lemma RoomBelow(n: Node, i: nat)
    requires Wf(n) && i < BRANCHES && n.items[i].Sub? && !IsFull(n, i)
    ensures n.items[i].node.itemCnt < n.items[i].node.maxItems
  {
    assert BranchOk(n, i);
    SlotsToFacts(n.items[i].node, BRANCHES);
    FilledBound(SlotsOf(n.items[i].node));
  }

  /** With room in the node, the search for a branch ends before the last one: insert does not panic. */
  lemma RoomSomewhere(n: Node, i: nat)
    requires Wf(n) && n.itemCnt < n.maxItems && i < BRANCHES && AllTaken(SlotsTo(n, i)) && IsFull(n, i)
    ensures i + 1 < BRANCHES && AllTaken(SlotsTo(n, i + 1))
  {
    FullBranch(n, i);
    SlotsToFacts(n, BRANCHES);
    FilledBound(SlotsOf(n));
  }

  /** The first branch that has room. */
  method FindBranch(n: Node) returns (branch: nat)
    requires Wf(n) && n.itemCnt < n.maxItems
    ensures branch < BRANCHES && !IsFull(n, branch) && AllTaken(SlotsTo(n, branch))
  {
    branch := 0;
    while n.items[branch] != Empty && (n.level == 0 || n.items[branch].node.itemCnt == n.items[branch].node.maxItems)
      invariant branch < BRANCHES && AllTaken(SlotsTo(n, branch)) && BranchOk(n, branch)
      decreases BRANCHES - branch
    {
      RoomSomewhere(n, branch);
      branch := branch + 1;
      assert branch != BRANCHES;
    }
  }

  /** A node after one slot of the child in branch j has changed. */
  function WithChild(n: Node, j: nat, child: Node, diff: int, more: int): Node
    requires j < |n.items| && j < |n.weights|
  {
    n.(itemCnt := n.itemCnt + more, sumWeight := n.sumWeight + diff,
       weights := n.weights[j := n.weights[j] + diff], items := n.items[j := Sub(child)])
  }

  lemma ChildChanged(n: Node, j: nat, child: Node, child': Node, k: nat, e: Option<Entry>)
    requires Wf(n) && j < BRANCHES && Wf(child) && Wf(child') && child.level == child'.level
    requires n.level == child.level + 1
    requires BranchSlots(n, j) == SlotsOf(child) && k < |SlotsOf(child)| && SlotsOf(child') == SlotsOf(child)[k := e]
    ensures var n' := WithChild(n, j, child', WeightAt(e) - WeightAt(SlotsOf(child)[k]),
                                (if e.Some? then 1 else 0) - (if SlotsOf(child)[k].Some? then 1 else 0));
            var at := j * Places(n.level) + k;
            Wf(n') && at < |SlotsOf(n)| && SlotsOf(n)[at] == SlotsOf(child)[k] && SlotsOf(n') == SlotsOf(n)[at := e]
  {
    var n' := WithChild(n, j, child', WeightAt(e) - WeightAt(SlotsOf(child)[k]),
                        (if e.Some? then 1 else 0) - (if SlotsOf(child)[k].Some? then 1 else 0));
    BranchFacts(n, j);
    Update(SlotsOf(child), k, e);
    ReplaceKeepsWf(n, n', j, k, e);
  }

  /** The slots before a free one in the first branch with room are all taken. */
  lemma FirstFree(n: Node, j: nat, k: nat)
    requires Wf(n) && j < BRANCHES && AllTaken(SlotsTo(n, j))
    requires k < |BranchSlots(n, j)| && forall i | 0 <= i < k :: BranchSlots(n, j)[i].Some?
    ensures |SlotsOf(n)| > j * Places(n.level) + k && forall i | 0 <= i < j * Places(n.level) + k :: SlotsOf(n)[i].Some?
  {
    SlotsToFacts(n, j);
    BranchInside(n, j, BRANCHES);
  }

  /** insert at the lowest level. */
  method InsertHere(n: Node, branch: nat, item: Item, weight: int) returns (n': Node)
    requires Wf(n) && n.level == 0 && branch < BRANCHES && n.items[branch] == Empty && weight > 0
    ensures Wf(n') && n'.level == 0 && branch < |SlotsOf(n)| && SlotsOf(n)[branch] == None
    ensures SlotsOf(n') == SlotsOf(n)[branch := Some(Entry(item, weight))]
  {
    assert BranchOk(n, branch);
    n' := n.(itemCnt := n.itemCnt + 1, sumWeight := n.sumWeight + weight,
             weights := n.weights[branch := n.weights[branch] + weight], items := n.items[branch := Leaf(item)]);
    ReplaceKeepsWf(n, n', branch, 0, Some(Entry(item, weight)));
  }

  /** The child of a branch with room, made if there is none. */
  method ChildWithRoom(n: Node, branch: nat) returns (subNode: Node)
    requires Wf(n) && n.level > 0 && branch < BRANCHES && !IsFull(n, branch)
    ensures Wf(subNode) && subNode.level == n.level - 1 && subNode.itemCnt < subNode.maxItems == Places(n.level)
    ensures SlotsOf(subNode) == BranchSlots(n, branch)
  {
    assert BranchOk(n, branch);
    if n.items[branch] == Empty {
      subNode := NewNode(n.level - 1);
      FreesEmpty(Places(n.level));
    } else {
      subNode := n.items[branch].node;
      RoomBelow(n, branch);
    }
  }

  /** wrsNode.insert: the item takes the first free slot, and its index is returned. */
  method InsertBelow(n: Node, item: Item, weight: int) returns (n': Node, idx: nat)
    requires Wf(n) && n.itemCnt < n.maxItems && weight > 0
    ensures Wf(n') && n'.level == n.level
    ensures idx < |SlotsOf(n)| && SlotsOf(n)[idx] == None && forall k | 0 <= k < idx :: SlotsOf(n)[k].Some?
    ensures SlotsOf(n') == SlotsOf(n)[idx := Some(Entry(item, weight))]
    decreases n.level
  {
    var branch := FindBranch(n);
    if n.level == 0 {
      n' := InsertHere(n, branch, item, weight);
      idx := branch;
      BranchFacts(n, branch);
      FirstFree(n, branch, 0);
    } else {
      var subNode := ChildWithRoom(n, branch);
      var subNode', subIdx := InsertBelow(subNode, item, weight);
      n' := WithChild(n, branch, subNode', weight, 1);
      idx := subNode.maxItems * branch + subIdx;
      assert idx == branch * Places(n.level) + subIdx;
      ChildChanged(n, branch, subNode, subNode', subIdx, Some(Entry(item, weight)));
      FirstFree(n, branch, subIdx);
    }
  }

  /** What setWeight leaves in a slot. */
  function Reweighted(s: Option<Entry>, weight: int): Option<Entry>
    requires s.Some?
  {
    if weight == 0 then None else Some(Entry(s.value.item, weight))
  }

  /** setWeight at the lowest level. */
  method SetWeightHere(n: Node, idx: nat, weight: int) returns (n': Node, diff: int)
    requires Wf(n) && n.level == 0 && idx < |SlotsOf(n)| && SlotsOf(n)[idx].Some? && weight >= 0
    ensures Wf(n') && n'.level == n.level && diff == weight - SlotsOf(n)[idx].value.weight
    ensures SlotsOf(n') == SlotsOf(n)[idx := Reweighted(SlotsOf(n)[idx], weight)]
  {
    SlotsToFacts(n, BRANCHES);
    SlotIn(n, idx, idx, 0);
    assert BranchOk(n, idx);
    var oldWeight := n.weights[idx];
    diff := weight - oldWeight;
    n' := n.(weights := n.weights[idx := weight], sumWeight := n.sumWeight + diff);
    if weight == 0 {
      n' := n'.(items := n'.items[idx := Empty], itemCnt := n'.itemCnt - 1);
    }
    ReplaceKeepsWf(n, n', idx, 0, Reweighted(SlotsOf(n)[idx], weight));
  }

  /** wrsNode.setWeight: the slot gets the new weight, or becomes free if this is zero. */
  method SetWeightBelow(n: Node, idx: nat, weight: int) returns (n': Node, diff: int)
    requires Wf(n) && idx < |SlotsOf(n)| && SlotsOf(n)[idx].Some? && weight >= 0
    ensures Wf(n') && n'.level == n.level && diff == weight - SlotsOf(n)[idx].value.weight
    ensures SlotsOf(n') == SlotsOf(n)[idx := Reweighted(SlotsOf(n)[idx], weight)]
    decreases n.level
  {
    if n.level == 0 {
      n', diff := SetWeightHere(n, idx, weight);
    } else {
      var branchItems := n.maxItems / BRANCHES;
      var branch := idx / branchItems;
      var k := idx - branch * branchItems;
      ChildOfSlot(n, idx, branch, k);
      var child := n.items[branch].node;
      var child';
      child', diff := SetWeightBelow(child, k, weight);
      n' := WithChild(n, branch, child', diff, if weight == 0 then -1 else 0);
      ChildChanged(n, branch, child, child', k, Reweighted(SlotsOf(n)[idx], weight));
    }
  }

  /** A taken slot is found in the child that setWeight goes down to. */
  lemma ChildOfSlot(n: Node, idx: nat, branch: int, k: int)
    requires Wf(n) && n.level > 0 && idx < |SlotsOf(n)| && SlotsOf(n)[idx].Some?
    requires branch == idx / Places(n.level) && k == idx - branch * Places(n.level)
    ensures 0 <= branch < BRANCHES && n.items[branch].Sub? && idx == branch * Places(n.level) + k
    ensures var child := n.items[branch].node;
            && Wf(child) && child.level == n.level - 1 && BranchSlots(n, branch) == SlotsOf(child)
            && 0 <= k < |SlotsOf(child)| && SlotsOf(child)[k] == SlotsOf(n)[idx]
  {
    SlotsToFacts(n, BRANCHES);
    SplitIndex(idx, Places(n.level));
    SlotIn(n, idx, branch, k);
    assert BranchOk(n, branch);
  }

  lemma SplitIndex(idx: nat, size: nat)
    requires size > 0
    ensures 0 <= idx - idx / size * size < size
    ensures idx < BRANCHES * size ==> idx / size < BRANCHES
  {
    assert idx == idx / size * size + idx % size;
    if idx / size >= BRANCHES {
      assert idx / size * size >= BRANCHES * size;
    }
  }

  /** The slot with index idx is slot k of branch j. */
  lemma SlotIn(n: Node, idx: nat, j: nat, k: nat)
    requires Wf(n) && j < BRANCHES && k < Places(n.level) && idx == j * Places(n.level) + k
    ensures k < |BranchSlots(n, j)| && idx < |SlotsOf(n)| && SlotsOf(n)[idx] == BranchSlots(n, j)[k]
  {
    SlotsToFacts(n, j);
    BranchFacts(n, j);
    BranchInside(n, j, BRANCHES);
  }

  lemma LeafSlot(n: Node, i: nat)
    requires Wf(n) && n.level == 0 && i < BRANCHES && n.weights[i] > 0
    ensures n.items[i].Leaf? && |SlotsTo(n, i)| == i
  {
    assert BranchOk(n, i);
    SlotsToFacts(n, i);
  }

  /** wrsNode.choose: finds the item whose interval of values holds val, and does not panic. */
  method ChooseBelow(n: Node, val: int) returns (item: Item, weight: int, ghost k: nat)
    requires Wf(n) && 0 <= val < n.sumWeight
    ensures k < |SlotsOf(n)| && SlotsOf(n)[k] == Some(Entry(item, weight))
    ensures Total(SlotsOf(n)[..k]) <= val < Total(SlotsOf(n)[..k]) + weight
    decreases n.level
  {
    item, weight, k := 0, 0, 0;
    var v := val;
    var i := 0;
    while i < BRANCHES
      invariant i <= BRANCHES && 0 <= v && v == val - Total(SlotsTo(n, i))
    {
      var w := n.weights[i];
      BranchFacts(n, i);
      if v < w {
        assert BranchOk(n, i);
        if n.level == 0 {
          LeafSlot(n, i);
          item, weight, k := n.items[i].item, n.weights[i], i;
          ChosenInside(n, i, 0);
        } else {
          ghost var j;
          item, weight, j := ChooseBelow(n.items[i].node, v);
          k := |SlotsTo(n, i)| + j;
          ChosenInside(n, i, j);
        }
        return;
      }
      v := v - w;
      Concat(SlotsTo(n, i), BranchSlots(n, i));
      i := i + 1;
    }
    assert false;
  }

  /** A slot chosen in a branch by what is left of the value is chosen in the node. */
  lemma ChosenInside(n: Node, i: nat, j: nat)
    requires |n.items| == |n.weights| == BRANCHES && i < BRANCHES && j < |BranchSlots(n, i)|
    ensures var k := |SlotsTo(n, i)| + j;
            && k < |SlotsOf(n)| && SlotsOf(n)[k] == BranchSlots(n, i)[j]
            && Total(SlotsOf(n)[..k]) == Total(SlotsTo(n, i)) + Total(BranchSlots(n, i)[..j])
  {
    BranchInside(n, i, BRANCHES);
    var k := |SlotsTo(n, i)| + j;
    assert SlotsOf(n)[..k] == SlotsTo(n, i) + BranchSlots(n, i)[..j];
    Concat(SlotsTo(n, i), BranchSlots(n, i)[..j]);
  }

  // ---------- A new level ----------

  /** The root above a full one: it starts with the old root in its first branch. */
  function Raised(n: Node): Node {
    var r := NewNode(n.level + 1);
    r.(items := r.items[0 := Sub(n)], weights := r.weights[0 := n.sumWeight], sumWeight := n.sumWeight,
       itemCnt := n.itemCnt)
  }

  lemma {:induction false} RaisedSlots(n: Node, i: nat)
    requires Wf(n) && 0 < i <= BRANCHES
    ensures SlotsTo(Raised(n), i) == SlotsOf(n) + Frees((i - 1) * Places(n.level + 1))
    decreases i
  {
    var r := Raised(n);
    if i == 1 {
      assert SlotsTo(r, 1) == [] + BranchSlots(r, 0);
    } else {
      RaisedSlots(n, i - 1);
      assert r.items[i - 1] == Empty;
      assert (i - 1) * Places(n.level + 1) == (i - 2) * Places(n.level + 1) + Places(n.level + 1);
    }
  }

  /** Indices stay valid when a level is added: the slots are those from before and free ones after them. */
  lemma RaisedKeepsSlots(n: Node)
    requires Wf(n)
    ensures Wf(Raised(n)) && SlotsOf(n) <= SlotsOf(Raised(n)) && |SlotsOf(n)| < |SlotsOf(Raised(n))|
    ensures forall k | |SlotsOf(n)| <= k < |SlotsOf(Raised(n))| :: SlotsOf(Raised(n))[k] == None
    ensures Raised(n).itemCnt < Raised(n).maxItems
  {
    var r := Raised(n);
    var more := (BRANCHES - 1) * Places(n.level + 1);
    RaisedSlots(n, BRANCHES);
    FreesEmpty(more);
    Concat(SlotsOf(n), Frees(more));
    SlotsToFacts(n, BRANCHES);
    FilledBound(SlotsOf(n));
    forall i | 0 <= i < BRANCHES
      ensures BranchOk(r, i)
    {
    }
  }

  // ---------- The selector ----------

  /** The index says of each item where it is, and of nothing else. */
  ghost predicate IsIndex(s: Slots, idx: map<Item, nat>) {
    && (forall item {:trigger idx[item]} | item in idx :: idx[item] < |s| && Holds(s, idx[item], item))
    && (forall k {:trigger s[k]} | 0 <= k < |s| && s[k].Some? :: s[k].value.item in idx && idx[s[k].value.item] == k)
  }

  predicate Holds(s: Slots, k: nat, item: Item)
    requires k < |s|
  {
    s[k].Some? && s[k].value.item == item
  }

  ghost function WeightsOf(s: Slots, idx: map<Item, nat>): map<Item, int>
    requires IsIndex(s, idx)
  {
    map item | item in idx :: s[idx[item]].value.weight
  }

  lemma IndexAdd(s: Slots, idx: map<Item, nat>, k: nat, item: Item, weight: int)
    requires IsIndex(s, idx) && k < |s| && s[k] == None && item !in idx
    ensures IsIndex(s[k := Some(Entry(item, weight))], idx[item := k])
    ensures WeightsOf(s[k := Some(Entry(item, weight))], idx[item := k]) == WeightsOf(s, idx)[item := weight]
  {
  }

  lemma IndexRemove(s: Slots, idx: map<Item, nat>, item: Item)
    requires IsIndex(s, idx) && item in idx
    ensures IsIndex(s[idx[item] := None], idx - {item})
    ensures WeightsOf(s[idx[item] := None], idx - {item}) == WeightsOf(s, idx) - {item}
  {
    var s', idx' := s[idx[item] := None], idx - {item};
    forall other | other in idx'
      ensures idx'[other] < |s'| && Holds(s', idx'[other], other) && s'[idx'[other]] == s[idx[other]]
    {
      assert Holds(s, idx[other], other) && Holds(s, idx[item], item);
    }
  }

  lemma IndexReweigh(s: Slots, idx: map<Item, nat>, item: Item, weight: int)
    requires IsIndex(s, idx) && item in idx
    ensures IsIndex(s[idx[item] := Some(Entry(item, weight))], idx)
    ensures WeightsOf(s[idx[item] := Some(Entry(item, weight))], idx) == WeightsOf(s, idx)[item := weight]
  {
    var s' := s[idx[item] := Some(Entry(item, weight))];
    forall other | other in idx
      ensures Holds(s', idx[other], other) && (other != item ==> s'[idx[other]] == s[idx[other]])
    {
      assert Holds(s, idx[other], other) && Holds(s, idx[item], item);
    }
  }

  lemma IndexExtend(s: Slots, s': Slots, idx: map<Item, nat>)
    requires IsIndex(s, idx) && s <= s' && forall k | |s| <= k < |s'| :: s'[k] == None
    ensures IsIndex(s', idx) && WeightsOf(s', idx) == WeightsOf(s, idx)
  {
  }

  /** An item whose weight has gone down is taken for as many of the random values as its new weight says. */
  predicate Accepts(weight: nat, lastWeight: nat, r: int) {
    weight >= lastWeight || r < weight
  }

  lemma AcceptanceChance(weight: nat, lastWeight: nat)
    ensures |set r: int | 0 <= r < lastWeight && Accepts(weight, lastWeight, r)|
              == if weight < lastWeight then weight else lastWeight
  {
    var accepted := set r: int | 0 <= r < lastWeight && Accepts(weight, lastWeight, r);
    var n := if weight < lastWeight then weight else lastWeight;
    forall r: int
      ensures r in accepted <==> r in Interval(0, n)
    {
      assert Within(r, 0, n) <==> 0 <= r < n;
    }
    assert accepted == Interval(0, n);
    IntervalSize(0, n);
  }

  /** Items have kept their weight or taken on the current one, and those whose current weight is zero may be gone. */
  ghost predicate Follows(before: map<Item, int>, now: map<Item, int>, current: Item -> nat) {
    && (forall item {:trigger now[item]} | item in now ::
        item in before && (now[item] == before[item] || now[item] == current(item)))
    && (forall item {:trigger before[item]} | item in before && item !in now :: current(item) == 0)
  }

  lemma FollowsOne(before: map<Item, int>, now: map<Item, int>, current: Item -> nat, item: Item)
    requires Follows(before, now, current) && item in now
    ensures Follows(before, if current(item) == 0 then now - {item} else now[item := current(item)], current)
  {
  }

  class WeightedRandomSelect {
    var root: Node
    var idx: map<Item, nat>

    ghost predicate Valid()
      reads this
    {
      Wf(root) && IsIndex(SlotsOf(root), idx)
    }

    ghost function Weights(): map<Item, int>
      requires Valid()
      reads this
    {
      WeightsOf(SlotsOf(root), idx)
    }

    constructor ()
      ensures Valid() && Weights() == map[]
    {
      root, idx := NewNode(0), map[];
    }

    /** The new item goes into the tree, with a new level if it is full. */
    method Add(item: Item, weight: int)
      requires Valid() && item !in idx && weight > 0
      modifies this
      ensures Valid() && Weights() == old(Weights())[item := weight] && root.sumWeight == old(root.sumWeight) + weight
      ensures forall other | other in old(idx) :: other in idx && idx[other] == old(idx)[other]
    {
      SlotsToFacts(root, BRANCHES);
      FilledBound(SlotsOf(root));
      if root.itemCnt == root.maxItems {
        RaisedKeepsSlots(root);
        IndexExtend(SlotsOf(root), SlotsOf(Raised(root)), idx);
        root := Raised(root);
      }
      var root', k := InsertBelow(root, item, weight);
      IndexAdd(SlotsOf(root), idx, k, item, weight);
      Update(SlotsOf(root), k, Some(Entry(item, weight)));
      root, idx := root', idx[item := k];
    }

    /** setWeight: the set maps the item to its weight, or does not have it if this is zero. */
    method SetWeight(item: Item, weight: int)
      requires Valid() && weight >= 0
      modifies this
      ensures Valid() && Weights() == if weight == 0 then old(Weights()) - {item} else old(Weights())[item := weight]
      ensures root.sumWeight
                == old(root.sumWeight) + weight - (if item in old(Weights()) then old(Weights())[item] else 0)
    {
      if item in idx {
        if weight == 0 {
          IndexRemove(SlotsOf(root), idx, item);
        } else {
          IndexReweigh(SlotsOf(root), idx, item, weight);
        }
        Update(SlotsOf(root), idx[item], Reweighted(SlotsOf(root)[idx[item]], weight));
        var diff;
        root, diff := SetWeightBelow(root, idx[item], weight);
        if weight == 0 {
          idx := idx - {item};
        }
      } else if weight != 0 {
        Add(item, weight);
      }
    }

    /** The item that a random value stands for. */
    method ChooseFor(val: int) returns (item: Item, weight: int)
      requires Valid() && 0 <= val < root.sumWeight
      ensures item in idx && weight == Weights()[item] && weight > 0
      ensures NonNegative(SlotsOf(root)) && val in Values(SlotsOf(root), idx[item])
    {
      ghost var k;
      item, weight, k := ChooseBelow(root, val);
      SlotsToFacts(root, BRANCHES);
      assert NonNegative(SlotsOf(root));
      PickIff(SlotsOf(root), val, k);
    }

    /** As many values stand for an item as its weight says. */
    lemma Chances(item: Item)
      requires Valid() && item in idx
      ensures NonNegative(SlotsOf(root)) && |Values(SlotsOf(root), idx[item])| == Weights()[item]
    {
      SlotsToFacts(root, BRANCHES);
      ChancesAreWeights(SlotsOf(root), idx[item]);
    }

    /**
      choose, with the weights that the items report now. An item whose weight has gone down is returned only
      with a chance, and otherwise another is tried; every such round lowers the sum, so this ends.
     */
    method Choose(current: Item -> nat) returns (choice: Option<Item>)
      requires Valid()
      modifies this
      ensures Valid()
      ensures choice == None ==> root.sumWeight == 0
      ensures choice.Some? ==> choice.value in Weights() && Weights()[choice.value] == current(choice.value) > 0
      ensures Follows(old(Weights()), Weights(), current)
    {
      ghost var before := Weights();
      while true
        invariant Valid() && Follows(before, Weights(), current)
        decreases root.sumWeight
      {
        if root.sumWeight == 0 {
          return None;
        }
        SumNotNegative();
        var val :| 0 <= val < root.sumWeight;
        var item, lastWeight := ChooseFor(val);
        var weight := current(item);
        FollowsOne(before, Weights(), current, item);
        if weight != lastWeight {
          SetWeight(item, weight);
        }
        var r :| 0 <= r < lastWeight;
        if Accepts(weight, lastWeight, r) {
          return Some(item);
        }
        SumNotNegative();
      }
    }

    lemma SumPositive(item: Item)
      requires Valid() && item in idx && Weights()[item] > 0
      ensures root.sumWeight > 0
    {
      Chances(item);
      var values := Values(SlotsOf(root), idx[item]);
      assert values != {};
      var v :| v in values;
    }

    lemma SumNotNegative()
      requires Valid()
      ensures root.sumWeight >= 0
    {
      SlotsToFacts(root, BRANCHES);
      TotalNonNegative(SlotsOf(root));
    }
  }
}
