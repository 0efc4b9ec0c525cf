/** One tree of the pooled BMT hasher, used again and again. */
module BmtUses {
  import opened BmtReference
  import opened BmtProtocol
  import opened BmtHasher
  import opened BmtOverflow

  /** After so many uses of a new tree. */
  ghost predicate Used(nodes: map<NodeId, Node>, uses: nat) {
    forall n | n in nodes :: 0 <= nodes[n].state <= 2 * uses && nodes[n].state % 2 == 0
  }

  lemma UsedOnceMore(nodes: map<NodeId, Node>, nodes': map<NodeId, Node>, uses: nat, m: nat)
    requires Used(nodes, uses) && uses + 1 < 0x4000_0000 && nodes'.Keys == nodes.Keys
    requires forall n | n in nodes' :: nodes'[n].state == Advance(nodes[n].state, Uses(m, n))
    ensures Used(nodes', uses + 1) && CountersOk(nodes')
  {
    forall n | n in nodes'
      ensures 0 <= nodes'[n].state <= 2 * (uses + 1) && nodes'[n].state % 2 == 0
    {
      var x := nodes[n].state;
      CounterStaysGoodIff(x);
      assert Advance(x, 0) == x && Advance(x, 1) == x + 1 && Advance(x, 2) == x + 2;
    }
  }

  /** A hasher after so many uses. */
  ghost predicate Ready(hasher: Hasher, hash: BaseHash, size: nat, count: nat, uses: nat)
    reads hasher
  {
    && hasher.hash == hash && hasher.size == size && hasher.count == count
    && (uses < 0x4000_0000 ==> hasher.Valid() && hasher.data == [] && Used(hasher.base, uses))
  }

  ghost predicate AreHashes(results: seq<Bytes>, datas: seq<Bytes>, hash: BaseHash, size: nat, rh: RefHasher)
    requires size > 0 && rh.span > 0
  {
    |results| <= |datas| && forall k | 0 <= k < |results| :: results[k] == RefHashOf(hash, size, rh, datas[k])
  }

  method Begin(hash: BaseHash, size: nat, count: nat) returns (hasher: Hasher)
    requires size > 0 && count > 0
    ensures fresh(hasher) && Ready(hasher, hash, size, count, 0)
  {
    hasher := new Hasher(hash, size, count);
  }

  method UseAgain(hasher: Hasher, rh: RefHasher, ghost g: nat, b: Bytes, ghost uses: nat) returns (r: Bytes)
    requires Ready(hasher, hasher.hash, hasher.size, hasher.count, uses) && uses < 0x4000_0000
    requires IsReference(rh, g, hasher.size, hasher.count)
    modifies hasher
    ensures r == RefHashOf(hasher.hash, hasher.size, rh, b)
    ensures Ready(hasher, hasher.hash, hasher.size, hasher.count, uses + 1)
  {
    ghost var base := hasher.base;
    ghost var m;
    r, m := UseOnce(hasher, rh, g, b);
    if uses + 1 < 0x4000_0000 {
      UsedOnceMore(base, hasher.nodes, uses, m);
    }
  }

  /** Up to 2^30 uses of a tree each give the reference hash of their data. */
  method HashOften(hash: BaseHash, size: nat, count: nat, datas: seq<Bytes>)
      returns (results: seq<Bytes>, rh: RefHasher)
    requires size > 0 && count > 0 && |datas| <= 0x4000_0000
    ensures rh.span > 0 && rh.cap == count * size && |results| == |datas|
    ensures AreHashes(results, datas, hash, size, rh)
  {
    ghost var g;
    rh, g := NewRefHasher(size, count);
    assert IsReference(rh, g, size, count);
    var hasher := Begin(hash, size, count);
    results := [];
    for i := 0 to |datas|
      invariant fresh(hasher) && Ready(hasher, hash, size, count, i)
      invariant |results| == i && AreHashes(results, datas, hash, size, rh)
    {
      var r := UseAgain(hasher, rh, g, datas[i], i);
      results := results + [r];
    }
  }
}
